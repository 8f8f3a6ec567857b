/**
 * The filesystem as the scanner sees it: a tree of files and directories
 * with a fixed listing order, and the list of marker file paths that
 * scanDirForMatchingFiles collects from a directory.
 */
module FileSystem {
  import opened Names
  import opened Archives

  /** A file (read as an archive when its path asks for it) or a directory with its listing. */
  datatype Node =
    | File(name: string, archive: Archive)
    | Directory(name: string, children: seq<Node>)

  /** The node found at each path that exists; a path that is absent names nothing. */
  type Fs = map<string, Node>

  /**
   * What scanDirForMatchingFiles appends for the node at path: nothing for a
   * non-directory; for a directory, first its marker-named children in listing
   * order, then what each child directory yields, in listing order.
   */
  function DirMatches(path: string, node: Node): seq<string>
    decreases node, 1
  {
    match node
    case File(_, _) => []
    case Directory(_, children) => MarkerChildren(path, children, 0) + SubdirMatches(path, node, 0)
  }

  /** listFiles(PACKAGE_INFO_FILTER) from the i-th child on: the paths of the marker-named children. */
  function MarkerChildren(path: string, children: seq<Node>, i: nat): seq<string>
    requires i <= |children|
    decreases |children| - i
  {
    if i == |children| then []
    else
      var c := children[i];
      (if IsMarkerName(c.name) then [Child(path, c.name)] else []) + MarkerChildren(path, children, i + 1)
  }

  /** The recursion into the child directories of node from the i-th child on. */
  function SubdirMatches(path: string, node: Node, i: nat): seq<string>
    requires node.Directory? && i <= |node.children|
    decreases node, 0, |node.children| - i
  {
    if i == |node.children| then []
    else
      var c := node.children[i];
      (if c.Directory? then DirMatches(Child(path, c.name), c) else []) + SubdirMatches(path, node, i + 1)
  }

  /** A directory's matches: its own marker children first, then its subdirectories'. */
  lemma DirMatchesSplit(path: string, node: Node)
    requires node.Directory?
    ensures DirMatches(path, node) == MarkerChildren(path, node.children, 0) + SubdirMatches(path, node, 0)
  {
  }

  /** One step of the walk over the children: the i-th child's matches, then the rest. */
  lemma SubdirMatchesStep(path: string, node: Node, i: nat)
    requires node.Directory? && i < |node.children|
    ensures SubdirMatches(path, node, i) ==
      (if node.children[i].Directory? then DirMatches(Child(path, node.children[i].name), node.children[i]) else [])
      + SubdirMatches(path, node, i + 1)
  {
  }

  lemma SubdirMatchesEnd(path: string, node: Node)
    requires node.Directory?
    ensures SubdirMatches(path, node, |node.children|) == []
  {
  }

  /**
   * Every path the walk collects lies strictly below the starting path and
   * ends in "package-info.class", so the second pass can cut a class name out
   * of it.
   */
  lemma {:induction false} DirMatchesUnder(path: string, node: Node)
    ensures forall k :: 0 <= k < |DirMatches(path, node)| ==> MarkerPathUnder(path, DirMatches(path, node)[k])
    decreases node, 1
  {
    if node.Directory? {
      MarkerChildrenUnder(path, node.children, 0);
      SubdirMatchesUnder(path, node, 0);
    }
  }

  lemma {:induction false} MarkerChildrenUnder(path: string, children: seq<Node>, i: nat)
    requires i <= |children|
    ensures forall k :: 0 <= k < |MarkerChildren(path, children, i)| ==> MarkerPathUnder(path, MarkerChildren(path, children, i)[k])
    decreases |children| - i
  {
    if i < |children| {
      MarkerChildrenUnder(path, children, i + 1);
      var c := children[i];
      if IsMarkerName(c.name) {
        var x := Child(path, c.name);
        assert x[..|path| + 1] == path + [FILE_SEPARATOR];
        assert x[|x| - |PACKAGE_INFO_CLASS|..] == c.name[|c.name| - |PACKAGE_INFO_CLASS|..];
      }
    }
  }

  lemma {:induction false} SubdirMatchesUnder(path: string, node: Node, i: nat)
    requires node.Directory? && i <= |node.children|
    ensures forall k :: 0 <= k < |SubdirMatches(path, node, i)| ==> MarkerPathUnder(path, SubdirMatches(path, node, i)[k])
    decreases node, 0, |node.children| - i
  {
    if i < |node.children| {
      SubdirMatchesUnder(path, node, i + 1);
      var c := node.children[i];
      if c.Directory? {
        var below := DirMatches(Child(path, c.name), c);
        DirMatchesUnder(Child(path, c.name), c);
        forall k | 0 <= k < |below| ensures MarkerPathUnder(path, below[k]) {
          UnderChildIsUnder(path, c.name, below[k]);
        }
      }
    }
  }

  /** A marker path below a child directory is a marker path below its parent. */
  lemma UnderChildIsUnder(path: string, name: string, x: string)
    requires MarkerPathUnder(Child(path, name), x)
    ensures MarkerPathUnder(path, x)
  {
    var cp := Child(path, name);
    assert x[..|path| + 1] == x[..|cp| + 1][..|path| + 1];
    assert cp[..|path| + 1] == path + [FILE_SEPARATOR];
  }

  /**
   * The independent description of a walk: x is the path of node m, a strict
   * descendant of the node at path.
   */
  ghost predicate Below(path: string, node: Node, x: string, m: Node)
    decreases node, 0
  {
    node.Directory? && exists i :: 0 <= i < |node.children| && AtOrBelow(path, node.children[i], x, m)
  }

  /** x is the path of m, and m is the child c of the directory at parent or a descendant of c. */
  ghost predicate AtOrBelow(parent: string, c: Node, x: string, m: Node)
    decreases c, 1
  {
    (x == Child(parent, c.name) && m == c) || Below(Child(parent, c.name), c, x, m)
  }

  /** Some strict descendant of the node at path, with a name ending in "package-info.class", sits at x. */
  ghost predicate MarkerBelow(path: string, node: Node, x: string)
  {
    exists m :: Below(path, node, x, m) && IsMarkerName(m.name)
  }

  /**
   * The walk collects exactly the paths of the descendants whose names end
   * in "package-info.class", directories with such names included.
   */
  lemma {:induction false} DirMatchesExact(path: string, node: Node, x: string)
    ensures x in DirMatches(path, node) <==> MarkerBelow(path, node, x)
    decreases node, 1
  {
    if node.Directory? {
      var cs := node.children;
      MarkerChildrenMember(path, cs, 0, x);
      SubdirMatchesMember(path, node, 0, x);
      assert DirMatches(path, node) == MarkerChildren(path, cs, 0) + SubdirMatches(path, node, 0);
      if x in MarkerChildren(path, cs, 0) {
        var j :| 0 <= j < |cs| && IsMarkerName(cs[j].name) && x == Child(path, cs[j].name);
        assert AtOrBelow(path, cs[j], x, cs[j]);
      } else if x in SubdirMatches(path, node, 0) {
        var j :| 0 <= j < |cs| && MarkerBelow(Child(path, cs[j].name), cs[j], x);
        var m :| Below(Child(path, cs[j].name), cs[j], x, m) && IsMarkerName(m.name);
        assert AtOrBelow(path, cs[j], x, m);
      }
      if MarkerBelow(path, node, x) {
        var m :| Below(path, node, x, m) && IsMarkerName(m.name);
        var j :| 0 <= j < |cs| && AtOrBelow(path, cs[j], x, m);
        if x == Child(path, cs[j].name) && m == cs[j] {
          assert x in MarkerChildren(path, cs, 0);
        } else {
          assert MarkerBelow(Child(path, cs[j].name), cs[j], x);
          assert x in SubdirMatches(path, node, 0);
        }
      }
    }
  }

  lemma {:induction false} MarkerChildrenMember(path: string, children: seq<Node>, i: nat, x: string)
    requires i <= |children|
    ensures x in MarkerChildren(path, children, i) <==>
      exists j :: i <= j < |children| && IsMarkerName(children[j].name) && x == Child(path, children[j].name)
    decreases |children| - i
  {
    if i < |children| {
      MarkerChildrenMember(path, children, i + 1, x);
      var c := children[i];
      var here := if IsMarkerName(c.name) then [Child(path, c.name)] else [];
      assert MarkerChildren(path, children, i) == here + MarkerChildren(path, children, i + 1);
      if x in here {
        assert i <= i < |children| && IsMarkerName(children[i].name) && x == Child(path, children[i].name);
      }
      if exists j :: i <= j < |children| && IsMarkerName(children[j].name) && x == Child(path, children[j].name) {
        var j :| i <= j < |children| && IsMarkerName(children[j].name) && x == Child(path, children[j].name);
        if j == i {
          assert x in here;
        } else {
          assert x in MarkerChildren(path, children, i + 1);
        }
      }
    }
  }

  lemma {:induction false} SubdirMatchesMember(path: string, node: Node, i: nat, x: string)
    requires node.Directory? && i <= |node.children|
    ensures x in SubdirMatches(path, node, i) <==>
      exists j :: i <= j < |node.children| && MarkerBelow(Child(path, node.children[j].name), node.children[j], x)
    decreases node, 0, |node.children| - i
  {
    var cs := node.children;
    if i < |cs| {
      SubdirMatchesMember(path, node, i + 1, x);
      var c := cs[i];
      DirMatchesExact(Child(path, c.name), c, x);
      var here := if c.Directory? then DirMatches(Child(path, c.name), c) else [];
      assert SubdirMatches(path, node, i) == here + SubdirMatches(path, node, i + 1);
      if x in here {
        assert i <= i < |cs| && MarkerBelow(Child(path, cs[i].name), cs[i], x);
      }
      if exists j :: i <= j < |cs| && MarkerBelow(Child(path, cs[j].name), cs[j], x) {
        var j :| i <= j < |cs| && MarkerBelow(Child(path, cs[j].name), cs[j], x);
        if j == i {
          assert c.Directory?;
          assert x in here;
        } else {
          assert x in SubdirMatches(path, node, i + 1);
        }
      }
    }
  }

  /** x lies inside the directory at dir: it starts with dir followed by the file separator. */
  predicate Within(dir: string, x: string)
  {
    |dir| + 1 <= |x| && x[..|dir| + 1] == dir + [FILE_SEPARATOR]
  }

  /**
   * Every path collected from the i-th child on lies inside one of those
   * children that is a directory.
   */
  lemma {:induction false} SubdirMatchesWithin(path: string, node: Node, i: nat, x: string)
    requires node.Directory? && i <= |node.children|
    requires x in SubdirMatches(path, node, i)
    ensures exists j :: i <= j < |node.children| && node.children[j].Directory? && Within(Child(path, node.children[j].name), x)
    decreases |node.children| - i
  {
    assert i < |node.children|;
    var c := node.children[i];
    var here := if c.Directory? then DirMatches(Child(path, c.name), c) else [];
    assert SubdirMatches(path, node, i) == here + SubdirMatches(path, node, i + 1);
    if x in here {
      DirMatchesUnder(Child(path, c.name), c);
      var k :| 0 <= k < |here| && here[k] == x;
      assert i <= i < |node.children| && node.children[i].Directory? && Within(Child(path, node.children[i].name), x);
    } else {
      SubdirMatchesWithin(path, node, i + 1, x);
    }
  }

  /** x is the path of a child of the directory at path whose name passes the marker filter. */
  ghost predicate MarkerChildPath(path: string, children: seq<Node>, x: string)
  {
    exists j :: 0 <= j < |children| && IsMarkerName(children[j].name) && x == Child(path, children[j].name)
  }

  /** x lies inside a child directory of the directory at path. */
  ghost predicate InsideChildDirectory(path: string, children: seq<Node>, x: string)
  {
    exists j :: 0 <= j < |children| && children[j].Directory? && Within(Child(path, children[j].name), x)
  }

  /**
   * The walk is pre-order: the collected list starts with one path per
   * marker-named child of the directory, each that child's own path, and
   * every path after them lies inside one of its child directories.
   */
  lemma DirMatchesPreOrder(path: string, node: Node)
    requires node.Directory?
    ensures |MarkerChildren(path, node.children, 0)| <= |DirMatches(path, node)|
    ensures forall k :: 0 <= k < |MarkerChildren(path, node.children, 0)| ==>
      MarkerChildPath(path, node.children, DirMatches(path, node)[k])
    ensures forall k :: |MarkerChildren(path, node.children, 0)| <= k < |DirMatches(path, node)| ==>
      InsideChildDirectory(path, node.children, DirMatches(path, node)[k])
  {
    var mc := MarkerChildren(path, node.children, 0);
    var sub := SubdirMatches(path, node, 0);
    assert DirMatches(path, node) == mc + sub;
    forall k | 0 <= k < |mc|
      ensures MarkerChildPath(path, node.children, DirMatches(path, node)[k])
    {
      assert DirMatches(path, node)[k] == mc[k] && mc[k] in mc;
      MarkerChildrenMember(path, node.children, 0, mc[k]);
    }
    forall k | |mc| <= k < |DirMatches(path, node)|
      ensures InsideChildDirectory(path, node.children, DirMatches(path, node)[k])
    {
      assert DirMatches(path, node)[k] == sub[k - |mc|] && sub[k - |mc|] in sub;
      SubdirMatchesWithin(path, node, 0, sub[k - |mc|]);
    }
  }

  /**
   * Sibling names are distinct and hold no file separator, all the way down,
   * as in a real directory listing: then every node has a path of its own.
   */
  predicate WellNamed(node: Node)
    decreases node
  {
    node.Directory? ==>
      (forall i :: 0 <= i < |node.children| ==> FILE_SEPARATOR !in node.children[i].name && WellNamed(node.children[i])) &&
      (forall i, j :: 0 <= i < |node.children| && 0 <= j < |node.children| && i != j ==>
        node.children[i].name != node.children[j].name)
  }

  predicate NoDuplicates(s: seq<string>)
  {
    forall i, j :: 0 <= i < j < |s| ==> s[i] != s[j]
  }

  lemma NoDuplicatesAppend(a: seq<string>, b: seq<string>)
    requires NoDuplicates(a) && NoDuplicates(b)
    requires forall x :: x in a ==> x !in b
    ensures NoDuplicates(a + b)
  {
    var s := a + b;
    forall i, j | 0 <= i < j < |s|
      ensures s[i] != s[j]
    {
      if j < |a| {
        assert s[i] == a[i] && s[j] == a[j];
      } else if i >= |a| {
        assert s[i] == b[i - |a|] && s[j] == b[j - |a|];
      } else {
        assert s[i] == a[i] && a[i] in a;
        assert s[j] == b[j - |a|] && b[j - |a|] in b;
      }
    }
  }

  /** The path of a child, or of anything inside it, spells the child's name right after the parent and its separator. */
  lemma SegmentAt(path: string, a: string, x: string)
    requires x == Child(path, a) || Within(Child(path, a), x)
    ensures |path| + 1 + |a| <= |x|
    ensures x[|path| + 1..|path| + 1 + |a|] == a
    ensures |x| == |path| + 1 + |a| || x[|path| + 1 + |a|] == FILE_SEPARATOR
  {
    var c := Child(path, a);
    if x != c {
      assert x[..|c| + 1] == c + [FILE_SEPARATOR];
      assert x[|path| + 1..|c|] == x[..|c| + 1][|path| + 1..|c|];
      assert x[|c|] == x[..|c| + 1][|c|];
    }
  }

  /** Paths at or inside two siblings with different separator-free names differ. */
  lemma NamesSeparate(path: string, a: string, b: string, x: string, y: string)
    requires a != b && FILE_SEPARATOR !in a && FILE_SEPARATOR !in b
    requires x == Child(path, a) || Within(Child(path, a), x)
    requires y == Child(path, b) || Within(Child(path, b), y)
    ensures x != y
  {
    var p := |path| + 1;
    SegmentAt(path, a, x);
    SegmentAt(path, b, y);
    if |a| == |b| {
      assert x[p..p + |a|] != y[p..p + |a|];
    } else if |a| < |b| {
      ShorterName(path, a, b, x, y);
    } else {
      ShorterName(path, b, a, y, x);
    }
  }

  lemma ShorterName(path: string, a: string, b: string, x: string, y: string)
    requires |a| < |b| && FILE_SEPARATOR !in b
    requires |path| + 1 + |a| <= |x| && x[|path| + 1..|path| + 1 + |a|] == a
    requires |x| == |path| + 1 + |a| || x[|path| + 1 + |a|] == FILE_SEPARATOR
    requires |path| + 1 + |b| <= |y| && y[|path| + 1..|path| + 1 + |b|] == b
    ensures x != y
  {
    var p := |path| + 1;
    assert y[p..p + |a|] == b[..|a|];
    if b[..|a|] == a {
      assert b[|a|] in b;
      assert y[p + |a|] == b[|a|];
    }
  }

  lemma {:induction false} MarkerChildrenDistinct(path: string, children: seq<Node>, i: nat)
    requires i <= |children|
    requires forall j, k :: 0 <= j < |children| && 0 <= k < |children| && j != k ==> children[j].name != children[k].name
    ensures NoDuplicates(MarkerChildren(path, children, i))
    decreases |children| - i
  {
    if i < |children| {
      MarkerChildrenDistinct(path, children, i + 1);
      var c := children[i];
      var tail := MarkerChildren(path, children, i + 1);
      if IsMarkerName(c.name) {
        var x := Child(path, c.name);
        MarkerChildrenMember(path, children, i + 1, x);
        forall j | i + 1 <= j < |children|
          ensures x != Child(path, children[j].name)
        {
          assert Child(path, c.name)[|path| + 1..] == c.name;
          assert Child(path, children[j].name)[|path| + 1..] == children[j].name;
        }
        NoDuplicatesAppend([x], tail);
      }
    }
  }

  /** Under well-formed names no path is collected twice: each marker file is listed once. */
  lemma {:induction false} DirMatchesDistinct(path: string, node: Node)
    requires WellNamed(node)
    ensures NoDuplicates(DirMatches(path, node))
    decreases node, 1
  {
    if node.Directory? {
      var cs := node.children;
      var mc := MarkerChildren(path, cs, 0);
      var sub := SubdirMatches(path, node, 0);
      MarkerChildrenDistinct(path, cs, 0);
      SubdirMatchesDistinct(path, node, 0);
      forall x | x in mc
        ensures x !in sub
      {
        MarkerChildrenMember(path, cs, 0, x);
        var j :| 0 <= j < |cs| && IsMarkerName(cs[j].name) && x == Child(path, cs[j].name);
        forall y | y in sub
          ensures x != y
        {
          SubdirMatchesWithin(path, node, 0, y);
          var k :| 0 <= k < |cs| && cs[k].Directory? && Within(Child(path, cs[k].name), y);
          if j != k {
            NamesSeparate(path, cs[j].name, cs[k].name, x, y);
          }
        }
      }
      NoDuplicatesAppend(mc, sub);
      assert DirMatches(path, node) == mc + sub;
    }
  }

  lemma {:induction false} SubdirMatchesDistinct(path: string, node: Node, i: nat)
    requires WellNamed(node) && node.Directory? && i <= |node.children|
    ensures NoDuplicates(SubdirMatches(path, node, i))
    decreases node, 0, |node.children| - i
  {
    var cs := node.children;
    if i < |cs| {
      SubdirMatchesDistinct(path, node, i + 1);
      var c := cs[i];
      var rest := SubdirMatches(path, node, i + 1);
      if c.Directory? {
        var here := DirMatches(Child(path, c.name), c);
        DirMatchesDistinct(Child(path, c.name), c);
        DirMatchesUnder(Child(path, c.name), c);
        forall x | x in here
          ensures x !in rest
        {
          var m :| 0 <= m < |here| && here[m] == x;
          assert Within(Child(path, c.name), x);
          forall y | y in rest
            ensures x != y
          {
            SubdirMatchesWithin(path, node, i + 1, y);
            var k :| i + 1 <= k < |cs| && cs[k].Directory? && Within(Child(path, cs[k].name), y);
            NamesSeparate(path, c.name, cs[k].name, x, y);
          }
        }
        NoDuplicatesAppend(here, rest);
        assert SubdirMatches(path, node, i) == here + rest;
      } else {
        assert SubdirMatches(path, node, i) == [] + rest;
      }
    }
  }

  /**
   * A directory named like a marker is both recorded and walked into: below
   * root, a directory "xpackage-info.class" holding a file "package-info.class"
   * yields both paths, the directory's first.
   */
  lemma MarkerNamedDirectory(root: string)
    ensures
      var name := "x" + PACKAGE_INFO_CLASS;
      var inner := Directory(name, [File(PACKAGE_INFO_CLASS, Archive([]))]);
      DirMatches(root, Directory(root, [inner])) == [Child(root, name), Child(Child(root, name), PACKAGE_INFO_CLASS)]
  {
    var name := "x" + PACKAGE_INFO_CLASS;
    var file := File(PACKAGE_INFO_CLASS, Archive([]));
    var inner := Directory(name, [file]);
    var top := Directory(root, [inner]);
    var ip := Child(root, name);
    assert name[|name| - |PACKAGE_INFO_CLASS|..] == PACKAGE_INFO_CLASS;
    assert IsMarkerName(name);
    assert IsMarkerName(PACKAGE_INFO_CLASS);
    assert MarkerChildren(root, top.children, 1) == [];
    assert MarkerChildren(root, top.children, 0) == [ip];
    assert MarkerChildren(ip, inner.children, 1) == [];
    assert MarkerChildren(ip, inner.children, 0) == [Child(ip, PACKAGE_INFO_CLASS)];
    assert SubdirMatches(ip, inner, 1) == [];
    assert SubdirMatches(ip, inner, 0) == [];
    assert DirMatches(ip, inner) == [Child(ip, PACKAGE_INFO_CLASS)];
    assert SubdirMatches(root, top, 1) == [];
    assert SubdirMatches(root, top, 0) == [Child(ip, PACKAGE_INFO_CLASS)];
  }
}
