/**
 * A jar or zip archive as the scanner sees it: the names its entry
 * enumeration hands out, in order, and the class names scanJarForMatchingFiles
 * collects from them.
 */
module Archives {
  import opened Names

  /**
   * The entry names the enumeration yields, in order, up to its end or up to
   * the point where opening or reading the archive throws. An archive that
   * cannot be opened at all is Archive([]).
   */
  datatype Archive = Archive(entries: seq<string>)

  /** The class names collected from a sequence of entry names, in enumeration order. */
  function MatchingClassNames(entries: seq<string>): seq<string>
  {
    if entries == [] then []
    else (if IsMarkerName(entries[0]) then [EntryClassName(entries[0])] else []) + MatchingClassNames(entries[1..])
  }

  /**
   * At most one class name per entry, each ending in "package-info" and free
   * of backslashes, commas and slashes.
   */
  lemma {:induction false} MatchingClassNamesShape(entries: seq<string>)
    ensures |MatchingClassNames(entries)| <= |entries|
    ensures forall i :: 0 <= i < |MatchingClassNames(entries)| ==> EndsWith(MatchingClassNames(entries)[i], PACKAGE_INFO)
    ensures forall i, j :: 0 <= i < |MatchingClassNames(entries)| && 0 <= j < |MatchingClassNames(entries)[i]| ==>
      !IsSlash(MatchingClassNames(entries)[i][j])
  {
    if entries != [] {
      MatchingClassNamesShape(entries[1..]);
      if IsMarkerName(entries[0]) {
        EntryClassNameAt(entries[0]);
        EntryClassNameOfMarker(entries[0]);
      }
    }
  }

  /** Collecting over two stretches of entries one after the other appends the two results. */
  lemma {:induction false} MatchingClassNamesAppend(a: seq<string>, b: seq<string>)
    ensures MatchingClassNames(a + b) == MatchingClassNames(a) + MatchingClassNames(b)
  {
    if a == [] {
      assert a + b == b;
    } else {
      assert (a + b)[1..] == a[1..] + b;
      MatchingClassNamesAppend(a[1..], b);
    }
  }

  /** Each entry contributes exactly its own class name when it is a marker, and nothing otherwise. */
  lemma MatchingClassNamesSingle(entry: string)
    ensures MatchingClassNames([entry]) == if IsMarkerName(entry) then [EntryClassName(entry)] else []
  {
    assert [entry][1..] == [];
  }

  /** A class name is collected exactly when some marker entry converts to it. */
  lemma {:induction false} MatchingClassNamesMember(entries: seq<string>, name: string)
    ensures name in MatchingClassNames(entries) <==>
      exists k :: 0 <= k < |entries| && IsMarkerName(entries[k]) && EntryClassName(entries[k]) == name
  {
    if entries != [] {
      MatchingClassNamesMember(entries[1..], name);
      if exists k :: 0 <= k < |entries| && IsMarkerName(entries[k]) && EntryClassName(entries[k]) == name {
        var k :| 0 <= k < |entries| && IsMarkerName(entries[k]) && EntryClassName(entries[k]) == name;
        if k > 0 {
          assert entries[1..][k - 1] == entries[k];
        }
      }
      if name in MatchingClassNames(entries[1..]) {
        var k :| 0 <= k < |entries[1..]| && IsMarkerName(entries[1..][k]) && EntryClassName(entries[1..][k]) == name;
        assert entries[k + 1] == entries[1..][k];
      }
    }
  }

  /** Collecting over more entries only adds class names at the end. */
  lemma MatchingClassNamesPrefix(a: seq<string>, b: seq<string>)
    ensures MatchingClassNames(a) <= MatchingClassNames(a + b)
  {
    MatchingClassNamesAppend(a, b);
    var x := MatchingClassNames(a);
    assert (x + MatchingClassNames(b))[..|x|] == x;
  }

  /**
   * When the enumeration fails after k entries, the names collected so far are
   * a prefix of what a complete enumeration collects.
   */
  lemma PartialEnumerationIsPrefix(entries: seq<string>, k: nat)
    requires k <= |entries|
    ensures MatchingClassNames(entries[..k]) <= MatchingClassNames(entries)
  {
    MatchingClassNamesPrefix(entries[..k], entries[k..]);
    assert entries[..k] + entries[k..] == entries;
  }
}
