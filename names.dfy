/**
 * The string constants of BootstrapManagerHelper, the two name filters and the
 * two pure name derivations of BootstrapManager: an archive entry name turned
 * into a class name, and a marker file path below a classpath root turned into
 * a class name. Paths use one fixed file separator and one fixed path
 * separator (POSIX).
 */
module Names {

  const DOT_CLASS: string := ".class"
  const JAVA_CLASS_PATH: string := "java" + DOT_CLASS + ".path"
  const DOT_JAR: string := ".jar"
  const DOT_ZIP: string := ".zip"
  const PACKAGE_INFO: string := "package-info"
  const PACKAGE_INFO_CLASS: string := PACKAGE_INFO + DOT_CLASS

  /** File.pathSeparator: separates classpath entries. */
  const PATH_SEPARATOR: char := ':'
  /** File.separator: separates the components of a path. */
  const FILE_SEPARATOR: char := '/'

  predicate EndsWith(s: string, suffix: string)
  {
    |suffix| <= |s| && s[|s| - |suffix|..] == suffix
  }

  /** PACKAGE_INFO_FILTER: a name ending in "package-info.class" (not only equal to it). */
  predicate IsMarkerName(name: string)
  {
    EndsWith(name, PACKAGE_INFO_CLASS)
  }

  /** A classpath file entry that is scanned as an archive. */
  predicate IsArchivePath(path: string)
  {
    EndsWith(path, DOT_JAR) || EndsWith(path, DOT_ZIP)
  }

  /** The characters of SLASH_REGEX "[\\,/]": backslash, comma and slash. */
  predicate IsSlash(c: char)
  {
    c == '\\' || c == ',' || c == '/'
  }

  /** replaceAll(SLASH_REGEX, "."): every backslash, comma and slash becomes a dot. */
  function DotSlashes(s: string): (r: string)
    ensures |r| == |s|
    ensures forall i :: 0 <= i < |s| ==> !IsSlash(r[i])
    ensures forall i :: 0 <= i < |s| ==> (IsSlash(s[i]) ==> r[i] == '.') && (!IsSlash(s[i]) ==> r[i] == s[i])
  {
    if s == [] then [] else (if IsSlash(s[0]) then "." else [s[0]]) + DotSlashes(s[1..])
  }

  /** The inverse direction used to rebuild a path from a class name: dots become the file separator. */
  function SlashDots(s: string): (r: string)
    ensures |r| == |s|
    ensures forall i :: 0 <= i < |s| ==> r[i] != '.'
    ensures forall i :: 0 <= i < |s| ==> (s[i] == '.' ==> r[i] == FILE_SEPARATOR) && (s[i] != '.' ==> r[i] == s[i])
  {
    if s == [] then [] else (if s[0] == '.' then [FILE_SEPARATOR] else [s[0]]) + SlashDots(s[1..])
  }

  /** new File(parent, name).getPath() */
  function Child(parent: string, name: string): string
  {
    parent + [FILE_SEPARATOR] + name
  }

  /** A marker file path strictly below root, long enough for the second pass to cut out a class name. */
  predicate MarkerPathUnder(root: string, path: string)
  {
    |root| + 1 + |PACKAGE_INFO_CLASS| <= |path| &&
    path[..|root| + 1] == root + [FILE_SEPARATOR] &&
    EndsWith(path, PACKAGE_INFO_CLASS)
  }

  /**
   * The class name of a matching archive entry: the entry name without its
   * trailing ".class", with every backslash, comma and slash turned into a dot.
   */
  function EntryClassName(entryName: string): (r: string)
    requires |DOT_CLASS| <= |entryName|
    ensures |r| + |DOT_CLASS| == |entryName|
  {
    DotSlashes(entryName[..|entryName| - |DOT_CLASS|])
  }

  /**
   * Character by character, the class name is the entry name with every
   * backslash, comma and slash turned into a dot; none is left.
   */
  lemma EntryClassNameAt(entryName: string)
    requires |DOT_CLASS| <= |entryName|
    ensures forall i :: 0 <= i < |EntryClassName(entryName)| ==> !IsSlash(EntryClassName(entryName)[i])
    ensures forall i :: 0 <= i < |EntryClassName(entryName)| ==>
      (!IsSlash(entryName[i]) ==> EntryClassName(entryName)[i] == entryName[i]) &&
      (IsSlash(entryName[i]) ==> EntryClassName(entryName)[i] == '.')
  {
  }

  /** The class name of a marker entry ends in "package-info". */
  lemma EntryClassNameOfMarker(entryName: string)
    requires IsMarkerName(entryName)
    ensures EndsWith(EntryClassName(entryName), PACKAGE_INFO)
  {
    EntryClassNameAt(entryName);
    var r := EntryClassName(entryName);
    forall i | 0 <= i < |PACKAGE_INFO|
      ensures r[|r| - |PACKAGE_INFO| + i] == PACKAGE_INFO[i]
    {
      assert entryName[|r| - |PACKAGE_INFO| + i] == PACKAGE_INFO_CLASS[i] == PACKAGE_INFO[i];
    }
  }

  /**
   * The class name of a marker file found under a classpath directory: the
   * part of the path after the root and its separator, without the trailing
   * ".class", with every backslash, comma and slash turned into a dot.
   */
  function MarkerClassName(rootPath: string, markerPath: string): (r: string)
    requires |rootPath| + 1 <= |markerPath| - |DOT_CLASS|
    ensures |rootPath| + 1 + |r| + |DOT_CLASS| == |markerPath|
  {
    DotSlashes(markerPath[|rootPath| + 1..|markerPath| - |DOT_CLASS|])
  }

  /**
   * Character by character, the class name is the relative path with every
   * backslash, comma and slash turned into a dot; none is left.
   */
  lemma MarkerClassNameAt(rootPath: string, markerPath: string)
    requires |rootPath| + 1 <= |markerPath| - |DOT_CLASS|
    ensures forall i :: 0 <= i < |MarkerClassName(rootPath, markerPath)| ==> !IsSlash(MarkerClassName(rootPath, markerPath)[i])
    ensures forall i :: 0 <= i < |MarkerClassName(rootPath, markerPath)| ==>
      (!IsSlash(markerPath[|rootPath| + 1 + i]) ==> MarkerClassName(rootPath, markerPath)[i] == markerPath[|rootPath| + 1 + i]) &&
      (IsSlash(markerPath[|rootPath| + 1 + i]) ==> MarkerClassName(rootPath, markerPath)[i] == '.')
  {
  }

  /** The marker file path a class name stands for below root. */
  function MarkerPathOf(root: string, className: string): string
  {
    Child(root, SlashDots(className) + DOT_CLASS)
  }

  lemma Constants()
    ensures JAVA_CLASS_PATH == "java.class.path"
    ensures PACKAGE_INFO_CLASS == "package-info.class"
    ensures |DOT_CLASS| == 6 && |PACKAGE_INFO_CLASS| == 18
  {
  }

  /** An entry name without backslashes, commas or slashes only loses its ".class". */
  lemma EntryClassNamePlain(a: string)
    requires forall i :: 0 <= i < |a| ==> !IsSlash(a[i])
    ensures EntryClassName(a + DOT_CLASS) == a
  {
    var e := a + DOT_CLASS;
    EntryClassNameAt(e);
    assert forall i :: 0 <= i < |a| ==> e[i] == a[i];
  }

  /**
   * One more path segment: a backslash, comma or slash followed by a
   * slash-free segment becomes a dot followed by that segment.
   */
  lemma {:induction false} EntryClassNameSegment(a: string, sep: char, b: string)
    requires IsSlash(sep)
    requires forall i :: 0 <= i < |b| ==> !IsSlash(b[i])
    ensures EntryClassName(a + [sep] + b + DOT_CLASS) == EntryClassName(a + DOT_CLASS) + ['.'] + b
  {
    var e := a + [sep] + b + DOT_CLASS;
    var f := a + DOT_CLASS;
    EntryClassNameAt(e);
    EntryClassNameAt(f);
    var r := EntryClassName(e);
    var want := EntryClassName(f) + ['.'] + b;
    assert |r| == |want|;
    forall i | 0 <= i < |r|
      ensures r[i] == want[i]
    {
      if i < |a| {
        assert e[i] == a[i] == f[i];
      } else if i > |a| {
        assert e[i] == b[i - |a| - 1];
      }
    }
  }

  /** The archive entry "org/widget/package-info.class" names the class "org.widget.package-info". */
  lemma EntryClassNameExample()
    ensures EntryClassName("org/widget/" + PACKAGE_INFO_CLASS) == "org.widget." + PACKAGE_INFO
  {
    assert "org/widget/" + PACKAGE_INFO_CLASS == ("org" + ['/'] + "widget") + ['/'] + PACKAGE_INFO + DOT_CLASS;
    EntryClassNameSegment("org" + ['/'] + "widget", '/', PACKAGE_INFO);
    EntryClassNameSegment("org", '/', "widget");
    EntryClassNamePlain("org");
    assert "org" + ['.'] + "widget" + ['.'] + PACKAGE_INFO == "org.widget." + PACKAGE_INFO;
  }

  /** A comma counts as a separator: the entry "org,package-info.class" names the class "org.package-info". */
  lemma EntryClassNameComma()
    ensures EntryClassName("org," + PACKAGE_INFO_CLASS) == "org." + PACKAGE_INFO
  {
    assert "org," + PACKAGE_INFO_CLASS == "org" + [','] + PACKAGE_INFO + DOT_CLASS;
    EntryClassNameSegment("org", ',', PACKAGE_INFO);
    EntryClassNamePlain("org");
    assert "org" + ['.'] + PACKAGE_INFO == "org." + PACKAGE_INFO;
  }

  /**
   * A marker file at root + separator + rel gets the same class name as an
   * archive entry named rel: the directory pass and the archive pass agree.
   */
  lemma MarkerClassNameOfChild(root: string, rel: string)
    requires |DOT_CLASS| <= |rel|
    ensures MarkerClassName(root, Child(root, rel)) == EntryClassName(rel)
  {
    var path := Child(root, rel);
    assert path[|root| + 1..|path| - |DOT_CLASS|] == rel[..|rel| - |DOT_CLASS|];
  }

  /**
   * Resolving a marker path and rebuilding the path from the class name gives
   * back the original path, as long as the relative path uses only the file
   * separator and holds no dots before its ".class".
   */
  lemma {:induction false} MarkerPathRoundTrip(root: string, rel: string)
    requires EndsWith(rel, DOT_CLASS)
    requires forall i :: 0 <= i < |rel| - |DOT_CLASS| ==> rel[i] != '.' && rel[i] != ',' && rel[i] != '\\'
    ensures MarkerPathOf(root, MarkerClassName(root, Child(root, rel))) == Child(root, rel)
  {
    var path := Child(root, rel);
    var cn := MarkerClassName(root, path);
    MarkerClassNameAt(root, path);
    var back := SlashDots(cn) + DOT_CLASS;
    assert |back| == |rel|;
    forall i | 0 <= i < |rel|
      ensures back[i] == rel[i]
    {
      if i < |cn| {
        assert path[|root| + 1 + i] == rel[i];
      } else {
        assert back[i] == DOT_CLASS[i - |cn|];
        assert rel[|rel| - |DOT_CLASS|..][i - |cn|] == rel[i];
      }
    }
    assert back == rel;
  }

  /** Conversely, a class name without slashes survives being turned into a path and back. */
  lemma {:induction false} ClassNameRoundTrip(root: string, className: string)
    requires forall i :: 0 <= i < |className| ==> !IsSlash(className[i])
    ensures MarkerClassName(root, MarkerPathOf(root, className)) == className
  {
    var path := MarkerPathOf(root, className);
    var r := MarkerClassName(root, path);
    MarkerClassNameAt(root, path);
    assert |r| == |className|;
    forall i | 0 <= i < |className|
      ensures r[i] == className[i]
    {
      assert path[|root| + 1 + i] == SlashDots(className)[i];
    }
  }
}
