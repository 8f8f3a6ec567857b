/**
 * The value that scanForPackages builds, as functions of its inputs: the
 * classpath value, the filesystem, and the class loader (a partial map from
 * class name to the package of the loaded class).
 */
module Discovery {
  import opened Wrappers
  import opened Names
  import opened Archives
  import opened FileSystem
  import opened ClassPath

  /** A java.lang.Package, known by its name. */
  datatype PackageHandle = PackageHandle(name: string)

  /** loadClass(name).getPackage(): a name absent from the map makes loadClass throw. */
  type ClassLoader = map<string, PackageHandle>

  /** The java.class.path property: a value, absent (null), or unreadable (getProperty throws). */
  datatype ClassPathProperty = Defined(value: string) | Undefined | Inaccessible

  /**
   * A discovered package: the root directory it was found under, its marker
   * file, and its loaded package, each None while null. The source keeps these
   * in a field-only class that no code outside the list refers to, so a value
   * carries the same information.
   */
  datatype PackageInfo = PackageInfo(rootPath: Option<string>, packageInfoClass: Option<string>, pkg: Option<PackageHandle>)

  function LoadPackage(loader: ClassLoader, className: string): Option<PackageHandle>
  {
    if className in loader then Some(loader[className]) else None
  }

  /** The records for the marker files found below root, in the order found. */
  function DirectoryRecords(root: string, files: seq<string>): seq<PackageInfo>
  {
    if files == [] then [] else [PackageInfo(Some(root), Some(files[0]), None)] + DirectoryRecords(root, files[1..])
  }

  /** One record per marker file, in the order found, with the root and the file set and no package yet. */
  lemma {:induction false} DirectoryRecordsAt(root: string, files: seq<string>)
    ensures |DirectoryRecords(root, files)| == |files|
    ensures forall i :: 0 <= i < |files| ==> DirectoryRecords(root, files)[i] == PackageInfo(Some(root), Some(files[i]), None)
  {
    if files != [] {
      DirectoryRecordsAt(root, files[1..]);
    }
  }

  /** The records for the class names found in an archive, in order. */
  function ArchiveRecords(names: seq<string>, loader: ClassLoader): seq<PackageInfo>
  {
    if names == [] then []
    else
      (if names[0] in loader then [PackageInfo(None, None, Some(loader[names[0]]))] else [])
      + ArchiveRecords(names[1..], loader)
  }

  /** What one classpath token adds in the first pass. */
  function EntryRecords(token: string, fs: Fs, loader: ClassLoader): seq<PackageInfo>
  {
    if token !in fs then []
    else match fs[token]
      case Directory(_, _) => DirectoryRecords(token, DirMatches(token, fs[token]))
      case File(_, archive) =>
        if IsArchivePath(token) then ArchiveRecords(MatchingClassNames(archive.entries), loader) else []
  }

  /**
   * A PackageInfo the second pass can handle: either its package is set, or
   * it comes from a directory and its marker path lies below its root.
   */
  predicate WellFormed(info: PackageInfo)
  {
    info.pkg.Some? ||
    (info.rootPath.Some? && info.packageInfoClass.Some? && MarkerPathUnder(info.rootPath.value, info.packageInfoClass.value))
  }

  /** What one classpath entry adds is well formed: directory records lie below their root. */
  lemma EntryRecordsWellFormed(token: string, fs: Fs, loader: ClassLoader)
    ensures forall i :: 0 <= i < |EntryRecords(token, fs, loader)| ==> WellFormed(EntryRecords(token, fs, loader)[i])
  {
    if token in fs && fs[token].Directory? {
      DirMatchesUnder(token, fs[token]);
      DirectoryRecordsAt(token, DirMatches(token, fs[token]));
    } else if token in fs && IsArchivePath(token) {
      ArchiveRecordsShape(MatchingClassNames(fs[token].archive.entries), loader);
    }
  }

  /** The first pass over the tokens, in order; everything it adds can be handled by the second pass. */
  function FirstPass(tokens: seq<string>, fs: Fs, loader: ClassLoader): (r: seq<PackageInfo>)
    ensures forall i :: 0 <= i < |r| ==> WellFormed(r[i])
  {
    if tokens == [] then []
    else
      EntryRecordsWellFormed(tokens[0], fs, loader);
      EntryRecords(tokens[0], fs, loader) + FirstPass(tokens[1..], fs, loader)
  }

  /** The class name the second pass derives for a PackageInfo found under a directory. */
  function RecordClassName(info: PackageInfo): string
    requires WellFormed(info) && info.pkg.None?
  {
    MarkerClassName(info.rootPath.value, info.packageInfoClass.value)
  }

  /** The second pass on one PackageInfo: one without a package gets one if its class loads. */
  function Resolve(info: PackageInfo, loader: ClassLoader): PackageInfo
    requires WellFormed(info)
  {
    if info.pkg.Some? then info else info.(pkg := LoadPackage(loader, RecordClassName(info)))
  }

  /** The second pass over the whole list. */
  function ResolveAll(infos: seq<PackageInfo>, loader: ClassLoader): seq<PackageInfo>
    requires forall i :: 0 <= i < |infos| ==> WellFormed(infos[i])
  {
    seq(|infos|, i requires 0 <= i < |infos| => Resolve(infos[i], loader))
  }

  /**
   * The second pass keeps the length and every path, keeps every entry that
   * has a package, and fills in a missing package exactly when its class loads.
   */
  lemma ResolveAllSpec(infos: seq<PackageInfo>, loader: ClassLoader)
    requires forall i :: 0 <= i < |infos| ==> WellFormed(infos[i])
    ensures |ResolveAll(infos, loader)| == |infos|
    ensures forall i :: 0 <= i < |infos| ==> WellFormed(ResolveAll(infos, loader)[i])
    ensures forall i :: 0 <= i < |infos| ==>
      ResolveAll(infos, loader)[i].rootPath == infos[i].rootPath &&
      ResolveAll(infos, loader)[i].packageInfoClass == infos[i].packageInfoClass
    ensures forall i :: 0 <= i < |infos| ==> infos[i].pkg.Some? ==> ResolveAll(infos, loader)[i] == infos[i]
    ensures forall i :: 0 <= i < |infos| ==> infos[i].pkg.None? ==>
      (ResolveAll(infos, loader)[i].pkg.Some? <==> RecordClassName(infos[i]) in loader) &&
      (ResolveAll(infos, loader)[i].pkg.Some? ==> ResolveAll(infos, loader)[i].pkg.value == loader[RecordClassName(infos[i])])
  {
  }

  /** The list a BootstrapManager holds after construction. */
  function Bootstrap(property: ClassPathProperty, fs: Fs, loader: ClassLoader): seq<PackageInfo>
  {
    match property
    case Defined(cp) => ResolveAll(FirstPass(Tokens(cp), fs, loader), loader)
    case _ => []
  }

  /** Tokens are processed once each, in order: scanning two token lists in turn appends their records. */
  lemma {:induction false} FirstPassAppend(a: seq<string>, b: seq<string>, fs: Fs, loader: ClassLoader)
    ensures FirstPass(a + b, fs, loader) == FirstPass(a, fs, loader) + FirstPass(b, fs, loader)
  {
    if a == [] {
      assert a + b == b;
    } else {
      assert (a + b)[1..] == a[1..] + b;
      FirstPassAppend(a[1..], b, fs, loader);
    }
  }

  /** A token naming nothing, or a file that is not a .jar or .zip, contributes nothing. */
  lemma UnscannedEntries(token: string, fs: Fs, loader: ClassLoader)
    requires token !in fs || (fs[token].File? && !IsArchivePath(token))
    ensures EntryRecords(token, fs, loader) == []
  {
  }

  /**
   * A directory token adds exactly one record per marker file below it, in
   * the walk's order, each with the directory as root and no package.
   */
  lemma DirectoryEntry(token: string, fs: Fs, loader: ClassLoader, x: string)
    requires token in fs && fs[token].Directory?
    ensures |EntryRecords(token, fs, loader)| == |DirMatches(token, fs[token])|
    ensures forall r :: r in EntryRecords(token, fs, loader) ==> r.rootPath == Some(token) && r.pkg.None?
    ensures PackageInfo(Some(token), Some(x), None) in EntryRecords(token, fs, loader) <==>
      MarkerBelow(token, fs[token], x)
  {
    var files := DirMatches(token, fs[token]);
    var recs := EntryRecords(token, fs, loader);
    DirMatchesExact(token, fs[token], x);
    DirectoryRecordsAt(token, files);
    if x in files {
      var k :| 0 <= k < |files| && files[k] == x;
      assert recs[k] == PackageInfo(Some(token), Some(x), None);
    }
  }

  /**
   * When sibling names are distinct and hold no separator, no two records a
   * directory token adds name the same marker file. With DirectoryEntry, the
   * token adds exactly one record per marker file below it.
   */
  lemma DirectoryEntryOnce(token: string, fs: Fs, loader: ClassLoader)
    requires token in fs && fs[token].Directory? && WellNamed(fs[token])
    ensures forall i, j :: 0 <= i < j < |EntryRecords(token, fs, loader)| ==>
      EntryRecords(token, fs, loader)[i].packageInfoClass != EntryRecords(token, fs, loader)[j].packageInfoClass
  {
    var files := DirMatches(token, fs[token]);
    DirMatchesDistinct(token, fs[token]);
    DirectoryRecordsAt(token, files);
  }

  lemma ArchiveRecordsStep(names: seq<string>, i: nat, loader: ClassLoader)
    requires i < |names|
    ensures ArchiveRecords(names[i..], loader) ==
      (if names[i] in loader then [PackageInfo(None, None, Some(loader[names[i]]))] else []) + ArchiveRecords(names[i + 1..], loader)
  {
    assert names[i..][1..] == names[i + 1..];
  }

  lemma FirstPassStep(tokens: seq<string>, t: nat, fs: Fs, loader: ClassLoader)
    requires t < |tokens|
    ensures FirstPass(tokens[t..], fs, loader) == EntryRecords(tokens[t], fs, loader) + FirstPass(tokens[t + 1..], fs, loader)
  {
    assert tokens[t..][1..] == tokens[t + 1..];
  }

  lemma DirectoryRecordsStep(root: string, files: seq<string>, i: nat)
    requires i < |files|
    ensures DirectoryRecords(root, files[i..]) == [PackageInfo(Some(root), Some(files[i]), None)] + DirectoryRecords(root, files[i + 1..])
  {
    assert files[i..][1..] == files[i + 1..];
  }

  /** At most one record per class name, each holding only a package the loader handed out. */
  lemma {:induction false} ArchiveRecordsShape(names: seq<string>, loader: ClassLoader)
    ensures |ArchiveRecords(names, loader)| <= |names|
    ensures forall r :: r in ArchiveRecords(names, loader) ==>
      r.rootPath.None? && r.packageInfoClass.None? && r.pkg.Some? && r.pkg.value in loader.Values
  {
    if names != [] {
      ArchiveRecordsShape(names[1..], loader);
    }
  }

  /** Archive records over two stretches of class names append. */
  lemma {:induction false} ArchiveRecordsAppend(a: seq<string>, b: seq<string>, loader: ClassLoader)
    ensures ArchiveRecords(a + b, loader) == ArchiveRecords(a, loader) + ArchiveRecords(b, loader)
  {
    if a == [] {
      assert a + b == b;
    } else {
      assert (a + b)[1..] == a[1..] + b;
      ArchiveRecordsAppend(a[1..], b, loader);
    }
  }

  /** When every class name loads, an archive adds one record per name, holding that class's package. */
  lemma {:induction false} ArchiveRecordsAllLoad(names: seq<string>, loader: ClassLoader)
    requires forall i :: 0 <= i < |names| ==> names[i] in loader
    ensures |ArchiveRecords(names, loader)| == |names|
    ensures forall i :: 0 <= i < |names| ==> ArchiveRecords(names, loader)[i] == PackageInfo(None, None, Some(loader[names[i]]))
  {
    if names != [] {
      ArchiveRecordsAllLoad(names[1..], loader);
    }
  }

  /** A class name that does not load adds nothing, and the loop carries on with the next name. */
  lemma ArchiveRecordsFailedLoad(name: string, rest: seq<string>, loader: ClassLoader)
    requires name !in loader
    ensures ArchiveRecords([name] + rest, loader) == ArchiveRecords(rest, loader)
  {
    assert ([name] + rest)[1..] == rest;
  }

  /** Running the second pass again changes nothing. */
  lemma ResolveAllIdempotent(infos: seq<PackageInfo>, loader: ClassLoader)
    requires forall i :: 0 <= i < |infos| ==> WellFormed(infos[i])
    ensures ResolveAll(ResolveAll(infos, loader), loader) == ResolveAll(infos, loader)
  {
    ResolveAllSpec(infos, loader);
    var once := ResolveAll(infos, loader);
    ResolveAllSpec(once, loader);
    var twice := ResolveAll(once, loader);
    forall i | 0 <= i < |infos|
      ensures twice[i] == once[i]
    {
      if infos[i].pkg.None? && once[i].pkg.None? {
        assert RecordClassName(once[i]) == RecordClassName(infos[i]);
      }
    }
  }

  /** The second pass treats each PackageInfo on its own, so it distributes over appending lists. */
  lemma ResolveAllAppend(a: seq<PackageInfo>, b: seq<PackageInfo>, loader: ClassLoader)
    requires forall i :: 0 <= i < |a| ==> WellFormed(a[i])
    requires forall i :: 0 <= i < |b| ==> WellFormed(b[i])
    ensures ResolveAll(a + b, loader) == ResolveAll(a, loader) + ResolveAll(b, loader)
  {
    var ab := a + b;
    assert forall i :: 0 <= i < |ab| ==> WellFormed(ab[i]) by {
      forall i | 0 <= i < |ab| ensures WellFormed(ab[i]) {
        if i < |a| { assert ab[i] == a[i]; } else { assert ab[i] == b[i - |a|]; }
      }
    }
    var lhs := ResolveAll(ab, loader);
    var rhs := ResolveAll(a, loader) + ResolveAll(b, loader);
    assert |lhs| == |rhs|;
    forall i | 0 <= i < |lhs|
      ensures lhs[i] == rhs[i]
    {
      if i < |a| { assert ab[i] == a[i]; } else { assert ab[i] == b[i - |a|]; }
    }
  }

  /**
   * Classpath entries are scanned independently: the list built for a
   * classpath a:b is the list built for a followed by the list built for b.
   */
  lemma BootstrapSplit(a: string, b: string, fs: Fs, loader: ClassLoader)
    ensures Bootstrap(Defined(a + [PATH_SEPARATOR] + b), fs, loader) ==
      Bootstrap(Defined(a), fs, loader) + Bootstrap(Defined(b), fs, loader)
  {
    TokensSplit(a, b);
    FirstPassAppend(Tokens(a), Tokens(b), fs, loader);
    ResolveAllAppend(FirstPass(Tokens(a), fs, loader), FirstPass(Tokens(b), fs, loader), loader);
  }

  /**
   * A classpath naming one directory: the manager ends up with one PackageInfo
   * per marker file below it, in walk order, each with the directory as root
   * and the package of the class named by the file's relative path, when that
   * class loads.
   */
  lemma DirectoryClassPath(root: string, fs: Fs, loader: ClassLoader)
    requires root != [] && PATH_SEPARATOR !in root
    requires root in fs && fs[root].Directory?
    ensures |Bootstrap(Defined(root), fs, loader)| == |DirMatches(root, fs[root])|
    ensures forall i :: 0 <= i < |DirMatches(root, fs[root])| ==>
      MarkerPathUnder(root, DirMatches(root, fs[root])[i]) &&
      Bootstrap(Defined(root), fs, loader)[i] ==
        PackageInfo(Some(root), Some(DirMatches(root, fs[root])[i]),
                    LoadPackage(loader, MarkerClassName(root, DirMatches(root, fs[root])[i])))
  {
    SingleToken(root);
    var files := DirMatches(root, fs[root]);
    var first := FirstPass([root], fs, loader);
    assert first == EntryRecords(root, fs, loader) + FirstPass([], fs, loader);
    DirMatchesUnder(root, fs[root]);
    DirectoryRecordsAt(root, files);
    ResolveAllSpec(first, loader);
  }

  /**
   * A classpath naming one .jar or .zip file: the manager ends up with one
   * PackageInfo per marker entry whose class loads, and the second pass leaves
   * them alone.
   */
  lemma ArchiveClassPath(jar: string, fs: Fs, loader: ClassLoader)
    requires jar != [] && PATH_SEPARATOR !in jar
    requires jar in fs && fs[jar].File? && IsArchivePath(jar)
    ensures Bootstrap(Defined(jar), fs, loader) == ArchiveRecords(MatchingClassNames(fs[jar].archive.entries), loader)
  {
    SingleToken(jar);
    var recs := ArchiveRecords(MatchingClassNames(fs[jar].archive.entries), loader);
    var first := FirstPass([jar], fs, loader);
    assert first == recs + FirstPass([], fs, loader);
    assert first == recs;
    ArchiveRecordsShape(MatchingClassNames(fs[jar].archive.entries), loader);
    ResolveAllSpec(first, loader);
    forall i | 0 <= i < |recs|
      ensures recs[i].pkg.Some?
    {
      assert recs[i] in recs;
    }
  }

  /** An empty or absent classpath yields an empty list, and no error escapes construction. */
  lemma EmptyClassPath(fs: Fs, loader: ClassLoader)
    ensures Bootstrap(Defined(""), fs, loader) == []
    ensures Bootstrap(Undefined, fs, loader) == []
    ensures Bootstrap(Inaccessible, fs, loader) == []
  {
  }
}
