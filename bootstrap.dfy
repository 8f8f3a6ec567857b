/**
 * BootstrapManager itself (BootstrapManager.java): the two static scanners
 * that append to a caller-supplied list, and scanForPackages, which appends
 * PackageInfo records to the foundPackages field and then fills in missing
 * packages in place. Line numbers below refer to BootstrapManager.java. Each
 * method is proved against the functions of Discovery, FileSystem and Archives.
 */
module Bootstrap {
  import opened Wrappers
  import opened Names
  import opened Archives
  import opened FileSystem
  import opened ClassPath
  import opened Discovery

  /** A java.util.List that the scanners only ever append to. */
  class AppendList<T> {
    var elements: seq<T>

    constructor()
      ensures elements == []
    {
      elements := [];
    }

    method Add(x: T)
      modifies this
      ensures elements == old(elements) + [x]
    {
      elements := elements + [x];
    }

    /** Add each of xs in turn: the loop of lines 139-142 over the listed marker files. */
    method AddEach(xs: seq<T>)
      modifies this
      ensures elements == old(elements) + xs
    {
      for i := 0 to |xs|
        invariant elements == old(elements) + xs[..i]
      {
        Add(xs[i]);
        assert xs[..i + 1] == xs[..i] + [xs[i]];
      }
      assert xs[..|xs|] == xs;
    }
  }

  /**
   * scanDirForMatchingFiles: for a directory, append the paths of its
   * marker-named children in listing order, then walk each child directory in
   * listing order; for anything else, append nothing.
   */
  method ScanDirForMatchingFiles(matchingFiles: AppendList<string>, currentDir: string, dir: Node)
    modifies matchingFiles
    ensures matchingFiles.elements == old(matchingFiles.elements) + DirMatches(currentDir, dir)
    decreases dir
  {
    if dir.Directory? {
      var childFiles := MarkerChildren(currentDir, dir.children, 0);
      matchingFiles.AddEach(childFiles);
      ghost var afterFiles := matchingFiles.elements;
      var i := 0;
      while i < |dir.children|
        invariant 0 <= i <= |dir.children|
        invariant matchingFiles.elements + SubdirMatches(currentDir, dir, i) == afterFiles + SubdirMatches(currentDir, dir, 0)
      {
        var child := dir.children[i];
        ghost var before := matchingFiles.elements;
        ghost var below := if child.Directory? then DirMatches(Child(currentDir, child.name), child) else [];
        ghost var rest := SubdirMatches(currentDir, dir, i + 1);
        SubdirMatchesStep(currentDir, dir, i);
        if child.Directory? {
          ScanDirForMatchingFiles(matchingFiles, Child(currentDir, child.name), child);
        }
        assert matchingFiles.elements == before + below;
        assert (before + below) + rest == before + (below + rest);
        i := i + 1;
      }
      SubdirMatchesEnd(currentDir, dir);
      DirMatchesSplit(currentDir, dir);
      ghost var subs := SubdirMatches(currentDir, dir, 0);
      assert matchingFiles.elements == (old(matchingFiles.elements) + childFiles) + subs;
      assert (old(matchingFiles.elements) + childFiles) + subs == old(matchingFiles.elements) + (childFiles + subs);
    }
  }

  /**
   * scanJarForMatchingFiles: walk the entries the archive enumeration yields
   * and append the class name of each entry ending in "package-info.class".
   * When the enumeration stops because opening or reading failed, the failure
   * is swallowed and what was appended stays.
   */
  method ScanJarForMatchingFiles(matchingFiles: AppendList<string>, jarfile: Archive)
    modifies matchingFiles
    ensures matchingFiles.elements == old(matchingFiles.elements) + MatchingClassNames(jarfile.entries)
  {
    var entries := jarfile.entries;
    var i := 0;
    while i < |entries|
      invariant 0 <= i <= |entries|
      invariant matchingFiles.elements + MatchingClassNames(entries[i..]) == old(matchingFiles.elements) + MatchingClassNames(entries)
    {
      var name := entries[i];
      assert entries[i..][1..] == entries[i + 1..];
      if IsMarkerName(name) {
        var className := EntryClassName(name);
        matchingFiles.Add(className);
      }
      i := i + 1;
    }
  }

  /** How scanForPackages ended: normally, or with the exception the constructor catches. */
  datatype ScanOutcome =
    | Completed
    | Thrown(cause: ScanException)

  datatype ScanException =
    | BootstrapManagerHelperException  // reading java.class.path threw
    | NullPointerException             // java.class.path was null when handed to the tokenizer

  class BootstrapManager {
    var foundPackages: seq<PackageInfo>

    /** Every listed PackageInfo is one the second pass can handle. */
    ghost predicate Valid()
      reads this
    {
      forall i :: 0 <= i < |foundPackages| ==> WellFormed(foundPackages[i])
    }

    /**
     * The constructor: start from an empty list and scan; whatever the scan
     * throws is caught, so construction always succeeds.
     */
    constructor(property: ClassPathProperty, fs: Fs, loader: ClassLoader)
      ensures Valid()
      ensures foundPackages == Bootstrap(property, fs, loader)
    {
      foundPackages := [];
      new;
      var outcome := ScanForPackages(property, fs, loader);
    }

    /**
     * scanForPackages: read the classpath, run the first pass over its tokens,
     * then the second pass over the whole list. An unreadable or absent
     * classpath throws before anything is added.
     */
    method ScanForPackages(property: ClassPathProperty, fs: Fs, loader: ClassLoader) returns (outcome: ScanOutcome)
      requires Valid()
      modifies this
      ensures Valid()
      ensures property.Inaccessible? ==>
        outcome == Thrown(BootstrapManagerHelperException) && foundPackages == old(foundPackages)
      ensures property.Undefined? ==>
        outcome == Thrown(NullPointerException) && foundPackages == old(foundPackages)
      ensures property.Defined? ==>
        outcome == Completed &&
        foundPackages == ResolveAll(old(foundPackages) + FirstPass(Tokens(property.value), fs, loader), loader)
    {
      match property
      case Inaccessible =>
        return Thrown(BootstrapManagerHelperException);
      case Undefined =>
        return Thrown(NullPointerException);
      case Defined(javaClassPath) =>
        var tokens := Tokens(javaClassPath);
        ScanClassPathEntries(tokens, fs, loader);
        LoadMissingPackages(loader);
        outcome := Completed;
    }

    /** Lines 77-115, the first pass: each classpath entry in order, appending what it yields. */
    method ScanClassPathEntries(tokens: seq<string>, fs: Fs, loader: ClassLoader)
      modifies this
      ensures foundPackages == old(foundPackages) + FirstPass(tokens, fs, loader)
    {
      var t := 0;
      while t < |tokens|
        invariant 0 <= t <= |tokens|
        invariant foundPackages + FirstPass(tokens[t..], fs, loader) == old(foundPackages) + FirstPass(tokens, fs, loader)
      {
        FirstPassStep(tokens, t, fs, loader);
        ghost var before := foundPackages;
        ghost var here := EntryRecords(tokens[t], fs, loader);
        ghost var rest := FirstPass(tokens[t + 1..], fs, loader);
        ScanEntry(tokens[t], fs, loader);
        assert (before + here) + rest == before + (here + rest);
        t := t + 1;
      }
      assert tokens[t..] == [];
    }

    /**
     * Lines 79-114, one classpath entry: a directory is walked for marker
     * files, an existing .jar or .zip file is read for marker entries, and
     * anything else is skipped.
     */
    method ScanEntry(possibleStartingDirectoryPath: string, fs: Fs, loader: ClassLoader)
      modifies this
      ensures foundPackages == old(foundPackages) + EntryRecords(possibleStartingDirectoryPath, fs, loader)
    {
      if possibleStartingDirectoryPath in fs && fs[possibleStartingDirectoryPath].Directory? {
        AddDirectoryPackages(possibleStartingDirectoryPath, fs[possibleStartingDirectoryPath]);
      } else if possibleStartingDirectoryPath in fs && fs[possibleStartingDirectoryPath].File? {
        if IsArchivePath(possibleStartingDirectoryPath) {
          AddArchivePackages(fs[possibleStartingDirectoryPath].archive, loader);
        }
      }
    }

    /** Lines 81-93: one PackageInfo per marker file below the starting directory, in the order found. */
    method AddDirectoryPackages(startingDir: string, dir: Node)
      modifies this
      ensures foundPackages == old(foundPackages) + DirectoryRecords(startingDir, DirMatches(startingDir, dir))
    {
      var packageInfoFiles := new AppendList<string>();
      ScanDirForMatchingFiles(packageInfoFiles, startingDir, dir);
      var files := packageInfoFiles.elements;
      assert files == DirMatches(startingDir, dir);
      AddDirectoryRecords(startingDir, files);
    }

    /** Lines 85-92: a PackageInfo with the root and the marker file and no package, for each file in turn. */
    method AddDirectoryRecords(startingDir: string, files: seq<string>)
      modifies this
      ensures foundPackages == old(foundPackages) + DirectoryRecords(startingDir, files)
    {
      for i := 0 to |files|
        invariant foundPackages + DirectoryRecords(startingDir, files[i..]) == old(foundPackages) + DirectoryRecords(startingDir, files)
      {
        var packageInfoFile := files[i];
        DirectoryRecordsStep(startingDir, files, i);
        ghost var before := foundPackages;
        ghost var rest := DirectoryRecords(startingDir, files[i + 1..]);
        var pi := PackageInfo(Some(startingDir), Some(packageInfoFile), None);
        foundPackages := foundPackages + [pi];
        assert (before + [pi]) + rest == before + ([pi] + rest);
      }
      assert files[|files|..] == [];
    }

    /** Lines 97-113: one PackageInfo, holding the loaded package, per class name that loads. */
    method AddArchivePackages(jar: Archive, loader: ClassLoader)
      modifies this
      ensures foundPackages == old(foundPackages) + ArchiveRecords(MatchingClassNames(jar.entries), loader)
    {
      var packageInfoClassNames := new AppendList<string>();
      ScanJarForMatchingFiles(packageInfoClassNames, jar);
      var names := packageInfoClassNames.elements;
      assert names == MatchingClassNames(jar.entries);
      AddArchiveRecords(names, loader);
    }

    /**
     * Lines 100-112: for each class name in turn, load the class and add a
     * PackageInfo holding its package; a class that does not load is skipped.
     */
    method AddArchiveRecords(names: seq<string>, loader: ClassLoader)
      modifies this
      ensures foundPackages == old(foundPackages) + ArchiveRecords(names, loader)
    {
      for i := 0 to |names|
        invariant foundPackages + ArchiveRecords(names[i..], loader) == old(foundPackages) + ArchiveRecords(names, loader)
      {
        var packageInfoClassName := names[i];
        ArchiveRecordsStep(names, i, loader);
        ghost var before := foundPackages;
        ghost var rest := ArchiveRecords(names[i + 1..], loader);
        if packageInfoClassName in loader {
          var pi := PackageInfo(None, None, Some(loader[packageInfoClassName]));
          foundPackages := foundPackages + [pi];
          assert (before + [pi]) + rest == before + ([pi] + rest);
        }
      }
      assert names[|names|..] == [];
    }

    /**
     * Lines 116-133: for every PackageInfo without a package, derive the class
     * name from its root and marker path and set the package if the class
     * loads; the length of the list does not change.
     */
    method LoadMissingPackages(loader: ClassLoader)
      requires Valid()
      modifies this
      ensures Valid()
      ensures foundPackages == ResolveAll(old(foundPackages), loader)
    {
      ResolveAllSpec(foundPackages, loader);
      for i := 0 to |foundPackages|
        invariant |foundPackages| == |old(foundPackages)|
        invariant forall k :: 0 <= k < i ==> foundPackages[k] == Resolve(old(foundPackages)[k], loader)
        invariant forall k :: i <= k < |foundPackages| ==> foundPackages[k] == old(foundPackages)[k]
      {
        var packageInfo := foundPackages[i];
        if packageInfo.pkg.None? {
          var rootPath := packageInfo.rootPath.value;
          var packageInfoPath := packageInfo.packageInfoClass.value;
          var className := MarkerClassName(rootPath, packageInfoPath);
          if className in loader {
            foundPackages := foundPackages[i := packageInfo.(pkg := Some(loader[className]))];
          }
        }
      }
    }
  }
}
