# BootstrapManager classpath scanner, modelled in Dafny

This project models the package discovery that `BootstrapManager` performs
when it is constructed. The manager reads the `java.class.path` property and
splits it into entries at the path separator. It walks every directory entry
for files whose names end in `package-info.class`, and lists every `.jar` or
`.zip` entry for archive entries with such names. The result is a list of
`PackageInfo` records. A second pass then derives a class name from each
directory record's root and marker path and loads that class's package.

The stand-ins for the JDK are:

- the filesystem is a tree datatype (`FileSystem.Node`) with a fixed listing
  order, reached through a map from path to node;
- an archive is the sequence of entry names its enumeration yields;
- the class loader is a partial map from class name to an opaque package
  handle (`Discovery.ClassLoader`); a missing name stands for `loadClass`
  throwing.

Modules, in dependency order:

- `Wrappers`: `Option`.
- `Names`: the `BootstrapManagerHelper` constants, the `endsWith` filters and
  the two class-name derivations (lines 121-122 and 156).
- `Archives`: the class names collected from an archive's entries.
- `FileSystem`: the tree and the marker paths the directory walk collects,
  with an independent descendant relation to check them against.
- `ClassPath`: `StringTokenizer` over the path separator.
- `Discovery`: the list the manager ends up with, as functions of the
  classpath value, the filesystem and the loader.
- `Bootstrap`: the imperative code itself.
  - The two static scanners append to a caller-supplied list (`AppendList`).
  - `BootstrapManager` has a `foundPackages` field that `ScanForPackages`
    appends to and then updates in place.
  - Each method is proved against the `Discovery`, `FileSystem` and
    `Archives` functions.

Where the code behaves in a way that is easy to misread, the model follows
it:

- The marker test is `endsWith`, not equality. A file or directory named
  `xpackage-info.class` matches, and a matching directory is both recorded
  and descended into (`FileSystem.MarkerNamedDirectory`).
- The separator pattern `[\\,/]` also turns commas into dots
  (`Names.EntryClassNameComma`).
- The derived class name keeps its last segment: `org/widget/package-info.class`
  gives `org.widget.package-info`, the class the code loads. It is not the
  package name `org.widget`.
- An archive class that fails to load adds no record at all.
- When opening or reading an archive fails, the failure is swallowed and the
  names appended before it stay (`Archives.PartialEnumerationIsPrefix`).
- An absent or unreadable classpath does not make construction fail.
  `scanForPackages` throws, the constructor catches it, and the list stays
  empty.
- The walk order is fixed: a directory's marker children come first, then
  its subdirectories, each in listing order (`FileSystem.DirMatchesPreOrder`).
- With distinct sibling names free of the file separator, as a real listing
  has, every marker file is collected once (`FileSystem.DirMatchesDistinct`).
- No path-outside-the-root error exists. The model proves that every
  collected path lies strictly below its root (`FileSystem.DirMatchesUnder`).
  The second pass therefore always has a class name to cut out.

## Model

| member | source | states |
|---|---|---|
| Names.Constants | src/main/java/org/ryo/microprofile/bootstrap/BootstrapManager.java:186-192 | `JAVA_CLASS_PATH` is "java.class.path", `PACKAGE_INFO_CLASS` is "package-info.class", and `.class` is 6 characters long |
| Names.DotSlashes | src/main/java/org/ryo/microprofile/bootstrap/BootstrapManager.java:192 | replacing `[\\,/]` with dots keeps the length, maps each backslash, comma and slash to a dot, keeps every other character, and leaves no separator behind |
| Names.EntryClassName | src/main/java/org/ryo/microprofile/bootstrap/BootstrapManager.java:156 | the class name of an archive entry is exactly the 6 characters of `.class` shorter than the entry name |
| Names.EntryClassNameAt | src/main/java/org/ryo/microprofile/bootstrap/BootstrapManager.java:156 | character by character, the class name equals the entry name with every backslash, comma and slash turned into a dot, and holds no separator |
| Names.EntryClassNameOfMarker | src/main/java/org/ryo/microprofile/bootstrap/BootstrapManager.java:155-156 | the class name of an entry that passes the marker test ends in "package-info" |
| Names.EntryClassNamePlain | src/main/java/org/ryo/microprofile/bootstrap/BootstrapManager.java:156 | an entry name without separators only loses its trailing ".class" |
| Names.EntryClassNameSegment | src/main/java/org/ryo/microprofile/bootstrap/BootstrapManager.java:156 | each further separator followed by a separator-free segment becomes a dot followed by that segment |
| Names.EntryClassNameExample | src/main/java/org/ryo/microprofile/bootstrap/BootstrapManager.java:156 | the entry "org/widget/package-info.class" gives the class name "org.widget.package-info" |
| Names.EntryClassNameComma | src/main/java/org/ryo/microprofile/bootstrap/BootstrapManager.java:192 | a comma counts as a separator: "org,package-info.class" gives "org.package-info" |
| Names.MarkerClassName | src/main/java/org/ryo/microprofile/bootstrap/BootstrapManager.java:121-122 | the class name cut from a marker path is the path minus the root, its separator and ".class" (a length identity) |
| Names.MarkerClassNameAt | src/main/java/org/ryo/microprofile/bootstrap/BootstrapManager.java:121-122 | character by character, the class name is the relative path with every backslash, comma and slash turned into a dot, and holds no separator |
| Names.MarkerClassNameOfChild | src/main/java/org/ryo/microprofile/bootstrap/BootstrapManager.java:121-122 | for the path root/rel, the directory pass derives the same class name as the archive pass does for the entry rel |
| Names.MarkerPathRoundTrip | src/main/java/org/ryo/microprofile/bootstrap/BootstrapManager.java:121-122 | rebuilding a path from the derived class name gives back the marker path, when the relative path has no dots, commas or backslashes |
| Names.ClassNameRoundTrip | src/main/java/org/ryo/microprofile/bootstrap/BootstrapManager.java:121-122 | a class name without separators, turned into a marker path and back, is unchanged |
| Archives.MatchingClassNamesShape | src/main/java/org/ryo/microprofile/bootstrap/BootstrapManager.java:150-165 | an archive yields at most one class name per entry, each ending in "package-info" and free of separators |
| Archives.MatchingClassNamesAppend | src/main/java/org/ryo/microprofile/bootstrap/BootstrapManager.java:153-160 | entries are handled one at a time in enumeration order: collecting over a+b is collecting over a, then over b |
| Archives.MatchingClassNamesSingle | src/main/java/org/ryo/microprofile/bootstrap/BootstrapManager.java:155-159 | one entry yields its class name if it passes the marker test, and nothing otherwise |
| Archives.MatchingClassNamesMember | src/main/java/org/ryo/microprofile/bootstrap/BootstrapManager.java:155-159 | a class name is collected if and only if some marker entry converts to it |
| Archives.MatchingClassNamesPrefix | src/main/java/org/ryo/microprofile/bootstrap/BootstrapManager.java:153-160 | enumerating more entries only adds class names at the end |
| Archives.PartialEnumerationIsPrefix | src/main/java/org/ryo/microprofile/bootstrap/BootstrapManager.java:151-164 | when reading stops after k entries, the names already collected are a prefix of those a complete read collects |
| FileSystem.DirMatchesPreOrder | src/main/java/org/ryo/microprofile/bootstrap/BootstrapManager.java:137-147 | the collected list starts with the paths of the directory's own marker-named children, and every path after them lies inside one of its child directories |
| FileSystem.DirMatchesUnder | src/main/java/org/ryo/microprofile/bootstrap/BootstrapManager.java:136-148 | every path the walk collects lies strictly below the starting path and ends in "package-info.class" |
| FileSystem.MarkerChildrenUnder | src/main/java/org/ryo/microprofile/bootstrap/BootstrapManager.java:138-142 | every marker child path lies below the directory |
| FileSystem.SubdirMatchesUnder | src/main/java/org/ryo/microprofile/bootstrap/BootstrapManager.java:143-146 | every path collected from subdirectories lies below the directory |
| FileSystem.DirMatchesExact | src/main/java/org/ryo/microprofile/bootstrap/BootstrapManager.java:136-148 | a path is collected if and only if it is the path of a strict descendant whose name ends in "package-info.class"; nothing is collected for a non-directory |
| FileSystem.MarkerChildrenMember | src/main/java/org/ryo/microprofile/bootstrap/BootstrapManager.java:138-142 | a path is among the marker children if and only if it is the path of a child whose name passes the filter |
| FileSystem.SubdirMatchesMember | src/main/java/org/ryo/microprofile/bootstrap/BootstrapManager.java:143-146 | a path is collected from the subdirectories if and only if it is a marker descendant of one of the child directories |
| FileSystem.SubdirMatchesWithin | src/main/java/org/ryo/microprofile/bootstrap/BootstrapManager.java:143-146 | every path collected from the children from some index on lies inside one of those children that is a directory |
| FileSystem.NamesSeparate | src/main/java/org/ryo/microprofile/bootstrap/BootstrapManager.java:145 | paths at or inside two siblings with different separator-free names are different |
| FileSystem.MarkerChildrenDistinct | src/main/java/org/ryo/microprofile/bootstrap/BootstrapManager.java:138-142 | with distinct sibling names, no marker child path is listed twice |
| FileSystem.DirMatchesDistinct | src/main/java/org/ryo/microprofile/bootstrap/BootstrapManager.java:136-148 | with distinct, separator-free sibling names at every level, the walk lists no path twice, so each marker file is collected once |
| FileSystem.SubdirMatchesDistinct | src/main/java/org/ryo/microprofile/bootstrap/BootstrapManager.java:143-146 | with well-formed names, the recursion over child directories lists no path twice |
| FileSystem.MarkerNamedDirectory | src/main/java/org/ryo/microprofile/bootstrap/BootstrapManager.java:33-35 | a directory named "xpackage-info.class" that holds a "package-info.class" file is recorded first and then walked into; both paths are collected |
| ClassPath.RunLength | src/main/java/org/ryo/microprofile/bootstrap/BootstrapManager.java:77-79 | the first token runs up to the first separator: no separator inside it, and a separator right after it |
| ClassPath.Tokens | src/main/java/org/ryo/microprofile/bootstrap/BootstrapManager.java:77-79 | every token is non-empty and holds no separator |
| ClassPath.TokensSplit | src/main/java/org/ryo/microprofile/bootstrap/BootstrapManager.java:77-79 | cutting the classpath at any separator splits its tokens there; nothing is merged, lost or invented |
| ClassPath.SingleToken | src/main/java/org/ryo/microprofile/bootstrap/BootstrapManager.java:77-79 | a non-empty entry without separators is one token |
| ClassPath.NoTokens | src/main/java/org/ryo/microprofile/bootstrap/BootstrapManager.java:77-79 | a value made only of separators, the empty value included, has no tokens |
| ClassPath.TokensJoin | src/main/java/org/ryo/microprofile/bootstrap/BootstrapManager.java:77-79 | tokenizing non-empty entries joined by the separator gives back exactly those entries, in order |
| ClassPath.EmptyEntriesSkipped | src/main/java/org/ryo/microprofile/bootstrap/BootstrapManager.java:77-79 | a doubled separator contributes no token |
| Discovery.DirectoryRecordsAt | src/main/java/org/ryo/microprofile/bootstrap/BootstrapManager.java:85-92 | one record per marker file, in the order found, with the root and the file set and no package |
| Discovery.EntryRecordsWellFormed | src/main/java/org/ryo/microprofile/bootstrap/BootstrapManager.java:79-114 | every record one classpath entry adds either holds a package or has a marker path below its root |
| Discovery.FirstPass | src/main/java/org/ryo/microprofile/bootstrap/BootstrapManager.java:78-115 | every record of the first pass is one the second pass can handle |
| Discovery.FirstPassAppend | src/main/java/org/ryo/microprofile/bootstrap/BootstrapManager.java:78-115 | tokens are processed once each, in order: the first pass over a+b is the pass over a followed by the pass over b |
| Discovery.UnscannedEntries | src/main/java/org/ryo/microprofile/bootstrap/BootstrapManager.java:80-97 | a token that names nothing, or names a file not ending in .jar or .zip, adds nothing |
| Discovery.DirectoryEntry | src/main/java/org/ryo/microprofile/bootstrap/BootstrapManager.java:81-93 | a directory token adds one record per collected marker file; each record has that directory as root and no package; a record for x is added if and only if x is a marker descendant |
| Discovery.DirectoryEntryOnce | src/main/java/org/ryo/microprofile/bootstrap/BootstrapManager.java:81-92 | with well-formed names, no two records a directory token adds name the same marker file; with DirectoryEntry, it adds exactly one record per marker file below it |
| Discovery.ArchiveRecordsShape | src/main/java/org/ryo/microprofile/bootstrap/BootstrapManager.java:100-112 | an archive adds at most one record per class name, each with no paths and a package the loader handed out |
| Discovery.ArchiveRecordsAppend | src/main/java/org/ryo/microprofile/bootstrap/BootstrapManager.java:100-112 | archive records for two stretches of class names append |
| Discovery.ArchiveRecordsAllLoad | src/main/java/org/ryo/microprofile/bootstrap/BootstrapManager.java:100-112 | when every class loads, an archive adds one record per class name, in order, holding that class's package |
| Discovery.ArchiveRecordsFailedLoad | src/main/java/org/ryo/microprofile/bootstrap/BootstrapManager.java:102-110 | a class that fails to load adds nothing, and the loop carries on with the next name |
| Discovery.ResolveAllSpec | src/main/java/org/ryo/microprofile/bootstrap/BootstrapManager.java:116-133 | the second pass keeps the length and every path, and keeps records that already hold a package; a missing package is filled in if and only if the derived class loads, and then holds that class's package |
| Discovery.ResolveAllIdempotent | src/main/java/org/ryo/microprofile/bootstrap/BootstrapManager.java:116-133 | running the second pass again changes nothing |
| Discovery.ResolveAllAppend | src/main/java/org/ryo/microprofile/bootstrap/BootstrapManager.java:116-133 | the second pass treats each record on its own, so it distributes over appending lists |
| Discovery.BootstrapSplit | src/main/java/org/ryo/microprofile/bootstrap/BootstrapManager.java:77-133 | the list built for the classpath a:b is the list built for a followed by the list built for b |
| Discovery.DirectoryClassPath | src/main/java/org/ryo/microprofile/bootstrap/BootstrapManager.java:62-134 | for a one-directory classpath, the final list has one record per marker file below it, in walk order, under that root, holding the package of the class named by the file's relative path if that class loads |
| Discovery.ArchiveClassPath | src/main/java/org/ryo/microprofile/bootstrap/BootstrapManager.java:62-134 | for a one-archive classpath, the final list is exactly the records of the marker classes that load; the second pass leaves them alone |
| Discovery.EmptyClassPath | src/main/java/org/ryo/microprofile/bootstrap/BootstrapManager.java:45-53 | an empty, absent or unreadable classpath gives an empty list |
| Bootstrap.AppendList.Add | src/main/java/org/ryo/microprofile/bootstrap/BootstrapManager.java:141 | List.add appends one element at the end |
| Bootstrap.AppendList.AddEach | src/main/java/org/ryo/microprofile/bootstrap/BootstrapManager.java:139-142 | the loop appends the listed elements, in order, after the old contents |
| Bootstrap.ScanDirForMatchingFiles | src/main/java/org/ryo/microprofile/bootstrap/BootstrapManager.java:136-148 | the list becomes its old contents followed by exactly the walk's matches; a non-directory adds nothing |
| Bootstrap.ScanJarForMatchingFiles | src/main/java/org/ryo/microprofile/bootstrap/BootstrapManager.java:150-165 | the old contents stay a prefix, followed by the class name of each marker entry the enumeration yields, in order |
| Bootstrap.BootstrapManager.constructor | src/main/java/org/ryo/microprofile/bootstrap/BootstrapManager.java:45-53 | construction always succeeds, and the list is the one built from the classpath (empty when the property is absent or unreadable) |
| Bootstrap.BootstrapManager.ScanForPackages | src/main/java/org/ryo/microprofile/bootstrap/BootstrapManager.java:62-134 | an unreadable property throws BootstrapManagerHelperException and an absent one throws NullPointerException, both with the list unchanged; otherwise the list becomes the second pass applied to the old list followed by the first pass over the tokens |
| Bootstrap.BootstrapManager.ScanClassPathEntries | src/main/java/org/ryo/microprofile/bootstrap/BootstrapManager.java:77-115 | the token loop appends exactly the first pass over the tokens |
| Bootstrap.BootstrapManager.ScanEntry | src/main/java/org/ryo/microprofile/bootstrap/BootstrapManager.java:79-114 | one token appends exactly what it contributes: directory records, archive records, or nothing |
| Bootstrap.BootstrapManager.AddDirectoryPackages | src/main/java/org/ryo/microprofile/bootstrap/BootstrapManager.java:81-93 | a directory appends one record per marker file the walk collects |
| Bootstrap.BootstrapManager.AddDirectoryRecords | src/main/java/org/ryo/microprofile/bootstrap/BootstrapManager.java:85-92 | the loop appends, per file, a record with the root and the file and no package |
| Bootstrap.BootstrapManager.AddArchivePackages | src/main/java/org/ryo/microprofile/bootstrap/BootstrapManager.java:94-113 | an archive appends one record per collected class name that loads |
| Bootstrap.BootstrapManager.AddArchiveRecords | src/main/java/org/ryo/microprofile/bootstrap/BootstrapManager.java:100-112 | the loop appends, per loadable class name, a record holding its package, and skips names that fail to load |
| Bootstrap.BootstrapManager.LoadMissingPackages | src/main/java/org/ryo/microprofile/bootstrap/BootstrapManager.java:116-133 | the in-place second pass turns the list into the second pass of its old value, keeping every record handleable |

## Left out

- Logging (every `logger` call) is left out, and so is the `main` entry point (lines 58-60).
- The static singleton `BOOTSTRAP_MANAGER_SINGLETON` and its get/set accessors (lines 37-43, 193-199) are global state with no logic.
- `ResourceInfo`, `ResourceAnnotation` and the `resources` map (lines 56, 173-180) are never used by the scanner.
- `RYOConfigSourceProvider.java` and `TestServer.java` are not part of this model.
- Real `java.io.File`, `JarFile` and `ClassLoader` are replaced by the node tree, the entry sequence and the loader map.
  - `getPackage()` returning null is not distinguished from a loaded package.
  - An `Error`, which `catch (Exception e)` does not catch, is not modelled.
- The choice between the context class loader and the system class loader (lines 72-75) is not modelled; the loader is a parameter.
- Unreadable directories are assumed away: every directory can be listed. In the code, `listFiles` returning null would throw at line 139.
- `java.io.File` path normalisation is not modelled. This covers trailing separators, the root "/", and `getPath` of a token differing from the token. A child path is always parent + "/" + name.
- One path separator (':') and one file separator ('/') are fixed as constants. Platform variation is not modelled.
- Threads and concurrent modification are not modelled.
- `listFiles(filter)` and `list(DIRECTORIES_FILTER)` are taken to list children in the same order.
- Bootstrap.ScanDirForMatchingFiles: the `FilenameFilter filter` parameter (line 136) is not a parameter of the model. The marker test `IsMarkerName` is built in, because the only caller (line 84) passes `PACKAGE_INFO_FILTER`.
- FileSystem.DirMatchesDistinct: a `Node` tree may hold siblings with equal names or names containing '/', which no real directory listing has. For such trees the walk can list a path twice, so "one record per marker file" is proved only for trees satisfying `FileSystem.WellNamed`.
- A subclass overriding `scanForPackages` is not modelled.
- PackageInfo is modelled as a value (`Discovery.PackageInfo`) held in a sequence field, not as a heap object.
  - The source's class has only fields and stands in for a tuple (line 167).
  - No reference to a record escapes the list.
  - The in-place `packageInfo.pkg = pkg` of the second pass becomes an update of the sequence at that index.
