/** Unpacking an asset archive into an empty directory, and what the unpacked tree is worth. */
module AssetExtraction {
  import opened Wrappers
  import opened Sequences
  import opened AssetTrees

  // ---------------------------------------------------------------------------
  // Building a tree
  // ---------------------------------------------------------------------------

  predicate IsPrefix(p: Path, path: Path) {
    0 < |p| <= |path| && p == path[..|p|]
  }

  function Prefixes(path: Path): (prefixes: set<Path>)
    ensures forall p :: p in prefixes <==> IsPrefix(p, path)
  {
    set n | 1 <= n <= |path| :: path[..n]
  }

  /** Creates the directory and everything above it; fails when one of them is there and not a directory. */
  function MkdirAll(tree: Tree, path: Path): Option<Tree> {
    if exists p :: p in Prefixes(path) && p in tree && !tree[p].Dir? then None
    else Some(map p | p in tree.Keys + Prefixes(path) :: if p in tree then tree[p] else Dir)
  }

  /** Creates a file that must not be there yet, with its parents, and restores its declared mode. The
      caller gives up the whole tree when the content is not the declared one. */
  function WriteExtractedFile(codec: Codec, tree: Tree, declared: AssetFile, content: Content): Option<Tree>
    requires declared.path != []
  {
    match MkdirAll(tree, Parent(declared.path))
    case None => None
    case Some(parents) =>
      if declared.path in parents || |content| != declared.size || codec.sha256(content) != declared.sha256
          || !ValidMode(declared.mode)
      then None
      else Some(parents[declared.path := File(content, declared.mode)])
  }

  datatype TarKind = TarDirectory | TarFile(size: int, content: Content) | TarOther

  /** One tar header with the content that follows it; `name` is None when the path is unsafe. */
  datatype TarEntry = Unreadable | TarEntry(name: Option<Path>, kind: TarKind)

  ghost predicate SafePaths(resolved: Resolved, entries: seq<TarEntry>) {
    && (forall i :: 0 <= i < |resolved.asset.files| ==> resolved.asset.files[i].path != [])
    && (forall i :: 0 <= i < |entries| && entries[i].TarEntry? ==> entries[i].name != Some([]))
  }

  /** Files the entries hold, by name. */
  ghost function FileNames(entries: seq<TarEntry>): set<Path> {
    if entries == [] then {}
    else
      var last := entries[|entries| - 1];
      FileNames(entries[..|entries| - 1]) + (if last.TarEntry? && last.name.Some? && last.kind.TarFile?
                                             then {last.name.value} else {})
  }

  /** The entry is an allowed directory, or a declared file of the declared size and content. */
  ghost predicate EntryFits(codec: Codec, files: seq<AssetFile>, entry: TarEntry) {
    && entry.TarEntry? && entry.name.Some?
    && match entry.kind
       case TarDirectory => IsAllowedDirectory(files, entry.name.value)
       case TarFile(size, content) =>
         && entry.name.value in Declared(files)
         && size == Declared(files)[entry.name.value].size
         && FileOk(codec, Declared(files)[entry.name.value], content, Declared(files)[entry.name.value].mode)
       case TarOther => false
  }

  /** The archive holds every declared file exactly once and nothing else but allowed directories. */
  ghost predicate ArchiveMatches(codec: Codec, files: seq<AssetFile>, entries: seq<TarEntry>) {
    && (forall i :: 0 <= i < |entries| ==> EntryFits(codec, files, entries[i]))
    && (forall i :: 0 <= i < |entries| && entries[i].kind.TarFile? ==>
        entries[i].name.value !in FileNames(entries[..i]))
    && FileNames(entries) == Declared(files).Keys
  }

  /** No declared file lies below another declared file. */
  ghost predicate NoNesting(files: seq<AssetFile>) {
    forall p, path :: p in Declared(files) && path in Declared(files) ==> !IsProperPrefix(p, path)
  }

  /** What extraction has built after recording the files in `seen`. */
  ghost predicate Building(codec: Codec, files: seq<AssetFile>, tree: Tree, seen: set<Path>) {
    && WellFormed(tree) && seen <= Declared(files).Keys
    && (forall p :: p in seen ==> p in tree && tree[p].File?)
    && (forall p :: p in tree ==> EntryBuilt(codec, files, seen, p, tree[p]))
  }

  ghost predicate EntryBuilt(codec: Codec, files: seq<AssetFile>, seen: set<Path>, path: Path, entry: Entry) {
    match entry
    case Dir => IsAllowedDirectory(files, path)
    case File(content, mode) => path in seen && path in Declared(files) && mode == Declared(files)[path].mode
        && FileOk(codec, Declared(files)[path], content, mode)
    case Symlink => false
    case Special => false
  }

  lemma {:induction false} MkdirKeepsWellFormed(tree: Tree, path: Path)
    requires WellFormed(tree) && MkdirAll(tree, path).Some?
    ensures WellFormed(MkdirAll(tree, path).value)
  {
    var after := MkdirAll(tree, path).value;
    forall q, p | q in after && IsProperPrefix(p, q) ensures p in after && after[p].Dir? {
      if q !in tree {
        assert IsPrefix(p, path);
        assert p in Prefixes(path);
      }
    }
  }

  lemma AllowedAbove(files: seq<AssetFile>, path: Path, p: Path)
    requires path in Declared(files) || IsAllowedDirectory(files, path)
    requires IsProperPrefix(p, path)
    ensures IsAllowedDirectory(files, p)
  {
    if path in Declared(files) {
      assert Declared(files)[path] in files;
      var i :| 0 <= i < |files| && files[i] == Declared(files)[path];
      assert IsProperPrefix(p, files[i].path);
    } else {
      var i :| 0 <= i < |files| && IsProperPrefix(path, files[i].path);
      assert IsProperPrefix(p, files[i].path);
    }
  }

  /** The prefixes of a path below the root of a partly built tree are directories, or nested files. */
  lemma PrefixIsDirectory(codec: Codec, files: seq<AssetFile>, tree: Tree, seen: set<Path>, path: Path, p: Path)
    requires Building(codec, files, tree, seen) && NoNesting(files)
    requires path in Declared(files) || IsAllowedDirectory(files, path)
    requires p in tree && (IsProperPrefix(p, path) || (p == path && IsAllowedDirectory(files, path)))
    ensures tree[p].Dir?
  {
    if IsProperPrefix(p, path) {
      AllowedAbove(files, path, p);
    }
    AllowedIsAboveDeclared(files, p);
    assert EntryBuilt(codec, files, seen, p, tree[p]);
  }

  lemma AllowedIsAboveDeclared(files: seq<AssetFile>, p: Path)
    requires IsAllowedDirectory(files, p)
    ensures exists path :: path in Declared(files) && IsProperPrefix(p, path)
  {
    var i :| 0 <= i < |files| && IsProperPrefix(p, files[i].path);
    assert files[i].path in Declared(files);
  }

  lemma {:induction false} MkdirStep(codec: Codec, files: seq<AssetFile>, tree: Tree, seen: set<Path>, path: Path)
    requires Building(codec, files, tree, seen)
    requires path == [] || IsAllowedDirectory(files, path)
    ensures MkdirAll(tree, path).Some? ==> Building(codec, files, MkdirAll(tree, path).value, seen)
    ensures NoNesting(files) ==> MkdirAll(tree, path).Some?
  {
    hide Declared, NoNesting, FileOk, IsAllowedDirectory;
    if MkdirAll(tree, path).Some? {
      var after := MkdirAll(tree, path).value;
      MkdirKeepsWellFormed(tree, path);
      forall p | p in after ensures EntryBuilt(codec, files, seen, p, after[p]) {
        if p in tree {
          assert EntryBuilt(codec, files, seen, p, tree[p]);
        } else {
          assert IsPrefix(p, path);
          if p != path {
            AllowedAbove(files, path, p);
          }
        }
      }
    }
    if NoNesting(files) {
      forall p | p in Prefixes(path) && p in tree ensures tree[p].Dir? {
        assert IsPrefix(p, path);
        assert p == path || IsProperPrefix(p, path);
        PrefixIsDirectory(codec, files, tree, seen, path, p);
      }
    }
  }

  lemma ParentIsAllowed(files: seq<AssetFile>, name: Path)
    requires name in Declared(files) && name != []
    ensures Parent(name) == [] || IsAllowedDirectory(files, Parent(name))
  {
    if Parent(name) != [] {
      assert IsProperPrefix(Parent(name), name);
      AllowedAbove(files, name, Parent(name));
    }
  }

  lemma MkdirAdds(tree: Tree, path: Path)
    requires MkdirAll(tree, path).Some?
    ensures forall p :: p in MkdirAll(tree, path).value <==> p in tree || IsPrefix(p, path)
    ensures forall p :: IsPrefix(p, path) ==> MkdirAll(tree, path).value[p].Dir?
    ensures forall p :: p in tree ==> MkdirAll(tree, path).value[p] == tree[p]
  {
  }

  /** A file that can be written is the declared one, and keeps the tree well formed. */
  lemma {:induction false} FileStep(codec: Codec, files: seq<AssetFile>, tree: Tree, seen: set<Path>, name: Path,
                                    content: Content)
    requires Building(codec, files, tree, seen)
    requires name != [] && name in Declared(files) && name !in seen
    ensures WriteExtractedFile(codec, tree, Declared(files)[name], content).Some? ==>
              && FileOk(codec, Declared(files)[name], content, Declared(files)[name].mode)
              && Building(codec, files, WriteExtractedFile(codec, tree, Declared(files)[name], content).value,
                          seen + {name})
    ensures NoNesting(files) && FileOk(codec, Declared(files)[name], content, Declared(files)[name].mode) ==>
              WriteExtractedFile(codec, tree, Declared(files)[name], content).Some?
  {
    hide Declared, NoNesting, IsAllowedDirectory, MkdirAll, WellFormed;
    var file := Declared(files)[name];
    ParentIsAllowed(files, name);
    MkdirStep(codec, files, tree, seen, Parent(name));
    if MkdirAll(tree, Parent(name)).Some? {
      var parents := MkdirAll(tree, Parent(name)).value;
      MkdirAdds(tree, Parent(name));
      if NoNesting(files) && name in parents {
        NameIsFree(codec, files, parents, seen, name);
      }
      if WriteExtractedFile(codec, tree, file, content).Some? {
        AddingFileKeepsWellFormed(parents, name, content, file.mode);
        AddedEntries(codec, files, parents, WriteExtractedFile(codec, tree, file, content).value, seen, name, content);
      }
    }
  }

  /** Without nesting, the name of a declared file that was not written yet is free. */
  lemma NameIsFree(codec: Codec, files: seq<AssetFile>, tree: Tree, seen: set<Path>, name: Path)
    requires Building(codec, files, tree, seen) && NoNesting(files)
    requires name in Declared(files) && name !in seen
    ensures name !in tree
  {
    hide Declared, IsAllowedDirectory;
    if name in tree {
      assert EntryBuilt(codec, files, seen, name, tree[name]);
      AllowedIsAboveDeclared(files, name);
    }
  }

  lemma AddingFileKeepsWellFormed(tree: Tree, name: Path, content: Content, mode: nat)
    requires WellFormed(tree) && name != [] && name !in tree
    requires forall p :: IsPrefix(p, Parent(name)) ==> p in tree && tree[p].Dir?
    ensures WellFormed(tree[name := File(content, mode)])
  {
    var after := tree[name := File(content, mode)];
    forall path, p | path in after && IsProperPrefix(p, path) ensures p in after && after[p].Dir? {
      if path == name {
        assert IsPrefix(p, Parent(name));
      }
    }
  }

  lemma AddedEntries(codec: Codec, files: seq<AssetFile>, tree: Tree, after: Tree, seen: set<Path>, name: Path,
                     content: Content)
    requires Building(codec, files, tree, seen) && name in Declared(files) && name !in tree
    requires FileOk(codec, Declared(files)[name], content, Declared(files)[name].mode)
    requires after == tree[name := File(content, Declared(files)[name].mode)]
    ensures forall p :: p in after ==> EntryBuilt(codec, files, seen + {name}, p, after[p])
  {
    hide Declared, IsAllowedDirectory, FileOk, WellFormed;
    forall p | p in tree ensures EntryBuilt(codec, files, seen + {name}, p, tree[p]) {
      assert EntryBuilt(codec, files, seen, p, tree[p]);
    }
  }

  /** A tree with all declared files shows that none of them lies below another. */
  lemma CompleteIsUnnested(codec: Codec, files: seq<AssetFile>, tree: Tree)
    requires Building(codec, files, tree, Declared(files).Keys)
    ensures NoNesting(files)
  {
    hide Declared;
  }

  // ---------------------------------------------------------------------------
  // Unpacking a tar archive
  // ---------------------------------------------------------------------------

  /** Unpacks the entries into an empty directory. `streamOk` tells whether the rest of the compressed
      stream is readable and has the declared size and digest. */
  method ExtractTarGZIP(codec: Codec, entries: seq<TarEntry>, streamOk: bool, resolved: Resolved)
    returns (tree: Option<Tree>)
    requires SafePaths(resolved, entries)
    ensures tree.Some? <==>
              streamOk && ArchiveMatches(codec, resolved.asset.files, entries) && NoNesting(resolved.asset.files)
    ensures tree.Some? ==> Building(codec, resolved.asset.files, tree.value, Declared(resolved.asset.files).Keys)
  {
    hide Declared, IsAllowedDirectory, FileOk, Building, NoNesting, FileNames, MkdirAll, WriteExtractedFile;
    var files := resolved.asset.files;
    var declared := Declared(files);
    var allowed := AssetDirectories(files);
    var current: Tree := map[];
    var seen: set<Path> := {};
    EmptyIsBuilding(codec, files);
    for i := 0 to |entries|
      invariant Building(codec, files, current, seen)
      invariant seen == FileNames(entries[..i]) && seen <= declared.Keys
      invariant forall j :: 0 <= j < i ==> EntryFits(codec, files, entries[j])
      invariant forall j :: 0 <= j < i && entries[j].kind.TarFile? ==> entries[j].name.value !in FileNames(entries[..j])
    {
      var entry := entries[i];
      FileNamesStep(entries, i);
      if entry.Unreadable? || entry.name.None? {
        assert !EntryFits(codec, files, entry);
        return None;
      }
      var name := entry.name.value;
      match entry.kind {
        case TarDirectory =>
          if name !in allowed {
            assert !EntryFits(codec, files, entry);
            return None;
          }
          MkdirStep(codec, files, current, seen, name);
          var made := MkdirAll(current, name);
          if made.None? {
            return None;
          }
          current := made.value;
        case TarFile(size, content) =>
          if name !in declared {
            assert !EntryFits(codec, files, entry);
            return None;
          }
          if name in seen {
            return None;
          }
          if size != declared[name].size {
            assert !EntryFits(codec, files, entry);
            return None;
          }
          FileStep(codec, files, current, seen, name, content);
          var written := WriteExtractedFile(codec, current, declared[name], content);
          if written.None? {
            return None;
          }
          current := written.value;
          seen := seen + {name};
        case TarOther =>
          assert !EntryFits(codec, files, entry);
          return None;
      }
    }
    assert entries[..|entries|] == entries;
    if !streamOk {
      return None;
    }
    SubsetCardinality(seen, declared.Keys);
    if |seen| != |declared| {
      return None;
    }
    CompleteIsUnnested(codec, files, current);
    return Some(current);
  }

  lemma EmptyIsBuilding(codec: Codec, files: seq<AssetFile>)
    ensures Building(codec, files, map[], {}) && FileNames([]) == {}
  {
  }

  lemma FileNamesStep(entries: seq<TarEntry>, i: nat)
    requires i < |entries|
    ensures FileNames(entries[..i + 1]) == FileNames(entries[..i])
            + (if entries[i].TarEntry? && entries[i].name.Some? && entries[i].kind.TarFile?
               then {entries[i].name.value} else {})
  {
    assert entries[..i + 1][..i] == entries[..i];
  }

  // ---------------------------------------------------------------------------
  // What verification and extraction promise
  // ---------------------------------------------------------------------------

  /** A verified tree holds exactly the declared files, the directories above them, and the marker. */
  lemma {:induction false} VerifiedTreeIsExact(codec: Codec, tree: Tree, resolved: Resolved)
    requires WellFormed(tree) && TreeMatches(codec, tree, resolved)
    ensures forall p :: p in tree <==>
              p == MARKER || p in Declared(resolved.asset.files) || IsAllowedDirectory(resolved.asset.files, p)
    ensures forall p :: p in Declared(resolved.asset.files) ==>
              && p in tree && tree[p].File?
              && FileOk(codec, Declared(resolved.asset.files)[p], tree[p].content, tree[p].mode)
    ensures forall p :: p in tree && tree[p].Dir? <==> IsAllowedDirectory(resolved.asset.files, p)
  {
    hide Declared, FileOk;
    var files := resolved.asset.files;
    forall p | p in tree ensures EntryOk(codec, files, p, tree[p]) {
    }
    forall p | IsAllowedDirectory(files, p) ensures p in tree && tree[p].Dir? {
      AllowedIsAboveDeclared(files, p);
    }
  }

  /** What is left when a removal stops half way is some, but not all, of the removed tree. */
  ghost predicate Residue(left: Tree, tree: Tree) {
    WellFormed(left) && left.Keys <= tree.Keys && forall p :: p in left ==> left[p] == tree[p]
  }

  /** No proper residue of a verified tree passes verification. */
  lemma {:induction false} ResidueNeverVerifies(codec: Codec, tree: Tree, left: Tree, resolved: Resolved)
    requires WellFormed(tree) && TreeMatches(codec, tree, resolved)
    requires Residue(left, tree) && left != tree
    ensures !TreeMatches(codec, left, resolved)
  {
    hide TreeMatches, WellFormed, Declared, FileOk, IsAllowedDirectory;
    ResidueLacksSomething(left, tree);
    VerifiedTreeIsExact(codec, tree, resolved);
    if TreeMatches(codec, left, resolved) {
      VerifiedTreeIsExact(codec, left, resolved);
    }
  }

  lemma ResidueLacksSomething(left: Tree, tree: Tree)
    requires Residue(left, tree) && left != tree
    ensures exists p :: p in tree && p !in left
  {
    hide WellFormed;
    assert left.Keys != tree.Keys;
  }

  /** Writes the marker; fails when a directory is in its place. */
  function WriteCacheMarker(codec: Codec, tree: Tree, resolved: Resolved): Option<Tree> {
    if MARKER in tree && !tree[MARKER].File? then None
    else Some(tree[MARKER := File(codec.encodeMarker(ExpectedCacheMarker(codec, resolved)), 0x180)])
  }

  /** The identity is a declared file or a directory above one. */
  ghost predicate IdentityDeclared(resolved: Resolved) {
    resolved.asset.identity in Declared(resolved.asset.files)
        || IsAllowedDirectory(resolved.asset.files, resolved.asset.identity)
  }

  /** The file is in the tree with the declared size, digest and mode; Windows has no modes to compare. */
  ghost predicate FileInTree(codec: Codec, tree: Tree, file: AssetFile) {
    && file.path in tree && tree[file.path].File?
    && |tree[file.path].content| == file.size && codec.sha256(tree[file.path].content) == file.sha256
    && 0 < file.mode < 0x200 && (tree[file.path].mode == file.mode || codec.windows)
  }

  /** The marker in the tree names the asset and the manifest it came from. */
  ghost predicate MarkerInTree(codec: Codec, tree: Tree, resolved: Resolved) {
    && MARKER in tree && tree[MARKER].File?
    && var marker := codec.decodeMarker(tree[MARKER].content);
       && marker.Some? && marker.value.schemaVersion == "flowbaton.asset-cache.v0"
       && marker.value.manifestVersion == resolved.manifestVersion
       && marker.value.hostVersion == resolved.asset.hostVersion && marker.value.assetId == resolved.asset.id
       && marker.value.assetVersion == resolved.asset.assetVersion
       && marker.value.assetHash == resolved.asset.assetHash
       && marker.value.descriptor == codec.descriptor(resolved.asset)
  }

  /** The path is the marker, a declared file, or a directory on the way to one. */
  ghost predicate CalledFor(files: seq<AssetFile>, p: Path, entry: Entry) {
    p == MARKER
    || exists i :: 0 <= i < |files| && (p == files[i].path || (IsProperPrefix(p, files[i].path) && entry.Dir?))
  }

  ghost predicate DistinctPaths(files: seq<AssetFile>) {
    forall i, j :: 0 <= i < j < |files| ==> files[i].path != files[j].path
  }

  lemma {:induction false} DeclaredAtItsPath(files: seq<AssetFile>, i: nat)
    requires DistinctPaths(files) && i < |files|
    ensures files[i].path in Declared(files) && Declared(files)[files[i].path] == files[i]
  {
    var j :| 0 <= j < |files| && files[j] == Declared(files)[files[i].path];
  }

  lemma MarkerIsRead(codec: Codec, tree: Tree, resolved: Resolved)
    ensures ReadCacheMarker(codec, tree) == Some(ExpectedCacheMarker(codec, resolved)) <==>
              MarkerInTree(codec, tree, resolved)
  {
  }

  ghost predicate FilesInTree(codec: Codec, tree: Tree, files: seq<AssetFile>) {
    forall i :: 0 <= i < |files| ==> files[i].path != MARKER && FileInTree(codec, tree, files[i])
  }

  ghost predicate AllCalledFor(files: seq<AssetFile>, tree: Tree) {
    forall p :: p in tree ==> CalledFor(files, p, tree[p])
  }

  lemma MatchingIsCalledFor(codec: Codec, tree: Tree, resolved: Resolved)
    requires DistinctPaths(resolved.asset.files) && TreeMatches(codec, tree, resolved)
    ensures FilesInTree(codec, tree, resolved.asset.files) && AllCalledFor(resolved.asset.files, tree)
  {
    hide Declared, MarkerInTree, ReadCacheMarker, ExpectedCacheMarker, IsProperPrefix;
    var files := resolved.asset.files;
    forall i | 0 <= i < |files| ensures files[i].path != MARKER && FileInTree(codec, tree, files[i]) {
      DeclaredAtItsPath(files, i);
      assert EntryOk(codec, files, files[i].path, tree[files[i].path]);
    }
    forall p | p in tree ensures CalledFor(files, p, tree[p]) {
      assert EntryOk(codec, files, p, tree[p]);
      if tree[p].File? && p != MARKER {
        assert Declared(files)[p].path == p && Declared(files)[p] in files;
      }
    }
  }

  lemma CalledForMatches(codec: Codec, tree: Tree, resolved: Resolved)
    requires WellFormed(tree) && DistinctPaths(resolved.asset.files) && IdentityDeclared(resolved)
    requires MarkerInTree(codec, tree, resolved)
    requires FilesInTree(codec, tree, resolved.asset.files) && AllCalledFor(resolved.asset.files, tree)
    ensures TreeMatches(codec, tree, resolved)
  {
    hide Declared, ExpectedCacheMarker, ReadCacheMarker, IsProperPrefix;
    var files := resolved.asset.files;
    MarkerIsRead(codec, tree, resolved);
    forall p | p in tree ensures EntryOk(codec, files, p, tree[p]) {
      assert CalledFor(files, p, tree[p]);
      if p != MARKER {
        var i :| 0 <= i < |files| && (p == files[i].path || (IsProperPrefix(p, files[i].path) && tree[p].Dir?));
        if p == files[i].path {
          DeclaredAtItsPath(files, i);
        }
      }
    }
    forall p | p in Declared(files) ensures p != MARKER && p in tree && tree[p].File? {
      var i :| 0 <= i < |files| && files[i] == Declared(files)[p];
    }
    var identity := resolved.asset.identity;
    if identity !in Declared(files) {
      var i :| 0 <= i < |files| && IsProperPrefix(identity, files[i].path);
      assert files[i].path in tree;
    }
  }

  /** A tree verifies exactly when it carries the marker of the asset, every file of the manifest with its
      declared size, digest and mode, and nothing that the manifest does not call for. */
  lemma {:induction false} TreeVerifiesExactlyWhen(codec: Codec, tree: Tree, resolved: Resolved)
    requires WellFormed(tree) && DistinctPaths(resolved.asset.files) && IdentityDeclared(resolved)
    ensures TreeMatches(codec, tree, resolved) <==>
            && MarkerInTree(codec, tree, resolved)
            && FilesInTree(codec, tree, resolved.asset.files)
            && AllCalledFor(resolved.asset.files, tree)
  {
    hide WellFormed, MarkerInTree, FilesInTree, AllCalledFor, EntryOk, Declared;
    MarkerIsRead(codec, tree, resolved);
    if TreeMatches(codec, tree, resolved) {
      MatchingIsCalledFor(codec, tree, resolved);
    }
    if MarkerInTree(codec, tree, resolved) && FilesInTree(codec, tree, resolved.asset.files)
        && AllCalledFor(resolved.asset.files, tree) {
      CalledForMatches(codec, tree, resolved);
    }
  }

  /** The manifest leaves room: no declared file lies below another, none takes the marker's place, and none
      lies below the marker's place. */
  ghost predicate HasRoom(files: seq<AssetFile>) {
    NoNesting(files) && MARKER !in Declared(files) && !IsAllowedDirectory(files, MARKER)
  }

  /** Only a manifest that leaves room has a tree that verifies. */
  lemma {:induction false} MatchNeedsRoom(codec: Codec, tree: Tree, resolved: Resolved)
    requires WellFormed(tree) && TreeMatches(codec, tree, resolved)
    ensures HasRoom(resolved.asset.files)
  {
    hide Declared, FileOk, IsAllowedDirectory;
    VerifiedTreeIsExact(codec, tree, resolved);
  }

  /** Writing the marker keeps the tree a tree. */
  lemma MarkerKeepsWellFormed(codec: Codec, tree: Tree, resolved: Resolved)
    requires WellFormed(tree) && WriteCacheMarker(codec, tree, resolved).Some?
    ensures WellFormed(WriteCacheMarker(codec, tree, resolved).value)
  {
    hide ExpectedCacheMarker;
    var after := WriteCacheMarker(codec, tree, resolved).value;
    forall path, p | path in after && IsProperPrefix(p, path) ensures p in after && after[p].Dir? {
      assert path != MARKER;
    }
  }

  /** An extracted tree can be given its marker and then verifies, exactly when the manifest leaves the
      marker's place free: neither a file nor a directory is declared there. */
  lemma {:induction false} ExtractedTreeVerifies(codec: Codec, tree: Tree, resolved: Resolved)
    requires RoundTrips(codec) && IdentityDeclared(resolved)
    requires Building(codec, resolved.asset.files, tree, Declared(resolved.asset.files).Keys)
    ensures && WriteCacheMarker(codec, tree, resolved).Some?
            && TreeMatches(codec, WriteCacheMarker(codec, tree, resolved).value, resolved)
       <==> MARKER !in Declared(resolved.asset.files) && !IsAllowedDirectory(resolved.asset.files, MARKER)
  {
    hide Declared, TreeMatches, WriteCacheMarker, Building, FileOk, ExpectedCacheMarker;
    MarkerIsWrittenExactlyWhen(codec, tree, resolved);
    if WriteCacheMarker(codec, tree, resolved).Some? {
      MarkedTreeVerifies(codec, tree, resolved);
    }
  }

  lemma MarkerIsWrittenExactlyWhen(codec: Codec, tree: Tree, resolved: Resolved)
    requires Building(codec, resolved.asset.files, tree, Declared(resolved.asset.files).Keys)
    ensures WriteCacheMarker(codec, tree, resolved).Some? <==> !IsAllowedDirectory(resolved.asset.files, MARKER)
  {
    hide Declared, FileOk, ExpectedCacheMarker;
    var files := resolved.asset.files;
    assert MARKER in tree ==> EntryBuilt(codec, files, Declared(files).Keys, MARKER, tree[MARKER]);
    if IsAllowedDirectory(files, MARKER) {
      AllowedIsAboveDeclared(files, MARKER);
    }
  }

  lemma MarkedTreeVerifies(codec: Codec, tree: Tree, resolved: Resolved)
    requires RoundTrips(codec) && IdentityDeclared(resolved)
    requires Building(codec, resolved.asset.files, tree, Declared(resolved.asset.files).Keys)
    requires WriteCacheMarker(codec, tree, resolved).Some?
    ensures TreeMatches(codec, WriteCacheMarker(codec, tree, resolved).value, resolved) <==>
            MARKER !in Declared(resolved.asset.files)
  {
    hide Declared, FileOk, ExpectedCacheMarker;
    var files := resolved.asset.files;
    var after := WriteCacheMarker(codec, tree, resolved).value;
    if MARKER !in Declared(files) {
      forall p | p in after ensures EntryOk(codec, files, p, after[p]) {
        if p != MARKER {
          assert EntryBuilt(codec, files, Declared(files).Keys, p, tree[p]);
        }
      }
      if resolved.asset.identity !in Declared(files) {
        AllowedIsAboveDeclared(files, resolved.asset.identity);
      }
    }
  }

  // ---------------------------------------------------------------------------
  // Manifests that can never be acquired
  // ---------------------------------------------------------------------------

  /** A declared empty file and the tar entry that holds it. */
  function EmptyFile(codec: Codec, path: Path): AssetFile {
    AssetFile(path, codec.sha256([]), 0, 0x1A4)
  }

  function EmptyEntry(path: Path): TarEntry {
    TarEntry(Some(path), TarFile(0, []))
  }

  function ManifestOf(files: seq<AssetFile>, identity: Path): Resolved {
    Resolved(Asset("driver", "1", "1", "", files, identity), "1")
  }

  lemma TwoFilesMatch(codec: Codec, a: Path, b: Path)
    requires a != b
    ensures var files := [EmptyFile(codec, a), EmptyFile(codec, b)];
            Declared(files).Keys == {a, b} && ArchiveMatches(codec, files, [EmptyEntry(a), EmptyEntry(b)])
  {
    var files := [EmptyFile(codec, a), EmptyFile(codec, b)];
    var entries := [EmptyEntry(a), EmptyEntry(b)];
    assert files[..1] == [EmptyFile(codec, a)] && files[..1][..0] == [];
    assert Declared(files) == map[a := EmptyFile(codec, a), b := EmptyFile(codec, b)];
    assert entries[..1] == [EmptyEntry(a)] && entries[..1][..0] == [] && entries[..0] == [];
    assert FileNames([]) == {} && FileNames(entries[..1]) == {a};
  }

  /** An archive that holds exactly what its manifest declares is refused when one file lies below another. */
  method NestedManifestIsRefused(codec: Codec) returns (tree: Option<Tree>)
    ensures var files := [EmptyFile(codec, ["a"]), EmptyFile(codec, ["a", "b"])];
            ArchiveMatches(codec, files, [EmptyEntry(["a"]), EmptyEntry(["a", "b"])]) && !NoNesting(files)
    ensures tree.None?
  {
    hide ArchiveMatches, Declared;
    var files := [EmptyFile(codec, ["a"]), EmptyFile(codec, ["a", "b"])];
    assert |["a"]| != |["a", "b"]|;
    TwoFilesMatch(codec, ["a"], ["a", "b"]);
    assert IsProperPrefix(["a"], ["a", "b"]);
    assert ["a"] in Declared(files) && ["a", "b"] in Declared(files);
    tree := ExtractTarGZIP(codec, [EmptyEntry(["a"]), EmptyEntry(["a", "b"])], true, ManifestOf(files, ["a"]));
  }

  /** An archive whose manifest declares a file in the marker's place is extracted, and never verifies. */
  method MarkerManifestNeverVerifies(codec: Codec) returns (tree: Option<Tree>)
    requires RoundTrips(codec)
    ensures tree.Some? && WriteCacheMarker(codec, tree.value, MarkerManifest(codec)).Some?
    ensures !TreeMatches(codec, WriteCacheMarker(codec, tree.value, MarkerManifest(codec)).value, MarkerManifest(codec))
  {
    hide ArchiveMatches, Declared, TreeMatches, Building, NoNesting;
    TwoFilesMatch(codec, ["a"], MARKER);
    MarkerManifestIsFlat(codec);
    tree := ExtractTarGZIP(codec, [EmptyEntry(["a"]), EmptyEntry(MARKER)], true, MarkerManifest(codec));
    MarkerIsWritten(codec, tree.value, MarkerManifest(codec));
    MarkedTreeVerifies(codec, tree.value, MarkerManifest(codec));
  }

  function MarkerManifest(codec: Codec): Resolved {
    ManifestOf([EmptyFile(codec, ["a"]), EmptyFile(codec, MARKER)], ["a"])
  }

  lemma MarkerManifestIsFlat(codec: Codec)
    ensures ["a"] != MARKER && MARKER in Declared(MarkerManifest(codec).asset.files)
    ensures NoNesting(MarkerManifest(codec).asset.files) && IdentityDeclared(MarkerManifest(codec))
    ensures SafePaths(MarkerManifest(codec), [EmptyEntry(["a"]), EmptyEntry(MARKER)])
  {
    hide ArchiveMatches, Declared;
    assert |["a"][0]| != |MARKER[0]|;
    TwoFilesMatch(codec, ["a"], MARKER);
  }

  lemma MarkerIsWritten(codec: Codec, tree: Tree, resolved: Resolved)
    requires Building(codec, resolved.asset.files, tree, Declared(resolved.asset.files).Keys)
    requires MARKER in Declared(resolved.asset.files)
    ensures WriteCacheMarker(codec, tree, resolved).Some?
  {
    hide Declared;
  }

  function BuriedManifest(codec: Codec): Resolved {
    ManifestOf([EmptyFile(codec, ["a"]), EmptyFile(codec, MARKER + ["x"])], ["a"])
  }

  lemma BuriedManifestIsFlat(codec: Codec)
    ensures ["a"] != MARKER + ["x"]
    ensures NoNesting(BuriedManifest(codec).asset.files) && MARKER !in Declared(BuriedManifest(codec).asset.files)
    ensures IsAllowedDirectory(BuriedManifest(codec).asset.files, MARKER)
    ensures SafePaths(BuriedManifest(codec), [EmptyEntry(["a"]), EmptyEntry(MARKER + ["x"])])
  {
    hide ArchiveMatches, Declared;
    var files := BuriedManifest(codec).asset.files;
    assert |["a"]| != |MARKER + ["x"]|;
    TwoFilesMatch(codec, ["a"], MARKER + ["x"]);
    assert |["a"][0]| != |MARKER[0]|;
    assert IsProperPrefix(MARKER, files[1].path);
  }

  /** An archive whose manifest declares a file below the marker's place is unpacked, with a directory where
      the marker would be, and the marker cannot be written. */
  method BuriedMarkerIsNeverWritten(codec: Codec) returns (tree: Option<Tree>)
    ensures NoNesting(BuriedManifest(codec).asset.files) && MARKER !in Declared(BuriedManifest(codec).asset.files)
    ensures tree.Some? && WriteCacheMarker(codec, tree.value, BuriedManifest(codec)).None?
  {
    hide ArchiveMatches, Declared, Building, NoNesting, IsAllowedDirectory, WriteCacheMarker;
    BuriedManifestIsFlat(codec);
    TwoFilesMatch(codec, ["a"], MARKER + ["x"]);
    tree := ExtractTarGZIP(codec, [EmptyEntry(["a"]), EmptyEntry(MARKER + ["x"])], true, BuriedManifest(codec));
    MarkerIsWrittenExactlyWhen(codec, tree.value, BuriedManifest(codec));
  }
}
