/** Directory trees of the driver asset cache: what a verified tree is, and how it is checked and built. */
module AssetTrees {
  import opened Wrappers
  import opened Sequences

  // ---------------------------------------------------------------------------
  // Trees and manifests
  // ---------------------------------------------------------------------------

  newtype byte = x: int | 0 <= x < 256

  type Content = seq<byte>

  /** A clean relative path, by its components; the empty path is the directory itself. */
  type Path = seq<string>

  const MARKER: Path := [".flowbaton-asset.json"]
  const MARKER_SCHEMA := "flowbaton.asset-cache.v0"

  datatype Entry = Dir | File(content: Content, mode: nat) | Symlink | Special

  /** Everything below one directory. */
  type Tree = map<Path, Entry>

  datatype AssetFile = AssetFile(path: Path, sha256: string, size: int, mode: nat)

  datatype Asset = Asset(
    id: string, hostVersion: string, assetVersion: string, assetHash: string, files: seq<AssetFile>, identity: Path)

  datatype Resolved = Resolved(asset: Asset, manifestVersion: string)

  datatype Marker = Marker(
    schemaVersion: string, manifestVersion: string, hostVersion: string, assetId: string, assetVersion: string,
    assetHash: string, descriptor: string)

  /** Digests and encodings: `decodeMarker` refuses everything that is not a strict marker document. */
  datatype Codec = Codec(
    sha256: Content -> string,
    descriptor: Asset -> string,
    encodeMarker: Marker -> Content,
    decodeMarker: Content -> Option<Marker>,
    windows: bool)

  ghost predicate RoundTrips(codec: Codec) {
    forall marker :: codec.decodeMarker(codec.encodeMarker(marker)) == Some(marker)
  }

  function Parent(path: Path): Path
    requires path != []
  {
    path[..|path| - 1]
  }

  predicate IsProperPrefix(p: Path, path: Path) {
    0 < |p| < |path| && p == path[..|p|]
  }

  /** The entries of a directory tree: every entry but the top ones lies in a directory of the tree. */
  ghost predicate WellFormed(tree: Tree) {
    [] !in tree && forall path, p :: path in tree && IsProperPrefix(p, path) ==> p in tree && tree[p].Dir?
  }

  /** A tree as a file system holds it. */
  type RealTree = tree: Tree | WellFormed(tree) witness map[]

  function ExpectedCacheMarker(codec: Codec, resolved: Resolved): Marker {
    Marker(MARKER_SCHEMA, resolved.manifestVersion, resolved.asset.hostVersion, resolved.asset.id,
           resolved.asset.assetVersion, resolved.asset.assetHash, codec.descriptor(resolved.asset))
  }

  function ReadCacheMarker(codec: Codec, tree: Tree): Option<Marker> {
    if MARKER in tree && tree[MARKER].File? then codec.decodeMarker(tree[MARKER].content) else None
  }

  /** The declared files by path. */
  function Declared(files: seq<AssetFile>): (declared: map<Path, AssetFile>)
    ensures forall p :: p in declared ==> declared[p].path == p && declared[p] in files
    ensures forall i :: 0 <= i < |files| ==> files[i].path in declared
  {
    if files == [] then map[]
    else
      var last := files[|files| - 1];
      Declared(files[..|files| - 1])[last.path := last]
  }

  /** The directories a manifest allows are those above its files. */
  ghost predicate IsAllowedDirectory(files: seq<AssetFile>, p: Path) {
    exists i :: 0 <= i < |files| && IsProperPrefix(p, files[i].path)
  }

  function ValidMode(mode: nat): bool {
    0 < mode <= 0x1FF
  }

  predicate FileOk(codec: Codec, declared: AssetFile, content: Content, mode: nat) {
    && |content| == declared.size && codec.sha256(content) == declared.sha256
    && ValidMode(declared.mode) && (codec.windows || mode == declared.mode)
  }

  ghost predicate EntryOk(codec: Codec, files: seq<AssetFile>, path: Path, entry: Entry) {
    match entry
    case Dir => IsAllowedDirectory(files, path)
    case File(content, mode) =>
      path == MARKER || (path in Declared(files) && FileOk(codec, Declared(files)[path], content, mode))
    case Symlink => false
    case Special => false
  }

  /** The tree carries the marker of the resolved asset, all of its files, its identity candidate, and
      nothing that the manifest does not call for. */
  ghost predicate TreeMatches(codec: Codec, tree: Tree, resolved: Resolved) {
    && ReadCacheMarker(codec, tree) == Some(ExpectedCacheMarker(codec, resolved))
    && (forall p :: p in tree ==> EntryOk(codec, resolved.asset.files, p, tree[p]))
    && (forall p :: p in Declared(resolved.asset.files) ==> p != MARKER && p in tree && tree[p].File?)
    && (resolved.asset.identity == [] || resolved.asset.identity in tree)
  }

  // ---------------------------------------------------------------------------
  // Checking a tree
  // ---------------------------------------------------------------------------

  method AssetDirectories(files: seq<AssetFile>) returns (directories: set<Path>)
    ensures forall p :: p in directories <==> IsAllowedDirectory(files, p)
  {
    hide IsProperPrefix;
    directories := {};
    for i := 0 to |files|
      invariant forall p :: p in directories <==> IsAllowedDirectory(files[..i], p)
    {
      directories := AddAncestors(directories, files[i].path);
      AllowedStep(files, i);
    }
    assert files[..|files|] == files;
  }

  method AddAncestors(before: set<Path>, path: Path) returns (directories: set<Path>)
    ensures forall p :: p in directories <==> p in before || IsProperPrefix(p, path)
  {
    directories := before;
    var current := if path == [] then [] else Parent(path);
    while current != []
      invariant |current| <= |path| && current == path[..|current|]
      invariant path != [] ==> |current| < |path|
      invariant forall p :: p in directories <==> p in before || (IsProperPrefix(p, path) && |p| > |current|)
      decreases |current|
    {
      directories := directories + {current};
      ParentOfPrefix(path, current);
      current := Parent(current);
    }
  }

  lemma ParentOfPrefix(path: Path, current: Path)
    requires 0 < |current| <= |path| && current == path[..|current|]
    ensures Parent(current) == path[..|current| - 1]
  {
  }

  lemma AllowedStep(files: seq<AssetFile>, i: nat)
    requires i < |files|
    ensures forall p :: IsAllowedDirectory(files[..i + 1], p) <==>
              IsAllowedDirectory(files[..i], p) || IsProperPrefix(p, files[i].path)
  {
    hide IsProperPrefix;
    var more, fewer := files[..i + 1], files[..i];
    forall p ensures IsAllowedDirectory(more, p) <==> IsAllowedDirectory(fewer, p) || IsProperPrefix(p, files[i].path) {
      if IsAllowedDirectory(fewer, p) {
        var j :| 0 <= j < |fewer| && IsProperPrefix(p, fewer[j].path);
        assert more[j] == fewer[j];
      }
      if IsProperPrefix(p, files[i].path) {
        assert more[i] == files[i];
      }
    }
  }

  /** The walk visits every entry of the tree, in some order. */
  ghost predicate Enumerates(walk: seq<Path>, tree: Tree) {
    Elements(walk) == tree.Keys
  }

  /** The check of one entry of the walk. */
  predicate EntryPasses(codec: Codec, declared: map<Path, AssetFile>, allowed: set<Path>, path: Path, entry: Entry) {
    match entry
    case Symlink => false
    case Dir => path in allowed
    case Special => false
    case File(content, mode) => path == MARKER || (path in declared && FileOk(codec, declared[path], content, mode))
  }

  /** The entry is a declared file that the walk records. */
  predicate Records(path: Path, entry: Entry) {
    entry.File? && path != MARKER
  }

  /** `root` is None unless it is a real directory. */
  method VerifyAssetTree(codec: Codec, root: Option<Tree>, walk: seq<Path>, resolved: Resolved) returns (ok: bool)
    requires root.Some? ==> Enumerates(walk, root.value)
    ensures ok <==> root.Some? && TreeMatches(codec, root.value, resolved)
  {
    hide FileOk, ReadCacheMarker, ExpectedCacheMarker, IsAllowedDirectory, Declared, EntryPasses, EntryOk;
    if root.None? {
      return false;
    }
    var tree := root.value;
    if ReadCacheMarker(codec, tree) != Some(ExpectedCacheMarker(codec, resolved)) {
      return false;
    }
    var files := resolved.asset.files;
    var declared := Declared(files);
    var allowed := AssetDirectories(files);
    CheckedExactly(codec, files, allowed);
    var seen: set<Path> := {};
    for i := 0 to |walk|
      invariant forall j :: 0 <= j < i ==> walk[j] in tree && EntryOk(codec, files, walk[j], tree[walk[j]])
      invariant forall p :: p in seen <==> p in walk[..i] && p in tree && Records(p, tree[p])
      invariant seen <= declared.Keys
    {
      var path := walk[i];
      assert path in Elements(walk);
      if !EntryPasses(codec, declared, allowed, path, tree[path]) {
        assert !EntryOk(codec, files, path, tree[path]);
        return false;
      }
      if Records(path, tree[path]) {
        PassedIsDeclared(codec, declared, allowed, path, tree[path]);
        seen := seen + {path};
      }
      assert walk[..i + 1] == walk[..i] + [path];
    }
    assert walk[..|walk|] == walk;
    assert forall p :: p in tree ==> p in Elements(walk);
    assert forall p :: p in seen <==> p in tree && Records(p, tree[p]);
    SubsetCardinality(seen, declared.Keys);
    if |seen| != |declared| {
      MissingFile(tree, seen, declared);
      return false;
    }
    assert seen == declared.Keys;
    assert forall p :: p in declared ==> p in seen;
    return resolved.asset.identity == [] || resolved.asset.identity in tree;
  }

  lemma MissingFile(tree: Tree, seen: set<Path>, declared: map<Path, AssetFile>)
    requires seen <= declared.Keys && |seen| != |declared|
    requires forall p :: p in seen <==> p in tree && Records(p, tree[p])
    ensures !(forall p :: p in declared ==> p != MARKER && p in tree && tree[p].File?)
  {
    assert seen != declared.Keys;
    var p :| p in declared && p !in seen;
  }

  lemma PassedIsDeclared(codec: Codec, declared: map<Path, AssetFile>, allowed: set<Path>, path: Path, entry: Entry)
    requires EntryPasses(codec, declared, allowed, path, entry) && Records(path, entry)
    ensures path in declared
  {
  }

  lemma CheckedExactly(codec: Codec, files: seq<AssetFile>, allowed: set<Path>)
    requires forall p :: p in allowed <==> IsAllowedDirectory(files, p)
    ensures forall path, entry ::
              EntryPasses(codec, Declared(files), allowed, path, entry) <==> EntryOk(codec, files, path, entry)
  {
    hide FileOk, IsAllowedDirectory;
  }
}
