/** Acquire and Cleanup as one process runs them, over the directories it sees. Each acquisition under
    its lock is shown to be a path of the transition system that the safety theorems are about. */
module AssetStore {
  import opened Wrappers
  import opened AssetTrees
  import opened AssetExtraction
  import opened AssetCache

  /** What the identity verifier answers, and whether it meddled with the directory it was shown. */
  datatype Verdict = Verdict(accepts: bool, meddles: bool, leaves: Option<RealTree>)

  /** Everything outside that one acquisition meets. `leaves` says of each directory whether its removal
      fails, and which paths are then left. */
  datatype Environment = Environment(
    temps: seq<nat>,
    leaves: Place -> Option<set<Path>>,
    lstatFails: bool,
    cachedVerdict: Verdict,
    archiveOk: bool,
    mkdirFails: bool,
    nonce: nat,
    entries: seq<TarEntry>,
    streamOk: bool,
    partial: RealTree,
    markerFails: bool,
    tempVerdict: Verdict,
    cancelled: bool,
    renameFails: bool)

  ghost predicate ListsTemps(dirs: Dirs, key: Key, temps: seq<nat>) {
    forall place :: place in dirs && Belongs(place, key) && place.Temp? ==> place.nonce in temps
  }

  /** What is left of a tree when only the given paths survive; nothing survives without its parents. */
  function Remainder(tree: Tree, kept: set<Path>): Tree {
    map p | p in tree && Survives(kept, p) :: if p in tree && Survives(kept, p) then tree[p] else Dir
  }

  predicate Survives(kept: set<Path>, p: Path) {
    p in kept && forall n :: 0 < n < |p| ==> p[..n] in kept
  }

  lemma RemainderIsPart(tree: Tree, kept: set<Path>)
    ensures IsPartOf(Remainder(tree, kept), tree)
  {
    var left := Remainder(tree, kept);
    if WellFormed(tree) {
      forall path, p | path in left && IsProperPrefix(p, path) ensures p in left && left[p].Dir? {
        forall n | 0 < n < |p| ensures p[..n] in kept {
          assert p[..n] == path[..n];
        }
        assert p == path[..|p|];
      }
    }
  }

  /** One moment of an acquisition that holds its lock. */
  datatype Moment = Moment(stage: AcquireStage, dirs: Dirs)

  ghost predicate Follows(codec: Codec, resolved: Resolved, a: Moment, b: Moment) {
    AcquireStep(codec, resolved, a.stage, a.dirs, b.stage, b.dirs)
  }

  /** The moments are consecutive steps of the acquisition protocol. */
  ghost predicate IsPath(codec: Codec, resolved: Resolved, path: seq<Moment>) {
    path != [] && forall i :: 0 <= i < |path| - 1 ==> Follows(codec, resolved, path[i], path[i + 1])
  }

  ghost predicate EndsAt(path: seq<Moment>, stage: AcquireStage, dirs: Dirs) {
    path != [] && path[|path| - 1] == Moment(stage, dirs)
  }

  ghost function Then(codec: Codec, resolved: Resolved, path: seq<Moment>, stage: AcquireStage,
                      dirs: Dirs): (longer: seq<Moment>)
    requires IsPath(codec, resolved, path) && Follows(codec, resolved, path[|path| - 1], Moment(stage, dirs))
    ensures IsPath(codec, resolved, longer) && EndsAt(longer, stage, dirs) && longer[0] == path[0]
  {
    path + [Moment(stage, dirs)]
  }

  method Walk(tree: Tree) returns (walk: seq<Path>)
    ensures Enumerates(walk, tree)
  {
    walk := [];
    var rest := tree.Keys;
    while rest != {}
      invariant forall p :: p in tree <==> p in rest || p in walk
      decreases |rest|
    {
      var p :| p in rest;
      walk := walk + [p];
      rest := rest - {p};
    }
  }

  /** The directories after the identity verifier was shown one of them. */
  ghost function AfterVerdict(dirs: Dirs, place: Place, verdict: Verdict): Dirs {
    if !verdict.meddles then dirs
    else if verdict.leaves.Some? then dirs[place := verdict.leaves.value]
    else dirs - {place}
  }

  /** A cached directory that verifies is there, the verifier accepts it as it is, and nothing gets in the way. */
  ghost predicate CacheHit(codec: Codec, resolved: Resolved, env: Environment, dirs: Dirs) {
    && Passes(codec, dirs, Final(KeyOfAsset(resolved)), resolved) && env.cachedVerdict.accepts
    && !env.cachedVerdict.meddles && !env.lstatFails && NothingSticks(env)
  }

  /** What serving a cached directory takes: it can be inspected, it verifies, and the verifier accepts it. */
  ghost predicate CacheWorks(codec: Codec, resolved: Resolved, env: Environment, dirs: Dirs) {
    && !env.lstatFails && Passes(codec, dirs, Final(KeyOfAsset(resolved)), resolved) && env.cachedVerdict.accepts
  }

  /** What fetching takes: the archive is authentic and holds what the manifest declares, the verifier accepts
      what was unpacked, and neither the file system nor a cancellation gets in the way. */
  ghost predicate FetchWorks(codec: Codec, resolved: Resolved, env: Environment) {
    && env.archiveOk && !env.mkdirFails && env.streamOk && !env.markerFails && !env.cancelled && !env.renameFails
    && env.tempVerdict.accepts && ArchiveMatches(codec, resolved.asset.files, env.entries)
  }

  class Store {
    var dirs: Dirs

    constructor (dirs: Dirs)
      ensures this.dirs == dirs
    {
      this.dirs := dirs;
    }

    /** Removes a directory and everything below it; a failing removal may leave any part of it. */
    method RemoveAll(place: Place, leaves: Option<set<Path>>) returns (ok: bool)
      modifies this
      ensures Shrinks(old(dirs), dirs, place)
      ensures ok <==> old(place !in dirs) || leaves.None?
      ensures ok ==> dirs == old(dirs) - {place}
      ensures !ok ==> place in dirs && dirs[place] == Remainder(old(dirs)[place], leaves.value)
    {
      if place !in dirs {
        return true;
      }
      if leaves.None? {
        dirs := dirs - {place};
        return true;
      }
      RemainderIsPart(dirs[place], leaves.value);
      dirs := dirs[place := Remainder(dirs[place], leaves.value)];
      return false;
    }

    method VerifyTree(codec: Codec, place: Place, resolved: Resolved) returns (ok: bool)
      ensures ok <==> Passes(codec, dirs, place, resolved)
    {
      if place !in dirs {
        return false;
      }
      var walk := Walk(dirs[place]);
      ok := VerifyAssetTree(codec, Some(dirs[place]), walk, resolved);
    }

    /** Checks the tree, lets the identity verifier look at it, and checks it again. */
    method VerifyAssetDirectory(codec: Codec, place: Place, resolved: Resolved, verdict: Verdict) returns (ok: bool)
      modifies this
      ensures OnlyChanges(old(dirs), dirs, place)
      ensures !Passes(codec, old(dirs), place, resolved) ==> !ok && dirs == old(dirs)
      ensures Passes(codec, old(dirs), place, resolved) ==> dirs == AfterVerdict(old(dirs), place, verdict)
      ensures ok <==> Passes(codec, old(dirs), place, resolved) && verdict.accepts
                      && Passes(codec, AfterVerdict(old(dirs), place, verdict), place, resolved)
      ensures Passes(codec, old(dirs), place, resolved) && verdict.accepts && !verdict.meddles ==>
                ok && dirs == old(dirs)
    {
      hide TreeMatches;
      ok := VerifyTree(codec, place, resolved);
      if !ok {
        return false;
      }
      if verdict.meddles {
        dirs := if verdict.leaves.Some? then dirs[place := verdict.leaves.value] else dirs - {place};
      }
      if !verdict.accepts {
        return false;
      }
      ok := VerifyTree(codec, place, resolved);
    }

    /** Removes what interrupted acquisitions of the asset left behind. */
    method RemoveInterruptedTemps(codec: Codec, resolved: Resolved, env: Environment, ghost before: seq<Moment>)
      returns (ok: bool, ghost path: seq<Moment>)
      requires IsPath(codec, resolved, before) && EndsAt(before, Clearing, dirs)
      requires ListsTemps(dirs, KeyOfAsset(resolved), env.temps)
      modifies this
      ensures IsPath(codec, resolved, path) && path[0] == before[0]
      ensures EndsAt(path, if ok then Inspecting else Returning(false), dirs)
      ensures NothingSticks(env) ==> ok
      ensures forall place: Place :: place.Final? ==> Untouched(old(dirs), dirs, place)
    {
      hide KeyOfAsset, Shrinks, AcquireStep, IsPath;
      var key := KeyOfAsset(resolved);
      path := before;
      for i := 0 to |env.temps|
        invariant IsPath(codec, resolved, path) && EndsAt(path, Clearing, dirs) && path[0] == before[0]
        invariant ListsTemps(dirs, key, env.temps[i..])
        invariant forall place: Place :: place.Final? ==> Untouched(old(dirs), dirs, place)
      {
        ghost var was := dirs;
        var temp := Temp(key, env.temps[i]);
        var removed := RemoveAll(temp, env.leaves(temp));
        ShrinksOnly(was, dirs, temp);
        forall place: Place | place.Final? ensures Untouched(old(dirs), dirs, place) {
          assert Untouched(old(dirs), was, place) && Untouched(was, dirs, place);
        }
        ClearingStep(codec, resolved, was, dirs, env.temps[i]);
        path := Then(codec, resolved, path, Clearing, dirs);
        if !removed {
          ClearingFails(codec, resolved, dirs);
          path := Then(codec, resolved, path, Returning(false), dirs);
          return false, path;
        }
      }
      assert env.temps[|env.temps|..] == [];
      ClearingEnds(codec, resolved, dirs);
      path := Then(codec, resolved, path, Inspecting, dirs);
      return true, path;
    }

    /** Serves a cached directory that verifies, and otherwise makes room for a new one. */
    method UseCached(codec: Codec, resolved: Resolved, env: Environment, ghost before: seq<Moment>)
      returns (done: bool, ok: bool, ghost path: seq<Moment>)
      requires IsPath(codec, resolved, before) && EndsAt(before, Inspecting, dirs)
      modifies this
      ensures IsPath(codec, resolved, path) && path[0] == before[0]
      ensures EndsAt(path, if done then Returning(ok) else Fetching, dirs)
      ensures NothingSticks(env) && !env.lstatFails ==> done == ok
      ensures CacheHit(codec, resolved, env, old(dirs)) ==> done && ok && dirs == old(dirs)
      ensures done && ok ==> CacheWorks(codec, resolved, env, old(dirs))
    {
      hide KeyOfAsset, Shrinks, AcquireStep, IsPath, TreeMatches;
      var final := Final(KeyOfAsset(resolved));
      ghost var was := dirs;
      if env.lstatFails {
        InspectingFails(codec, resolved, dirs);
        path := Then(codec, resolved, before, Returning(false), dirs);
        return true, false, path;
      }
      if final !in dirs {
        InspectingMisses(codec, resolved, dirs);
        path := Then(codec, resolved, before, Fetching, dirs);
        return false, false, path;
      }
      var verified := VerifyAssetDirectory(codec, final, resolved, env.cachedVerdict);
      path := before;
      if verified {
        CachedVerifies(codec, resolved, was, dirs);
        path := Then(codec, resolved, path, VerifyingCached(was[final]), was);
        path := Then(codec, resolved, path, RecheckingCached(was[final]), dirs);
        path := Then(codec, resolved, path, Returning(true), dirs);
        return true, true, path;
      }
      if Passes(codec, was, final, resolved) {
        CachedFails(codec, resolved, was, dirs);
        path := Then(codec, resolved, path, VerifyingCached(was[final]), was);
        path := Then(codec, resolved, path, Discarding, dirs);
      } else {
        CachedIsInvalid(codec, resolved, was);
        path := Then(codec, resolved, path, Discarding, dirs);
      }
      ghost var found := dirs;
      var removed := RemoveAll(final, env.leaves(final));
      if !removed {
        DiscardingStep(codec, resolved, found, dirs);
        path := Then(codec, resolved, path, Returning(false), dirs);
        return true, false, path;
      }
      DiscardingStep(codec, resolved, found, dirs);
      path := Then(codec, resolved, path, Discarding, dirs);
      path := Then(codec, resolved, path, Fetching, dirs);
      return false, false, path;
    }

    /** Builds the asset in a temporary directory, verifies it, and publishes it by renaming. */
    method Build(codec: Codec, resolved: Resolved, env: Environment, ghost before: seq<Moment>)
      returns (ok: bool, ghost path: seq<Moment>)
      requires IsPath(codec, resolved, before) && EndsAt(before, Fetching, dirs)
      requires SafePaths(resolved, env.entries) && Temp(KeyOfAsset(resolved), env.nonce) !in dirs
      modifies this
      ensures IsPath(codec, resolved, path) && path[0] == before[0]
      ensures EndsAt(path, Returning(ok), dirs)
      ensures SourceIsGood(codec, resolved, env) && HasRoom(resolved.asset.files) ==> ok
      ensures ok ==> FetchWorks(codec, resolved, env)
    {
      hide KeyOfAsset, Shrinks, AcquireStep, IsPath, TreeMatches, Building, SafePaths, ArchiveMatches, NoNesting;
      hide WellFormed;
      hide Declared;
      var key := KeyOfAsset(resolved);
      var temp := Temp(key, env.nonce);
      if !env.archiveOk || env.mkdirFails {
        FetchingFails(codec, resolved, dirs);
        path := Then(codec, resolved, before, Returning(false), dirs);
        return false, path;
      }
      FetchingStep(codec, resolved, dirs, env.nonce);
      EmptyIsReal();
      dirs := dirs[temp := map[]];
      path := Then(codec, resolved, before, Extracting(env.nonce), dirs);
      ok, path := Fill(codec, resolved, env, path);
      if !ok {
        path := Abandon(codec, resolved, env, path);
        return false, path;
      }
      ghost var was := dirs;
      ok := VerifyAssetDirectory(codec, temp, resolved, env.tempVerdict);
      if !ok {
        if Passes(codec, was, temp, resolved) {
          TempFails(codec, resolved, env.nonce, was, dirs);
          path := Then(codec, resolved, path, VerifyingTemp(env.nonce, was[temp]), was);
          path := Then(codec, resolved, path, Abandoning(env.nonce), dirs);
        } else {
          TempIsInvalid(codec, resolved, env.nonce, dirs);
          path := Then(codec, resolved, path, Abandoning(env.nonce), dirs);
        }
        path := Abandon(codec, resolved, env, path);
        return false, path;
      }
      TempVerifies(codec, resolved, env.nonce, was, dirs);
      path := Then(codec, resolved, path, VerifyingTemp(env.nonce, was[temp]), was);
      path := Then(codec, resolved, path, RecheckingTemp(env.nonce, was[temp]), dirs);
      path := Then(codec, resolved, path, Publishing(env.nonce, was[temp]), dirs);
      if env.cancelled || env.renameFails {
        path := Then(codec, resolved, path, Abandoning(env.nonce), dirs);
        path := Abandon(codec, resolved, env, path);
        return false, path;
      }
      PublishingStep(codec, resolved, env.nonce, was[temp], dirs);
      dirs := (dirs - {temp})[Final(key) := dirs[temp]];
      path := Then(codec, resolved, path, Returning(true), dirs);
      return true, path;
    }

    /** Unpacks the archive into the temporary directory and writes the marker. */
    method Fill(codec: Codec, resolved: Resolved, env: Environment, ghost before: seq<Moment>)
      returns (ok: bool, ghost path: seq<Moment>)
      requires IsPath(codec, resolved, before) && EndsAt(before, Extracting(env.nonce), dirs)
      requires SafePaths(resolved, env.entries)
      modifies this
      ensures IsPath(codec, resolved, path) && path[0] == before[0]
      ensures EndsAt(path, if ok then Extracting(env.nonce) else Abandoning(env.nonce), dirs)
      ensures SourceIsGood(codec, resolved, env) && HasRoom(resolved.asset.files) ==>
                ok && Passes(codec, dirs, Temp(KeyOfAsset(resolved), env.nonce), resolved)
      ensures ok ==>
                env.streamOk && !env.markerFails && ArchiveMatches(codec, resolved.asset.files, env.entries)
    {
      hide KeyOfAsset, Shrinks, AcquireStep, IsPath, TreeMatches, Building, SafePaths, ArchiveMatches, NoNesting;
      hide WellFormed;
      hide Declared;
      var temp := Temp(KeyOfAsset(resolved), env.nonce);
      ghost var was := dirs;
      var extracted := ExtractTarGZIP(codec, env.entries, env.streamOk, resolved);
      if extracted.Some? {
        BuiltIsReal(codec, resolved.asset.files, extracted.value);
      }
      var tree: RealTree := if extracted.Some? then extracted.value else env.partial;
      dirs := dirs[temp := tree];
      ExtractingStep(codec, resolved, env.nonce, was, dirs);
      if extracted.None? {
        path := Then(codec, resolved, before, Abandoning(env.nonce), dirs);
        return false, path;
      }
      path := Then(codec, resolved, before, Extracting(env.nonce), dirs);
      var marked := WriteCacheMarker(codec, tree, resolved);
      if SourceIsGood(codec, resolved, env) && HasRoom(resolved.asset.files) {
        GoodSourceVerifies(codec, resolved, env, tree);
      }
      ghost var unmarked := dirs;
      if env.markerFails || marked.None? {
        ExtractingStep(codec, resolved, env.nonce, unmarked, dirs);
        path := Then(codec, resolved, path, Abandoning(env.nonce), dirs);
        return false, path;
      }
      MarkerKeepsWellFormed(codec, tree, resolved);
      dirs := dirs[temp := marked.value];
      ExtractingStep(codec, resolved, env.nonce, unmarked, dirs);
      path := Then(codec, resolved, path, Extracting(env.nonce), dirs);
      return true, path;
    }

    /** Removes the temporary directory of a failed acquisition, as far as that goes. */
    method Abandon(codec: Codec, resolved: Resolved, env: Environment, ghost before: seq<Moment>)
      returns (ghost path: seq<Moment>)
      requires IsPath(codec, resolved, before) && EndsAt(before, Abandoning(env.nonce), dirs)
      modifies this
      ensures IsPath(codec, resolved, path) && path[0] == before[0]
      ensures EndsAt(path, Returning(false), dirs)
    {
      hide KeyOfAsset, Shrinks, AcquireStep, IsPath;
      var temp := Temp(KeyOfAsset(resolved), env.nonce);
      ghost var was := dirs;
      var _ := RemoveAll(temp, env.leaves(temp));
      AbandoningStep(codec, resolved, env.nonce, was, dirs);
      path := Then(codec, resolved, before, Returning(false), dirs);
    }

    /** One acquisition between taking and releasing its lock. Its moments form a path of the protocol from
        `Clearing` to `Returning`, so everything proved of the protocol holds of it. It never succeeds for a
        manifest that leaves no room; and when the archive is good and nothing gets in the way, it succeeds
        exactly when the manifest leaves room. A cached directory that verifies is served as it is, and otherwise
        success takes an authentic archive of what the manifest declares. */
    method Acquire(codec: Codec, resolved: Resolved, env: Environment) returns (ok: bool, ghost path: seq<Moment>)
      requires ListsTemps(dirs, KeyOfAsset(resolved), env.temps) && SafePaths(resolved, env.entries)
      modifies this
      ensures IsPath(codec, resolved, path) && path[0] == Moment(Clearing, old(dirs))
      ensures EndsAt(path, Returning(ok), dirs)
      ensures ok ==> Passes(codec, dirs, Final(KeyOfAsset(resolved)), resolved) && NoTemps(dirs, KeyOfAsset(resolved))
      ensures OnlyTouches(old(dirs), dirs, Some(KeyOfAsset(resolved)))
      ensures ok ==> HasRoom(resolved.asset.files)
      ensures NothingSticks(env) && !env.lstatFails && SourceIsGood(codec, resolved, env) ==>
                (ok <==> HasRoom(resolved.asset.files))
      ensures CacheHit(codec, resolved, env, old(dirs)) ==>
                ok && Untouched(old(dirs), dirs, Final(KeyOfAsset(resolved)))
      ensures ok ==> CacheWorks(codec, resolved, env, old(dirs)) || FetchWorks(codec, resolved, env)
    {
      hide CacheHit, FetchWorks, CacheWorks;
      hide HasRoom, KeyOfAsset, AcquireStep, IsPath, TreeMatches, SafePaths, Passes, NoTemps, SourceIsGood, OnlyTouches;
      path := [Moment(Clearing, dirs)];
      PathBegins(codec, resolved, Moment(Clearing, dirs));
      var done: bool;
      ok, path := RemoveInterruptedTemps(codec, resolved, env, path);
      HitStays(codec, resolved, env, old(dirs), dirs);
      if ok {
        done, ok, path := UseCached(codec, resolved, env, path);
        if !done {
          FetchingHasRoom(codec, resolved, path, env.nonce);
          ok, path := Build(codec, resolved, env, path);
        }
      }
      PathIsSafe(codec, resolved, path);
      if ok {
        PassingNeedsRoom(codec, dirs, Final(KeyOfAsset(resolved)), resolved);
      }
    }
  }

  lemma ShrinksOnly(before: Dirs, dirs: Dirs, place: Place)
    requires Shrinks(before, dirs, place)
    ensures forall other :: other != place ==> Untouched(before, dirs, other)
  {
  }

  lemma HitStays(codec: Codec, resolved: Resolved, env: Environment, before: Dirs, dirs: Dirs)
    requires Untouched(before, dirs, Final(KeyOfAsset(resolved)))
    ensures CacheWorks(codec, resolved, env, before) <==> CacheWorks(codec, resolved, env, dirs)
    ensures CacheHit(codec, resolved, env, before) ==> CacheHit(codec, resolved, env, dirs) && NothingSticks(env)
  {
    hide TreeMatches, KeyOfAsset;
  }

  /** No removal of a directory fails. */
  ghost predicate NothingSticks(env: Environment) {
    forall place :: env.leaves(place).None?
  }

  /** The archive holds what the manifest declares, and neither the verifier nor the file system gets in the
      way. */
  ghost predicate SourceIsGood(codec: Codec, resolved: Resolved, env: Environment) {
    var files := resolved.asset.files;
    && env.archiveOk && !env.mkdirFails && env.streamOk && !env.markerFails && !env.cancelled && !env.renameFails
    && env.tempVerdict.accepts && !env.tempVerdict.meddles
    && ArchiveMatches(codec, files, env.entries) && IdentityDeclared(resolved) && RoundTrips(codec)
  }

  lemma EmptyIsReal()
    ensures WellFormed(map[])
  {
  }

  lemma BuiltIsReal(codec: Codec, files: seq<AssetFile>, tree: Tree)
    requires Building(codec, files, tree, Declared(files).Keys)
    ensures WellFormed(tree)
  {
    hide WellFormed, Declared;
  }

  lemma PassingNeedsRoom(codec: Codec, dirs: Dirs, place: Place, resolved: Resolved)
    requires Passes(codec, dirs, place, resolved)
    ensures HasRoom(resolved.asset.files)
  {
    hide TreeMatches, HasRoom, WellFormed;
    MatchNeedsRoom(codec, dirs[place], resolved);
  }

  lemma GoodSourceVerifies(codec: Codec, resolved: Resolved, env: Environment, tree: Tree)
    requires SourceIsGood(codec, resolved, env) && HasRoom(resolved.asset.files)
    requires Building(codec, resolved.asset.files, tree, Declared(resolved.asset.files).Keys)
    ensures WriteCacheMarker(codec, tree, resolved).Some?
    ensures TreeMatches(codec, WriteCacheMarker(codec, tree, resolved).value, resolved)
  {
    hide TreeMatches, Declared, ArchiveMatches, NoNesting, FileOk, IsAllowedDirectory, IdentityDeclared;
    ExtractedTreeVerifies(codec, tree, resolved);
  }

  // ---------------------------------------------------------------------------
  // The single steps
  // ---------------------------------------------------------------------------

  lemma PathBegins(codec: Codec, resolved: Resolved, moment: Moment)
    ensures IsPath(codec, resolved, [moment])
  {
  }

  lemma ClearingStep(codec: Codec, resolved: Resolved, dirs: Dirs, dirs': Dirs, nonce: nat)
    requires Shrinks(dirs, dirs', Temp(KeyOfAsset(resolved), nonce))
    ensures Follows(codec, resolved, Moment(Clearing, dirs), Moment(Clearing, dirs'))
    ensures forall place :: place in dirs' ==> place in dirs
  {
    hide KeyOfAsset, IsPartOf;
  }

  lemma ClearingFails(codec: Codec, resolved: Resolved, dirs: Dirs)
    ensures Follows(codec, resolved, Moment(Clearing, dirs), Moment(Returning(false), dirs))
  {
  }

  lemma ClearingEnds(codec: Codec, resolved: Resolved, dirs: Dirs)
    requires ListsTemps(dirs, KeyOfAsset(resolved), [])
    ensures Follows(codec, resolved, Moment(Clearing, dirs), Moment(Inspecting, dirs))
  {
    hide KeyOfAsset;
  }

  lemma InspectingFails(codec: Codec, resolved: Resolved, dirs: Dirs)
    ensures Follows(codec, resolved, Moment(Inspecting, dirs), Moment(Returning(false), dirs))
  {
  }

  lemma InspectingMisses(codec: Codec, resolved: Resolved, dirs: Dirs)
    requires Final(KeyOfAsset(resolved)) !in dirs
    ensures Follows(codec, resolved, Moment(Inspecting, dirs), Moment(Fetching, dirs))
  {
  }

  lemma CachedVerifies(codec: Codec, resolved: Resolved, was: Dirs, dirs: Dirs)
    requires Passes(codec, was, Final(KeyOfAsset(resolved)), resolved)
    requires OnlyChanges(was, dirs, Final(KeyOfAsset(resolved)))
    requires Passes(codec, dirs, Final(KeyOfAsset(resolved)), resolved)
    ensures var first := was[Final(KeyOfAsset(resolved))];
            && Follows(codec, resolved, Moment(Inspecting, was), Moment(VerifyingCached(first), was))
            && Follows(codec, resolved, Moment(VerifyingCached(first), was), Moment(RecheckingCached(first), dirs))
            && Follows(codec, resolved, Moment(RecheckingCached(first), dirs), Moment(Returning(true), dirs))
  {
    hide KeyOfAsset, TreeMatches;
  }

  lemma CachedFails(codec: Codec, resolved: Resolved, was: Dirs, dirs: Dirs)
    requires Passes(codec, was, Final(KeyOfAsset(resolved)), resolved)
    requires OnlyChanges(was, dirs, Final(KeyOfAsset(resolved)))
    ensures var first := was[Final(KeyOfAsset(resolved))];
            && Follows(codec, resolved, Moment(Inspecting, was), Moment(VerifyingCached(first), was))
            && Follows(codec, resolved, Moment(VerifyingCached(first), was), Moment(Discarding, dirs))
  {
    hide KeyOfAsset, TreeMatches;
  }

  lemma CachedIsInvalid(codec: Codec, resolved: Resolved, dirs: Dirs)
    requires Final(KeyOfAsset(resolved)) in dirs && !Passes(codec, dirs, Final(KeyOfAsset(resolved)), resolved)
    ensures Follows(codec, resolved, Moment(Inspecting, dirs), Moment(Discarding, dirs))
  {
    hide KeyOfAsset, TreeMatches;
  }

  lemma DiscardingStep(codec: Codec, resolved: Resolved, was: Dirs, dirs: Dirs)
    requires Shrinks(was, dirs, Final(KeyOfAsset(resolved)))
    ensures Follows(codec, resolved, Moment(Discarding, was), Moment(Discarding, dirs))
    ensures Follows(codec, resolved, Moment(Discarding, was), Moment(Returning(false), dirs))
    ensures Final(KeyOfAsset(resolved)) !in dirs ==>
              Follows(codec, resolved, Moment(Discarding, dirs), Moment(Fetching, dirs))
  {
    hide KeyOfAsset, IsPartOf;
  }

  lemma FetchingFails(codec: Codec, resolved: Resolved, dirs: Dirs)
    ensures Follows(codec, resolved, Moment(Fetching, dirs), Moment(Returning(false), dirs))
  {
  }

  lemma FetchingStep(codec: Codec, resolved: Resolved, dirs: Dirs, nonce: nat)
    requires Temp(KeyOfAsset(resolved), nonce) !in dirs
    ensures Follows(codec, resolved, Moment(Fetching, dirs),
                    Moment(Extracting(nonce), dirs[Temp(KeyOfAsset(resolved), nonce) := map[]]))
  {
    hide KeyOfAsset;
  }

  lemma ExtractingStep(codec: Codec, resolved: Resolved, nonce: nat, was: Dirs, dirs: Dirs)
    requires OnlyChanges(was, dirs, Temp(KeyOfAsset(resolved), nonce))
    ensures Follows(codec, resolved, Moment(Extracting(nonce), was), Moment(Extracting(nonce), dirs))
    ensures Follows(codec, resolved, Moment(Extracting(nonce), was), Moment(Abandoning(nonce), dirs))
  {
    hide KeyOfAsset;
  }

  lemma TempIsInvalid(codec: Codec, resolved: Resolved, nonce: nat, dirs: Dirs)
    ensures Follows(codec, resolved, Moment(Extracting(nonce), dirs), Moment(Abandoning(nonce), dirs))
  {
    hide KeyOfAsset;
  }

  lemma TempFails(codec: Codec, resolved: Resolved, nonce: nat, was: Dirs, dirs: Dirs)
    requires Passes(codec, was, Temp(KeyOfAsset(resolved), nonce), resolved)
    requires OnlyChanges(was, dirs, Temp(KeyOfAsset(resolved), nonce))
    ensures var first := was[Temp(KeyOfAsset(resolved), nonce)];
            && Follows(codec, resolved, Moment(Extracting(nonce), was), Moment(VerifyingTemp(nonce, first), was))
            && Follows(codec, resolved, Moment(VerifyingTemp(nonce, first), was), Moment(Abandoning(nonce), dirs))
  {
    hide KeyOfAsset, TreeMatches;
  }

  lemma TempVerifies(codec: Codec, resolved: Resolved, nonce: nat, was: Dirs, dirs: Dirs)
    requires Passes(codec, was, Temp(KeyOfAsset(resolved), nonce), resolved)
    requires OnlyChanges(was, dirs, Temp(KeyOfAsset(resolved), nonce))
    requires Passes(codec, dirs, Temp(KeyOfAsset(resolved), nonce), resolved)
    ensures var first := was[Temp(KeyOfAsset(resolved), nonce)];
            && Follows(codec, resolved, Moment(Extracting(nonce), was), Moment(VerifyingTemp(nonce, first), was))
            && Follows(codec, resolved, Moment(VerifyingTemp(nonce, first), was),
                       Moment(RecheckingTemp(nonce, first), dirs))
            && Follows(codec, resolved, Moment(RecheckingTemp(nonce, first), dirs),
                       Moment(Publishing(nonce, first), dirs))
            && Follows(codec, resolved, Moment(Publishing(nonce, first), dirs), Moment(Abandoning(nonce), dirs))
  {
    hide KeyOfAsset, TreeMatches;
  }

  lemma PublishingStep(codec: Codec, resolved: Resolved, nonce: nat, first: Tree, dirs: Dirs)
    requires Temp(KeyOfAsset(resolved), nonce) in dirs
    ensures var temp := Temp(KeyOfAsset(resolved), nonce);
            Follows(codec, resolved, Moment(Publishing(nonce, first), dirs),
                    Moment(Returning(true), (dirs - {temp})[Final(KeyOfAsset(resolved)) := dirs[temp]]))
  {
    hide KeyOfAsset;
  }

  lemma AbandoningStep(codec: Codec, resolved: Resolved, nonce: nat, was: Dirs, dirs: Dirs)
    requires Shrinks(was, dirs, Temp(KeyOfAsset(resolved), nonce))
    ensures Follows(codec, resolved, Moment(Abandoning(nonce), was), Moment(Returning(false), dirs))
  {
    hide KeyOfAsset, IsPartOf;
  }

  /** The protocol's invariant holds along every path, and the path stays with its own key. */
  lemma {:induction false} PathKeepsInv(codec: Codec, resolved: Resolved, path: seq<Moment>, n: nat)
    requires IsPath(codec, resolved, path) && path[0].stage.Clearing? && n < |path|
    ensures AcquireInv(codec, resolved, path[n].stage, path[n].dirs)
    ensures OnlyTouches(path[0].dirs, path[n].dirs, Some(KeyOfAsset(resolved)))
  {
    hide AcquireStep, KeyOfAsset, TreeMatches, OnlyTouches, Passes, NoTemps, NoTempsBut;
    if n > 0 {
      PathKeepsInv(codec, resolved, path, n - 1);
      assert Follows(codec, resolved, path[n - 1], path[n]);
      AcquireStepKeepsInv(codec, resolved, path[n - 1].stage, path[n - 1].dirs, path[n].stage, path[n].dirs);
      AcquireStepIsLocal(codec, resolved, path[n - 1].stage, path[n - 1].dirs, path[n].stage, path[n].dirs);
      TouchingIsTransitive(path[0].dirs, path[n - 1].dirs, path[n].dirs, Some(KeyOfAsset(resolved)));
    } else {
      TouchingNothing(path[0].dirs, Some(KeyOfAsset(resolved)));
    }
  }

  lemma TouchingIsTransitive(a: Dirs, b: Dirs, c: Dirs, held: Option<Key>)
    requires OnlyTouches(a, b, held) && OnlyTouches(b, c, held)
    ensures OnlyTouches(a, c, held)
  {
    forall place | held.None? || !Belongs(place, held.value) ensures Untouched(a, c, place) {
      assert Untouched(a, b, place) && Untouched(b, c, place);
    }
  }

  lemma TouchingNothing(dirs: Dirs, held: Option<Key>)
    ensures OnlyTouches(dirs, dirs, held)
  {
  }

  lemma PathIsSafe(codec: Codec, resolved: Resolved, path: seq<Moment>)
    requires IsPath(codec, resolved, path) && path[0].stage.Clearing? && path[|path| - 1].stage.Returning?
    ensures path[|path| - 1].stage.success ==>
              && Passes(codec, path[|path| - 1].dirs, Final(KeyOfAsset(resolved)), resolved)
              && NoTemps(path[|path| - 1].dirs, KeyOfAsset(resolved))
    ensures OnlyTouches(path[0].dirs, path[|path| - 1].dirs, Some(KeyOfAsset(resolved)))
  {
    hide KeyOfAsset, Passes, NoTemps, OnlyTouches, Follows;
    PathKeepsInv(codec, resolved, path, |path| - 1);
  }

  lemma FetchingHasRoom(codec: Codec, resolved: Resolved, path: seq<Moment>, nonce: nat)
    requires IsPath(codec, resolved, path) && path[0].stage.Clearing? && path[|path| - 1].stage.Fetching?
    ensures Temp(KeyOfAsset(resolved), nonce) !in path[|path| - 1].dirs
  {
    hide KeyOfAsset, Follows;
    PathKeepsInv(codec, resolved, path, |path| - 1);
  }
}
