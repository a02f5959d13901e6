/** Cleaning up cached assets by a retention policy, as one process runs it. */
module AssetCleanup {
  import opened Wrappers
  import opened Sequences
  import opened AssetTrees
  import opened AssetCache
  import opened AssetStore

  /** What the caller asks for; an empty previous version means there is none. */
  datatype RetentionPolicy = RetentionPolicy(activeVersion: string, activeHashes: seq<string>, previousVersion: string)

  ghost predicate PolicyOk(policy: RetentionPolicy) {
    && SafeToken(policy.activeVersion) && (policy.previousVersion == "" || SafeToken(policy.previousVersion))
    && policy.previousVersion != policy.activeVersion
    && (forall i :: 0 <= i < |policy.activeHashes| ==> CanonicalHash(policy.activeHashes[i]))
    && Distinct(policy.activeHashes)
  }

  method ValidateRetentionPolicy(policy: RetentionPolicy) returns (active: Option<set<string>>)
    ensures active.Some? <==> PolicyOk(policy)
    ensures active.Some? ==> active.value == Elements(policy.activeHashes)
  {
    hide SafeToken, CanonicalHash;
    if !SafeToken(policy.activeVersion) {
      return None;
    }
    if policy.previousVersion != "" && !SafeToken(policy.previousVersion) {
      return None;
    }
    if policy.previousVersion == policy.activeVersion {
      return None;
    }
    var hashes := policy.activeHashes;
    var seen: set<string> := {};
    for i := 0 to |hashes|
      invariant forall j :: 0 <= j < i ==> CanonicalHash(hashes[j])
      invariant Distinct(hashes[..i]) && seen == Elements(hashes[..i])
    {
      if !CanonicalHash(hashes[i]) || hashes[i] in seen {
        return None;
      }
      assert hashes[..i + 1] == hashes[..i] + [hashes[i]];
      seen := seen + {hashes[i]};
    }
    assert hashes[..|hashes|] == hashes;
    return Some(seen);
  }

  /** What a cleanup finds of an entry of the cache root: something it passes over, such as a link or a
      directory whose lock directory is unusable; something it cannot inspect or list; or a host
      version with the names in it. */
  datatype VersionState = PassedOver | Uninspectable | Unlistable | Listed(names: seq<string>)

  datatype VersionEntry = VersionEntry(name: string, state: VersionState)

  predicate Lists(entry: VersionEntry, key: Key) {
    entry.name == key.version && entry.state.Listed? && key.hash in entry.state.names
  }

  /** What a cleanup is to remove: listed final directories of stale keys that carry the cache's marker. */
  ghost predicate Swept(codec: Codec, policy: Policy, listing: seq<VersionEntry>, dirs: Dirs, place: Place) {
    && place.Final? && place in dirs && Owned(codec, dirs[place], place.key) && Stale(policy, place.key)
    && exists i :: 0 <= i < |listing| && Lists(listing[i], place.key)
  }

  /** Faults of the environment: keys whose lock cannot be taken or released, and what failing removals leave. */
  datatype Faults = Faults(locks: Key -> bool, unlocks: Key -> bool, leaves: Key -> Option<set<Path>>)

  predicate Faulty(faults: Faults, key: Key) {
    faults.locks(key) || faults.unlocks(key) || faults.leaves(key).Some?
  }

  /** Exactly what was to be removed is gone, and everything else is as before. */
  ghost predicate Cleaned(codec: Codec, policy: Policy, listing: seq<VersionEntry>, before: Dirs, dirs: Dirs) {
    forall place :: if Swept(codec, policy, listing, before, place) then place !in dirs
        else Untouched(before, dirs, place)
  }

  /** Of the directory at most a part is left. */
  ghost predicate PartLeft(before: Dirs, dirs: Dirs, place: Place) {
    place in dirs ==> place in before && IsPartOf(dirs[place], before[place])
  }

  /** Nothing but what was to be removed has changed, and of that at most parts are left. */
  ghost predicate Confined(codec: Codec, policy: Policy, listing: seq<VersionEntry>, before: Dirs, dirs: Dirs) {
    forall place :: PartLeft(before, dirs, place)
                    && (Swept(codec, policy, listing, before, place) || Untouched(before, dirs, place))
  }

  lemma UntouchedIsPart(before: Dirs, dirs: Dirs, place: Place)
    requires Untouched(before, dirs, place)
    ensures PartLeft(before, dirs, place)
  {
    hide WellFormed;
  }

  // ---------------------------------------------------------------------------
  // Paths of the protocol
  // ---------------------------------------------------------------------------

  /** One moment of a cleanup: where its process stands, and the directories. */
  datatype CleanMoment = CleanMoment(process: Process, dirs: Dirs)

  /** One step of the protocol's cleanup process that is not a stop. */
  ghost predicate CleanFollows(codec: Codec, a: CleanMoment, b: CleanMoment) {
    exists event: Event :: !event.Stops? && ProcessStep(codec, event, a.process, a.dirs, b.process, b.dirs)
  }

  /** The moments are consecutive steps of one process of the transition system. */
  ghost predicate IsCleanPath(codec: Codec, path: seq<CleanMoment>) {
    path != [] && forall i :: 0 <= i < |path| - 1 ==> CleanFollows(codec, path[i], path[i + 1])
  }

  ghost predicate StandsAt(path: seq<CleanMoment>, process: Process, dirs: Dirs) {
    path != [] && path[|path| - 1] == CleanMoment(process, dirs)
  }

  ghost function Onward(codec: Codec, path: seq<CleanMoment>, process: Process, dirs: Dirs): (longer: seq<CleanMoment>)
    requires IsCleanPath(codec, path) && CleanFollows(codec, path[|path| - 1], CleanMoment(process, dirs))
    ensures IsCleanPath(codec, longer) && StandsAt(longer, process, dirs) && longer[0] == path[0]
  {
    path + [CleanMoment(process, dirs)]
  }

  lemma Wants(codec: Codec, policy: Policy, key: Key, dirs: Dirs)
    requires Stale(policy, key) && Final(key) in dirs && Owned(codec, dirs[Final(key)], key)
    ensures CleanFollows(codec, CleanMoment(Cleaning(policy, Scanning), dirs),
                         CleanMoment(Cleaning(policy, Wanting(key)), dirs))
  {
    hide Stale, Owned;
    assert ProcessStep(codec, Works, Cleaning(policy, Scanning), dirs, Cleaning(policy, Wanting(key)), dirs);
  }

  lemma TakesLock(codec: Codec, policy: Policy, key: Key, dirs: Dirs)
    ensures CleanFollows(codec, CleanMoment(Cleaning(policy, Wanting(key)), dirs),
                         CleanMoment(Cleaning(policy, Checking(key)), dirs))
    ensures CleanFollows(codec, CleanMoment(Cleaning(policy, Wanting(key)), dirs), CleanMoment(Idle, dirs))
  {
    assert ProcessStep(codec, Locks, Cleaning(policy, Wanting(key)), dirs, Cleaning(policy, Checking(key)), dirs);
    assert ProcessStep(codec, GivesUp, Cleaning(policy, Wanting(key)), dirs, Idle, dirs);
  }

  lemma ChecksAgain(codec: Codec, policy: Policy, key: Key, dirs: Dirs)
    ensures Final(key) in dirs && Owned(codec, dirs[Final(key)], key) ==>
              CleanFollows(codec, CleanMoment(Cleaning(policy, Checking(key)), dirs),
                           CleanMoment(Cleaning(policy, Removing(key, dirs[Final(key)])), dirs))
    ensures !(Final(key) in dirs && Owned(codec, dirs[Final(key)], key)) ==>
              CleanFollows(codec, CleanMoment(Cleaning(policy, Checking(key)), dirs),
                           CleanMoment(Cleaning(policy, Leaving(key)), dirs))
  {
    hide Owned;
    var from := Cleaning(policy, Checking(key));
    if Final(key) in dirs && Owned(codec, dirs[Final(key)], key) {
      assert ProcessStep(codec, Works, from, dirs, Cleaning(policy, Removing(key, dirs[Final(key)])), dirs);
    } else {
      assert ProcessStep(codec, Works, from, dirs, Cleaning(policy, Leaving(key)), dirs);
    }
  }

  lemma Removes(codec: Codec, policy: Policy, key: Key, tree: Tree, dirs: Dirs, after: Dirs)
    requires Shrinks(dirs, after, Final(key))
    ensures CleanFollows(codec, CleanMoment(Cleaning(policy, Removing(key, tree)), dirs),
                         CleanMoment(Cleaning(policy, Leaving(key)), after))
  {
    hide Shrinks;
    assert ProcessStep(codec, Works, Cleaning(policy, Removing(key, tree)), dirs, Cleaning(policy, Leaving(key)),
                       after);
  }

  lemma LetsGo(codec: Codec, policy: Policy, key: Key, dirs: Dirs)
    ensures CleanFollows(codec, CleanMoment(Cleaning(policy, Leaving(key)), dirs),
                         CleanMoment(Cleaning(policy, Scanning), dirs))
    ensures CleanFollows(codec, CleanMoment(Cleaning(policy, Leaving(key)), dirs), CleanMoment(Idle, dirs))
    ensures CleanFollows(codec, CleanMoment(Cleaning(policy, Scanning), dirs), CleanMoment(Idle, dirs))
  {
    assert ProcessStep(codec, Unlocks, Cleaning(policy, Leaving(key)), dirs, Cleaning(policy, Scanning), dirs);
    assert ProcessStep(codec, Unlocks, Cleaning(policy, Leaving(key)), dirs, Idle, dirs);
    assert ProcessStep(codec, GivesUp, Cleaning(policy, Scanning), dirs, Idle, dirs);
  }

  lemma CleanPathBegins(codec: Codec, moment: CleanMoment)
    ensures IsCleanPath(codec, [moment])
  {
  }

  /** Where a cleanup stands after its work on a key, or on a version. */
  function StandingAfter(policy: Policy, ok: bool): Process {
    if ok then Cleaning(policy, Scanning) else Idle
  }

  // ---------------------------------------------------------------------------
  // Running a cleanup
  // ---------------------------------------------------------------------------

  /** Removes the directory under its lock if it still carries the marker. */
  method RemoveOwnedAssetUnderLock(codec: Codec, store: Store, policy: Policy, key: Key, faults: Faults,
                                   ghost walked: seq<CleanMoment>)
    returns (ok: bool, ghost path: seq<CleanMoment>)
    requires IsCleanPath(codec, walked) && StandsAt(walked, Cleaning(policy, Wanting(key)), store.dirs)
    modifies store
    ensures Shrinks(old(store.dirs), store.dirs, Final(key))
    ensures if Final(key) in old(store.dirs) && Owned(codec, old(store.dirs)[Final(key)], key)
            then ok ==> Final(key) !in store.dirs
            else store.dirs == old(store.dirs)
    ensures !Faulty(faults, key) ==> ok
    ensures faults.locks(key) ==> !ok && store.dirs == old(store.dirs)
    ensures !faults.locks(key) && Final(key) in old(store.dirs) && Owned(codec, old(store.dirs)[Final(key)], key) ==>
              match faults.leaves(key)
              case None => store.dirs == old(store.dirs) - {Final(key)} && (ok <==> !faults.unlocks(key))
              case Some(left) =>
                && !ok && Final(key) in store.dirs
                && store.dirs[Final(key)] == Remainder(old(store.dirs)[Final(key)], left)
    ensures IsCleanPath(codec, path) && path[0] == walked[0] && StandsAt(path, StandingAfter(policy, ok), store.dirs)
  {
    hide Owned, IsPartOf, IsCleanPath, CleanFollows;
    SameShrinks(store.dirs, Final(key));
    ghost var was := store.dirs;
    TakesLock(codec, policy, key, was);
    if faults.locks(key) {
      path := Onward(codec, walked, Idle, was);
      return false, path;
    }
    path := Onward(codec, walked, Cleaning(policy, Checking(key)), was);
    ChecksAgain(codec, policy, key, was);
    if Final(key) !in store.dirs || !Owned(codec, store.dirs[Final(key)], key) {
      ok := !faults.unlocks(key);
      path := Onward(codec, path, Cleaning(policy, Leaving(key)), was);
      LetsGo(codec, policy, key, was);
      path := Onward(codec, path, StandingAfter(policy, ok), was);
      return;
    }
    var removed := store.RemoveAll(Final(key), faults.leaves(key));
    ok := removed && !faults.unlocks(key);
    path := Onward(codec, path, Cleaning(policy, Removing(key, was[Final(key)])), was);
    Removes(codec, policy, key, was[Final(key)], was, store.dirs);
    path := Onward(codec, path, Cleaning(policy, Leaving(key)), store.dirs);
    LetsGo(codec, policy, key, store.dirs);
    path := Onward(codec, path, StandingAfter(policy, ok), store.dirs);
  }

  /** Cleans up one listed host version. */
  method CleanVersion(codec: Codec, store: Store, policy: Policy, version: string, names: seq<string>, faults: Faults,
                      ghost earlier: seq<VersionEntry>, ghost before: Dirs, ghost walked: seq<CleanMoment>)
    returns (ok: bool, ghost path: seq<CleanMoment>)
    requires SafeToken(version) && version != policy.previousVersion
    requires Cleaned(codec, policy, earlier, before, store.dirs)
    requires IsCleanPath(codec, walked) && StandsAt(walked, Cleaning(policy, Scanning), store.dirs)
    modifies store
    ensures ok ==> Cleaned(codec, policy, earlier + [VersionEntry(version, Listed(names))], before, store.dirs)
    ensures Confined(codec, policy, earlier + [VersionEntry(version, Listed(names))], before, store.dirs)
    ensures !ok ==> exists key :: Faulty(faults, key)
    ensures IsCleanPath(codec, path) && path[0] == walked[0] && StandsAt(path, StandingAfter(policy, ok), store.dirs)
  {
    hide Swept, Owned, SafeToken, CanonicalHash, Cleaned, Shrinks, Confined, IsCleanPath, CleanFollows;
    NoNames(codec, policy, earlier, version, before, store.dirs);
    path := walked;
    for j := 0 to |names|
      invariant Cleaned(codec, policy, earlier + [VersionEntry(version, Listed(names[..j]))], before, store.dirs)
      invariant IsCleanPath(codec, path) && StandsAt(path, Cleaning(policy, Scanning), store.dirs)
      invariant path[0] == walked[0]
    {
      ghost var was := store.dirs;
      var key := Key(version, names[j]);
      assert names[..j + 1] == names[..j] + [names[j]];
      if CanonicalHash(key.hash) && !(version == policy.activeVersion && key.hash in policy.activeHashes) {
        assert Stale(policy, key);
        if Final(key) in store.dirs && Owned(codec, store.dirs[Final(key)], key) {
          Wants(codec, policy, key, was);
          path := Onward(codec, path, Cleaning(policy, Wanting(key)), was);
          ok, path := RemoveOwnedAssetUnderLock(codec, store, policy, key, faults, path);
          if !ok {
            assert Faulty(faults, key);
            OneMoreName(codec, policy, earlier, version, names[..j], names[j], before, was, store.dirs, false);
            MoreNames(codec, policy, earlier, version, names[..j + 1], names, before, store.dirs);
            return false, path;
          }
        } else {
          SameShrinks(was, Final(key));
        }
      } else {
        SameShrinks(was, Final(key));
      }
      OneMoreName(codec, policy, earlier, version, names[..j], names[j], before, was, store.dirs, true);
    }
    assert names[..|names|] == names;
    CleanedIsConfined(codec, policy, earlier + [VersionEntry(version, Listed(names))], before, store.dirs);
    return true, path;
  }

  lemma SameShrinks(dirs: Dirs, place: Place)
    ensures Shrinks(dirs, dirs, place)
  {
    hide WellFormed;
  }

  lemma CleanedIsConfined(codec: Codec, policy: Policy, listing: seq<VersionEntry>, before: Dirs, dirs: Dirs)
    requires Cleaned(codec, policy, listing, before, dirs)
    ensures Confined(codec, policy, listing, before, dirs)
  {
    hide Swept, IsPartOf, Untouched;
    forall place
      ensures PartLeft(before, dirs, place)
      ensures Swept(codec, policy, listing, before, place) || Untouched(before, dirs, place)
    {
      if !Swept(codec, policy, listing, before, place) {
        UntouchedIsPart(before, dirs, place);
      }
    }
  }

  /** A longer list of names sweeps the same directories and those of the added names. */
  lemma SweptByNames(codec: Codec, policy: Policy, earlier: seq<VersionEntry>, version: string, names: seq<string>,
                     before: Dirs, place: Place)
    ensures Swept(codec, policy, earlier + [VersionEntry(version, Listed(names))], before, place) <==>
            || Swept(codec, policy, earlier, before, place)
            || (place.Final? && place in before && Owned(codec, before[place], place.key) && Stale(policy, place.key)
                && place.key.version == version && place.key.hash in names)
  {
    hide Owned, Stale;
    var listing := earlier + [VersionEntry(version, Listed(names))];
    if Swept(codec, policy, earlier, before, place) {
      var i :| 0 <= i < |earlier| && Lists(earlier[i], place.key);
      assert listing[i] == earlier[i];
    }
    assert listing[|earlier|] == VersionEntry(version, Listed(names));
  }

  lemma NoNames(codec: Codec, policy: Policy, earlier: seq<VersionEntry>, version: string, before: Dirs, dirs: Dirs)
    requires Cleaned(codec, policy, earlier, before, dirs)
    ensures Cleaned(codec, policy, earlier + [VersionEntry(version, Listed([]))], before, dirs)
  {
    hide Swept, Untouched;
    forall place
      ensures Swept(codec, policy, earlier + [VersionEntry(version, Listed([]))], before, place) <==>
                Swept(codec, policy, earlier, before, place)
    {
      SweptByNames(codec, policy, earlier, version, [], before, place);
    }
  }

  lemma OneMoreName(codec: Codec, policy: Policy, earlier: seq<VersionEntry>, version: string, names: seq<string>,
                    name: string,
                    before: Dirs, was: Dirs, dirs: Dirs, ok: bool)
    requires Cleaned(codec, policy, earlier + [VersionEntry(version, Listed(names))], before, was)
    requires Shrinks(was, dirs, Final(Key(version, name)))
    requires if Final(Key(version, name)) in was && Owned(codec, was[Final(Key(version, name))], Key(version, name))
             && Stale(policy, Key(version, name))
             then ok ==> Final(Key(version, name)) !in dirs
             else dirs == was
    ensures ok ==> Cleaned(codec, policy, earlier + [VersionEntry(version, Listed(names + [name]))], before, dirs)
    ensures Confined(codec, policy, earlier + [VersionEntry(version, Listed(names + [name]))], before, dirs)
  {
    hide Swept, Owned, Stale, IsPartOf;
    var fewer := earlier + [VersionEntry(version, Listed(names))];
    var more := earlier + [VersionEntry(version, Listed(names + [name]))];
    forall place
      ensures ok ==> if Swept(codec, policy, more, before, place) then place !in dirs
              else Untouched(before, dirs, place)
      ensures Swept(codec, policy, more, before, place) || Untouched(before, dirs, place)
      ensures PartLeft(before, dirs, place)
    {
      SweptByNames(codec, policy, earlier, version, names, before, place);
      SweptByNames(codec, policy, earlier, version, names + [name], before, place);
      if Untouched(before, dirs, place) {
        UntouchedIsPart(before, dirs, place);
      }
      assert if Swept(codec, policy, fewer, before, place) then place !in was else Untouched(before, was, place);
    }
  }

  lemma MoreNames(codec: Codec, policy: Policy, earlier: seq<VersionEntry>, version: string, names: seq<string>,
                  all: seq<string>, before: Dirs, dirs: Dirs)
    requires Confined(codec, policy, earlier + [VersionEntry(version, Listed(names))], before, dirs)
    requires forall name :: name in names ==> name in all
    ensures Confined(codec, policy, earlier + [VersionEntry(version, Listed(all))], before, dirs)
  {
    hide Swept, Owned, Stale, Untouched;
    forall place
      ensures Swept(codec, policy, earlier + [VersionEntry(version, Listed(all))], before, place)
              || Untouched(before, dirs, place)
    {
      SweptByNames(codec, policy, earlier, version, names, before, place);
      SweptByNames(codec, policy, earlier, version, all, before, place);
    }
  }

  /** A cleanup that succeeds has removed exactly the listed stale assets it owns; one that fails has
      removed nothing else, and fails only for a bad policy or a fault of the environment. Its moments are
      a path of the protocol's cleanup process, so everything proved of that process holds of it. */
  method Cleanup(codec: Codec, store: Store, retention: RetentionPolicy, listing: seq<VersionEntry>, faults: Faults)
    returns (ok: bool, ghost path: seq<CleanMoment>)
    modifies store
    ensures !PolicyOk(retention) ==> !ok && store.dirs == old(store.dirs)
    ensures var policy := Policy(retention.activeVersion, Elements(retention.activeHashes), retention.previousVersion);
            PolicyOk(retention) ==>
              && Confined(codec, policy, listing, old(store.dirs), store.dirs)
              && (ok ==> Cleaned(codec, policy, listing, old(store.dirs), store.dirs))
              && (!ok ==> CanFail(listing, faults))
              && IsCleanPath(codec, path) && path[0] == CleanMoment(Cleaning(policy, Scanning), old(store.dirs))
              && StandsAt(path, Idle, store.dirs)
  {
    hide Cleaned, Confined, PolicyOk, SafeToken, IsCleanPath, CleanFollows;
    var active := ValidateRetentionPolicy(retention);
    path := [];
    if active.None? {
      return false, path;
    }
    var policy := Policy(retention.activeVersion, active.value, retention.previousVersion);
    ghost var before := store.dirs;
    path := [CleanMoment(Cleaning(policy, Scanning), before)];
    CleanPathBegins(codec, CleanMoment(Cleaning(policy, Scanning), before));
    ghost var first := path[0];
    NothingListed(codec, policy, before);
    for i := 0 to |listing|
      invariant Cleaned(codec, policy, listing[..i], before, store.dirs)
      invariant IsCleanPath(codec, path) && StandsAt(path, Cleaning(policy, Scanning), store.dirs) && path[0] == first
    {
      var entry := listing[i];
      assert listing[..i + 1] == listing[..i] + [entry];
      LetsGo(codec, policy, Key("", ""), store.dirs);
      if entry.state.Uninspectable? {
        assert CanFail(listing, faults);
        CleanedPrefix(codec, policy, listing, i, before, store.dirs);
        path := Onward(codec, path, Idle, store.dirs);
        return false, path;
      }
      if entry.state.PassedOver? || !SafeToken(entry.name) || entry.name == policy.previousVersion {
        NothingStale(codec, policy, listing[..i], entry, before, store.dirs);
        continue;
      }
      if entry.state.Unlistable? {
        assert CanFail(listing, faults);
        CleanedPrefix(codec, policy, listing, i, before, store.dirs);
        path := Onward(codec, path, Idle, store.dirs);
        return false, path;
      }
      ok, path := CleanVersion(codec, store, policy, entry.name, entry.state.names, faults, listing[..i], before, path);
      if !ok {
        ConfinedPrefix(codec, policy, listing, i + 1, before, store.dirs);
        return false, path;
      }
    }
    assert listing[..|listing|] == listing;
    CleanedIsConfined(codec, policy, listing, before, store.dirs);
    LetsGo(codec, policy, Key("", ""), store.dirs);
    path := Onward(codec, path, Idle, store.dirs);
    return true, path;
  }

  /** Something a cleanup needs can fail. */
  ghost predicate CanFail(listing: seq<VersionEntry>, faults: Faults) {
    || (exists key :: Faulty(faults, key))
    || (exists i :: 0 <= i < |listing| && (listing[i].state.Uninspectable? || listing[i].state.Unlistable?))
  }

  lemma NothingListed(codec: Codec, policy: Policy, dirs: Dirs)
    ensures Cleaned(codec, policy, [], dirs, dirs)
  {
  }

  lemma NothingStale(codec: Codec, policy: Policy, earlier: seq<VersionEntry>, entry: VersionEntry, before: Dirs,
                     dirs: Dirs)
    requires Cleaned(codec, policy, earlier, before, dirs)
    requires entry.state.PassedOver? || !SafeToken(entry.name) || entry.name == policy.previousVersion
    ensures Cleaned(codec, policy, earlier + [entry], before, dirs)
  {
    hide SafeToken, CanonicalHash, Owned, Untouched;
    forall place
      ensures Swept(codec, policy, earlier + [entry], before, place) <==> Swept(codec, policy, earlier, before, place)
    {
      SweptByPrefix(codec, policy, earlier + [entry], |earlier|, before, place);
      assert (earlier + [entry])[..|earlier|] == earlier;
    }
  }

  lemma SweptByPrefix(codec: Codec, policy: Policy, listing: seq<VersionEntry>, n: nat, before: Dirs, place: Place)
    requires n <= |listing|
    ensures Swept(codec, policy, listing[..n], before, place) ==> Swept(codec, policy, listing, before, place)
  {
    hide Owned, Stale, Lists;
    if Swept(codec, policy, listing[..n], before, place) {
      var i :| 0 <= i < n && Lists(listing[..n][i], place.key);
      assert listing[i] == listing[..n][i];
    }
  }

  lemma ConfinedPrefix(codec: Codec, policy: Policy, listing: seq<VersionEntry>, n: nat, before: Dirs, dirs: Dirs)
    requires n <= |listing| && Confined(codec, policy, listing[..n], before, dirs)
    ensures Confined(codec, policy, listing, before, dirs)
  {
    hide Swept, Untouched;
    forall place ensures Swept(codec, policy, listing, before, place) || Untouched(before, dirs, place) {
      SweptByPrefix(codec, policy, listing, n, before, place);
    }
  }

  lemma CleanedPrefix(codec: Codec, policy: Policy, listing: seq<VersionEntry>, n: nat, before: Dirs, dirs: Dirs)
    requires n <= |listing| && Cleaned(codec, policy, listing[..n], before, dirs)
    ensures Confined(codec, policy, listing, before, dirs)
  {
    CleanedIsConfined(codec, policy, listing[..n], before, dirs);
    ConfinedPrefix(codec, policy, listing, n, before, dirs);
  }

  /** What an acquisition returned is removed by a successful cleanup that lists it, exactly when the policy
      keeps neither its version as the previous one nor it as an active asset. */
  lemma {:induction false} AcquiredIsRemovedExactlyWhenStale(
      codec: Codec, retention: RetentionPolicy, listing: seq<VersionEntry>, before: Dirs, dirs: Dirs,
      resolved: Resolved, i: nat)
    requires Passes(codec, before, Final(KeyOfAsset(resolved)), resolved) && WellNamed(codec, resolved.asset)
    requires SafeToken(resolved.asset.hostVersion) && CanonicalHash(resolved.asset.assetHash)
    requires i < |listing| && listing[i].name == resolved.asset.hostVersion && listing[i].state.Listed?
    requires resolved.asset.assetHash in listing[i].state.names
    requires Cleaned(codec, Policy(retention.activeVersion, Elements(retention.activeHashes),
                                   retention.previousVersion),
                     listing, before, dirs)
    ensures Final(Key(resolved.asset.hostVersion, resolved.asset.assetHash)) !in dirs <==>
            && resolved.asset.hostVersion != retention.previousVersion
            && !(resolved.asset.hostVersion == retention.activeVersion
                 && resolved.asset.assetHash in retention.activeHashes)
  {
    hide SafeToken, CanonicalHash, TreeMatches, Owned;
    var policy := Policy(retention.activeVersion, Elements(retention.activeHashes), retention.previousVersion);
    var place := Final(Key(resolved.asset.hostVersion, resolved.asset.assetHash));
    VerifiedIsOwned(codec, before[Final(KeyOfAsset(resolved))], resolved, resolved.asset.hostVersion,
                    resolved.asset.assetHash);
    assert Lists(listing[i], place.key);
    assert if Swept(codec, policy, listing, before, place) then place !in dirs else Untouched(before, dirs, place);
  }

  /** Running a cleanup again right away removes nothing more. */
  lemma {:induction false} CleanedTwice(codec: Codec, policy: Policy, listing: seq<VersionEntry>, before: Dirs,
                                        dirs: Dirs, again: Dirs)
    requires Cleaned(codec, policy, listing, before, dirs) && Confined(codec, policy, listing, dirs, again)
    ensures forall place :: Untouched(dirs, again, place)
  {
    hide Owned, Stale;
    forall place ensures Untouched(dirs, again, place) {
      assert !Swept(codec, policy, listing, dirs, place);
    }
  }

  /** A residue of an owned directory is still owned exactly when the marker survived. */
  lemma ResidueOwnedExactlyWhenMarked(codec: Codec, left: Tree, tree: Tree, key: Key)
    requires IsPartOf(left, tree) && Owned(codec, tree, key)
    ensures Owned(codec, left, key) <==> MARKER in left
  {
    hide WellFormed, SafeToken, CanonicalHash;
  }

  /** After a cleanup that was interrupted or failed, an undisturbed one finishes exactly the removals whose
      residue kept its marker; what lost its marker first is left by every later cleanup, and nothing else
      changes. */
  lemma {:induction false} SecondCleanupFinishesTheMarked(codec: Codec, policy: Policy, listing: seq<VersionEntry>,
                                                          before: Dirs, dirs: Dirs, again: Dirs)
    requires Confined(codec, policy, listing, before, dirs) && Cleaned(codec, policy, listing, dirs, again)
    ensures forall place :: Swept(codec, policy, listing, before, place) ==>
              (place in again <==> place in dirs && MARKER !in dirs[place])
    ensures forall place :: Swept(codec, policy, listing, before, place) && place in again ==>
              Untouched(dirs, again, place)
    ensures forall place :: !Swept(codec, policy, listing, before, place) ==> Untouched(before, again, place)
  {
    hide Owned, Stale, IsPartOf, WellFormed;
    forall place
      ensures Swept(codec, policy, listing, before, place) ==>
                (place in again <==> place in dirs && MARKER !in dirs[place])
      ensures Swept(codec, policy, listing, before, place) && place in again ==> Untouched(dirs, again, place)
      ensures !Swept(codec, policy, listing, before, place) ==> Untouched(before, again, place)
    {
      assert PartLeft(before, dirs, place);
      assert Swept(codec, policy, listing, before, place) || Untouched(before, dirs, place);
      assert if Swept(codec, policy, listing, dirs, place) then place !in again else Untouched(dirs, again, place);
      if Swept(codec, policy, listing, before, place) && place in dirs {
        ResidueOwnedExactlyWhenMarked(codec, dirs[place], before[place], place.key);
      }
    }
  }
}
