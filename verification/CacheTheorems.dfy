/** Safety of the asset cache over every run: any interleaving, any stop, any starting directories. */
module CacheTheorems {
  import opened Wrappers
  import opened AssetTrees
  import opened AssetCache
  import AssetExtraction

  datatype Move = Move(pid: Pid, event: Event)

  ghost predicate Run(codec: Codec, states: seq<State>, moves: seq<Move>) {
    && |states| == |moves| + 1 && Init(states[0])
    && forall i :: 0 <= i < |moves| ==> Step(codec, states[i], states[i + 1], moves[i].pid, moves[i].event)
  }

  lemma {:induction false} RunKeepsInv(codec: Codec, states: seq<State>, moves: seq<Move>, n: nat)
    requires Run(codec, states, moves) && n < |states|
    ensures Inv(codec, states[n])
  {
    hide Step, ProcessInv;
    if n > 0 {
      RunKeepsInv(codec, states, moves, n - 1);
      StepKeepsInv(codec, states[n - 1], states[n], moves[n - 1].pid, moves[n - 1].event);
    } else {
      InitIsInv(codec, states[0]);
    }
  }

  lemma InitIsInv(codec: Codec, s: State)
    requires Init(s)
    ensures Inv(codec, s)
  {
  }

  /** Two processes never hold the same key. */
  lemma {:induction false} OneHolderPerKey(codec: Codec, states: seq<State>, moves: seq<Move>, n: nat, pid: Pid,
                                           other: Pid)
    requires Run(codec, states, moves) && n < |states|
    requires pid in states[n].processes && other in states[n].processes && pid != other
    requires Held(states[n].processes[pid]).Some?
    ensures Held(states[n].processes[other]) != Held(states[n].processes[pid])
  {
    hide ProcessInv;
    RunKeepsInv(codec, states, moves, n);
  }

  /** A directory only ever changes by a step of the process that holds its key's lock. */
  lemma {:induction false} ChangesNeedTheLock(codec: Codec, states: seq<State>, moves: seq<Move>, n: nat, place: Place)
    requires Run(codec, states, moves) && n < |moves|
    requires !Untouched(states[n].dirs, states[n + 1].dirs, place)
    ensures !place.Foreign? && Find(states[n].locks, place.key) == Some(moves[n].pid)
  {
    hide ProcessInv, ProcessStep, LocksStep, Untouched;
    RunKeepsInv(codec, states, moves, n);
    var pid := moves[n].pid;
    assert Step(codec, states[n], states[n + 1], pid, moves[n].event);
    ProcessStepIsLocal(codec, moves[n].event, states[n].processes[pid], states[n].dirs, states[n + 1].processes[pid],
                       states[n + 1].dirs);
  }

  // ---------------------------------------------------------------------------
  // Acquisition
  // ---------------------------------------------------------------------------

  /** When an acquisition returns success, the final directory is exactly what the manifest describes,
      and nothing is left of interrupted acquisitions of the asset. */
  lemma {:induction false} SuccessMeansVerified(codec: Codec, states: seq<State>, moves: seq<Move>, n: nat, pid: Pid)
    requires Run(codec, states, moves) && n < |states| && pid in states[n].processes
    requires states[n].processes[pid].Acquiring? && states[n].processes[pid].stage == Returning(true)
    ensures Passes(codec, states[n].dirs, Final(KeyOfAsset(states[n].processes[pid].resolved)),
                   states[n].processes[pid].resolved)
    ensures NoTemps(states[n].dirs, KeyOfAsset(states[n].processes[pid].resolved))
  {
    RunKeepsInv(codec, states, moves, n);
    assert ProcessInv(codec, states[n].processes[pid], states[n].dirs);
  }

  /** In particular it is never what an interrupted removal left of a tree verified for the asset. */
  lemma {:induction false} SuccessIsNeverAResidue(codec: Codec, states: seq<State>, moves: seq<Move>, n: nat, pid: Pid,
                                                  tree: Tree)
    requires Run(codec, states, moves) && n < |states| && pid in states[n].processes
    requires states[n].processes[pid].Acquiring? && states[n].processes[pid].stage == Returning(true)
    requires WellFormed(tree) && TreeMatches(codec, tree, states[n].processes[pid].resolved)
    ensures var final := Final(KeyOfAsset(states[n].processes[pid].resolved));
            final in states[n].dirs
            && (AssetExtraction.Residue(states[n].dirs[final], tree) ==> states[n].dirs[final] == tree)
  {
    hide TreeMatches, AssetExtraction.Residue, WellFormed;
    SuccessMeansVerified(codec, states, moves, n, pid);
    var resolved := states[n].processes[pid].resolved;
    var left := states[n].dirs[Final(KeyOfAsset(resolved))];
    if AssetExtraction.Residue(left, tree) && left != tree {
      AssetExtraction.ResidueNeverVerifies(codec, tree, left, resolved);
    }
  }

  /** Only a manifest that leaves room is ever acquired, in any run. */
  lemma {:induction false} SuccessNeedsRoom(codec: Codec, states: seq<State>, moves: seq<Move>, n: nat, pid: Pid)
    requires Run(codec, states, moves) && n < |states| && pid in states[n].processes
    requires states[n].processes[pid].Acquiring? && states[n].processes[pid].stage == Returning(true)
    ensures AssetExtraction.HasRoom(states[n].processes[pid].resolved.asset.files)
  {
    hide TreeMatches, WellFormed, AssetExtraction.HasRoom;
    SuccessMeansVerified(codec, states, moves, n, pid);
    var resolved := states[n].processes[pid].resolved;
    AssetExtraction.MatchNeedsRoom(codec, states[n].dirs[Final(KeyOfAsset(resolved))], resolved);
  }

  // ---------------------------------------------------------------------------
  // Publication
  // ---------------------------------------------------------------------------

  predicate At(s: State, pid: Pid, p: Process) {
    pid in s.processes && s.processes[pid] == p
  }

  /** In move i the process finds its unpacked tree to match, and keeps it in mind as `first`. */
  ghost predicate FirstChecked(codec: Codec, states: seq<State>, moves: seq<Move>, i: nat, pid: Pid, resolved: Resolved,
                               nonce: nat, first: Tree)
    requires |states| == |moves| + 1
  {
    && i < |moves| && moves[i].pid == pid
    && At(states[i], pid, Acquiring(resolved, Extracting(nonce)))
    && At(states[i + 1], pid, Acquiring(resolved, VerifyingTemp(nonce, first)))
    && Passes(codec, states[i].dirs, Temp(KeyOfAsset(resolved), nonce), resolved)
    && states[i].dirs[Temp(KeyOfAsset(resolved), nonce)] == first
  }

  /** In move j the identity verifier accepts the directory, which holds just the tree that was checked. */
  ghost predicate VerifierRan(codec: Codec, states: seq<State>, moves: seq<Move>, j: nat, pid: Pid, resolved: Resolved,
                              nonce: nat, first: Tree)
    requires |states| == |moves| + 1
  {
    && j < |moves| && moves[j].pid == pid
    && At(states[j], pid, Acquiring(resolved, VerifyingTemp(nonce, first)))
    && At(states[j + 1], pid, Acquiring(resolved, RecheckingTemp(nonce, first)))
    && Temp(KeyOfAsset(resolved), nonce) in states[j].dirs
    && states[j].dirs[Temp(KeyOfAsset(resolved), nonce)] == first
  }

  /** In move k the process finds the tree to match again. */
  ghost predicate Rechecked(codec: Codec, states: seq<State>, moves: seq<Move>, k: nat, pid: Pid, resolved: Resolved,
                            nonce: nat, first: Tree)
    requires |states| == |moves| + 1
  {
    && k < |moves| && moves[k].pid == pid
    && At(states[k], pid, Acquiring(resolved, RecheckingTemp(nonce, first)))
    && At(states[k + 1], pid, Acquiring(resolved, Publishing(nonce, first)))
    && Passes(codec, states[k].dirs, Temp(KeyOfAsset(resolved), nonce), resolved)
  }

  /** The stages of one publication have a single way in each. */
  lemma WaysIn(codec: Codec, event: Event, p: Process, dirs: Dirs, p': Process, dirs': Dirs, resolved: Resolved,
               nonce: nat,
               first: Tree)
    requires ProcessStep(codec, event, p, dirs, p', dirs')
    ensures p' == Acquiring(resolved, VerifyingTemp(nonce, first)) ==>
              && p == Acquiring(resolved, Extracting(nonce))
              && Passes(codec, dirs, Temp(KeyOfAsset(resolved), nonce), resolved)
              && dirs[Temp(KeyOfAsset(resolved), nonce)] == first
    ensures p' == Acquiring(resolved, RecheckingTemp(nonce, first)) ==>
              p == Acquiring(resolved, VerifyingTemp(nonce, first))
    ensures p' == Acquiring(resolved, Publishing(nonce, first)) ==>
              && p == Acquiring(resolved, RecheckingTemp(nonce, first))
              && Passes(codec, dirs, Temp(KeyOfAsset(resolved), nonce), resolved)
  {
    hide TreeMatches, KeyOfAsset, OnlyChanges, Shrinks, Stale, Owned, NoTemps, Renames;
  }

  /** The latest move before n that changed the process. */
  lemma {:induction false} LatestMove(codec: Codec, states: seq<State>, moves: seq<Move>, n: nat, pid: Pid, p: Process)
    returns (i: nat)
    requires Run(codec, states, moves) && n < |states| && At(states[n], pid, p) && !p.Idle?
    ensures i < n && moves[i].pid == pid && pid in states[i].processes && At(states[i + 1], pid, p)
    ensures ProcessStep(codec, moves[i].event, states[i].processes[pid], states[i].dirs, p, states[i + 1].dirs)
  {
    hide ProcessStep, LocksStep;
    assert n > 0;
    assert Step(codec, states[n - 1], states[n], moves[n - 1].pid, moves[n - 1].event);
    if moves[n - 1].pid == pid {
      i := n - 1;
    } else {
      i := LatestMove(codec, states, moves, n - 1, pid, p);
    }
  }

  lemma {:induction false} FirstCheckOf(codec: Codec, states: seq<State>, moves: seq<Move>, n: nat, pid: Pid,
                                        resolved: Resolved, nonce: nat, first: Tree) returns (i: nat)
    requires Run(codec, states, moves) && n < |states|
    requires At(states[n], pid, Acquiring(resolved, VerifyingTemp(nonce, first)))
    ensures i < n && FirstChecked(codec, states, moves, i, pid, resolved, nonce, first)
  {
    hide ProcessStep, Passes, KeyOfAsset, Step;
    var p := Acquiring(resolved, VerifyingTemp(nonce, first));
    i := LatestMove(codec, states, moves, n, pid, p);
    WaysIn(codec, moves[i].event, states[i].processes[pid], states[i].dirs, p, states[i + 1].dirs, resolved, nonce,
           first);
  }

  lemma {:induction false} VerifierOf(codec: Codec, states: seq<State>, moves: seq<Move>, n: nat, pid: Pid,
                                      resolved: Resolved, nonce: nat, first: Tree) returns (i: nat, j: nat)
    requires Run(codec, states, moves) && n < |states|
    requires At(states[n], pid, Acquiring(resolved, RecheckingTemp(nonce, first)))
    ensures i < j < n && FirstChecked(codec, states, moves, i, pid, resolved, nonce, first)
    ensures VerifierRan(codec, states, moves, j, pid, resolved, nonce, first)
  {
    hide ProcessStep, Passes, KeyOfAsset, Step, FirstChecked;
    var p := Acquiring(resolved, RecheckingTemp(nonce, first));
    j := LatestMove(codec, states, moves, n, pid, p);
    WaysIn(codec, moves[j].event, states[j].processes[pid], states[j].dirs, p, states[j + 1].dirs, resolved, nonce,
           first);
    RunKeepsInv(codec, states, moves, j);
    VerifierSeesFirst(codec, states[j], pid, resolved, nonce, first);
    i := FirstCheckOf(codec, states, moves, j, pid, resolved, nonce, first);
  }

  lemma VerifierSeesFirst(codec: Codec, s: State, pid: Pid, resolved: Resolved, nonce: nat, first: Tree)
    requires Inv(codec, s) && At(s, pid, Acquiring(resolved, VerifyingTemp(nonce, first)))
    ensures Temp(KeyOfAsset(resolved), nonce) in s.dirs && s.dirs[Temp(KeyOfAsset(resolved), nonce)] == first
  {
    hide LockInv, TreeMatches, KeyOfAsset;
    assert ProcessInv(codec, s.processes[pid], s.dirs);
  }

  /** The renaming of a temporary directory by a process that, in this acquisition, checked its tree, had
      that very tree accepted by the identity verifier, and checked what the verifier left. */
  ghost predicate PublishesVerified(codec: Codec, states: seq<State>, moves: seq<Move>, n: nat, key: Key,
                                    resolved: Resolved, nonce: nat, first: Tree, i: nat, j: nat, k: nat)
    requires |states| == |moves| + 1 && n < |moves|
  {
    && KeyOfAsset(resolved) == key && At(states[n], moves[n].pid, Acquiring(resolved, Publishing(nonce, first)))
    && Renames(states[n].dirs, states[n + 1].dirs, Temp(key, nonce), Final(key))
    && i < j < k < n
    && FirstChecked(codec, states, moves, i, moves[n].pid, resolved, nonce, first)
    && VerifierRan(codec, states, moves, j, moves[n].pid, resolved, nonce, first)
    && Rechecked(codec, states, moves, k, moves[n].pid, resolved, nonce, first)
    && Passes(codec, states[n].dirs, Temp(key, nonce), resolved)
  }

  /** A final directory appears only by renaming a temporary one of the same asset whose tree, in that very
      acquisition, passed the check, was accepted by the identity verifier, passed the check again, and
      still passes when it is renamed. It never replaces another. */
  lemma {:induction false} PublishedOnlyVerified(codec: Codec, states: seq<State>, moves: seq<Move>, n: nat, key: Key)
    returns (resolved: Resolved, nonce: nat, first: Tree, i: nat, j: nat, k: nat)
    requires Run(codec, states, moves) && n < |moves|
    requires Final(key) !in states[n].dirs && Final(key) in states[n + 1].dirs
    ensures PublishesVerified(codec, states, moves, n, key, resolved, nonce, first, i, j, k)
  {
    hide TreeMatches, IsPartOf, Stale, Owned, ProcessInv, LocksStep, ProcessStep, Passes, Renames, KeyOfAsset;
    hide FirstChecked, VerifierRan;
    RunKeepsInv(codec, states, moves, n);
    var pid := moves[n].pid;
    assert Step(codec, states[n], states[n + 1], pid, moves[n].event);
    var p, p' := states[n].processes[pid], states[n + 1].processes[pid];
    assert ProcessInv(codec, p, states[n].dirs);
    OnlyPublishingCreates(codec, moves[n].event, p, states[n].dirs, p', states[n + 1].dirs, key);
    resolved, nonce, first := p.resolved, p.stage.nonce, p.stage.first;
    k := LatestMove(codec, states, moves, n, pid, p);
    WaysIn(codec, moves[k].event, states[k].processes[pid], states[k].dirs, p, states[k + 1].dirs, resolved, nonce,
           first);
    i, j := VerifierOf(codec, states, moves, k, pid, resolved, nonce, first);
  }

  lemma OnlyPublishingCreates(codec: Codec, event: Event, p: Process, dirs: Dirs, p': Process, dirs': Dirs, key: Key)
    requires ProcessInv(codec, p, dirs) && ProcessStep(codec, event, p, dirs, p', dirs')
    requires Final(key) !in dirs && Final(key) in dirs'
    ensures p.Acquiring? && p.stage.Publishing? && KeyOfAsset(p.resolved) == key
    ensures Renames(dirs, dirs', Temp(key, p.stage.nonce), Final(key))
    ensures Passes(codec, dirs, Temp(key, p.stage.nonce), p.resolved)
  {
    hide TreeMatches, IsPartOf, Stale, Owned, KeyOfAsset;
  }

  /** A publication finds the final place free and no other temporary directory of the asset. */
  lemma {:induction false} PublicationFindsRoom(codec: Codec, states: seq<State>, moves: seq<Move>, n: nat, pid: Pid)
    requires Run(codec, states, moves) && n < |states| && pid in states[n].processes
    requires states[n].processes[pid].Acquiring? && states[n].processes[pid].stage.Publishing?
    ensures Final(KeyOfAsset(states[n].processes[pid].resolved)) !in states[n].dirs
    ensures NoTempsBut(states[n].dirs, KeyOfAsset(states[n].processes[pid].resolved),
                       states[n].processes[pid].stage.nonce)
  {
    RunKeepsInv(codec, states, moves, n);
    assert ProcessInv(codec, states[n].processes[pid], states[n].dirs);
  }

  /** What a cleanup changes is a stale final directory that carried the cache's own marker when the
      removal began, of which nothing but a part is left. */
  lemma {:induction false} CleanupRemovesOnlyOwned(codec: Codec, states: seq<State>, moves: seq<Move>, n: nat,
                                                   place: Place)
    requires Run(codec, states, moves) && n < |moves| && moves[n].pid in states[n].processes
    requires states[n].processes[moves[n].pid].Cleaning?
    requires !Untouched(states[n].dirs, states[n + 1].dirs, place)
    ensures RemovesOwned(codec, states[n].processes[moves[n].pid], states[n].dirs, place)
  {
    hide Stale, Owned, IsPartOf, LocksStep, ProcessInv;
    RunKeepsInv(codec, states, moves, n);
    var p := states[n].processes[moves[n].pid];
    assert Step(codec, states[n], states[n + 1], moves[n].pid, moves[n].event);
    assert ProcessInv(codec, p, states[n].dirs);
    RemovingInv(codec, p, states[n].dirs);
  }

  lemma RemovingInv(codec: Codec, p: Process, dirs: Dirs)
    requires ProcessInv(codec, p, dirs) && p.Cleaning?
    ensures CleanInv(codec, p.policy, p.step, dirs)
  {
  }

  ghost predicate RemovesOwned(codec: Codec, p: Process, dirs: Dirs, place: Place) {
    && p.Cleaning? && p.step.Removing? && place == Final(p.step.target)
    && Stale(p.policy, p.step.target) && Owned(codec, p.step.was, p.step.target)
    && place in dirs && IsPartOf(dirs[place], p.step.was)
  }

  // ---------------------------------------------------------------------------
  // What stays
  // ---------------------------------------------------------------------------

  /** The process has no business with the key: it neither acquires it nor may clean it up. */
  ghost predicate Spares(p: Process, key: Key) {
    && (p.Acquiring? ==> KeyOfAsset(p.resolved) != key)
    && (p.Cleaning? ==> !Stale(p.policy, key))
  }

  ghost predicate AllSpare(s: State, key: Key) {
    forall pid :: pid in s.processes ==> Spares(s.processes[pid], key)
  }

  lemma SparedStep(codec: Codec, p: Process, dirs: Dirs, key: Key)
    requires ProcessInv(codec, p, dirs) && Spares(p, key)
    ensures Held(p) != Some(key)
  {
    hide Stale, TreeMatches, Owned, KeyOfAsset, Passes, NoTemps;
  }

  lemma UntouchedIsTransitive(a: Dirs, b: Dirs, c: Dirs, place: Place)
    requires Untouched(a, b, place) && Untouched(b, c, place)
    ensures Untouched(a, c, place)
  {
  }

  /** Directories of a key that nobody has business with stay as they are, whoever else runs or stops. */
  lemma {:induction false} SparedDirectoriesStay(codec: Codec, states: seq<State>, moves: seq<Move>, i: nat, n: nat,
                                                 place: Place)
    requires Run(codec, states, moves) && i <= n < |states|
    requires !place.Foreign? ==> forall k :: i <= k < n ==> AllSpare(states[k], place.key)
    ensures Untouched(states[i].dirs, states[n].dirs, place)
    decreases n
  {
    hide ProcessInv, ProcessStep, LocksStep, Spares, Untouched;
    if i < n {
      SparedDirectoriesStay(codec, states, moves, i, n - 1, place);
      var s, s', pid := states[n - 1], states[n], moves[n - 1].pid;
      assert Step(codec, s, s', pid, moves[n - 1].event);
      RunKeepsInv(codec, states, moves, n - 1);
      ProcessStepIsLocal(codec, moves[n - 1].event, s.processes[pid], s.dirs, s'.processes[pid], s'.dirs);
      if !place.Foreign? {
        assert AllSpare(s, place.key);
        SparedStep(codec, s.processes[pid], s.dirs, place.key);
      }
      UntouchedIsTransitive(states[i].dirs, s.dirs, s'.dirs, place);
    } else {
      SameIsUntouched(states[i].dirs, place);
    }
  }

  lemma SameIsUntouched(dirs: Dirs, place: Place)
    ensures Untouched(dirs, dirs, place)
  {
  }

  /** The policy keeps the previous version and the active assets. */
  ghost predicate Kept(policy: Policy, key: Key) {
    key.version == policy.previousVersion || (key.version == policy.activeVersion && key.hash in policy.activeHashes)
  }

  /** What a policy does not keep is stale for it, if it is named like a cached asset. */
  lemma StaleExactlyWhenNotKept(policy: Policy, key: Key)
    ensures Stale(policy, key) <==> !Kept(policy, key) && SafeToken(key.version) && CanonicalHash(key.hash)
  {
  }

  /** A step of a cleanup leaves every directory that its policy keeps as it is, whatever other processes
      do with that asset at the same time. */
  lemma {:induction false} CleanupStepSparesKept(codec: Codec, states: seq<State>, moves: seq<Move>, n: nat,
                                                 place: Place)
    requires Run(codec, states, moves) && n < |moves| && moves[n].pid in states[n].processes
    requires states[n].processes[moves[n].pid].Cleaning? && !place.Foreign?
    requires Kept(states[n].processes[moves[n].pid].policy, place.key)
    ensures Untouched(states[n].dirs, states[n + 1].dirs, place)
  {
    hide Stale, Owned, IsPartOf, Untouched, Kept, Step;
    StaleExactlyWhenNotKept(states[n].processes[moves[n].pid].policy, place.key);
    if !Untouched(states[n].dirs, states[n + 1].dirs, place) {
      CleanupRemovesOnlyOwned(codec, states, moves, n, place);
    }
  }

  /** No acquisition concerns the key and every cleanup keeps it. */
  ghost predicate AllKeep(s: State, key: Key) {
    forall pid :: pid in s.processes ==> Keeps(s.processes[pid], key)
  }

  ghost predicate Keeps(p: Process, key: Key) {
    && (p.Acquiring? ==> KeyOfAsset(p.resolved) != key)
    && (p.Cleaning? ==> Kept(p.policy, key))
  }

  /** Cleanups never touch the previous version or an active asset that they were told to keep. */
  lemma {:induction false} KeptDirectoriesStay(codec: Codec, states: seq<State>, moves: seq<Move>, i: nat, n: nat,
                                               key: Key, place: Place)
    requires Run(codec, states, moves) && i <= n < |states| && Belongs(place, key)
    requires forall k :: i <= k < n ==> AllKeep(states[k], key)
    ensures Untouched(states[i].dirs, states[n].dirs, place)
  {
    hide Stale, KeyOfAsset, Untouched;
    forall k | i <= k < n ensures AllSpare(states[k], key) {
      assert AllKeep(states[k], key);
      forall pid | pid in states[k].processes ensures Spares(states[k].processes[pid], key) {
        if states[k].processes[pid].Cleaning? {
          StaleExactlyWhenNotKept(states[k].processes[pid].policy, key);
        }
      }
    }
    SparedDirectoriesStay(codec, states, moves, i, n, place);
  }

  ghost predicate NobodyAcquires(s: State, key: Key) {
    forall pid :: pid in s.processes && s.processes[pid].Acquiring? ==> KeyOfAsset(s.processes[pid].resolved) != key
  }

  ghost predicate NobodyRemoves(s: State, key: Key) {
    forall pid :: pid in s.processes ==> !IsRemoving(s.processes[pid], key)
  }

  predicate IsRemoving(p: Process, key: Key) {
    p.Cleaning? && p.step.Removing? && p.step.target == key
  }

  /** A directory without the cache's own marker survives every cleanup. */
  lemma {:induction false} UnownedDirectoriesStay(codec: Codec, states: seq<State>, moves: seq<Move>, i: nat, n: nat,
                                                  key: Key)
    requires Run(codec, states, moves) && i <= n < |states|
    requires Final(key) in states[i].dirs && !Owned(codec, states[i].dirs[Final(key)], key)
    requires NobodyRemoves(states[i], key) && forall k :: i <= k < n ==> NobodyAcquires(states[k], key)
    ensures Untouched(states[i].dirs, states[n].dirs, Final(key)) && NobodyRemoves(states[n], key)
    decreases n
  {
    hide ProcessStep, LocksStep, Untouched, KeyOfAsset, Owned;
    if i < n {
      UnownedDirectoriesStay(codec, states, moves, i, n - 1, key);
      var s, s', pid := states[n - 1], states[n], moves[n - 1].pid;
      assert NobodyAcquires(s, key);
      assert Step(codec, s, s', pid, moves[n - 1].event);
      StillUnowned(codec, states[i].dirs, s.dirs, key);
      UnownedStep(codec, moves[n - 1].event, s.processes[pid], s.dirs, s'.processes[pid], s'.dirs, key);
      UntouchedIsTransitive(states[i].dirs, s.dirs, s'.dirs, Final(key));
      forall other | other in s'.processes ensures !IsRemoving(s'.processes[other], key) {
        if other != pid {
          assert s'.processes[other] == s.processes[other];
        }
      }
    } else {
      SameIsUntouched(states[i].dirs, Final(key));
    }
  }

  lemma StillUnowned(codec: Codec, dirs: Dirs, dirs': Dirs, key: Key)
    requires Final(key) in dirs && !Owned(codec, dirs[Final(key)], key) && Untouched(dirs, dirs', Final(key))
    ensures Final(key) in dirs' && !Owned(codec, dirs'[Final(key)], key)
  {
    hide Owned;
  }

  lemma UnownedStep(codec: Codec, event: Event, p: Process, dirs: Dirs, p': Process, dirs': Dirs, key: Key)
    requires ProcessStep(codec, event, p, dirs, p', dirs')
    requires Final(key) in dirs && !Owned(codec, dirs[Final(key)], key)
    requires p.Acquiring? ==> KeyOfAsset(p.resolved) != key
    requires !IsRemoving(p, key)
    ensures Untouched(dirs, dirs', Final(key)) && !IsRemoving(p', key)
  {
    hide AcquireStep, Owned, KeyOfAsset, Stale, IsPartOf, TreeMatches;
    if event.Works? && p.Acquiring? {
      AcquireStepIsLocal(codec, p.resolved, p.stage, dirs, p'.stage, dirs');
    }
  }
}
