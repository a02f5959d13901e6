/** The driver asset cache under concurrent use: any number of processes acquire and clean up assets,
    and any of them may stop at any step. A per-asset lock, which the operating system releases when its
    holder stops, is all that coordinates them. */
module AssetCache {
  import opened Wrappers
  import opened AssetTrees

  // ---------------------------------------------------------------------------
  // Names
  // ---------------------------------------------------------------------------

  /** A host version and an asset hash: what a lock, a final directory and its temporaries belong to. */
  datatype Key = Key(version: string, hash: string)

  /** A directory below the cache root. Foreign entries have names the cache never uses. */
  datatype Place = Final(key: Key) | Temp(key: Key, nonce: nat) | Foreign(version: string, name: string)

  type Dirs = map<Place, RealTree>

  predicate Belongs(place: Place, key: Key) {
    !place.Foreign? && place.key == key
  }

  predicate IsAlphanumeric(c: char) {
    'a' <= c <= 'z' || 'A' <= c <= 'Z' || '0' <= c <= '9'
  }

  predicate SafeToken(value: string) {
    && 0 < |value| <= 128 && IsAlphanumeric(value[0])
    && forall i :: 0 < i < |value| ==> IsAlphanumeric(value[i]) || value[i] in {'.', '_', '-'}
  }

  predicate CanonicalHash(value: string) {
    |value| == 64 && forall i :: 0 <= i < 64 ==> '0' <= value[i] <= '9' || 'a' <= value[i] <= 'f'
  }

  function KeyOfAsset(resolved: Resolved): Key {
    Key(resolved.asset.hostVersion, resolved.asset.assetHash)
  }

  /** The marker of the directory proves that this cache made it for this key. */
  predicate Owned(codec: Codec, tree: Tree, key: Key) {
    match ReadCacheMarker(codec, tree)
    case None => false
    case Some(marker) =>
      && marker.schemaVersion == MARKER_SCHEMA && marker.hostVersion == key.version && marker.assetHash == key.hash
      && SafeToken(marker.assetId) && SafeToken(marker.assetVersion) && CanonicalHash(marker.descriptor)
  }

  const UPPER := "ABCDEFGHIJKLMNOPQRSTUVWXYZ"
  const LOWER := "abcdefghijklmnopqrstuvwxyz"
  const DIGITS := "0123456789"

  lemma UpperIsListed(c: char)
    ensures 'A' <= c <= 'Z' <==> c in UPPER
  {
    if 'A' <= c <= 'Z' {
      assert UPPER[c as int - 'A' as int] == c;
    }
  }

  lemma LowerIsListed(c: char)
    ensures 'a' <= c <= 'z' <==> c in LOWER
  {
    if 'a' <= c <= 'z' {
      assert LOWER[c as int - 'a' as int] == c;
    }
  }

  lemma DigitIsListed(c: char)
    ensures '0' <= c <= '9' <==> c in DIGITS
  {
    if '0' <= c <= '9' {
      assert DIGITS[c as int - '0' as int] == c;
    }
  }

  ghost predicate LetterOrDigit(c: char) {
    c in UPPER || c in LOWER || c in DIGITS
  }

  lemma AlphanumericIsListed(c: char)
    ensures IsAlphanumeric(c) <==> LetterOrDigit(c)
  {
    hide UPPER, LOWER, DIGITS;
    UpperIsListed(c);
    LowerIsListed(c);
    DigitIsListed(c);
  }

  /** Safe tokens are letters, digits, dots, underscores and dashes, starting with a letter or digit. */
  lemma {:induction false} SafeTokenExactlyWhen(value: string)
    ensures SafeToken(value) <==>
              && 1 <= |value| <= 128 && LetterOrDigit(value[0])
              && forall c :: c in value ==> LetterOrDigit(c) || c in "._-"
  {
    hide IsAlphanumeric, LetterOrDigit;
    forall c ensures IsAlphanumeric(c) <==> LetterOrDigit(c) {
      AlphanumericIsListed(c);
    }
  }

  lemma CanonicalHashExactlyWhen(value: string)
    ensures CanonicalHash(value) <==> |value| == 64 && forall c :: c in value ==> c in "0123456789abcdef"
  {
    forall c: char ensures ('0' <= c <= '9' || 'a' <= c <= 'f') <==> c in "0123456789abcdef" {
      if '0' <= c <= '9' {
        assert "0123456789abcdef"[c as int - '0' as int] == c;
      }
      if 'a' <= c <= 'f' {
        assert "0123456789abcdef"[10 + c as int - 'a' as int] == c;
      }
    }
    if |value| == 64 && forall c :: c in value ==> c in "0123456789abcdef" {
      forall i | 0 <= i < 64 ensures '0' <= value[i] <= '9' || 'a' <= value[i] <= 'f' {
        assert value[i] in value;
      }
    }
  }

  /** A version or hash names one directory of the cache: it has no separator and is no way up, and it starts
      with no dot, as the lock directory and the temporary directories do. */
  lemma NamesAreDirectoryNames(value: string)
    requires SafeToken(value) || CanonicalHash(value)
    ensures value != [] && value[0] != '.' && '/' !in value && '\\' !in value
  {
    if SafeToken(value) {
      assert value[0] != '.';
    } else {
      CanonicalHashExactlyWhen(value);
      assert value[0] in value;
    }
  }

  /** What manifest validation demands of the names in a marker, and of the digest of the descriptor. */
  ghost predicate WellNamed(codec: Codec, asset: Asset) {
    SafeToken(asset.id) && SafeToken(asset.assetVersion) && CanonicalHash(codec.descriptor(asset))
  }

  /** The cache recognises what it has verified for a well-named asset as its own, for the asset's version and
      hash and no others; of any other asset it disowns it. */
  lemma {:induction false} VerifiedIsOwned(codec: Codec, tree: Tree, resolved: Resolved, version: string,
                                           hash: string)
    requires TreeMatches(codec, tree, resolved)
    ensures Owned(codec, tree, Key(version, hash)) <==>
              && version == resolved.asset.hostVersion && hash == resolved.asset.assetHash
              && WellNamed(codec, resolved.asset)
  {
    hide SafeToken, CanonicalHash;
  }

  /** One tree verifies for one asset: what verifies for two has the same names, versions and hashes in both. */
  lemma {:induction false} OneTreeOneAsset(codec: Codec, tree: Tree, a: Resolved, b: Resolved)
    requires TreeMatches(codec, tree, a) && TreeMatches(codec, tree, b)
    ensures a.asset.id == b.asset.id && a.asset.hostVersion == b.asset.hostVersion
    ensures a.asset.assetVersion == b.asset.assetVersion && a.asset.assetHash == b.asset.assetHash
    ensures a.manifestVersion == b.manifestVersion && codec.descriptor(a.asset) == codec.descriptor(b.asset)
  {
  }

  /** Which assets a cleanup may remove. */
  datatype Policy = Policy(activeVersion: string, activeHashes: set<string>, previousVersion: string)

  predicate Stale(policy: Policy, key: Key) {
    && SafeToken(key.version) && CanonicalHash(key.hash) && key.version != policy.previousVersion
    && !(key.version == policy.activeVersion && key.hash in policy.activeHashes)
  }

  // ---------------------------------------------------------------------------
  // Processes
  // ---------------------------------------------------------------------------

  /** Where an acquisition stands. `first` is the tree that passed the check before the identity
      verifier ran. */
  datatype AcquireStage =
    | Waiting
    | Clearing
    | Inspecting
    | VerifyingCached(first: Tree)
    | RecheckingCached(first: Tree)
    | Discarding
    | Fetching
    | Extracting(nonce: nat)
    | VerifyingTemp(nonce: nat, first: Tree)
    | RecheckingTemp(nonce: nat, first: Tree)
    | Publishing(nonce: nat, first: Tree)
    | Abandoning(nonce: nat)
    | Returning(success: bool)

  /** Where a cleanup stands. `was` is the directory whose ownership was checked under the lock. */
  datatype CleanStage =
    | Scanning
    | Wanting(target: Key)
    | Checking(target: Key)
    | Removing(target: Key, was: Tree)
    | Leaving(target: Key)

  datatype Process =
    | Idle
    | Stopped
    | Acquiring(resolved: Resolved, stage: AcquireStage)
    | Cleaning(policy: Policy, step: CleanStage)

  /** The key whose lock the process holds. */
  function Held(process: Process): Option<Key> {
    match process
    case Acquiring(resolved, stage) => if stage.Waiting? then None else Some(KeyOfAsset(resolved))
    case Cleaning(_, Checking(target)) => Some(target)
    case Cleaning(_, Removing(target, _)) => Some(target)
    case Cleaning(_, Leaving(target)) => Some(target)
    case _ => None
  }

  type Pid = nat

  datatype State = State(dirs: Dirs, locks: map<Key, Pid>, processes: map<Pid, Process>)

  // ---------------------------------------------------------------------------
  // Steps
  // ---------------------------------------------------------------------------

  /** Every directory other than `place` is untouched. */
  ghost predicate OnlyChanges(dirs: Dirs, dirs': Dirs, place: Place) {
    && (forall other :: other != place ==> (other in dirs <==> other in dirs'))
    && (forall other :: other != place && other in dirs && other in dirs' ==> dirs'[other] == dirs[other])
  }

  /** Part of the directory, or all of it, is removed; a removal deletes entries before their directory. */
  ghost predicate Shrinks(dirs: Dirs, dirs': Dirs, place: Place) {
    && OnlyChanges(dirs, dirs', place)
    && (place in dirs' ==> place in dirs && IsPartOf(dirs'[place], dirs[place]))
  }

  ghost predicate IsPartOf(left: Tree, tree: Tree) {
    && left.Keys <= tree.Keys
    && (forall p :: p in left ==> left[p] == tree[p])
    && (WellFormed(tree) ==> WellFormed(left))
  }

  ghost predicate NoTemps(dirs: Dirs, key: Key) {
    forall place :: place in dirs && Belongs(place, key) ==> place.Final?
  }

  ghost predicate Passes(codec: Codec, dirs: Dirs, place: Place, resolved: Resolved) {
    place in dirs && TreeMatches(codec, dirs[place], resolved)
  }

  /** The atomic publication: the temporary directory becomes the final one. */
  ghost predicate Renames(dirs: Dirs, dirs': Dirs, temp: Place, final: Place) {
    temp in dirs && dirs' == (dirs - {temp})[final := dirs[temp]]
  }

  /** One step of an acquisition that holds its lock. Reading, fetching, extracting and the external
      identity verifier may all fail or, where they write, leave anything in the directory at hand. */
  ghost predicate AcquireStep(codec: Codec, resolved: Resolved, stage: AcquireStage, dirs: Dirs, stage': AcquireStage,
                              dirs': Dirs) {
    var key := KeyOfAsset(resolved);
    var final := Final(key);
    match stage
    case Waiting => false
    case Clearing =>
      || (stage' == Clearing && exists nonce :: Shrinks(dirs, dirs', Temp(key, nonce)))
      || (dirs' == dirs && (stage' == Returning(false) || (stage' == Inspecting && NoTemps(dirs, key))))
    case Inspecting =>
      && dirs' == dirs
      && (|| stage' == Returning(false)
          || (stage' == Fetching && final !in dirs)
          || (stage' == Discarding && final in dirs && !TreeMatches(codec, dirs[final], resolved))
          || (Passes(codec, dirs, final, resolved) && stage' == VerifyingCached(dirs[final])))
    case VerifyingCached(first) =>
      OnlyChanges(dirs, dirs', final) && stage' in {Discarding, RecheckingCached(first)}
    case RecheckingCached(first) =>
      dirs' == dirs && stage' == if Passes(codec, dirs, final, resolved) then Returning(true) else Discarding
    case Discarding =>
      || (Shrinks(dirs, dirs', final) && stage' in {Discarding, Returning(false)})
      || (dirs' == dirs && final !in dirs && stage' == Fetching)
    case Fetching =>
      || (dirs' == dirs && stage' == Returning(false))
      || (stage'.Extracting? && Temp(key, stage'.nonce) !in dirs && dirs' == dirs[Temp(key, stage'.nonce) := map[]])
    case Extracting(nonce) =>
      || (OnlyChanges(dirs, dirs', Temp(key, nonce)) && stage' in {Extracting(nonce), Abandoning(nonce)})
      || (dirs' == dirs && Passes(codec, dirs, Temp(key, nonce), resolved)
          && stage' == VerifyingTemp(nonce, dirs[Temp(key, nonce)]))
    case VerifyingTemp(nonce, first) =>
      OnlyChanges(dirs, dirs', Temp(key, nonce)) && stage' in {Abandoning(nonce), RecheckingTemp(nonce, first)}
    case RecheckingTemp(nonce, first) =>
      dirs' == dirs && stage' == if Passes(codec, dirs, Temp(key, nonce), resolved) then Publishing(nonce, first)
          else Abandoning(nonce)
    case Publishing(nonce, first) =>
      || (dirs' == dirs && stage' == Abandoning(nonce))
      || (Renames(dirs, dirs', Temp(key, nonce), final) && stage' == Returning(true))
    case Abandoning(nonce) =>
      Shrinks(dirs, dirs', Temp(key, nonce)) && stage' in {Abandoning(nonce), Returning(false)}
    case Returning(_) => false
  }

  /** One step of a cleanup other than taking or releasing a lock. Directories are listed and judged
      before their lock is taken, and judged again once it is held. */
  ghost predicate CleanStep(codec: Codec, policy: Policy, step: CleanStage, dirs: Dirs, step': CleanStage,
                            dirs': Dirs) {
    match step
    case Scanning =>
      && dirs' == dirs && step'.Wanting? && Stale(policy, step'.target)
      && Final(step'.target) in dirs && Owned(codec, dirs[Final(step'.target)], step'.target)
    case Wanting(_) => false
    case Checking(target) =>
      && dirs' == dirs
      && step' == if Final(target) in dirs && Owned(codec, dirs[Final(target)], target)
                  then Removing(target, dirs[Final(target)]) else Leaving(target)
    case Removing(target, was) => Shrinks(dirs, dirs', Final(target))
        && step' in {Removing(target, was), Leaving(target)}
    case Leaving(_) => false
  }

  datatype Event = Starts | Locks | Works | Unlocks | GivesUp | Stops

  ghost predicate ProcessStep(codec: Codec, event: Event, p: Process, dirs: Dirs, p': Process, dirs': Dirs) {
    match event
    case Starts =>
      dirs' == dirs && p.Idle? && ((p'.Acquiring? && p'.stage.Waiting?) || (p'.Cleaning? && p'.step.Scanning?))
    case Locks =>
      && dirs' == dirs
      && (match p
          case Acquiring(resolved, Waiting) => p' == Acquiring(resolved, Clearing)
          case Cleaning(policy, Wanting(target)) => p' == Cleaning(policy, Checking(target))
          case _ => false)
    case Works =>
      (match p
       case Acquiring(resolved, stage) =>
         p'.Acquiring? && p'.resolved == resolved && AcquireStep(codec, resolved, stage, dirs, p'.stage, dirs')
       case Cleaning(policy, step) =>
         p'.Cleaning? && p'.policy == policy && CleanStep(codec, policy, step, dirs, p'.step, dirs')
       case _ => false)
    case Unlocks =>
      && dirs' == dirs
      && (match p
          case Acquiring(_, Returning(_)) => p' == Idle
          case Cleaning(policy, Leaving(_)) => p' in {Idle, Cleaning(policy, Scanning)}
          case _ => false)
    case GivesUp =>
      && dirs' == dirs && p' == Idle
      && ((p.Acquiring? && p.stage.Waiting?) || (p.Cleaning? && (p.step.Scanning? || p.step.Wanting?)))
    case Stops => dirs' == dirs && p' == Stopped
  }

  /** A held lock blocks everybody else; unlocking and stopping release whatever was held. */
  ghost predicate LocksStep(event: Event, pid: Pid, p: Process, locks: map<Key, Pid>, p': Process,
                            locks': map<Key, Pid>) {
    match event
    case Locks => Held(p').Some? && Held(p').value !in locks && locks' == locks[Held(p').value := pid]
    case Unlocks => locks' == Released(locks, Held(p))
    case Stops => locks' == Released(locks, Held(p))
    case _ => locks' == locks
  }

  function Released(locks: map<Key, Pid>, held: Option<Key>): map<Key, Pid> {
    if held.Some? then locks - {held.value} else locks
  }

  ghost predicate Step(codec: Codec, s: State, s': State, pid: Pid, event: Event) {
    && pid in s.processes && pid in s'.processes && s'.processes == s.processes[pid := s'.processes[pid]]
    && ProcessStep(codec, event, s.processes[pid], s.dirs, s'.processes[pid], s'.dirs)
    && LocksStep(event, pid, s.processes[pid], s.locks, s'.processes[pid], s'.locks)
  }

  /** The cache may start with anything in its directories. */
  ghost predicate Init(s: State) {
    s.locks == map[] && forall pid :: pid in s.processes ==> s.processes[pid].Idle?
  }

  // ---------------------------------------------------------------------------
  // The invariant
  // ---------------------------------------------------------------------------

  /** Every temporary directory of the key but the given one is gone. */
  ghost predicate NoTempsBut(dirs: Dirs, key: Key, nonce: nat) {
    forall place :: place in dirs && Belongs(place, key) && place.Temp? ==> place.nonce == nonce
  }

  ghost predicate AcquireInv(codec: Codec, resolved: Resolved, stage: AcquireStage, dirs: Dirs) {
    var key := KeyOfAsset(resolved);
    match stage
    case Waiting => true
    case Clearing => true
    case Inspecting => NoTemps(dirs, key)
    case VerifyingCached(first) =>
      NoTemps(dirs, key) && Final(key) in dirs && dirs[Final(key)] == first && TreeMatches(codec, first, resolved)
    case RecheckingCached(first) => NoTemps(dirs, key) && TreeMatches(codec, first, resolved)
    case Discarding => NoTemps(dirs, key)
    case Fetching => NoTemps(dirs, key) && Final(key) !in dirs
    case Extracting(nonce) => NoTempsBut(dirs, key, nonce) && Final(key) !in dirs
    case VerifyingTemp(nonce, first) =>
      && NoTempsBut(dirs, key, nonce) && Final(key) !in dirs && TreeMatches(codec, first, resolved)
      && Temp(key, nonce) in dirs && dirs[Temp(key, nonce)] == first
    case RecheckingTemp(nonce, first) => NoTempsBut(dirs, key, nonce) && Final(key) !in dirs
        && TreeMatches(codec, first, resolved)
    case Publishing(nonce, first) =>
      && NoTempsBut(dirs, key, nonce) && Final(key) !in dirs && TreeMatches(codec, first, resolved)
      && Passes(codec, dirs, Temp(key, nonce), resolved)
    case Abandoning(nonce) => NoTempsBut(dirs, key, nonce) && Final(key) !in dirs
    case Returning(success) => success ==> Passes(codec, dirs, Final(key), resolved) && NoTemps(dirs, key)
  }

  ghost predicate CleanInv(codec: Codec, policy: Policy, step: CleanStage, dirs: Dirs) {
    match step
    case Scanning => true
    case Wanting(target) => Stale(policy, target)
    case Checking(target) => Stale(policy, target)
    case Removing(target, was) =>
      && Stale(policy, target) && Owned(codec, was, target)
      && (Final(target) in dirs ==> IsPartOf(dirs[Final(target)], was))
    case Leaving(target) => Stale(policy, target)
  }

  ghost predicate ProcessInv(codec: Codec, p: Process, dirs: Dirs) {
    match p
    case Acquiring(resolved, stage) => AcquireInv(codec, resolved, stage, dirs)
    case Cleaning(policy, step) => CleanInv(codec, policy, step, dirs)
    case _ => true
  }

  /** Exactly the locks in the table are held, each by the process it names. */
  ghost predicate LockInv(s: State) {
    && (forall pid :: pid in s.processes && Held(s.processes[pid]).Some? ==>
        Find(s.locks, Held(s.processes[pid]).value) == Some(pid))
    && (forall key :: key in s.locks ==> s.locks[key] in s.processes && Held(s.processes[s.locks[key]]) == Some(key))
  }

  ghost predicate Inv(codec: Codec, s: State) {
    LockInv(s) && forall pid :: pid in s.processes ==> ProcessInv(codec, s.processes[pid], s.dirs)
  }

  // ---------------------------------------------------------------------------
  // Every step keeps the invariant
  // ---------------------------------------------------------------------------

  /** Directories that belong to another key, or to none, are the same before and after. */
  ghost predicate OnlyTouches(dirs: Dirs, dirs': Dirs, held: Option<Key>) {
    forall place :: held.None? || !Belongs(place, held.value) ==> Untouched(dirs, dirs', place)
  }

  ghost predicate Untouched(dirs: Dirs, dirs': Dirs, place: Place) {
    (place in dirs <==> place in dirs') && (place in dirs && place in dirs' ==> dirs'[place] == dirs[place])
  }

  lemma AcquireStepIsLocal(codec: Codec, resolved: Resolved, stage: AcquireStage, dirs: Dirs, stage': AcquireStage,
                           dirs': Dirs)
    requires AcquireStep(codec, resolved, stage, dirs, stage', dirs')
    ensures OnlyTouches(dirs, dirs', Some(KeyOfAsset(resolved)))
  {
    hide TreeMatches, KeyOfAsset, NoTemps, IsPartOf;
  }

  /** A step changes only directories of the key whose lock its process holds. */
  lemma ProcessStepIsLocal(codec: Codec, event: Event, p: Process, dirs: Dirs, p': Process, dirs': Dirs)
    requires ProcessStep(codec, event, p, dirs, p', dirs')
    ensures OnlyTouches(dirs, dirs', Held(p))
  {
    hide AcquireStep, Stale, Owned, KeyOfAsset, IsPartOf;
    if event.Works? && p.Acquiring? {
      AcquireStepIsLocal(codec, p.resolved, p.stage, dirs, p'.stage, dirs');
      WaitingDoesNothing(codec, p.resolved, p.stage, dirs, p'.stage, dirs');
    }
  }

  lemma WaitingDoesNothing(codec: Codec, resolved: Resolved, stage: AcquireStage, dirs: Dirs, stage': AcquireStage,
                           dirs': Dirs)
    requires AcquireStep(codec, resolved, stage, dirs, stage', dirs')
    ensures !stage.Waiting?
  {
  }

  lemma AcquireStepKeepsInv(codec: Codec, resolved: Resolved, stage: AcquireStage, dirs: Dirs, stage': AcquireStage,
                            dirs': Dirs)
    requires AcquireInv(codec, resolved, stage, dirs) && AcquireStep(codec, resolved, stage, dirs, stage', dirs')
    ensures AcquireInv(codec, resolved, stage', dirs') && !stage'.Waiting?
  {
    hide TreeMatches, KeyOfAsset, IsPartOf;
  }

  lemma CleanStepKeepsInv(codec: Codec, policy: Policy, step: CleanStage, dirs: Dirs, step': CleanStage, dirs': Dirs)
    requires CleanInv(codec, policy, step, dirs) && CleanStep(codec, policy, step, dirs, step', dirs')
    ensures CleanInv(codec, policy, step', dirs')
  {
    hide Stale, Owned, WellFormed;
  }

  /** What a process counts on concerns only directories whose lock it holds. */
  lemma ProcessInvIsLocal(codec: Codec, p: Process, dirs: Dirs, dirs': Dirs, touched: Option<Key>)
    requires ProcessInv(codec, p, dirs) && OnlyTouches(dirs, dirs', touched)
    requires touched.None? || Held(p) != touched
    ensures ProcessInv(codec, p, dirs')
  {
    hide TreeMatches, KeyOfAsset, Stale, Owned, IsPartOf, OnlyTouches;
    match p {
      case Acquiring(resolved, stage) =>
        var key := KeyOfAsset(resolved);
        if Held(p).Some? {
          KeyIsUntouched(dirs, dirs', touched, key);
        }
      case Cleaning(policy, step) =>
        if Held(p).Some? {
          KeyIsUntouched(dirs, dirs', touched, step.target);
        }
      case _ =>
    }
  }

  lemma KeyIsUntouched(dirs: Dirs, dirs': Dirs, touched: Option<Key>, key: Key)
    requires OnlyTouches(dirs, dirs', touched) && (touched.None? || touched.value != key)
    ensures forall place :: Belongs(place, key) ==> (place in dirs <==> place in dirs')
    ensures forall place :: Belongs(place, key) && place in dirs && place in dirs' ==> dirs'[place] == dirs[place]
  {
    forall place | Belongs(place, key) ensures Untouched(dirs, dirs', place) {
    }
  }

  lemma ProcessStepKeepsInv(codec: Codec, event: Event, p: Process, dirs: Dirs, p': Process, dirs': Dirs)
    requires ProcessInv(codec, p, dirs) && ProcessStep(codec, event, p, dirs, p', dirs')
    ensures ProcessInv(codec, p', dirs')
    ensures event.Starts? || event.Works? || event.GivesUp? ==> Held(p') == Held(p)
    ensures event.Locks? ==> Held(p).None? && Held(p').Some?
    ensures event.Unlocks? || event.Stops? ==> Held(p').None?
  {
    hide AcquireStep, CleanStep, AcquireInv, CleanInv, Stale, Owned, KeyOfAsset;
    if event.Works? {
      match p {
        case Acquiring(resolved, stage) =>
          AcquireStepKeepsInv(codec, resolved, stage, dirs, p'.stage, dirs');
          WaitingDoesNothing(codec, resolved, stage, dirs, p'.stage, dirs');
        case Cleaning(policy, step) =>
          CleanStepKeepsInv(codec, policy, step, dirs, p'.step, dirs');
          CleanStepKeepsLock(codec, policy, step, dirs, p'.step, dirs');
        case _ =>
      }
    } else {
      QuietStepKeepsInv(codec, event, p, dirs, p', dirs');
    }
  }

  lemma CleanStepKeepsLock(codec: Codec, policy: Policy, step: CleanStage, dirs: Dirs, step': CleanStage, dirs': Dirs)
    requires CleanStep(codec, policy, step, dirs, step', dirs')
    ensures Held(Cleaning(policy, step')) == Held(Cleaning(policy, step))
  {
  }

  lemma QuietStepKeepsInv(codec: Codec, event: Event, p: Process, dirs: Dirs, p': Process, dirs': Dirs)
    requires ProcessInv(codec, p, dirs) && ProcessStep(codec, event, p, dirs, p', dirs') && !event.Works?
    ensures ProcessInv(codec, p', dirs') && dirs' == dirs
  {
    hide TreeMatches, Stale, Owned, KeyOfAsset;
  }

  /** The locks stay in step with what the processes hold, and no key is ever held twice. */
  lemma LockInvIsKept(codec: Codec, s: State, s': State, pid: Pid, event: Event)
    requires Inv(codec, s) && Step(codec, s, s', pid, event)
    ensures LockInv(s')
  {
    hide ProcessStep, ProcessInv;
    var p, p' := s.processes[pid], s'.processes[pid];
    ProcessStepKeepsInv(codec, event, p, s.dirs, p', s'.dirs);
    forall other | other in s'.processes && Held(s'.processes[other]).Some?
      ensures Find(s'.locks, Held(s'.processes[other]).value) == Some(other)
    {
      if other != pid {
        assert s'.processes[other] == s.processes[other];
        assert Find(s.locks, Held(s.processes[other]).value) == Some(other);
      }
    }
    forall key | key in s'.locks
      ensures s'.locks[key] in s'.processes && Held(s'.processes[s'.locks[key]]) == Some(key)
    {
      if key in s.locks {
        assert Held(s.processes[s.locks[key]]) == Some(key);
      }
    }
  }

  /** Every step of every process, including a stop at any point, keeps the invariant. */
  lemma {:induction false} StepKeepsInv(codec: Codec, s: State, s': State, pid: Pid, event: Event)
    requires Inv(codec, s) && Step(codec, s, s', pid, event)
    ensures Inv(codec, s')
  {
    hide ProcessStep, ProcessInv, OnlyTouches, LocksStep;
    LockInvIsKept(codec, s, s', pid, event);
    var p, p' := s.processes[pid], s'.processes[pid];
    ProcessStepKeepsInv(codec, event, p, s.dirs, p', s'.dirs);
    ProcessStepIsLocal(codec, event, p, s.dirs, p', s'.dirs);
    forall other | other in s'.processes ensures ProcessInv(codec, s'.processes[other], s'.dirs) {
      if other != pid {
        assert s'.processes[other] == s.processes[other];
        assert Held(p).None? || Held(s.processes[other]) != Held(p);
        ProcessInvIsLocal(codec, s.processes[other], s.dirs, s'.dirs, Held(p));
      }
    }
  }
}
