/** Dividing a run among devices: which shard runs which flow, and which port each shard's driver gets. */
module Shards {
  import opened Wrappers
  import opened Arithmetic

  /** One device's share of a run. */
  datatype Shard = Shard(index: int, roots: seq<string>, device: string, outputDirectory: string, driverPort: int)

  datatype TestOptions = TestOptions(shardAll: int, shardSplit: int)

  /** The selected flow paths, and the ones that run in a configured order. */
  datatype Plan = Plan(flows: seq<string>, sequence: seq<string>)

  datatype PlanError = NoDevices | OrderedFlows | TooFewDevices | TooFewFlows | NoShardingAsked

  function ShardCount(options: TestOptions): (shards: (nat, bool))
    ensures shards.0 > 0
  {
    if options.shardAll > 0 then (options.shardAll, true)
    else if options.shardSplit > 0 then (options.shardSplit, false)
    else (1, false)
  }

  function Shardable(options: TestOptions, devices: seq<string>, plan: Plan, count: nat): Option<PlanError> {
    if plan.sequence != [] then Some(OrderedFlows)
    else if |devices| < count then Some(TooFewDevices)
    else if options.shardSplit > 0 && |plan.flows| < count then Some(TooFewFlows)
    else None
  }

  /** Why a plan is refused, if it is. The device pool is None when the devices cannot be told. */
  function Refusal(options: TestOptions, devices: Option<seq<string>>, plan: Plan): Option<PlanError> {
    var count := ShardCount(options).0;
    if devices.None? then Some(NoDevices)
    else if count > 1 then Shardable(options, devices.value, plan, count)
    else if |devices.value| > 1 then Some(NoShardingAsked)
    else None
  }

  function DeviceAt(devices: seq<string>, index: nat): string {
    if index < |devices| then devices[index] else ""
  }

  /** The flows whose position leaves remainder k, in order. */
  function Share(flows: seq<string>, count: nat, k: nat): seq<string>
    requires count > 0
  {
    if flows == [] then []
    else
      var last := |flows| - 1;
      Share(flows[..last], count, k) + (if last % count == k then [flows[last]] else [])
  }

  /** Gives the flow to every shard. */
  method Replicate(shards: array<Shard>, path: string)
    modifies shards
    ensures forall k :: 0 <= k < shards.Length ==> shards[k] == WithRoot(old(shards[k]), path)
  {
    for shard := 0 to shards.Length
      invariant forall k :: 0 <= k < shard ==> shards[k] == WithRoot(old(shards[k]), path)
      invariant forall k :: shard <= k < shards.Length ==> shards[k] == old(shards[k])
    {
      shards[shard] := WithRoot(shards[shard], path);
    }
  }

  function WithRoot(shard: Shard, path: string): Shard {
    shard.(roots := shard.roots + [path])
  }

  /** The roots of shard k after the first flows have been given out. */
  function RootsAfter(flows: seq<string>, replicate: bool, count: nat, k: nat): seq<string>
    requires count > 0
  {
    if replicate then flows else Share(flows, count, k)
  }

  /** What is asked for: the same flows on several devices, or the flows divided among several devices. */
  datatype Asked = Everywhere(shards: nat) | Divided(shards: nat) | Plain

  /** What the options ask for; running everywhere comes first. */
  ghost predicate Asks(options: TestOptions, asked: Asked) {
    match asked
    case Everywhere(shards) => options.shardAll == shards > 0
    case Divided(shards) => options.shardAll <= 0 && options.shardSplit == shards > 0
    case Plain => options.shardAll <= 0 && options.shardSplit <= 0
  }

  ghost function Wanted(asked: Asked): nat {
    if asked.Plain? then 1 else asked.shards
  }

  /** A plan is accepted when the devices are known, several devices are there only where sharding is asked
      for, and several shards have no order to keep, a device each and, when divided, a flow each. */
  ghost predicate Acceptable(options: TestOptions, devices: Option<seq<string>>, plan: Plan) {
    devices.Some? && forall asked :: Asks(options, asked) ==>
      if Wanted(asked) > 1 then
        && plan.sequence == [] && |devices.value| >= Wanted(asked)
        && (options.shardSplit > 0 ==> |plan.flows| >= Wanted(asked))
      else |devices.value| <= 1
  }

  /** Shard k of an accepted plan runs on the k-th device of the pool, the flows that are asked of it. */
  ghost predicate RunsItsShare(asked: Asked, devices: seq<string>, plan: Plan, k: nat, shard: Shard) {
    && shard.index == k
    && (k < |devices| ==> shard.device == devices[k])
    && (k >= |devices| ==> shard.device == "")
    && (asked.Divided? && asked.shards > 0 ==> shard.roots == Share(plan.flows, asked.shards, k))
    && (!asked.Divided? ==> shard.roots == plan.flows)
  }

  lemma SomethingIsAsked(options: TestOptions)
    ensures exists asked :: Asks(options, asked)
  {
    if options.shardAll > 0 {
      assert Asks(options, Everywhere(options.shardAll));
    } else if options.shardSplit > 0 {
      assert Asks(options, Divided(options.shardSplit));
    } else {
      assert Asks(options, Plain);
    }
  }

  lemma {:induction false} OneShareIsEverything(flows: seq<string>)
    ensures Share(flows, 1, 0) == flows
  {
    if flows != [] {
      OneShareIsEverything(flows[..|flows| - 1]);
      assert flows == flows[..|flows| - 1] + [flows[|flows| - 1]];
    }
  }

  /** What sharding does is what was asked for: refusals, number of shards, devices and flows. */
  lemma {:induction false} ShardingIsAsAsked(options: TestOptions, devices: Option<seq<string>>, plan: Plan,
                                             asked: Asked)
    requires Asks(options, asked)
    ensures Refusal(options, devices, plan).None? <==> Acceptable(options, devices, plan)
    ensures ShardCount(options).0 == Wanted(asked)
    ensures Acceptable(options, devices, plan) ==> forall k: nat :: k < Wanted(asked) ==>
              RunsItsShare(asked, devices.value, plan, k,
                           Shard(k, RootsAfter(plan.flows, ShardCount(options).1, Wanted(asked), k),
                                 DeviceAt(devices.value, k), "", 0))
    ensures Acceptable(options, devices, plan) && Wanted(asked) > 1 ==> Wanted(asked) <= |devices.value|
  {
    hide Share;
    OneShareIsEverything(plan.flows);
    assert forall other :: Asks(options, other) ==> other == asked;
  }

  method PlanShards(options: TestOptions, devicePool: Option<seq<string>>, plan: Plan)
    returns (result: Result<seq<Shard>, PlanError>)
    ensures result.Failure? <==> Refusal(options, devicePool, plan).Some?
    ensures result.Failure? ==> Some(result.error) == Refusal(options, devicePool, plan)
    ensures result.Success? ==>
              var (count, replicate) := ShardCount(options);
              |result.value| == count && devicePool.Some?
              && forall k :: 0 <= k < count ==>
                   result.value[k] == Shard(k, RootsAfter(plan.flows, replicate, count, k),
                                            DeviceAt(devicePool.value, k), "", 0)
    ensures result.Success? <==> Acceptable(options, devicePool, plan)
    ensures forall asked :: Asks(options, asked) && result.Success? ==>
              && |result.value| == Wanted(asked)
              && forall k: nat :: k < Wanted(asked) ==>
                   RunsItsShare(asked, devicePool.value, plan, k, result.value[k])
  {
    hide RootsAfter, RunsItsShare, Refusal, ShardCount;
    SomethingIsAsked(options);
    forall asked | Asks(options, asked) {
      ShardingIsAsAsked(options, devicePool, plan, asked);
    }
    var refusal := Refusal(options, devicePool, plan);
    if refusal.Some? {
      return Failure(refusal.value);
    }
    var (count, replicate) := ShardCount(options);
    var devices := devicePool.value;
    var shards := new Shard[count](k requires 0 <= k => Shard(k, [], DeviceAt(devices, k), "", 0));
    NothingShared(count, replicate);
    for index := 0 to |plan.flows|
      invariant forall k :: 0 <= k < count ==>
                  shards[k] == Shard(k, RootsAfter(plan.flows[..index], replicate, count, k), DeviceAt(devices, k), "",
                                     0)
    {
      var path := plan.flows[index];
      RootsStep(plan.flows, replicate, count, index);
      if replicate {
        Replicate(shards, path);
        continue;
      }
      var target := index % count;
      shards[target] := WithRoot(shards[target], path);
    }
    assert plan.flows[..|plan.flows|] == plan.flows;
    return Success(shards[..]);
  }

  lemma NothingShared(count: nat, replicate: bool)
    requires count > 0
    ensures forall k: nat :: RootsAfter([], replicate, count, k) == []
  {
  }

  lemma RootsStep(flows: seq<string>, replicate: bool, count: nat, index: nat)
    requires count > 0 && index < |flows|
    ensures forall k: nat ::
              RootsAfter(flows[..index + 1], replicate, count, k) ==
              RootsAfter(flows[..index], replicate, count, k)
              + (if replicate || index % count == k then [flows[index]] else [])
  {
    hide Share;
    ShareStep(flows, count, index);
    assert flows[..index + 1] == flows[..index] + [flows[index]];
  }

  lemma ShareStep(flows: seq<string>, count: nat, index: nat)
    requires count > 0 && index < |flows|
    ensures forall k: nat ::
              Share(flows[..index + 1], count, k) ==
                  Share(flows[..index], count, k) + (if index % count == k then [flows[index]] else [])
  {
    assert flows[..index + 1][..index] == flows[..index];
  }

  // ---------------------------------------------------------------------------
  // The split
  // ---------------------------------------------------------------------------

  /** How many of the first n positions leave remainder k. */
  function ShareLength(n: nat, count: nat, k: nat): nat
    requires count > 0
  {
    n / count + (if k < n % count then 1 else 0)
  }

  lemma LengthStep(n: nat, count: nat, k: nat)
    requires k < count
    ensures ShareLength(0, count, k) == 0
    ensures ShareLength(n + 1, count, k) == ShareLength(n, count, k) + (if n % count == k then 1 else 0)
    ensures n % count == k ==> n / count == ShareLength(n, count, k)
  {
    NextQuotient(n, count);
  }

  /** Every flow whose position leaves remainder k is a root of the share, at the quotient. */
  ghost predicate Holds(share: seq<string>, flows: seq<string>, count: nat, k: nat)
    requires count > 0
  {
    forall i :: 0 <= i < |flows| && i % count == k ==> RootIs(share, i / count, flows[i])
  }

  predicate RootIs(share: seq<string>, j: int, path: string) {
    0 <= j < |share| && share[j] == path
  }

  /** A share is as long as there are flows for it, and holds every one of them at its place. */
  lemma {:induction false} ShareHolds(flows: seq<string>, count: nat, k: nat)
    requires k < count
    ensures |Share(flows, count, k)| == ShareLength(|flows|, count, k)
    ensures Holds(Share(flows, count, k), flows, count, k)
  {
    if flows == [] {
      LengthStep(0, count, k);
    } else {
      var last := |flows| - 1;
      var front := flows[..last];
      ShareHolds(front, count, k);
      LengthStep(last, count, k);
      HoldsStep(Share(front, count, k), Share(flows, count, k), flows, count, k);
    }
  }

  lemma HoldsStep(before: seq<string>, share: seq<string>, flows: seq<string>, count: nat, k: nat)
    requires k < count && flows != [] && Holds(before, flows[..|flows| - 1], count, k)
    requires before <= share
    requires (|flows| - 1) % count == k ==> RootIs(share, (|flows| - 1) / count, flows[|flows| - 1])
    ensures Holds(share, flows, count, k)
  {
    var front := flows[..|flows| - 1];
    forall i | 0 <= i < |flows| && i % count == k ensures RootIs(share, i / count, flows[i]) {
      if i < |front| {
        assert RootIs(before, i / count, front[i]);
      }
    }
  }

  /** Every root of a share is the flow at the position that the root stands for. */
  ghost predicate Strided(share: seq<string>, flows: seq<string>, count: nat, k: nat) {
    forall j :: 0 <= j < |share| ==> RootIs(flows, Position(j, count, k), share[j])
  }

  function Position(j: nat, count: nat, k: nat): nat {
    j * count + k
  }

  lemma {:induction false} ShareIsStrided(flows: seq<string>, count: nat, k: nat)
    requires k < count
    ensures Strided(Share(flows, count, k), flows, count, k)
  {
    hide Position, ShareLength, Strided, Holds;
    if flows == [] {
      assert Strided([], flows, count, k) by {
        NothingIsStrided(flows, count, k);
      }
    } else {
      var last := |flows| - 1;
      var front := flows[..last];
      ShareIsStrided(front, count, k);
      if last % count == k {
        ShareHolds(front, count, k);
        LengthStep(last, count, k);
        PositionIs(last, count, k);
        StridedStep(Share(front, count, k), flows, count, k);
      } else {
        StridedFront(Share(front, count, k), flows, count, k);
        assert Share(flows, count, k) == Share(front, count, k);
      }
    }
  }

  lemma NothingIsStrided(flows: seq<string>, count: nat, k: nat)
    ensures Strided([], flows, count, k)
  {
  }

  lemma PositionIs(i: nat, count: nat, k: nat)
    requires count > 0 && i % count == k
    ensures Position(i / count, count, k) == i
  {
  }

  lemma StridedFront(share: seq<string>, flows: seq<string>, count: nat, k: nat)
    requires flows != [] && Strided(share, flows[..|flows| - 1], count, k)
    ensures Strided(share, flows, count, k)
  {
    hide Position;
    forall j | 0 <= j < |share| ensures RootIs(flows, Position(j, count, k), share[j]) {
      assert RootIs(flows[..|flows| - 1], Position(j, count, k), share[j]);
    }
  }

  lemma StridedStep(before: seq<string>, flows: seq<string>, count: nat, k: nat)
    requires flows != [] && Strided(before, flows[..|flows| - 1], count, k)
    requires Position(|before|, count, k) == |flows| - 1
    ensures Strided(before + [flows[|flows| - 1]], flows, count, k)
  {
    hide Position;
    StridedFront(before, flows, count, k);
  }

  ghost predicate IsSplit(shards: seq<Shard>, flows: seq<string>) {
    shards != [] && forall k :: 0 <= k < |shards| ==> shards[k].roots == Share(flows, |shards|, k)
  }

  /** The flow at position i, read back from the shards. */
  function Interleaved(shards: seq<Shard>, length: nat): seq<string>
    requires shards != []
  {
    seq(length, i requires 0 <= i < length =>
      var shard := shards[i % |shards|];
      if i / |shards| < |shard.roots| then shard.roots[i / |shards|] else "")
  }

  /** A split plan is a partition in order: flow i is root i / n of shard i % n, every root is one of the
      flows, interleaving the shards gives the flows back, and no two shards differ by more than one. */
  lemma {:induction false} SplitInterleavesBack(shards: seq<Shard>, flows: seq<string>)
    requires IsSplit(shards, flows)
    ensures forall i :: 0 <= i < |flows| ==> RootIs(shards[i % |shards|].roots, i / |shards|, flows[i])
    ensures forall k :: 0 <= k < |shards| ==> Strided(shards[k].roots, flows, |shards|, k)
    ensures Interleaved(shards, |flows|) == flows
    ensures forall k, l :: 0 <= k < |shards| && 0 <= l < |shards| ==> |shards[k].roots| <= |shards[l].roots| + 1
  {
    hide Share, RootIs, Strided, IsSplit;
    var n := |shards|;
    SplitIsIndexed(shards, flows);
    forall i | 0 <= i < |flows|
      ensures RootIs(shards[i % n].roots, i / n, flows[i]) && Interleaved(shards, |flows|)[i] == flows[i]
    {
      assert Holds(shards[i % n].roots, flows, n, i % n);
      assert RootIs(shards[i % n].roots, i / n, flows[i]);
      InterleavedAt(shards, |flows|, i, flows[i]);
    }
  }

  lemma InterleavedAt(shards: seq<Shard>, length: nat, i: nat, path: string)
    requires shards != [] && i < length && RootIs(shards[i % |shards|].roots, i / |shards|, path)
    ensures Interleaved(shards, length)[i] == path
  {
  }

  lemma SplitIsIndexed(shards: seq<Shard>, flows: seq<string>)
    requires IsSplit(shards, flows)
    ensures shards != []
    ensures forall k :: 0 <= k < |shards| ==>
              && Holds(shards[k].roots, flows, |shards|, k) && Strided(shards[k].roots, flows, |shards|, k)
              && |shards[k].roots| == ShareLength(|flows|, |shards|, k)
  {
    forall k | 0 <= k < |shards|
      ensures Holds(shards[k].roots, flows, |shards|, k) && Strided(shards[k].roots, flows, |shards|, k)
      ensures |shards[k].roots| == ShareLength(|flows|, |shards|, k)
    {
      ShareHolds(flows, |shards|, k);
      ShareIsStrided(flows, |shards|, k);
    }
  }

  /** An accepted split over several shards leaves no shard without a flow and none without a device. */
  lemma {:induction false} AcceptedSplitFillsEveryShard(options: TestOptions, devices: seq<string>, plan: Plan,
                                                        shards: seq<Shard>, k: nat)
    requires Refusal(options, Some(devices), plan).None? && ShardCount(options) == (|shards|, false) && |shards| > 1
    requires IsSplit(shards, plan.flows) && k < |shards|
    ensures shards[k].roots != [] && k < |devices|
  {
    hide Share;
    SplitIsIndexed(shards, plan.flows);
    assert |plan.flows| >= |shards|;
    DivIsMonotone(|shards|, |plan.flows|, |shards|);
    QuotientIs(|shards|, |shards|, 1);
  }

  // ---------------------------------------------------------------------------
  // Driver ports
  // ---------------------------------------------------------------------------

  /** The shards are named from 1. */
  datatype PortError = WrongNumber | NoPort(shard: nat) | PortClash(owner: nat, shard: nat, port: int)

  /** The port meant for a shard; None when the operating system has none. The allocator is asked once for
      each shard after the first. */
  function PortOf(base: int, operator: seq<int>, allocations: nat -> Option<int>, index: nat): Option<int>
    requires operator != [] ==> index < |operator|
  {
    if operator != [] then Some(operator[index])
    else if index > 0 then allocations(index - 1)
    else Some(base)
  }

  ghost predicate PortsFit(count: nat, operator: seq<int>) {
    operator == [] || |operator| == count
  }

  /** The first n shards have ports, all different. */
  ghost predicate PortsDiffer(base: int, operator: seq<int>, allocations: nat -> Option<int>, n: nat)
    requires operator != [] ==> n <= |operator|
  {
    && (forall i :: 0 <= i < n ==> PortOf(base, operator, allocations, i).Some?)
    && (forall i, j :: 0 <= i < j < n ==>
        PortOf(base, operator, allocations, i) != PortOf(base, operator, allocations, j))
  }

  /** Why assignment stops at shard `index`, whose predecessors got theirs. */
  ghost predicate StopsAt(base: int, operator: seq<int>, allocations: nat -> Option<int>, index: nat, error: PortError)
    requires operator != [] ==> index < |operator|
  {
    && PortsDiffer(base, operator, allocations, index)
    && match error
       case WrongNumber => false
       case NoPort(shard) => shard == index + 1 && PortOf(base, operator, allocations, index).None?
       case PortClash(owner, shard, port) =>
         && shard == index + 1 && 0 < owner <= index
         && PortOf(base, operator, allocations, index) == Some(port) == PortOf(base, operator, allocations, owner - 1)
  }

  /** Gives every shard a port of its own, or stops at the first for which there is none. It succeeds exactly
      when the ports meant for the shards exist and all differ. The result tells how many were given out. */
  method AssignDriverPorts(shards: array<Shard>, base: int, operator: seq<int>, allocations: nat -> Option<int>)
    returns (error: Option<PortError>, given: nat)
    modifies shards
    ensures given <= shards.Length
    ensures !PortsFit(shards.Length, operator) ==> error == Some(WrongNumber) && given == 0
    ensures PortsFit(shards.Length, operator) ==>
              && (error.None? <==> PortsDiffer(base, operator, allocations, shards.Length))
              && (error.None? ==> given == shards.Length)
              && (error.Some? ==> given < shards.Length && StopsAt(base, operator, allocations, given, error.value))
              && (forall i :: 0 <= i < given ==> PortOf(base, operator, allocations, i) == Some(shards[i].driverPort))
    ensures forall i :: 0 <= i < given ==> shards[i] == old(shards[i]).(driverPort := shards[i].driverPort)
    ensures forall i :: given <= i < shards.Length ==> shards[i] == old(shards[i])
  {
    hide PortsDiffer, PortOf, StopsAt;
    if |operator| != 0 && |operator| != shards.Length {
      return Some(WrongNumber), 0;
    }
    var taken: map<int, nat> := map[];
    NoPortsDiffer(base, operator, allocations);
    for index := 0 to shards.Length
      invariant forall i :: 0 <= i < index ==> PortOf(base, operator, allocations, i) == Some(shards[i].driverPort)
      invariant forall i :: 0 <= i < index ==> shards[i] == old(shards[i]).(driverPort := shards[i].driverPort)
      invariant forall i :: index <= i < shards.Length ==> shards[i] == old(shards[i])
      invariant PortsDiffer(base, operator, allocations, index)
      invariant forall i :: 0 <= i < index ==> shards[i].driverPort in taken
      invariant forall port :: port in taken ==> Owns(base, operator, allocations, index, port, taken[port])
    {
      var port := base;
      PortCases(base, operator, allocations, index);
      if |operator| != 0 {
        port := operator[index];
      } else if index > 0 {
        var allotted := allocations(index - 1);
        if allotted.None? {
          StopsWithoutPort(base, operator, allocations, index);
          StoppedPortsDoNotDiffer(base, operator, allocations, index, NoPort(index + 1), shards.Length);
          return Some(NoPort(index + 1)), index;
        }
        port := allotted.value;
      }
      if port in taken {
        StopsInClash(base, operator, allocations, index, port, taken[port]);
        StoppedPortsDoNotDiffer(base, operator, allocations, index, PortClash(taken[port], index + 1, port),
                                shards.Length);
        return Some(PortClash(taken[port], index + 1, port)), index;
      }
      OneMoreDiffers(base, operator, allocations, index, port);
      StillOwned(base, operator, allocations, index, taken);
      taken := taken[port := index + 1];
      shards[index] := shards[index].(driverPort := port);
    }
    return None, shards.Length;
  }

  ghost predicate Owns(base: int, operator: seq<int>, allocations: nat -> Option<int>, index: nat, port: int,
                       owner: nat)
    requires operator != [] ==> index <= |operator|
  {
    0 < owner <= index && PortOf(base, operator, allocations, owner - 1) == Some(port)
  }

  lemma NoPortsDiffer(base: int, operator: seq<int>, allocations: nat -> Option<int>)
    ensures PortsDiffer(base, operator, allocations, 0)
  {
  }

  lemma PortCases(base: int, operator: seq<int>, allocations: nat -> Option<int>, index: nat)
    requires operator != [] ==> index < |operator|
    ensures PortOf(base, operator, allocations, index) ==
            if operator != [] then Some(operator[index]) else if index > 0 then allocations(index - 1) else Some(base)
  {
  }

  lemma StopsWithoutPort(base: int, operator: seq<int>, allocations: nat -> Option<int>, index: nat)
    requires operator != [] ==> index < |operator|
    requires PortsDiffer(base, operator, allocations, index) && PortOf(base, operator, allocations, index).None?
    ensures StopsAt(base, operator, allocations, index, NoPort(index + 1))
  {
  }

  lemma StopsInClash(base: int, operator: seq<int>, allocations: nat -> Option<int>, index: nat, port: int, owner: nat)
    requires operator != [] ==> index < |operator|
    requires PortsDiffer(base, operator, allocations, index) && PortOf(base, operator, allocations, index) == Some(port)
    requires Owns(base, operator, allocations, index, port, owner)
    ensures StopsAt(base, operator, allocations, index, PortClash(owner, index + 1, port))
  {
  }

  lemma OneMoreDiffers(base: int, operator: seq<int>, allocations: nat -> Option<int>, index: nat, port: int)
    requires operator != [] ==> index < |operator|
    requires PortsDiffer(base, operator, allocations, index) && PortOf(base, operator, allocations, index) == Some(port)
    requires forall i :: 0 <= i < index ==> PortOf(base, operator, allocations, i) != Some(port)
    ensures PortsDiffer(base, operator, allocations, index + 1)
    ensures Owns(base, operator, allocations, index + 1, port, index + 1)
  {
    hide PortOf;
  }

  lemma StillOwned(base: int, operator: seq<int>, allocations: nat -> Option<int>, index: nat, taken: map<int, nat>)
    requires operator != [] ==> index < |operator|
    requires forall port :: port in taken ==> Owns(base, operator, allocations, index, port, taken[port])
    ensures forall port :: port in taken ==> Owns(base, operator, allocations, index + 1, port, taken[port])
  {
    hide PortOf;
    forall port | port in taken ensures Owns(base, operator, allocations, index + 1, port, taken[port]) {
      assert Owns(base, operator, allocations, index, port, taken[port]);
    }
  }

  lemma StoppedPortsDoNotDiffer(base: int, operator: seq<int>, allocations: nat -> Option<int>, index: nat,
                                error: PortError, count: nat)
    requires operator != [] ==> |operator| == count
    requires index < count && StopsAt(base, operator, allocations, index, error)
    ensures !PortsDiffer(base, operator, allocations, count)
  {
  }
}
