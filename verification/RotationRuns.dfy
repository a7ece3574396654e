/** Whole runs of the validator rotation, from the genesis block on. */
module RotationRuns {
  import opened Blocks
  import opened Lists
  import opened Text
  import opened Validators
  import opened Beacon
  import opened BeaconProducer
  import opened Rotation
  import opened RotationBeacon
  import Shard

  datatype Event = OnBeacon(beaconInput: BeaconInput) | OnShard(shardInput: ShardInput)

  ghost predicate May(cfg: Config, sys: System, e: Event)
    requires WellFormed(cfg, sys)
  {
    match e
    case OnBeacon(input) => BeaconMay(cfg, sys, input)
    case OnShard(input) => ShardMay(cfg, sys, input)
  }

  ghost function Next(cfg: Config, sys: System, e: Event): Stepped
    requires WellFormed(cfg, sys) && May(cfg, sys, e)
  {
    match e
    case OnBeacon(input) => BeaconStep(cfg, sys, input)
    case OnShard(input) => ShardStep(cfg, sys, input)
  }

  /** Every event is one that honest producers may cause in the state they find. A step that fails ends the run. */
  ghost predicate Honest(cfg: Config, sys: System, events: seq<Event>)
    decreases |events|
  {
    events != [] ==>
      WellFormed(cfg, sys) && May(cfg, sys, events[0])
      && (Next(cfg, sys, events[0]).status == Running ==> Honest(cfg, Next(cfg, sys, events[0]).sys, events[1..]))
  }

  ghost function Run(cfg: Config, sys: System, events: seq<Event>): Stepped
    requires Honest(cfg, sys, events)
    decreases |events|
  {
    if events == [] then Stepped(sys, Running)
    else
      var next := Next(cfg, sys, events[0]);
      if next.status == Running then Run(cfg, next.sys, events[1..]) else next
  }

  lemma StepKeeps(cfg: Config, sys: System, e: Event)
    requires Inv(cfg, sys) && May(cfg, sys, e)
    ensures Next(cfg, sys, e).status == Running && Inv(cfg, Next(cfg, sys, e).sys)
  {
    match e
    case OnBeacon(input) => BeaconStepKeeps(cfg, sys, input);
    case OnShard(input) => ShardStepKeeps(cfg, sys, input);
  }

  /** In every run no producer fails, no block is rejected by its own chain's update, `RemoveValidator` never errors, and
      the two copies of every queue agree at every point - whatever the digests, and even when a key is listed twice. */
  lemma {:induction false} RunsAgree(cfg: Config, sys: System, events: seq<Event>)
    requires Inv(cfg, sys) && Honest(cfg, sys, events)
    ensures Run(cfg, sys, events).status == Running && Inv(cfg, Run(cfg, sys, events).sys)
    decreases |events|
  {
    if events != [] {
      StepKeeps(cfg, sys, events[0]);
      RunsAgree(cfg, Next(cfg, sys, events[0]).sys, events[1..]);
    }
  }

  /** Everybody who joined, and everybody who was swapped out, over a run. */
  ghost function JoinedOver(cfg: Config, sys: System, events: seq<Event>): multiset<string>
    requires Honest(cfg, sys, events)
    decreases |events|
  {
    if events == [] then multiset{}
    else
      EventIn(sys, events[0])
        + if Next(cfg, sys, events[0]).status == Running then JoinedOver(cfg, Next(cfg, sys, events[0]).sys, events[1..])
          else multiset{}
  }

  ghost function SwappedOutOver(cfg: Config, sys: System, events: seq<Event>): multiset<string>
    requires Honest(cfg, sys, events)
    decreases |events|
  {
    if events == [] then multiset{}
    else
      EventOut(cfg, sys, events[0])
        + if Next(cfg, sys, events[0]).status == Running then SwappedOutOver(cfg, Next(cfg, sys, events[0]).sys, events[1..])
          else multiset{}
  }

  /** Everybody whom a shuffle dropped over a run. */
  ghost function LostOver(cfg: Config, sys: System, events: seq<Event>): multiset<string>
    requires Honest(cfg, sys, events)
    decreases |events|
  {
    if events == [] then multiset{}
    else
      EventLost(cfg, sys, events[0])
        + if Next(cfg, sys, events[0]).status == Running then LostOver(cfg, Next(cfg, sys, events[0]).sys, events[1..])
          else multiset{}
  }

  /** At every draw of the run the candidates who are shuffled have different digests. */
  ghost predicate DigestsDifferOver(cfg: Config, sys: System, events: seq<Event>)
    requires Honest(cfg, sys, events)
    decreases |events|
  {
    events != [] ==>
      (events[0].OnBeacon? ==> DigestsDiffer(cfg, sys, events[0].beaconInput))
      && (Next(cfg, sys, events[0]).status == Running ==> DigestsDifferOver(cfg, Next(cfg, sys, events[0]).sys, events[1..]))
  }

  ghost function EventIn(sys: System, e: Event): multiset<string>
  {
    if e.OnBeacon? then Joined(sys, e.beaconInput) else multiset{}
  }

  ghost function EventOut(cfg: Config, sys: System, e: Event): multiset<string>
    requires WellFormed(cfg, sys) && May(cfg, sys, e)
  {
    if e.OnBeacon? then SwappedOut(cfg, sys, e.beaconInput) else multiset{}
  }

  ghost function EventLost(cfg: Config, sys: System, e: Event): multiset<string>
  {
    if e.OnBeacon? then Lost(cfg, sys, e.beaconInput) else multiset{}
  }

  lemma EventConserves(cfg: Config, sys: System, e: Event)
    requires Inv(cfg, sys) && May(cfg, sys, e)
    ensures Everybody(cfg, Next(cfg, sys, e).sys.beacon) + (EventOut(cfg, sys, e) + EventLost(cfg, sys, e))
      == Everybody(cfg, sys.beacon) + EventIn(sys, e)
    ensures EventLost(cfg, sys, e) == multiset{} <==> (e.OnBeacon? ==> DigestsDiffer(cfg, sys, e.beaconInput))
  {
    match e
    case OnBeacon(input) => BeaconStepConserves(cfg, sys, input);
    case OnShard(input) => ShardStepConserves(cfg, sys, input);
  }

  lemma ShardStepConserves(cfg: Config, sys: System, input: ShardInput)
    requires WellFormed(cfg, sys) && ShardMay(cfg, sys, input)
    ensures ShardStep(cfg, sys, input).sys.beacon == sys.beacon
    ensures Everybody(cfg, sys.beacon) + (multiset{} + multiset{}) == Everybody(cfg, sys.beacon) + multiset{}
  {
  }

  lemma Telescope(start: multiset<string>, mid: multiset<string>, end: multiset<string>,
                  out1: multiset<string>, lost1: multiset<string>, in1: multiset<string>,
                  out2: multiset<string>, lost2: multiset<string>, in2: multiset<string>)
    requires mid + (out1 + lost1) == start + in1 && end + out2 + lost2 == mid + in2
    ensures end + (out1 + out2) + (lost1 + lost2) == start + (in1 + in2)
    ensures lost1 + lost2 == multiset{} <==> lost1 == multiset{} && lost2 == multiset{}
  {
    assert end + (out1 + out2) + (lost1 + lost2) == (end + out2 + lost2) + (out1 + lost1);
    assert (mid + in2) + (out1 + lost1) == (mid + (out1 + lost1)) + in2;
    assert (start + in1) + in2 == start + (in1 + in2);
    if lost1 + lost2 == multiset{} {
      assert lost1 <= lost1 + lost2 && lost2 <= lost1 + lost2;
    }
  }

  /** Everybody is accounted for over a run: whoever was listed or joined is still listed, was swapped out, or was dropped by a
      shuffle. None is dropped if and only if the candidates of every draw have different digests. */
  lemma {:induction false} RunsConserve(cfg: Config, sys: System, events: seq<Event>)
    requires Inv(cfg, sys) && Honest(cfg, sys, events)
    ensures Everybody(cfg, Run(cfg, sys, events).sys.beacon) + SwappedOutOver(cfg, sys, events) + LostOver(cfg, sys, events)
      == Everybody(cfg, sys.beacon) + JoinedOver(cfg, sys, events)
    ensures LostOver(cfg, sys, events) == multiset{} <==> DigestsDifferOver(cfg, sys, events)
    decreases |events|
  {
    if events != [] {
      var e := events[0];
      StepKeeps(cfg, sys, e);
      EventConserves(cfg, sys, e);
      var sys' := Next(cfg, sys, e).sys;
      RunsConserve(cfg, sys', events[1..]);
      Telescope(Everybody(cfg, sys.beacon), Everybody(cfg, sys'.beacon), Everybody(cfg, Run(cfg, sys, events).sys.beacon),
        EventOut(cfg, sys, e), EventLost(cfg, sys, e), EventIn(sys, e),
        SwappedOutOver(cfg, sys', events[1..]), LostOver(cfg, sys', events[1..]), JoinedOver(cfg, sys', events[1..]));
    }
  }

  // ---------- Listed twice ----------

  ghost predicate OnceThroughout(cfg: Config, sys: System, events: seq<Event>)
    requires Honest(cfg, sys, events)
    decreases |events|
  {
    && Disjoint(cfg, sys.beacon)
    && (events != [] && Next(cfg, sys, events[0]).status == Running
      ==> OnceThroughout(cfg, Next(cfg, sys, events[0]).sys, events[1..]))
  }

  ghost predicate RequestedOnceOver(cfg: Config, sys: System, events: seq<Event>)
    requires Honest(cfg, sys, events)
    decreases |events|
  {
    events != [] ==>
      (events[0].OnBeacon? ==> RequestedOnce(sys, events[0].beaconInput))
      && (Next(cfg, sys, events[0]).status == Running ==> RequestedOnceOver(cfg, Next(cfg, sys, events[0]).sys, events[1..]))
  }

  /** In a run that starts with nobody listed twice, nobody is ever listed twice if and only if no beacon block takes two
      requests for a key that is not listed yet. */
  lemma {:induction false} ListedOnce(cfg: Config, sys: System, events: seq<Event>)
    requires Inv(cfg, sys) && Honest(cfg, sys, events) && Disjoint(cfg, sys.beacon)
    ensures OnceThroughout(cfg, sys, events) <==> RequestedOnceOver(cfg, sys, events)
    decreases |events|
  {
    if events != [] {
      var e := events[0];
      StepKeeps(cfg, sys, e);
      EventOnce(cfg, sys, e);
      var sys' := Next(cfg, sys, e).sys;
      if Disjoint(cfg, sys'.beacon) { ListedOnce(cfg, sys', events[1..]); }
    }
  }

  lemma EventOnce(cfg: Config, sys: System, e: Event)
    requires Inv(cfg, sys) && May(cfg, sys, e) && Disjoint(cfg, sys.beacon)
    ensures Disjoint(cfg, Next(cfg, sys, e).sys.beacon) <==> (e.OnBeacon? ==> RequestedOnce(sys, e.beaconInput))
  {
    match e
    case OnBeacon(input) => StaysDisjoint(cfg, sys, input);
    case OnShard(input) => ShardStepConserves(cfg, sys, input);
  }

  /** Whenever the beacon has caught up with a shard's blocks, and the shard with the beacon's, the two copies are equal:
      replaying everything in flight turns the beacon's lists into the shard's. */
  lemma CatchingUp(cfg: Config, sys: System, s: nat, b: seq<string>, c: seq<string>, flag: bool)
    requires Inv(cfg, sys) && s < cfg.activeShards
    ensures var w := ProcessAll(Work(sys.beacon, b, c, flag, Running), InFlightSwaps(cfg, sys, s));
      && w.status == Running
      && At(w.st.shardCommittee, s) == sys.shards[s].shardCommittee
      && At(w.st.shardPendingValidator, s) == sys.shards[s].shardPendingValidator + InFlightAssignments(cfg, sys, s)
  {
    assert Agree(cfg, sys, s);
    var swaps := InFlightSwaps(cfg, sys, s);
    var rest := sys.shards[s].shardPendingValidator + InFlightAssignments(cfg, sys, s);
    Regroup(Ins(swaps), sys.shards[s].shardPendingValidator, InFlightAssignments(cfg, sys, s));
    var committee := At(sys.beacon.shardCommittee, s);
    assert |committee + Ins(swaps)| == |Outs(swaps) + sys.shards[s].shardCommittee|;
    ReplaySwaps(Work(sys.beacon, b, c, flag, Running), swaps, s, rest, sys.shards[s].shardCommittee);
  }

  // ---------- Genesis ----------

  const InitialState := BeaconState(0, false, -1, [], [], map[], map[], [], [], [], [], map[])

  function GenesisBlock(beaconKeys: seq<string>, shardKeys: seq<string>): BeaconBlock
  {
    BeaconBlock(1, map[], [Stake(Join(beaconKeys), ToBeacon), Stake(Join(shardKeys), ToShard)])
  }

  function GenesisShardBlock(): ShardBlock { ShardBlock(1, 1, [], [], map[]) }

  function ShardSlice(cfg: Config, shardKeys: seq<string>, s: nat): seq<string>
    requires (s + 1) * cfg.shardCommitteeSize <= |shardKeys|
  {
    MulMonotone(s, s + 1, cfg.shardCommitteeSize);
    shardKeys[s * cfg.shardCommitteeSize..(s + 1) * cfg.shardCommitteeSize]
  }

  function ShardIds(n: nat): (ids: set<nat>)
    ensures forall s :: s in ids <==> 0 <= s < n
  {
    if n == 0 then {} else ShardIds(n - 1) + {n - 1}
  }

  /** Enough valid keys for every committee. */
  ghost predicate GenesisKeys(cfg: Config, beaconKeys: seq<string>, shardKeys: seq<string>)
  {
    && cfg.Valid() && cfg.activeShards <= SHARD_IDS
    && |beaconKeys| >= cfg.beaconCommitteeSize && |shardKeys| >= cfg.activeShards * cfg.shardCommitteeSize
    && forall key | key in beaconKeys + shardKeys :: ValidKey(key)
  }

  lemma SliceFits(cfg: Config, shardKeys: seq<string>, s: nat)
    requires s < cfg.activeShards && |shardKeys| >= cfg.activeShards * cfg.shardCommitteeSize
    ensures (s + 1) * cfg.shardCommitteeSize <= |shardKeys|
  {
    MulMonotone(s + 1, cfg.activeShards, cfg.shardCommitteeSize);
  }

  /** The system right after both sides have processed the genesis blocks. */
  ghost function GenesisSystem(cfg: Config, beaconKeys: seq<string>, shardKeys: seq<string>): System
    requires GenesisKeys(cfg, beaconKeys, shardKeys)
  {
    var block := GenesisBlock(beaconKeys, shardKeys);
    System(
      Updated(cfg, InitialState, block, []).st,
      [block],
      map s | s in ShardIds(cfg.activeShards) ::
        (SliceFits(cfg, shardKeys, s);
         Shard.Updated(Shard.ShardState(0, 0, ShardSlice(cfg, shardKeys, s), [], map[]), cfg.shardCommitteeSize, s,
                       GenesisShardBlock(), [block]).st),
      map s | s in ShardIds(cfg.activeShards) :: [GenesisShardBlock()])
  }

  /** Dealing adds its slice of the keys to every shard's committee. */
  lemma {:induction false} DealtAt(cfg: Config, committees: map<nat, seq<string>>, keys: seq<string>, shards: nat, s: nat)
    requires shards * cfg.shardCommitteeSize <= |keys|
    ensures s < shards ==> (s + 1) * cfg.shardCommitteeSize <= |keys|
    ensures At(Dealt(cfg, committees, keys, shards), s) == At(committees, s) + if s < shards then ShardSlice(cfg, keys, s) else []
  {
    if shards > 0 {
      MulMonotone(shards - 1, shards, cfg.shardCommitteeSize);
      DealtAt(cfg, committees, keys, shards - 1, s);
      if s == shards - 1 {
        DealtAt(cfg, committees, keys, shards - 1, shards - 1);
        assert At(committees, s) + [] == At(committees, s);
      }
    }
  }

  lemma DealtFirst(cfg: Config, keys: seq<string>, shards: nat, s: nat)
    requires s < shards && shards * cfg.shardCommitteeSize <= |keys|
    ensures (s + 1) * cfg.shardCommitteeSize <= |keys| && At(Dealt(cfg, map[], keys, shards), s) == ShardSlice(cfg, keys, s)
  {
    DealtAt(cfg, map[], keys, shards, s);
    assert [] + ShardSlice(cfg, keys, s) == ShardSlice(cfg, keys, s);
  }

  lemma NextSlice(cfg: Config, keys: seq<string>, s: nat)
    requires (s + 1) * cfg.shardCommitteeSize <= |keys|
    ensures s * cfg.shardCommitteeSize <= |keys|
    ensures keys[..(s + 1) * cfg.shardCommitteeSize] == keys[..s * cfg.shardCommitteeSize] + ShardSlice(cfg, keys, s)
    ensures |ShardSlice(cfg, keys, s)| == cfg.shardCommitteeSize
  {
    var from, to := s * cfg.shardCommitteeSize, (s + 1) * cfg.shardCommitteeSize;
    assert to == from + cfg.shardCommitteeSize;
    assert keys[..to] == keys[..from] + keys[from..to];
  }

  ghost predicate Sliced(cfg: Config, keys: seq<string>, lists: map<nat, seq<string>>, n: nat)
  {
    forall s | 0 <= s < n :: (s + 1) * cfg.shardCommitteeSize <= |keys| && At(lists, s) == ShardSlice(cfg, keys, s)
  }

  lemma {:induction false} SumDealt(cfg: Config, keys: seq<string>, lists: map<nat, seq<string>>, n: nat)
    requires n * cfg.shardCommitteeSize <= |keys| && Sliced(cfg, keys, lists, n)
    ensures SumLists(lists, n) == multiset(keys[..n * cfg.shardCommitteeSize])
  {
    if n == 0 {
      assert keys[..0 * cfg.shardCommitteeSize] == [];
    } else {
      NextSlice(cfg, keys, n - 1);
      SumDealt(cfg, keys, lists, n - 1);
    }
  }

  lemma GenesisStakes(beaconKeys: seq<string>, shardKeys: seq<string>, w: Work)
    requires beaconKeys != [] && shardKeys != [] && AllCommaFree(beaconKeys) && AllCommaFree(shardKeys)
    requires w.status == Running && w.newBeaconCandidate == [] && w.newShardCandidate == []
    ensures ProcessAll(w, GenesisBlock(beaconKeys, shardKeys).instructions)
      == w.(newBeaconCandidate := beaconKeys, newShardCandidate := shardKeys)
  {
    SplitJoin(beaconKeys);
    SplitJoin(shardKeys);
    var ls := GenesisBlock(beaconKeys, shardKeys).instructions;
    var w1 := ProcessOne(w, ls[0]);
    assert ls[1..] == [ls[1]] && [ls[1]][1..] == [];
    assert [] + beaconKeys == beaconKeys && [] + shardKeys == shardKeys;
    assert ProcessAll(w1, [ls[1]]) == ProcessOne(w1, ls[1]);
  }

  lemma GenesisBeacon(cfg: Config, beaconKeys: seq<string>, shardKeys: seq<string>)
    requires GenesisKeys(cfg, beaconKeys, shardKeys)
    ensures var w := Updated(cfg, InitialState, GenesisBlock(beaconKeys, shardKeys), []);
      w.status == Running && w.st == InitialState.(
        beaconHeight := 1,
        beaconCommittee := beaconKeys[..cfg.beaconCommitteeSize],
        shardCommittee := Dealt(cfg, map[], shardKeys, cfg.activeShards))
  {
    forall i | 0 <= i < |beaconKeys| ensures CommaFree(beaconKeys[i]) { assert beaconKeys[i] in beaconKeys + shardKeys; }
    forall i | 0 <= i < |shardKeys| ensures CommaFree(shardKeys[i]) { assert shardKeys[i] in beaconKeys + shardKeys; }
    PositiveProduct(cfg.activeShards, cfg.shardCommitteeSize);
    var w0 := Started(InitialState, GenesisBlock(beaconKeys, shardKeys));
    assert w0.st == InitialState.(beaconHeight := 1) by { assert InitialState.bestShardHeight + BestHeights(map[]) == map[]; }
    GenesisStakes(beaconKeys, shardKeys, w0);
  }

  lemma PositiveProduct(a: nat, b: nat)
    requires a > 0 && b > 0
    ensures a * b > 0
  {
  }

  lemma GenesisShard(cfg: Config, beaconKeys: seq<string>, shardKeys: seq<string>, s: nat)
    requires GenesisKeys(cfg, beaconKeys, shardKeys) && s < cfg.activeShards
    requires (s + 1) * cfg.shardCommitteeSize <= |shardKeys|
    ensures GenesisSystem(cfg, beaconKeys, shardKeys).shards[s]
      == Shard.ShardState(1, 1, ShardSlice(cfg, shardKeys, s), [], map[])
  {
    var block := GenesisBlock(beaconKeys, shardKeys);
    NoAssignments(block.instructions, s);
    BlockAppended([], block, 0, s);
    assert [] + [block] == [block] && [block][0..] == [block];
    assert Shard.AssignedBy([block], s) == [];
    assert Shard.LastHeights(map[]) == map[];
    assert [] + Shard.AssignedBy([block], s) == [];
  }

  lemma OnlyCommittees(cfg: Config, committee: seq<string>, lists: map<nat, seq<string>>)
    ensures Everybody(cfg, InitialState.(beaconHeight := 1, beaconCommittee := committee, shardCommittee := lists))
      == SumLists(lists, cfg.activeShards) + multiset(committee)
  {
    EmptySum(map[], cfg.activeShards);
  }

  lemma GenesisCommittees(cfg: Config, beaconKeys: seq<string>, shardKeys: seq<string>)
    requires GenesisKeys(cfg, beaconKeys, shardKeys)
    ensures SumLists(Dealt(cfg, map[], shardKeys, cfg.activeShards), cfg.activeShards)
      == multiset(shardKeys[..cfg.activeShards * cfg.shardCommitteeSize])
  {
    DealtInAll(cfg, shardKeys, cfg.activeShards);
  }

  lemma DealtInAll(cfg: Config, keys: seq<string>, n: nat)
    requires n * cfg.shardCommitteeSize <= |keys|
    ensures SumLists(Dealt(cfg, map[], keys, n), n) == multiset(keys[..n * cfg.shardCommitteeSize])
  {
    AllDealt(cfg, keys, n);
    SumDealt(cfg, keys, Dealt(cfg, map[], keys, n), n);
  }

  lemma AllDealt(cfg: Config, keys: seq<string>, n: nat)
    requires n * cfg.shardCommitteeSize <= |keys|
    ensures Sliced(cfg, keys, Dealt(cfg, map[], keys, n), n)
  {
    forall s | 0 <= s < n
      ensures (s + 1) * cfg.shardCommitteeSize <= |keys| && At(Dealt(cfg, map[], keys, n), s) == ShardSlice(cfg, keys, s)
    {
      DealtFirst(cfg, keys, n, s);
    }
  }

  /** The keys that the genesis blocks seat. */
  function Seated(cfg: Config, beaconKeys: seq<string>, shardKeys: seq<string>): seq<string>
    requires |beaconKeys| >= cfg.beaconCommitteeSize && |shardKeys| >= cfg.activeShards * cfg.shardCommitteeSize
  {
    beaconKeys[..cfg.beaconCommitteeSize] + shardKeys[..cfg.activeShards * cfg.shardCommitteeSize]
  }

  lemma GenesisLists(cfg: Config, beaconKeys: seq<string>, shardKeys: seq<string>)
    requires GenesisKeys(cfg, beaconKeys, shardKeys)
    ensures Everybody(cfg, GenesisSystem(cfg, beaconKeys, shardKeys).beacon) == multiset(Seated(cfg, beaconKeys, shardKeys))
  {
    GenesisBeacon(cfg, beaconKeys, shardKeys);
    SeatedCounts(cfg, beaconKeys, shardKeys);
  }

  lemma SeatedCounts(cfg: Config, beaconKeys: seq<string>, shardKeys: seq<string>)
    requires GenesisKeys(cfg, beaconKeys, shardKeys)
    ensures Everybody(cfg, InitialState.(
      beaconHeight := 1,
      beaconCommittee := beaconKeys[..cfg.beaconCommitteeSize],
      shardCommittee := Dealt(cfg, map[], shardKeys, cfg.activeShards))) == multiset(Seated(cfg, beaconKeys, shardKeys))
  {
    GenesisCommittees(cfg, beaconKeys, shardKeys);
    OnlyCommittees(cfg, beaconKeys[..cfg.beaconCommitteeSize], Dealt(cfg, map[], shardKeys, cfg.activeShards));
    CountsAdd(beaconKeys[..cfg.beaconCommitteeSize], shardKeys[..cfg.activeShards * cfg.shardCommitteeSize]);
  }

  lemma GenesisKeysValid(cfg: Config, beaconKeys: seq<string>, shardKeys: seq<string>)
    requires GenesisKeys(cfg, beaconKeys, shardKeys)
    ensures ValidKeys(cfg, GenesisSystem(cfg, beaconKeys, shardKeys).beacon)
  {
    GenesisLists(cfg, beaconKeys, shardKeys);
    var seated := Seated(cfg, beaconKeys, shardKeys);
    forall key | key in multiset(seated) ensures ValidKey(key) {
      assert key in seated;
      assert key in beaconKeys + shardKeys;
    }
  }

  lemma {:induction false} DistinctCounts(items: seq<string>)
    ensures NoRepeats(items) <==> forall key :: multiset(items)[key] <= 1
  {
    if NoRepeats(items) {
      forall key ensures multiset(items)[key] <= 1 { CountedOnce(items, key); }
    } else {
      var i, j :| 0 <= i < j < |items| && items[i] == items[j];
      CountedTwice(items, i, j);
    }
  }

  /** The genesis blocks list nobody twice exactly when the keys they seat differ. */
  lemma GenesisOnce(cfg: Config, beaconKeys: seq<string>, shardKeys: seq<string>)
    requires GenesisKeys(cfg, beaconKeys, shardKeys)
    ensures Disjoint(cfg, GenesisSystem(cfg, beaconKeys, shardKeys).beacon) <==> NoRepeats(Seated(cfg, beaconKeys, shardKeys))
  {
    GenesisLists(cfg, beaconKeys, shardKeys);
    DistinctCounts(Seated(cfg, beaconKeys, shardKeys));
  }

  lemma {:induction false} EmptySum(lists: map<nat, seq<string>>, n: nat)
    requires lists == map[]
    ensures SumLists(lists, n) == multiset{}
  {
    if n > 0 { EmptySum(lists, n - 1); }
  }

  lemma GenesisAgrees(cfg: Config, beaconKeys: seq<string>, shardKeys: seq<string>, s: nat)
    requires GenesisKeys(cfg, beaconKeys, shardKeys) && s < cfg.activeShards
    requires WellFormed(cfg, GenesisSystem(cfg, beaconKeys, shardKeys))
    ensures Agree(cfg, GenesisSystem(cfg, beaconKeys, shardKeys), s)
  {
    var sys := GenesisSystem(cfg, beaconKeys, shardKeys);
    GenesisBeacon(cfg, beaconKeys, shardKeys);
    DealtFirst(cfg, shardKeys, cfg.activeShards, s);
    GenesisShard(cfg, beaconKeys, shardKeys, s);
    NextSlice(cfg, shardKeys, s);
    assert Taken(sys, s) == 1 && sys.shardChains[s][1..] == [] && sys.beaconChain[1..] == [];
    var slice := ShardSlice(cfg, shardKeys, s);
    assert At(sys.beacon.shardPendingValidator, s) == [];
    assert QueuesMatch([], slice, [], [], slice, []);
  }

  lemma GenesisWellFormed(cfg: Config, beaconKeys: seq<string>, shardKeys: seq<string>)
    requires GenesisKeys(cfg, beaconKeys, shardKeys)
    ensures WellFormed(cfg, GenesisSystem(cfg, beaconKeys, shardKeys))
  {
    var sys := GenesisSystem(cfg, beaconKeys, shardKeys);
    GenesisHeights(cfg, beaconKeys, shardKeys);
    forall s | 0 <= s < cfg.activeShards ensures s in sys.shards && s in sys.shardChains && sys.shards[s].beaconHeight == 1 {
      SliceFits(cfg, shardKeys, s);
      GenesisShard(cfg, beaconKeys, shardKeys, s);
    }
  }

  lemma GenesisHeights(cfg: Config, beaconKeys: seq<string>, shardKeys: seq<string>)
    requires GenesisKeys(cfg, beaconKeys, shardKeys)
    ensures var sys := GenesisSystem(cfg, beaconKeys, shardKeys);
      && |sys.beaconChain| == sys.beacon.beaconHeight == 1 && sys.beacon.bestShardHeight == map[]
      && forall s | 0 <= s < cfg.activeShards :: s in sys.shardChains && sys.shardChains[s] == [GenesisShardBlock()]
  {
    GenesisBeacon(cfg, beaconKeys, shardKeys);
  }

  /** The genesis blocks fill every committee and bring both sides into agreement; they list nobody twice exactly when the keys
      they seat differ. */
  lemma GenesisEstablishes(cfg: Config, beaconKeys: seq<string>, shardKeys: seq<string>)
    requires GenesisKeys(cfg, beaconKeys, shardKeys)
    ensures Inv(cfg, GenesisSystem(cfg, beaconKeys, shardKeys))
    ensures Disjoint(cfg, GenesisSystem(cfg, beaconKeys, shardKeys).beacon) <==> NoRepeats(Seated(cfg, beaconKeys, shardKeys))
  {
    var sys := GenesisSystem(cfg, beaconKeys, shardKeys);
    GenesisBeacon(cfg, beaconKeys, shardKeys);
    GenesisWellFormed(cfg, beaconKeys, shardKeys);
    forall s | 0 <= s < cfg.activeShards ensures Agree(cfg, sys, s) { GenesisAgrees(cfg, beaconKeys, shardKeys, s); }
    GenesisKeysValid(cfg, beaconKeys, shardKeys);
    GenesisOnce(cfg, beaconKeys, shardKeys);
  }
}
