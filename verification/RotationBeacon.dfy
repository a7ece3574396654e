/** A beacon step of the two-sided rotation: it takes shard blocks, replays their swaps, rotates its own committee, adds
    stakers and, once an epoch, deals the waiting candidates out. */
module RotationBeacon {
  import opened Blocks
  import opened Lists
  import opened Text
  import opened Validators
  import opened Beacon
  import opened BeaconProducer
  import opened Rotation
  import Shard

  // ---------- The block ----------

  /** One request, without the keys that its own shard block has asked for before; other shard blocks may ask for them, too. */
  datatype StakeRequest = StakeRequest(keys: seq<string>, target: Target)

  /** What a beacon step may choose: how many blocks to take of each shard, who asks to stake, the random number, and the
      orders in which two Go maps are ranged over. */
  datatype BeaconInput = BeaconInput(
    take: map<nat, nat>,
    stakes: seq<StakeRequest>,
    rand: int,
    assignOrder: seq<nat>,
    shuffleOrder: seq<nat>)

  function RequestedKeys(stakes: seq<StakeRequest>): seq<string>
  {
    if stakes == [] then [] else stakes[0].keys + RequestedKeys(stakes[1..])
  }

  /** The stake instructions that are left once everybody already listed is filtered out. */
  function Stakers(known: set<string>, stakes: seq<StakeRequest>): seq<Instruction>
  {
    if stakes == [] then []
    else
      var unlisted := Excluding(stakes[0].keys, known);
      StakeOf(unlisted, stakes[0].target) + Stakers(known, stakes[1..])
  }

  function FreshFor(known: set<string>, stakes: seq<StakeRequest>, target: Target): seq<string>
  {
    if stakes == [] then []
    else (if stakes[0].target == target then Excluding(stakes[0].keys, known) else []) + FreshFor(known, stakes[1..], target)
  }

  function TakenBlocks(sys: System, input: BeaconInput, s: nat): seq<ShardBlock>
    requires s in sys.shardChains && Taken(sys, s) + NumberAt(input.take, s) <= |sys.shardChains[s]|
  {
    sys.shardChains[s][Taken(sys, s)..Taken(sys, s) + NumberAt(input.take, s)]
  }

  function Entries(blocks: seq<ShardBlock>): (entries: seq<ShardEntry>)
    ensures |entries| == |blocks|
  {
    seq(|blocks|, i requires 0 <= i < |blocks| => ShardEntry(blocks[i].height, blocks[i].crossShards))
  }

  ghost predicate CanTake(cfg: Config, sys: System, take: map<nat, nat>)
    requires WellFormed(cfg, sys)
  {
    forall s | s in take :: s < cfg.activeShards && 1 <= take[s] && Taken(sys, s) + take[s] <= |sys.shardChains[s]|
  }

  ghost function NextBlock(cfg: Config, sys: System, input: BeaconInput): BeaconBlock
    requires WellFormed(cfg, sys) && CanTake(cfg, sys, input.take)
  {
    var height := sys.beacon.beaconHeight + 1;
    var shardState := map s | s in input.take :: Entries(TakenBlocks(sys, input, s));
    BeaconBlock(height, shardState,
      Generated(cfg, sys.beacon, height, Stakers(Everyone(sys.beacon), input.stakes), SwapMap(cfg, sys, input), input.rand, input.assignOrder))
  }

  /** The requested keys are well-formed, and the order of assignment lists the shards dealt to once each. The requests may
      repeat a key: only the keys already listed are filtered out. */
  ghost predicate InputMay(cfg: Config, sys: System, input: BeaconInput)
    requires WellFormed(cfg, sys)
  {
    && (forall key | key in RequestedKeys(input.stakes) :: ValidKey(key))
    && (NeedsRandom(sys.beacon, sys.beacon.beaconHeight + 1) ==>
          Ranges(input.assignOrder, Assigned(cfg, map[], sys.beacon.shardWaitingForCurrentRandom, input.rand)))
  }

  ghost predicate BeaconMay(cfg: Config, sys: System, input: BeaconInput)
    requires WellFormed(cfg, sys)
  {
    && CanTake(cfg, sys, input.take)
    && InputMay(cfg, sys, input)
    && PossibleOrder(cfg, sys.beacon, NextBlock(cfg, sys, input), input.shuffleOrder)
  }

  /** Producing the block and applying it to the beacon's own state. */
  ghost function BeaconStep(cfg: Config, sys: System, input: BeaconInput): Stepped
    requires WellFormed(cfg, sys) && BeaconMay(cfg, sys, input)
  {
    var block := NextBlock(cfg, sys, input);
    var w := Updated(cfg, sys.beacon, block, input.shuffleOrder);
    Stepped(sys.(beacon := w.st, beaconChain := sys.beaconChain + [block]), w.status)
  }

  // ---------- Replaying the taken swaps ----------

  ghost function Replayed(cfg: Config, sys: System, input: BeaconInput, s: nat): seq<Instruction>
    requires WellFormed(cfg, sys) && CanTake(cfg, sys, input.take) && s < cfg.activeShards
  {
    SwapsOf(TakenBlocks(sys, input, s))
  }

  /** The beacon's copy of shard `s`'s pending list once the taken swaps are replayed. */
  ghost function RestPending(cfg: Config, sys: System, input: BeaconInput, s: nat): seq<string>
    requires WellFormed(cfg, sys) && CanTake(cfg, sys, input.take) && s < cfg.activeShards
  {
    var k := |Replayed(cfg, sys, input, s)|;
    var pending := At(sys.beacon.shardPendingValidator, s);
    if k <= |pending| then pending[k..] else []
  }

  ghost function NextCommittee(cfg: Config, sys: System, input: BeaconInput, s: nat): seq<string>
    requires WellFormed(cfg, sys) && CanTake(cfg, sys, input.take) && s < cfg.activeShards
  {
    var swaps := Replayed(cfg, sys, input, s);
    (At(sys.beacon.shardCommittee, s) + Ins(swaps))[|swaps|..]
  }

  lemma QueuesSplit(pending: seq<string>, committee: seq<string>, first: seq<Instruction>, then_: seq<Instruction>,
                    waiting: seq<string>, members: seq<string>, later: seq<string>)
    requires QueuesMatch(pending, committee, first + then_, waiting, members, later)
    requires |members| <= |committee|
    ensures |first| <= |pending| && pending == Ins(first) + pending[|first|..]
    ensures var next := (committee + Ins(first))[|first|..];
      && committee + Ins(first) == Outs(first) + next
      && QueuesMatch(pending[|first|..], next, then_, waiting, members, later)
  {
    InsOutsConcat(first, then_);
    assert pending == Ins(first) + (Ins(then_) + waiting + later);
    var next := (committee + Ins(first))[|first|..];
    var all := committee + Ins(first + then_);
    assert all == (committee + Ins(first)) + Ins(then_) && all == Outs(first) + (Outs(then_) + members);
    assert (committee + Ins(first))[..|first|] == all[..|first|] == Outs(first);
    assert next + Ins(then_) == all[|first|..] == Outs(then_) + members;
  }

  lemma OneForOneParts(a: seq<Instruction>, b: seq<Instruction>, s: nat)
    requires OneForOne(a + b, s)
    ensures OneForOne(a, s) && OneForOne(b, s)
  {
    assert forall i | 0 <= i < |a| :: a[i] == (a + b)[i];
    assert forall i | 0 <= i < |b| :: b[i] == (a + b)[i + |a|];
  }

  ghost function LeftInFlight(cfg: Config, sys: System, input: BeaconInput, s: nat): seq<Instruction>
    requires WellFormed(cfg, sys) && CanTake(cfg, sys, input.take) && s < cfg.activeShards
  {
    SwapsOf(sys.shardChains[s][Taken(sys, s) + NumberAt(input.take, s)..])
  }

  lemma SwapsTaken(cfg: Config, sys: System, input: BeaconInput, s: nat)
    requires WellFormed(cfg, sys) && CanTake(cfg, sys, input.take) && s < cfg.activeShards
    ensures InFlightSwaps(cfg, sys, s) == Replayed(cfg, sys, input, s) + LeftInFlight(cfg, sys, input, s)
  {
    SwapsSplit(sys.shardChains[s], Taken(sys, s), Taken(sys, s) + NumberAt(input.take, s));
  }

  lemma SwapsSplit(chain: seq<ShardBlock>, from: nat, to: nat)
    requires from <= to <= |chain|
    ensures SwapsOf(chain[from..]) == SwapsOf(chain[from..to]) + SwapsOf(chain[to..])
  {
    assert chain[from..] == chain[from..to] + chain[to..];
    SwapsOfConcat(chain[from..to], chain[to..]);
  }

  /** One shard's queues split into what the step replays and what stays in flight. */
  lemma TakenSplit(cfg: Config, sys: System, input: BeaconInput, s: nat)
    requires Inv(cfg, sys) && CanTake(cfg, sys, input.take) && s < cfg.activeShards
    ensures var swaps := Replayed(cfg, sys, input, s);
      var rest, next := RestPending(cfg, sys, input, s), NextCommittee(cfg, sys, input, s);
      && OneForOne(swaps, s) && OneForOne(LeftInFlight(cfg, sys, input, s), s)
      && At(sys.beacon.shardCommittee, s) != []
      && At(sys.beacon.shardPendingValidator, s) == Ins(swaps) + rest
      && At(sys.beacon.shardCommittee, s) + Ins(swaps) == Outs(swaps) + next
      && QueuesMatch(rest, next, LeftInFlight(cfg, sys, input, s), sys.shards[s].shardPendingValidator,
                     sys.shards[s].shardCommittee, InFlightAssignments(cfg, sys, s))
  {
    assert Agree(cfg, sys, s);
    var swaps, left := Replayed(cfg, sys, input, s), LeftInFlight(cfg, sys, input, s);
    SwapsTaken(cfg, sys, input, s);
    OneForOneParts(swaps, left, s);
    var committee, members := At(sys.beacon.shardCommittee, s), sys.shards[s].shardCommittee;
    assert |committee + Ins(swaps + left)| == |Outs(swaps + left) + members|;
    QueuesSplit(At(sys.beacon.shardPendingValidator, s), committee, swaps, left,
      sys.shards[s].shardPendingValidator, members, InFlightAssignments(cfg, sys, s));
  }

  /** The lists after the swaps of the shards below `n` have been replayed. */
  ghost predicate ListsAfter(cfg: Config, sys: System, input: BeaconInput, st: BeaconState, n: nat)
    requires WellFormed(cfg, sys) && CanTake(cfg, sys, input.take)
  {
    forall s | 0 <= s < cfg.activeShards ::
      if s < n then
        && At(st.shardPendingValidator, s) == RestPending(cfg, sys, input, s)
        && At(st.shardCommittee, s) == NextCommittee(cfg, sys, input, s)
      else
        && At(st.shardPendingValidator, s) == At(sys.beacon.shardPendingValidator, s)
        && At(st.shardCommittee, s) == At(sys.beacon.shardCommittee, s)
  }

  ghost function SwapMap(cfg: Config, sys: System, input: BeaconInput): map<nat, seq<Instruction>>
    requires WellFormed(cfg, sys) && CanTake(cfg, sys, input.take)
  {
    map s | s in input.take :: SwapsOf(TakenBlocks(sys, input, s))
  }

  lemma ReplayNext(cfg: Config, sys: System, input: BeaconInput, w: Work, s: nat)
    requires Inv(cfg, sys) && CanTake(cfg, sys, input.take)
    requires w.status == Running && ListsAfter(cfg, sys, input, w.st, s)
    ensures var w' := ProcessAll(w, At(SwapMap(cfg, sys, input), s));
      SameExceptLists(w, w') && ListsAfter(cfg, sys, input, w'.st, s + 1)
  {
    var swaps := At(SwapMap(cfg, sys, input), s);
    if s < cfg.activeShards {
      SwapsReplayed(cfg, sys, input, w, s);
    } else {
      assert swaps == [];
    }
  }

  lemma SwapsReplayed(cfg: Config, sys: System, input: BeaconInput, w: Work, s: nat)
    requires Inv(cfg, sys) && CanTake(cfg, sys, input.take) && s < cfg.activeShards && w.status == Running
    requires At(w.st.shardPendingValidator, s) == At(sys.beacon.shardPendingValidator, s)
    requires At(w.st.shardCommittee, s) == At(sys.beacon.shardCommittee, s)
    ensures var w' := ProcessAll(w, At(SwapMap(cfg, sys, input), s));
      && SameExceptLists(w, w') && UntouchedExcept(w.st, w'.st, s)
      && At(w'.st.shardPendingValidator, s) == RestPending(cfg, sys, input, s)
      && At(w'.st.shardCommittee, s) == NextCommittee(cfg, sys, input, s)
  {
    TakenSplit(cfg, sys, input, s);
    assert At(SwapMap(cfg, sys, input), s) == Replayed(cfg, sys, input, s);
    ReplaySwaps(w, At(SwapMap(cfg, sys, input), s), s, RestPending(cfg, sys, input, s), NextCommittee(cfg, sys, input, s));
  }

  lemma {:induction false} ReplayUpTo(cfg: Config, sys: System, input: BeaconInput, w: Work, n: nat)
    requires Inv(cfg, sys) && CanTake(cfg, sys, input.take)
    requires w.status == Running && ListsAfter(cfg, sys, input, w.st, 0)
    ensures ReplayedUpTo(cfg, sys, input, w, ProcessAll(w, SwapsUpTo(SwapMap(cfg, sys, input), n)), n)
  {
    var swap := SwapMap(cfg, sys, input);
    if n == 0 {
      assert ProcessAll(w, SwapsUpTo(swap, 0)) == w;
    } else {
      ReplayUpTo(cfg, sys, input, w, n - 1);
      NextSwaps(w, swap, n);
      ReplayOneMore(cfg, sys, input, w, ProcessAll(w, SwapsUpTo(swap, n - 1)), ProcessAll(w, SwapsUpTo(swap, n)), n);
    }
  }

  ghost predicate ReplayedUpTo(cfg: Config, sys: System, input: BeaconInput, w: Work, w': Work, n: nat)
    requires WellFormed(cfg, sys) && CanTake(cfg, sys, input.take)
  {
    SameExceptLists(w, w') && ListsAfter(cfg, sys, input, w'.st, n)
  }

  lemma ReplayOneMore(cfg: Config, sys: System, input: BeaconInput, w: Work, w1: Work, w2: Work, n: nat)
    requires Inv(cfg, sys) && CanTake(cfg, sys, input.take) && w.status == Running && n > 0
    requires ReplayedUpTo(cfg, sys, input, w, w1, n - 1)
    requires w2 == ProcessAll(w1, At(SwapMap(cfg, sys, input), n - 1))
    ensures ReplayedUpTo(cfg, sys, input, w, w2, n)
  {
    ReplayNext(cfg, sys, input, w1, n - 1);
  }

  lemma NextSwaps(w: Work, swap: map<nat, seq<Instruction>>, n: nat)
    requires n > 0
    ensures ProcessAll(w, SwapsUpTo(swap, n)) == ProcessAll(ProcessAll(w, SwapsUpTo(swap, n - 1)), At(swap, n - 1))
  {
    ProcessConcat(w, SwapsUpTo(swap, n - 1), At(swap, n - 1));
  }

  // ---------- The other instructions ----------

  function RotatedPending(st: BeaconState): seq<string>
  {
    if st.beaconPendingValidator == [] then [] else st.beaconPendingValidator[1..]
  }

  function RotatedCommittee(st: BeaconState): seq<string>
  {
    if st.beaconPendingValidator == [] || st.beaconCommittee == [] then st.beaconCommittee
    else st.beaconCommittee[1..] + [st.beaconPendingValidator[0]]
  }

  lemma BeaconSwapProcessed(cfg: Config, st: BeaconState, w: Work)
    requires w.status == Running && cfg.beaconCommitteeSize > 0 && |st.beaconCommittee| == cfg.beaconCommitteeSize
    requires w.st.beaconPendingValidator == st.beaconPendingValidator && w.st.beaconCommittee == st.beaconCommittee
    requires forall key | key in st.beaconPendingValidator + st.beaconCommittee :: ValidKey(key)
    ensures ProcessAll(w, BeaconSwap(cfg, st))
      == WithLists(w, RotatedPending(st), RotatedCommittee(st))
  {
    var pending, committee := st.beaconPendingValidator, st.beaconCommittee;
    if pending != [] {
      var entered, left := pending[0], committee[0];
      assert entered in pending + committee && left in pending + committee;
      var all := committee + pending[..1];
      assert pending[..1] == [entered] && pending[0..1] == [entered] && all == committee + [entered];
      assert all[..1] == [left] && all[1..] == committee[1..] + [entered];
      assert BeaconSwap(cfg, st) == [SwapBeacon(entered, left)];
      SplitCommaFree(entered);
      SplitCommaFree(left);
      RemoveHead(pending, entered);
      RemoveHead(all, left);
      assert [SwapBeacon(entered, left)][1..] == [];
    }
  }

  lemma ExcludingValid(stakers: seq<string>, known: set<string>)
    ensures forall key | key in Excluding(stakers, known) :: key in stakers && key !in known
  {
  }

  function StakeOf(keys: seq<string>, target: Target): seq<Instruction>
  {
    if keys == [] then [] else [Stake(Join(keys), target)]
  }

  lemma StakeProcessed(w: Work, keys: seq<string>, target: Target)
    requires w.status == Running
    requires forall key | key in keys :: ValidKey(key)
    ensures ProcessAll(w, StakeOf(keys, target)) == w.(
      newBeaconCandidate := w.newBeaconCandidate + if target == ToBeacon then keys else [],
      newShardCandidate := w.newShardCandidate + if target == ToShard then keys else [])
  {
    assert w.newBeaconCandidate + [] == w.newBeaconCandidate && w.newShardCandidate + [] == w.newShardCandidate;
    if keys != [] {
      forall i | 0 <= i < |keys| ensures CommaFree(keys[i]) { assert keys[i] in keys; }
      SplitJoin(keys);
      assert StakeOf(keys, target)[1..] == [];
    }
  }

  lemma {:induction false} StakersProcessed(w: Work, known: set<string>, stakes: seq<StakeRequest>)
    requires w.status == Running
    requires forall key | key in RequestedKeys(stakes) :: ValidKey(key)
    ensures ProcessAll(w, Stakers(known, stakes)) == w.(
      newBeaconCandidate := w.newBeaconCandidate + FreshFor(known, stakes, ToBeacon),
      newShardCandidate := w.newShardCandidate + FreshFor(known, stakes, ToShard))
    decreases |stakes|
  {
    if stakes == [] {
      assert w.newBeaconCandidate + [] == w.newBeaconCandidate && w.newShardCandidate + [] == w.newShardCandidate;
    } else {
      var unlisted, target := Excluding(stakes[0].keys, known), stakes[0].target;
      ExcludingValid(stakes[0].keys, known);
      assert forall key | key in unlisted :: key in RequestedKeys(stakes);
      ProcessConcat(w, StakeOf(unlisted, target), Stakers(known, stakes[1..]));
      StakeProcessed(w, unlisted, target);
      StakersProcessed(ProcessAll(w, StakeOf(unlisted, target)), known, stakes[1..]);
      Regroup(w.newBeaconCandidate, if target == ToBeacon then unlisted else [], FreshFor(known, stakes[1..], ToBeacon));
      Regroup(w.newShardCandidate, if target == ToShard then unlisted else [], FreshFor(known, stakes[1..], ToShard));
    }
  }

  lemma {:induction false} AssignsProcessed(w: Work, ls: seq<Instruction>)
    requires forall i | 0 <= i < |ls| :: ls[i].Assign?
    ensures ProcessAll(w, ls) == w
    decreases |ls|
  {
    if ls != [] && w.status == Running { AssignsProcessed(w, ls[1..]); }
  }

  /** The random number is drawn in this step. */
  predicate Draws(st: BeaconState)
  {
    NeedsRandom(st, st.beaconHeight + 1)
  }

  lemma RandomProcessed(w: Work, rand: int, dealt: map<nat, seq<string>>, order: seq<nat>)
    requires w.status == Running
    ensures ProcessAll(w, [Random(rand)] + AssignInstructions(dealt, order))
      == w.(st := w.st.(currentRandomNumber := rand), randomFlag := true)
  {
    var ls := [Random(rand)] + AssignInstructions(dealt, order);
    assert ls[1..] == AssignInstructions(dealt, order);
    AssignsProcessed(ProcessOne(w, Random(rand)), ls[1..]);
  }

  lemma StartedRuns(cfg: Config, sys: System, input: BeaconInput)
    requires WellFormed(cfg, sys) && CanTake(cfg, sys, input.take)
    ensures var block := NextBlock(cfg, sys, input);
      && (forall s | s in block.shardState :: block.shardState[s] != [])
      && Started(sys.beacon, block) == Work(sys.beacon.(
           beaconHeight := block.height,
           bestShardHeight := sys.beacon.bestShardHeight + BestHeights(block.shardState)), [], [], false, Running)
  {
    var block := NextBlock(cfg, sys, input);
    forall s | s in block.shardState ensures block.shardState[s] != [] {
      assert s in input.take;
      assert |TakenBlocks(sys, input, s)| == input.take[s];
    }
  }

  /** The state between the instruction loop and the candidate handling. */
  ghost predicate AfterInstructions(cfg: Config, sys: System, input: BeaconInput, w: Work)
    requires WellFormed(cfg, sys) && CanTake(cfg, sys, input.take)
  {
    var st, block, known := sys.beacon, NextBlock(cfg, sys, input), Everyone(sys.beacon);
    && (forall s | s in block.shardState :: block.shardState[s] != [])
    && w == Work(
         st.(beaconHeight := block.height,
             bestShardHeight := st.bestShardHeight + BestHeights(block.shardState),
             beaconPendingValidator := if block.height % EPOCH == 0 then RotatedPending(st) else st.beaconPendingValidator,
             beaconCommittee := if block.height % EPOCH == 0 then RotatedCommittee(st) else st.beaconCommittee,
             currentRandomNumber := if Draws(st) then input.rand else st.currentRandomNumber,
             shardPendingValidator := w.st.shardPendingValidator,
             shardCommittee := w.st.shardCommittee),
         FreshFor(known, input.stakes, ToBeacon), FreshFor(known, input.stakes, ToShard), Draws(st), Running)
    && ListsAfter(cfg, sys, input, w.st, cfg.activeShards)
  }

  lemma BeaconKeysValid(cfg: Config, st: BeaconState)
    requires ValidKeys(cfg, st)
    ensures forall key | key in st.beaconPendingValidator + st.beaconCommittee :: ValidKey(key)
  {
    forall key | key in st.beaconPendingValidator + st.beaconCommittee ensures ValidKey(key) {
      assert key in multiset(st.beaconCommittee) || key in multiset(st.beaconPendingValidator);
      assert key in Everybody(cfg, st);
    }
  }

  lemma ProcessFourParts(w: Work, a: seq<Instruction>, b: seq<Instruction>, c: seq<Instruction>, d: seq<Instruction>)
    ensures ProcessAll(w, a + b + c + d) == ProcessAll(ProcessAll(ProcessAll(ProcessAll(w, a), b), c), d)
  {
    ProcessConcat(w, a + b + c, d);
    ProcessConcat(w, a + b, c);
    ProcessConcat(w, a, b);
  }

  /** The beacon's own swap, at the end of an epoch. */
  ghost function OwnSwap(cfg: Config, st: BeaconState): seq<Instruction>
  {
    if (st.beaconHeight + 1) % EPOCH == 0 then BeaconSwap(cfg, st) else []
  }

  /** The random number and the assignments it decides, when it is drawn. */
  ghost function DrawPart(cfg: Config, st: BeaconState, input: BeaconInput): seq<Instruction>
    requires cfg.activeShards > 0
  {
    if Draws(st) then
      [Random(input.rand)] + AssignInstructions(Assigned(cfg, map[], st.shardWaitingForCurrentRandom, input.rand), input.assignOrder)
    else []
  }

  ghost function WithLists(w: Work, pending: seq<string>, committee: seq<string>): Work
  {
    w.(st := w.st.(beaconPendingValidator := pending, beaconCommittee := committee))
  }

  ghost function WithOwnSwap(w: Work, st: BeaconState): Work
  {
    if (st.beaconHeight + 1) % EPOCH == 0 then WithLists(w, RotatedPending(st), RotatedCommittee(st)) else w
  }

  ghost function WithStakers(w: Work, known: set<string>, stakes: seq<StakeRequest>): Work
  {
    w.(newBeaconCandidate := FreshFor(known, stakes, ToBeacon), newShardCandidate := FreshFor(known, stakes, ToShard))
  }

  ghost function WithDraw(w: Work, st: BeaconState, rand: int): Work
  {
    if Draws(st) then w.(st := w.st.(currentRandomNumber := rand), randomFlag := true) else w
  }

  /** Everything but the shard swaps, from any running state that still has the beacon's own lists. */
  lemma OwnInstructionsProcessed(cfg: Config, sys: System, input: BeaconInput, w: Work)
    requires cfg.activeShards > 0 && ValidKeys(cfg, sys.beacon) && |sys.beacon.beaconCommittee| == cfg.beaconCommitteeSize > 0
    requires forall key | key in RequestedKeys(input.stakes) :: ValidKey(key)
    requires w.status == Running && w.newBeaconCandidate == [] && w.newShardCandidate == [] && !w.randomFlag
    requires w.st.beaconPendingValidator == sys.beacon.beaconPendingValidator && w.st.beaconCommittee == sys.beacon.beaconCommittee
    ensures var st, known := sys.beacon, Everyone(sys.beacon);
      ProcessAll(ProcessAll(ProcessAll(w, OwnSwap(cfg, st)), Stakers(known, input.stakes)), DrawPart(cfg, st, input))
        == WithDraw(WithStakers(WithOwnSwap(w, st), known, input.stakes), st, input.rand)
  {
    var st, known := sys.beacon, Everyone(sys.beacon);
    OwnSwapProcessed(cfg, st, w);
    var w2 := ProcessAll(w, OwnSwap(cfg, st));
    StakersFromNothing(w2, known, input.stakes);
    DrawProcessed(cfg, st, input, ProcessAll(w2, Stakers(known, input.stakes)));
  }

  lemma OwnSwapProcessed(cfg: Config, st: BeaconState, w: Work)
    requires ValidKeys(cfg, st) && |st.beaconCommittee| == cfg.beaconCommitteeSize > 0 && w.status == Running
    requires w.st.beaconPendingValidator == st.beaconPendingValidator && w.st.beaconCommittee == st.beaconCommittee
    ensures ProcessAll(w, OwnSwap(cfg, st)) == WithOwnSwap(w, st)
  {
    if (st.beaconHeight + 1) % EPOCH == 0 {
      BeaconKeysValid(cfg, st);
      BeaconSwapProcessed(cfg, st, w);
    }
  }

  lemma StakersFromNothing(w: Work, known: set<string>, stakes: seq<StakeRequest>)
    requires w.status == Running && w.newBeaconCandidate == [] && w.newShardCandidate == []
    requires forall key | key in RequestedKeys(stakes) :: ValidKey(key)
    ensures ProcessAll(w, Stakers(known, stakes)) == WithStakers(w, known, stakes)
  {
    StakersProcessed(w, known, stakes);
    NothingInFront(FreshFor(known, stakes, ToBeacon));
    NothingInFront(FreshFor(known, stakes, ToShard));
  }

  lemma NothingInFront(keys: seq<string>)
    ensures [] + keys == keys
  {
  }

  lemma DrawProcessed(cfg: Config, st: BeaconState, input: BeaconInput, w: Work)
    requires cfg.activeShards > 0 && w.status == Running && !w.randomFlag
    ensures ProcessAll(w, DrawPart(cfg, st, input)) == WithDraw(w, st, input.rand)
  {
    if Draws(st) {
      RandomProcessed(w, input.rand, Assigned(cfg, map[], st.shardWaitingForCurrentRandom, input.rand), input.assignOrder);
    }
  }

  /** The instructions of the next block, part by part. */
  lemma InstructionParts(cfg: Config, sys: System, input: BeaconInput)
    requires WellFormed(cfg, sys) && CanTake(cfg, sys, input.take)
    ensures NextBlock(cfg, sys, input).height == sys.beacon.beaconHeight + 1
    ensures NextBlock(cfg, sys, input).instructions
      == SwapsUpTo(SwapMap(cfg, sys, input), SHARD_IDS) + OwnSwap(cfg, sys.beacon) + Stakers(Everyone(sys.beacon), input.stakes)
        + DrawPart(cfg, sys.beacon, input)
  {
  }

  /** The swaps of all shards, processed first, leave every shard's lists replayed. */
  lemma SwapsProcessed(cfg: Config, sys: System, input: BeaconInput)
    requires Inv(cfg, sys) && CanTake(cfg, sys, input.take)
    ensures var w0 := Started(sys.beacon, NextBlock(cfg, sys, input));
      var w1 := ProcessAll(w0, SwapsUpTo(SwapMap(cfg, sys, input), SHARD_IDS));
      SameExceptLists(w0, w1) && w0.status == Running && ListsAfter(cfg, sys, input, w1.st, cfg.activeShards)
  {
    StartedRuns(cfg, sys, input);
    var w0 := Started(sys.beacon, NextBlock(cfg, sys, input));
    assert ListsAfter(cfg, sys, input, w0.st, 0);
    ReplayUpTo(cfg, sys, input, w0, SHARD_IDS);
    ListsOfActive(cfg, sys, input, ProcessAll(w0, SwapsUpTo(SwapMap(cfg, sys, input), SHARD_IDS)).st);
  }

  lemma ListsOfActive(cfg: Config, sys: System, input: BeaconInput, st: BeaconState)
    requires WellFormed(cfg, sys) && CanTake(cfg, sys, input.take) && ListsAfter(cfg, sys, input, st, SHARD_IDS)
    ensures ListsAfter(cfg, sys, input, st, cfg.activeShards)
  {
  }

  /** What the parts of the instruction loop leave, put together. */
  lemma PutTogether(cfg: Config, sys: System, input: BeaconInput, w0: Work, w1: Work, w: Work)
    requires WellFormed(cfg, sys) && CanTake(cfg, sys, input.take) && BeforeInstructions(cfg, sys, input, w0)
    requires SameExceptLists(w0, w1) && ListsAfter(cfg, sys, input, w1.st, cfg.activeShards)
    requires w == WithDraw(WithStakers(WithOwnSwap(w1, sys.beacon), Everyone(sys.beacon), input.stakes), sys.beacon, input.rand)
    ensures AfterInstructions(cfg, sys, input, w)
  {
    OnlyListsDiffer(w0, w1);
  }

  lemma OnlyListsDiffer(w0: Work, w1: Work)
    requires SameExceptLists(w0, w1)
    ensures w1 == w0.(st := w0.st.(shardPendingValidator := w1.st.shardPendingValidator, shardCommittee := w1.st.shardCommittee))
  {
  }

  ghost predicate BeforeInstructions(cfg: Config, sys: System, input: BeaconInput, w0: Work)
    requires WellFormed(cfg, sys) && CanTake(cfg, sys, input.take)
  {
    var block := NextBlock(cfg, sys, input);
    && block.height == sys.beacon.beaconHeight + 1
    && (forall s | s in block.shardState :: block.shardState[s] != [])
    && w0 == Work(sys.beacon.(
         beaconHeight := block.height,
         bestShardHeight := sys.beacon.bestShardHeight + BestHeights(block.shardState)), [], [], false, Running)
  }

  lemma InvBasics(cfg: Config, sys: System, input: BeaconInput)
    requires Inv(cfg, sys) && BeaconMay(cfg, sys, input)
    ensures cfg.activeShards > 0 && ValidKeys(cfg, sys.beacon) && |sys.beacon.beaconCommittee| == cfg.beaconCommitteeSize > 0
    ensures forall key | key in RequestedKeys(input.stakes) :: ValidKey(key)
    ensures Draws(sys.beacon) ==>
      Ranges(input.assignOrder, Assigned(cfg, map[], sys.beacon.shardWaitingForCurrentRandom, input.rand))
  {
    FullOfValidKeys(cfg, sys);
    StakesAreValid(cfg, sys, input);
    DrawIsOrdered(cfg, sys, input);
  }

  lemma FullOfValidKeys(cfg: Config, sys: System)
    requires Inv(cfg, sys)
    ensures cfg.activeShards > 0 && ValidKeys(cfg, sys.beacon) && |sys.beacon.beaconCommittee| == cfg.beaconCommitteeSize > 0
  {
  }

  lemma StakesAreValid(cfg: Config, sys: System, input: BeaconInput)
    requires WellFormed(cfg, sys) && InputMay(cfg, sys, input)
    ensures forall key | key in RequestedKeys(input.stakes) :: ValidKey(key)
  {
  }

  lemma DrawIsOrdered(cfg: Config, sys: System, input: BeaconInput)
    requires WellFormed(cfg, sys) && InputMay(cfg, sys, input)
    ensures Draws(sys.beacon) ==>
      Ranges(input.assignOrder, Assigned(cfg, map[], sys.beacon.shardWaitingForCurrentRandom, input.rand))
  {
  }

  lemma InstructionsProcessed(cfg: Config, sys: System, input: BeaconInput)
    requires Inv(cfg, sys) && BeaconMay(cfg, sys, input)
    ensures var block := NextBlock(cfg, sys, input);
      AfterInstructions(cfg, sys, input, ProcessAll(Started(sys.beacon, block), block.instructions))
  {
    var st, block := sys.beacon, NextBlock(cfg, sys, input);
    var w0 := Started(st, block);
    StartedRuns(cfg, sys, input);
    InstructionParts(cfg, sys, input);
    InvBasics(cfg, sys, input);
    SwapsProcessed(cfg, sys, input);
    var swaps := SwapsUpTo(SwapMap(cfg, sys, input), SHARD_IDS);
    var w1 := ProcessAll(w0, swaps);
    ProcessFourParts(w0, swaps, OwnSwap(cfg, st), Stakers(Everyone(st), input.stakes), DrawPart(cfg, st, input));
    OwnInstructionsProcessed(cfg, sys, input, w1);
    PutTogether(cfg, sys, input, w0, w1, ProcessAll(w0, block.instructions));
  }

  // ---------- The state after the step ----------

  /** On schedule, the number is drawn exactly in the block after the snapshot. */
  lemma DrawsOnce(st: BeaconState)
    requires OnSchedule(st)
    ensures Draws(st) <==> (st.beaconHeight + 1) % EPOCH == RANDOM_TIME + 1
  {
  }

  ghost function WithCandidates(cfg: Config, sys: System, input: BeaconInput, st: BeaconState): BeaconState
  {
    st.(beaconWaitingForNextRandom := st.beaconWaitingForNextRandom + FreshFor(Everyone(sys.beacon), input.stakes, ToBeacon),
        shardWaitingForNextRandom := st.shardWaitingForNextRandom + FreshFor(Everyone(sys.beacon), input.stakes, ToShard))
  }

  /** The step never fails; its last part acts on the state the instructions left. */
  lemma StepOutcome(cfg: Config, sys: System, input: BeaconInput)
    requires Inv(cfg, sys) && BeaconMay(cfg, sys, input)
    ensures var block := NextBlock(cfg, sys, input);
      var w := ProcessAll(Started(sys.beacon, block), block.instructions);
      && AfterInstructions(cfg, sys, input, w)
      && BeaconStep(cfg, sys, input).status == Running
      && BeaconStep(cfg, sys, input).sys.beacon
         == Timed(cfg, WithCandidates(cfg, sys, input, w.st), Draws(sys.beacon), input.shuffleOrder)
  {
    InstructionsProcessed(cfg, sys, input);
  }

  lemma TimedOnSchedule(cfg: Config, st: BeaconState, g: BeaconState, order: seq<nat>)
    requires cfg.activeShards > 0 && OnSchedule(st) && g.beaconHeight == st.beaconHeight + 1 > 1
    requires g.isGetRandomNumber == st.isGetRandomNumber
    requires g.shardWaitingForCurrentRandom == st.shardWaitingForCurrentRandom
    requires g.beaconWaitingForCurrentRandom == st.beaconWaitingForCurrentRandom
    ensures OnSchedule(Timed(cfg, g, Draws(st), order))
  {
    DrawsOnce(st);
  }

  lemma ScheduleKept(cfg: Config, sys: System, input: BeaconInput)
    requires Inv(cfg, sys) && BeaconMay(cfg, sys, input)
    ensures OnSchedule(BeaconStep(cfg, sys, input).sys.beacon)
    ensures |BeaconStep(cfg, sys, input).sys.beacon.beaconCommittee| == cfg.beaconCommitteeSize
  {
    StepOutcome(cfg, sys, input);
    var block := NextBlock(cfg, sys, input);
    var w := ProcessAll(Started(sys.beacon, block), block.instructions);
    TimedOnSchedule(cfg, sys.beacon, WithCandidates(cfg, sys, input, w.st), input.shuffleOrder);
  }

  // ---------- What the shards will read ----------

  lemma {:induction false} AssignedKeysConcat(a: seq<Instruction>, b: seq<Instruction>, s: nat)
    ensures Shard.AssignedKeys(a + b, s) == Shard.AssignedKeys(a, s) + Shard.AssignedKeys(b, s)
  {
    if a == [] {
      assert a + b == b;
    } else {
      AssignedKeysConcat(a[1..], b, s);
      assert (a + b)[1..] == a[1..] + b && (a + b)[0] == a[0];
      var first := if a[0].Assign? && a[0].shardID == s then Split(a[0].keys) else [];
      Regroup(first, Shard.AssignedKeys(a[1..], s), Shard.AssignedKeys(b, s));
    }
  }

  ghost predicate AssignsNobody(ls: seq<Instruction>)
  {
    forall l | l in ls :: !l.Assign?
  }

  lemma {:induction false} NoAssignments(ls: seq<Instruction>, s: nat)
    requires AssignsNobody(ls)
    ensures Shard.AssignedKeys(ls, s) == []
  {
    if ls != [] {
      assert ls[0] in ls;
      assert forall l | l in ls[1..] :: l in ls;
      NoAssignments(ls[1..], s);
    }
  }

  lemma TakenSwapsAssignNobody(cfg: Config, sys: System, input: BeaconInput, s: nat)
    requires Inv(cfg, sys) && CanTake(cfg, sys, input.take)
    ensures AssignsNobody(At(SwapMap(cfg, sys, input), s))
  {
    if s in input.take {
      TakenSplit(cfg, sys, input, s);
      assert At(SwapMap(cfg, sys, input), s) == Replayed(cfg, sys, input, s);
    }
  }

  lemma {:induction false} ListsAssignNobody(swaps: map<nat, seq<Instruction>>, n: nat)
    requires forall s: nat :: AssignsNobody(At(swaps, s))
    ensures AssignsNobody(SwapsUpTo(swaps, n))
  {
    if n > 0 {
      ListsAssignNobody(swaps, n - 1);
      assert AssignsNobody(At(swaps, n - 1));
    }
  }

  lemma SwapsDoNotAssign(cfg: Config, sys: System, input: BeaconInput, n: nat)
    requires Inv(cfg, sys) && CanTake(cfg, sys, input.take)
    ensures AssignsNobody(SwapsUpTo(SwapMap(cfg, sys, input), n))
  {
    forall s: nat ensures AssignsNobody(At(SwapMap(cfg, sys, input), s)) {
      TakenSwapsAssignNobody(cfg, sys, input, s);
    }
    ListsAssignNobody(SwapMap(cfg, sys, input), n);
  }

  lemma {:induction false} StakersDoNotAssign(known: set<string>, stakes: seq<StakeRequest>)
    ensures AssignsNobody(Stakers(known, stakes))
  {
    if stakes != [] { StakersDoNotAssign(known, stakes[1..]); }
  }

  /** Reading the assign instructions back gives every shard its own list, whatever their order. */
  lemma {:induction false} AssignmentsRead(dealt: map<nat, seq<string>>, order: seq<nat>, s: nat)
    requires NoRepeats(order)
    requires forall k | k in order :: At(dealt, k) != [] && forall key | key in At(dealt, k) :: ValidKey(key)
    ensures Shard.AssignedKeys(AssignInstructions(dealt, order), s) == if s in order then At(dealt, s) else []
  {
    if order != [] {
      var ls, rest := AssignInstructions(dealt, order), order[1..];
      assert ls[1..] == AssignInstructions(dealt, rest);
      assert NoRepeats(rest);
      AssignmentsRead(dealt, rest, s);
      var keys := At(dealt, order[0]);
      assert order[0] in order;
      forall i | 0 <= i < |keys| ensures CommaFree(keys[i]) { assert keys[i] in keys; }
      SplitJoin(keys);
      assert order == [order[0]] + rest;
      if order[0] == s { assert s !in rest; }
    }
  }

  lemma {:induction false} DealtNonEmpty(cfg: Config, lists: map<nat, seq<string>>, candidates: seq<string>, rand: int)
    requires cfg.activeShards > 0
    requires forall k | k in lists :: lists[k] != []
    ensures forall k | k in Assigned(cfg, lists, candidates, rand) :: Assigned(cfg, lists, candidates, rand)[k] != []
    decreases |candidates|
  {
    if candidates != [] {
      var shardID := CandidateShard(cfg, candidates[0], rand);
      DealtNonEmpty(cfg, lists[shardID := At(lists, shardID) + [candidates[0]]], candidates[1..], rand);
    }
  }

  lemma {:induction false} CandidatesAreListed(cfg: Config, candidates: seq<string>, rand: int, s: nat)
    requires cfg.activeShards > 0
    ensures forall key | key in CandidatesOf(cfg, candidates, rand, s) :: key in candidates
  {
    if candidates != [] { CandidatesAreListed(cfg, candidates[1..], rand, s); }
  }

  lemma WaitingKeysValid(cfg: Config, st: BeaconState)
    requires ValidKeys(cfg, st)
    ensures forall key | key in st.shardWaitingForCurrentRandom :: ValidKey(key)
  {
    forall key | key in st.shardWaitingForCurrentRandom ensures ValidKey(key) {
      assert key in multiset(st.shardWaitingForCurrentRandom);
      assert key in Everybody(cfg, st);
    }
  }

  lemma DrawnRead(cfg: Config, st: BeaconState, rand: int, order: seq<nat>, s: nat)
    requires cfg.activeShards > 0 && ValidKeys(cfg, st)
    requires Ranges(order, Assigned(cfg, map[], st.shardWaitingForCurrentRandom, rand))
    ensures Shard.AssignedKeys(AssignInstructions(Assigned(cfg, map[], st.shardWaitingForCurrentRandom, rand), order), s)
      == CandidatesOf(cfg, st.shardWaitingForCurrentRandom, rand, s)
  {
    var candidates := st.shardWaitingForCurrentRandom;
    var dealt := Assigned(cfg, map[], candidates, rand);
    WaitingKeysValid(cfg, st);
    DealtNonEmpty(cfg, map[], candidates, rand);
    forall k | k in order ensures At(dealt, k) != [] && forall key | key in At(dealt, k) :: ValidKey(key) {
      AssignedAt(cfg, map[], candidates, rand, k);
      CandidatesAreListed(cfg, candidates, rand, k);
    }
    AssignmentsRead(dealt, order, s);
    AssignedAt(cfg, map[], candidates, rand, s);
  }

  lemma OthersAssignNobody(cfg: Config, sys: System, input: BeaconInput)
    requires Inv(cfg, sys) && CanTake(cfg, sys, input.take)
    ensures AssignsNobody(SwapsUpTo(SwapMap(cfg, sys, input), SHARD_IDS)
      + OwnSwap(cfg, sys.beacon) + Stakers(Everyone(sys.beacon), input.stakes))
  {
    SwapsDoNotAssign(cfg, sys, input, SHARD_IDS);
    StakersDoNotAssign(Everyone(sys.beacon), input.stakes);
    assert AssignsNobody(BeaconSwap(cfg, sys.beacon));
  }

  lemma OnlyTheDraw(others: seq<Instruction>, draw: seq<Instruction>, s: nat)
    requires AssignsNobody(others)
    ensures Shard.AssignedKeys(others + draw, s) == Shard.AssignedKeys(draw, s)
  {
    AssignedKeysConcat(others, draw, s);
    NoAssignments(others, s);
  }

  lemma DrawPartRead(cfg: Config, st: BeaconState, input: BeaconInput, s: nat)
    requires cfg.activeShards > 0 && ValidKeys(cfg, st)
    requires Draws(st) ==> Ranges(input.assignOrder, Assigned(cfg, map[], st.shardWaitingForCurrentRandom, input.rand))
    ensures Shard.AssignedKeys(DrawPart(cfg, st, input), s) == Drawn(cfg, st, input.rand, s)
  {
    if Draws(st) {
      var assigns := AssignInstructions(Assigned(cfg, map[], st.shardWaitingForCurrentRandom, input.rand), input.assignOrder);
      OnlyTheDraw([Random(input.rand)], assigns, s);
      DrawnRead(cfg, st, input.rand, input.assignOrder, s);
    }
  }

  /** What shard `s` will read out of the new block is what the beacon adds to its own copy of the pending list. */
  lemma BlockAssigns(cfg: Config, sys: System, input: BeaconInput, s: nat)
    requires Inv(cfg, sys) && BeaconMay(cfg, sys, input)
    ensures Shard.AssignedKeys(NextBlock(cfg, sys, input).instructions, s) == Drawn(cfg, sys.beacon, input.rand, s)
  {
    InstructionParts(cfg, sys, input);
    OthersAssignNobody(cfg, sys, input);
    InvBasics(cfg, sys, input);
    OnlyTheDraw(SwapsUpTo(SwapMap(cfg, sys, input), SHARD_IDS) + OwnSwap(cfg, sys.beacon) + Stakers(Everyone(sys.beacon), input.stakes),
      DrawPart(cfg, sys.beacon, input), s);
    DrawPartRead(cfg, sys.beacon, input, s);
  }

  // ---------- Agreement after the step ----------

  /** What the candidate handling leaves of the lists that concern the shards. */
  lemma TimedFields(cfg: Config, st: BeaconState, g: BeaconState, order: seq<nat>)
    requires cfg.activeShards > 0 && OnSchedule(st) && g.beaconHeight == st.beaconHeight + 1 > 1
    ensures var t := Timed(cfg, g, Draws(st), order);
      && t.shardCommittee == g.shardCommittee && t.bestShardHeight == g.bestShardHeight && t.beaconHeight == g.beaconHeight
      && t.shardPendingValidator == if Draws(st)
           then Assigned(cfg, g.shardPendingValidator, g.shardWaitingForCurrentRandom, g.currentRandomNumber)
           else g.shardPendingValidator
  {
    DrawsOnce(st);
  }

  /** The new system, told apart from how it is computed. */
  ghost predicate StepsTo(cfg: Config, sys: System, input: BeaconInput, w: Work, sys': System)
    requires WellFormed(cfg, sys) && CanTake(cfg, sys, input.take)
  {
    && AfterInstructions(cfg, sys, input, w)
    && sys'.beacon.shardCommittee == w.st.shardCommittee
    && sys'.beacon.bestShardHeight == w.st.bestShardHeight
    && sys'.beacon.beaconHeight == w.st.beaconHeight
    && sys'.beacon.shardPendingValidator == (if Draws(sys.beacon)
         then Assigned(cfg, w.st.shardPendingValidator, sys.beacon.shardWaitingForCurrentRandom, input.rand)
         else w.st.shardPendingValidator)
    && sys' == sys.(beacon := sys'.beacon, beaconChain := sys.beaconChain + [NextBlock(cfg, sys, input)])
  }

  lemma StepDone(cfg: Config, sys: System, input: BeaconInput) returns (w: Work)
    requires Inv(cfg, sys) && BeaconMay(cfg, sys, input)
    ensures StepsTo(cfg, sys, input, w, BeaconStep(cfg, sys, input).sys)
  {
    var block := NextBlock(cfg, sys, input);
    w := ProcessAll(Started(sys.beacon, block), block.instructions);
    StepOutcome(cfg, sys, input);
    TimedFields(cfg, sys.beacon, WithCandidates(cfg, sys, input, w.st), input.shuffleOrder);
  }

  function Drawn(cfg: Config, st: BeaconState, rand: int, s: nat): seq<string>
    requires cfg.activeShards > 0
  {
    if Draws(st) then CandidatesOf(cfg, st.shardWaitingForCurrentRandom, rand, s) else []
  }

  lemma ShardListsAfter(cfg: Config, sys: System, input: BeaconInput, w: Work, sys': System, s: nat)
    requires WellFormed(cfg, sys) && CanTake(cfg, sys, input.take) && s < cfg.activeShards
    requires StepsTo(cfg, sys, input, w, sys')
    ensures At(sys'.beacon.shardPendingValidator, s) == RestPending(cfg, sys, input, s) + Drawn(cfg, sys.beacon, input.rand, s)
    ensures At(sys'.beacon.shardCommittee, s) == NextCommittee(cfg, sys, input, s)
  {
    if Draws(sys.beacon) {
      AssignedAt(cfg, w.st.shardPendingValidator, sys.beacon.shardWaitingForCurrentRandom, input.rand, s);
    }
  }

  lemma LastTaken(cfg: Config, sys: System, input: BeaconInput, s: nat)
    requires WellFormed(cfg, sys) && CanTake(cfg, sys, input.take) && s in input.take
    ensures var entries := Entries(TakenBlocks(sys, input, s));
      && NextBlock(cfg, sys, input).shardState[s] == entries
      && entries != [] && entries[|entries| - 1].height == Taken(sys, s) + input.take[s]
  {
    var blocks := TakenBlocks(sys, input, s);
    assert blocks[|blocks| - 1] == sys.shardChains[s][Taken(sys, s) + input.take[s] - 1];
  }

  lemma TakenAfter(cfg: Config, sys: System, input: BeaconInput, w: Work, sys': System, s: nat)
    requires WellFormed(cfg, sys) && CanTake(cfg, sys, input.take) && s < cfg.activeShards
    requires StepsTo(cfg, sys, input, w, sys')
    ensures Taken(sys', s) == Taken(sys, s) + NumberAt(input.take, s)
  {
    NewHeights(cfg, sys, input, w, sys');
    HeightAfter(sys.beacon.bestShardHeight, NextBlock(cfg, sys, input).shardState, s);
    if s in input.take {
      LastTaken(cfg, sys, input, s);
    }
  }

  lemma HeightAfter(best: map<nat, nat>, state: map<nat, seq<ShardEntry>>, s: nat)
    requires forall k | k in state :: state[k] != []
    ensures NumberAt(best + BestHeights(state), s) == if s in state then state[s][|state[s]| - 1].height else NumberAt(best, s)
  {
  }

  lemma NewHeights(cfg: Config, sys: System, input: BeaconInput, w: Work, sys': System)
    requires WellFormed(cfg, sys) && CanTake(cfg, sys, input.take) && StepsTo(cfg, sys, input, w, sys')
    ensures var state := NextBlock(cfg, sys, input).shardState;
      && (forall s | s in state :: state[s] != []) && state.Keys == input.take.Keys
      && sys'.beacon.bestShardHeight == sys.beacon.bestShardHeight + BestHeights(state)
  {
  }

  lemma StillWellFormed(cfg: Config, sys: System, input: BeaconInput, w: Work, sys': System)
    requires WellFormed(cfg, sys) && CanTake(cfg, sys, input.take)
    requires StepsTo(cfg, sys, input, w, sys')
    ensures WellFormed(cfg, sys')
  {
    forall s | 0 <= s < cfg.activeShards ensures 1 <= Taken(sys', s) <= |sys'.shardChains[s]| {
      TakenAfter(cfg, sys, input, w, sys', s);
    }
  }

  lemma BlockAppended(chain: seq<BeaconBlock>, block: BeaconBlock, from: nat, s: nat)
    requires from <= |chain|
    ensures Shard.AssignedBy((chain + [block])[from..], s)
      == Shard.AssignedBy(chain[from..], s) + Shard.AssignedKeys(block.instructions, s)
  {
    assert (chain + [block])[from..] == chain[from..] + [block];
    AssignedByConcat(chain[from..], [block], s);
    assert [block][1..] == [];
    assert Shard.AssignedBy([block], s) == Shard.AssignedKeys(block.instructions, s) + [];
  }

  lemma InFlightAfter(cfg: Config, sys: System, input: BeaconInput, w: Work, sys': System, s: nat)
    requires Inv(cfg, sys) && BeaconMay(cfg, sys, input) && s < cfg.activeShards
    requires StepsTo(cfg, sys, input, w, sys') && WellFormed(cfg, sys')
    ensures InFlightSwaps(cfg, sys', s) == LeftInFlight(cfg, sys, input, s)
    ensures InFlightAssignments(cfg, sys', s) == InFlightAssignments(cfg, sys, s) + Drawn(cfg, sys.beacon, input.rand, s)
  {
    SwapsLeftAfter(cfg, sys, input, w, sys', s);
    BlockAppended(sys.beaconChain, NextBlock(cfg, sys, input), sys.shards[s].beaconHeight, s);
    BlockAssigns(cfg, sys, input, s);
  }

  lemma SwapsLeftAfter(cfg: Config, sys: System, input: BeaconInput, w: Work, sys': System, s: nat)
    requires WellFormed(cfg, sys) && CanTake(cfg, sys, input.take) && s < cfg.activeShards
    requires StepsTo(cfg, sys, input, w, sys') && WellFormed(cfg, sys')
    ensures InFlightSwaps(cfg, sys', s) == LeftInFlight(cfg, sys, input, s)
  {
    TakenAfter(cfg, sys, input, w, sys', s);
  }

  lemma QueuesMatchBehind(pending: seq<string>, committee: seq<string>, swaps: seq<Instruction>,
                          waiting: seq<string>, members: seq<string>, later: seq<string>, more: seq<string>)
    requires QueuesMatch(pending, committee, swaps, waiting, members, later)
    ensures QueuesMatch(pending + more, committee, swaps, waiting, members, later + more)
  {
    assert (Ins(swaps) + waiting + later) + more == Ins(swaps) + waiting + (later + more);
  }

  lemma AgreesAfterStep(cfg: Config, sys: System, input: BeaconInput, w: Work, sys': System, s: nat)
    requires Inv(cfg, sys) && BeaconMay(cfg, sys, input) && s < cfg.activeShards
    requires StepsTo(cfg, sys, input, w, sys') && WellFormed(cfg, sys')
    ensures Agree(cfg, sys', s)
  {
    TakenSplit(cfg, sys, input, s);
    ShardListsAfter(cfg, sys, input, w, sys', s);
    InFlightAfter(cfg, sys, input, w, sys', s);
    assert |sys.shards[s].shardCommittee| == cfg.shardCommitteeSize by { assert Agree(cfg, sys, s); }
    QueuesMatchBehind(RestPending(cfg, sys, input, s), NextCommittee(cfg, sys, input, s), LeftInFlight(cfg, sys, input, s),
      sys.shards[s].shardPendingValidator, sys.shards[s].shardCommittee, InFlightAssignments(cfg, sys, s),
      Drawn(cfg, sys.beacon, input.rand, s));
  }

  // ---------- Conservation ----------

  /** The keys that shards below `n` swap out in this step. */
  ghost function ShardsOut(cfg: Config, sys: System, input: BeaconInput, n: nat): multiset<string>
    requires WellFormed(cfg, sys) && CanTake(cfg, sys, input.take) && n <= cfg.activeShards
  {
    if n == 0 then multiset{} else ShardsOut(cfg, sys, input, n - 1) + multiset(Outs(Replayed(cfg, sys, input, n - 1)))
  }

  /** Every key that leaves a committee in this step. */
  ghost function SwappedOut(cfg: Config, sys: System, input: BeaconInput): multiset<string>
    requires WellFormed(cfg, sys) && CanTake(cfg, sys, input.take)
  {
    ShardsOut(cfg, sys, input, cfg.activeShards) + BeaconOut(sys.beacon)
  }

  /** Every key that joins in this step. */
  ghost function Joined(sys: System, input: BeaconInput): multiset<string>
  {
    multiset(FreshFor(Everyone(sys.beacon), input.stakes, ToBeacon))
      + multiset(FreshFor(Everyone(sys.beacon), input.stakes, ToShard))
  }

  /** The pending lists and committees. */
  function Placed(cfg: Config, st: BeaconState): multiset<string>
  {
    SumLists(st.shardCommittee, cfg.activeShards) + SumLists(st.shardPendingValidator, cfg.activeShards)
      + multiset(st.beaconCommittee) + multiset(st.beaconPendingValidator)
  }

  lemma OneShardConserves(cfg: Config, sys: System, input: BeaconInput, s: nat)
    requires Inv(cfg, sys) && CanTake(cfg, sys, input.take) && s < cfg.activeShards
    ensures multiset(NextCommittee(cfg, sys, input, s)) + multiset(RestPending(cfg, sys, input, s))
        + multiset(Outs(Replayed(cfg, sys, input, s)))
      == multiset(At(sys.beacon.shardCommittee, s)) + multiset(At(sys.beacon.shardPendingValidator, s))
  {
    TakenSplit(cfg, sys, input, s);
    var swaps := Replayed(cfg, sys, input, s);
    QueuesConserve(At(sys.beacon.shardPendingValidator, s), At(sys.beacon.shardCommittee, s), Ins(swaps), Outs(swaps),
      RestPending(cfg, sys, input, s), NextCommittee(cfg, sys, input, s));
  }

  lemma QueuesConserve(pending: seq<string>, committee: seq<string>, ins: seq<string>, outs: seq<string>,
                       rest: seq<string>, next: seq<string>)
    requires pending == ins + rest && committee + ins == outs + next
    ensures multiset(next) + multiset(rest) + multiset(outs) == multiset(committee) + multiset(pending)
  {
    var p, c, i, o, r, n := multiset(pending), multiset(committee), multiset(ins), multiset(outs), multiset(rest), multiset(next);
    assert c + i == o + n by { assert multiset(committee + ins) == c + i; assert multiset(outs + next) == o + n; }
    assert p == i + r;
    forall key ensures (n + r + o)[key] == (c + p)[key] {
      assert (c + i)[key] == (o + n)[key];
    }
  }

  /** Conservation summed up, from conservation shard by shard. */
  lemma {:induction false} SumsConserve(cfg: Config, sys: System, input: BeaconInput, st: BeaconState, n: nat)
    requires WellFormed(cfg, sys) && CanTake(cfg, sys, input.take) && n <= cfg.activeShards
    requires forall s | 0 <= s < n ::
      multiset(At(st.shardCommittee, s)) + multiset(At(st.shardPendingValidator, s)) + multiset(Outs(Replayed(cfg, sys, input, s)))
        == multiset(At(sys.beacon.shardCommittee, s)) + multiset(At(sys.beacon.shardPendingValidator, s))
    ensures SumLists(st.shardCommittee, n) + SumLists(st.shardPendingValidator, n) + ShardsOut(cfg, sys, input, n)
      == SumLists(sys.beacon.shardCommittee, n) + SumLists(sys.beacon.shardPendingValidator, n)
  {
    if n > 0 {
      var s := n - 1;
      SumsConserve(cfg, sys, input, st, s);
      SumThree(
        SumLists(st.shardCommittee, s), SumLists(st.shardPendingValidator, s), ShardsOut(cfg, sys, input, s),
        SumLists(sys.beacon.shardCommittee, s), SumLists(sys.beacon.shardPendingValidator, s),
        multiset(At(st.shardCommittee, s)), multiset(At(st.shardPendingValidator, s)),
        multiset(Outs(Replayed(cfg, sys, input, s))),
        multiset(At(sys.beacon.shardCommittee, s)), multiset(At(sys.beacon.shardPendingValidator, s)));
    }
  }

  lemma SumThree(a: multiset<string>, b: multiset<string>, c: multiset<string>, d: multiset<string>, e: multiset<string>,
                 a': multiset<string>, b': multiset<string>, c': multiset<string>, d': multiset<string>, e': multiset<string>)
    requires a + b + c == d + e && a' + b' + c' == d' + e'
    ensures (a + a') + (b + b') + (c + c') == (d + d') + (e + e')
  {
    assert (a + a') + (b + b') + (c + c') == (a + b + c) + (a' + b' + c');
  }

  lemma BeaconRotationConserves(st: BeaconState)
    requires st.beaconPendingValidator != [] && st.beaconCommittee != []
    ensures multiset(RotatedCommittee(st)) + multiset(RotatedPending(st)) + multiset{st.beaconCommittee[0]}
      == multiset(st.beaconCommittee) + multiset(st.beaconPendingValidator)
  {
    var pending, committee := st.beaconPendingValidator, st.beaconCommittee;
    assert committee == [committee[0]] + committee[1..] && pending == [pending[0]] + pending[1..];
  }

  /** The key the beacon's own committee loses. */
  ghost function BeaconOut(st: BeaconState): multiset<string>
  {
    if (st.beaconHeight + 1) % EPOCH == 0 && st.beaconPendingValidator != [] && st.beaconCommittee != []
    then multiset{st.beaconCommittee[0]} else multiset{}
  }

  lemma ShardsConserve(cfg: Config, sys: System, input: BeaconInput, st': BeaconState)
    requires Inv(cfg, sys) && CanTake(cfg, sys, input.take) && ListsAfter(cfg, sys, input, st', cfg.activeShards)
    ensures var n := cfg.activeShards;
      SumLists(st'.shardCommittee, n) + SumLists(st'.shardPendingValidator, n) + ShardsOut(cfg, sys, input, n)
        == SumLists(sys.beacon.shardCommittee, n) + SumLists(sys.beacon.shardPendingValidator, n)
  {
    forall s | 0 <= s < cfg.activeShards
      ensures multiset(At(st'.shardCommittee, s)) + multiset(At(st'.shardPendingValidator, s))
          + multiset(Outs(Replayed(cfg, sys, input, s)))
        == multiset(At(sys.beacon.shardCommittee, s)) + multiset(At(sys.beacon.shardPendingValidator, s))
    {
      OneShardConserves(cfg, sys, input, s);
    }
    SumsConserve(cfg, sys, input, st', cfg.activeShards);
  }

  lemma InstructionsLeft(cfg: Config, sys: System, input: BeaconInput, w: Work)
    requires WellFormed(cfg, sys) && CanTake(cfg, sys, input.take) && AfterInstructions(cfg, sys, input, w)
    ensures var st, epochEnd := sys.beacon, (sys.beacon.beaconHeight + 1) % EPOCH == 0;
      && w.st.beaconHeight == st.beaconHeight + 1
      && w.st.beaconPendingValidator == (if epochEnd then RotatedPending(st) else st.beaconPendingValidator)
      && w.st.beaconCommittee == (if epochEnd then RotatedCommittee(st) else st.beaconCommittee)
      && w.st.isGetRandomNumber == st.isGetRandomNumber
      && (Draws(st) ==> w.st.currentRandomNumber == input.rand)
      && w.st.shardWaitingForCurrentRandom == st.shardWaitingForCurrentRandom
      && w.st.beaconWaitingForCurrentRandom == st.beaconWaitingForCurrentRandom
  {
  }

  lemma PlacedConserved(cfg: Config, sys: System, input: BeaconInput, w: Work)
    requires Inv(cfg, sys) && CanTake(cfg, sys, input.take) && AfterInstructions(cfg, sys, input, w)
    ensures Placed(cfg, w.st) + SwappedOut(cfg, sys, input) == Placed(cfg, sys.beacon)
  {
    ShardsConserve(cfg, sys, input, w.st);
    FullOfValidKeys(cfg, sys);
    OwnConserve(cfg, sys, input, w);
    PlacedSum(cfg, sys.beacon, w.st, ShardsOut(cfg, sys, input, cfg.activeShards), BeaconOut(sys.beacon));
  }

  lemma OwnConserve(cfg: Config, sys: System, input: BeaconInput, w: Work)
    requires WellFormed(cfg, sys) && CanTake(cfg, sys, input.take) && AfterInstructions(cfg, sys, input, w)
    requires sys.beacon.beaconCommittee != []
    ensures multiset(w.st.beaconCommittee) + multiset(w.st.beaconPendingValidator) + BeaconOut(sys.beacon)
      == multiset(sys.beacon.beaconCommittee) + multiset(sys.beacon.beaconPendingValidator)
  {
    InstructionsLeft(cfg, sys, input, w);
    BeaconConserves(sys.beacon, w.st);
  }

  lemma PlacedSum(cfg: Config, st: BeaconState, st': BeaconState, shardsOut: multiset<string>, beaconOut: multiset<string>)
    requires var n := cfg.activeShards;
      SumLists(st'.shardCommittee, n) + SumLists(st'.shardPendingValidator, n) + shardsOut
        == SumLists(st.shardCommittee, n) + SumLists(st.shardPendingValidator, n)
    requires multiset(st'.beaconCommittee) + multiset(st'.beaconPendingValidator) + beaconOut
      == multiset(st.beaconCommittee) + multiset(st.beaconPendingValidator)
    ensures Placed(cfg, st') + (shardsOut + beaconOut) == Placed(cfg, st)
  {
    var n := cfg.activeShards;
    SumTwo(SumLists(st'.shardCommittee, n), SumLists(st'.shardPendingValidator, n), shardsOut,
      SumLists(st.shardCommittee, n), SumLists(st.shardPendingValidator, n),
      multiset(st'.beaconCommittee), multiset(st'.beaconPendingValidator), beaconOut,
      multiset(st.beaconCommittee), multiset(st.beaconPendingValidator));
  }

  lemma BeaconConserves(st: BeaconState, st': BeaconState)
    requires |st.beaconCommittee| > 0
    requires st'.beaconPendingValidator
      == if (st.beaconHeight + 1) % EPOCH == 0 then RotatedPending(st) else st.beaconPendingValidator
    requires st'.beaconCommittee == if (st.beaconHeight + 1) % EPOCH == 0 then RotatedCommittee(st) else st.beaconCommittee
    ensures multiset(st'.beaconCommittee) + multiset(st'.beaconPendingValidator) + BeaconOut(st)
      == multiset(st.beaconCommittee) + multiset(st.beaconPendingValidator)
  {
    if (st.beaconHeight + 1) % EPOCH == 0 && st.beaconPendingValidator != [] { BeaconRotationConserves(st); }
  }

  lemma SumTwo(a: multiset<string>, b: multiset<string>, c: multiset<string>, d: multiset<string>, e: multiset<string>,
               a': multiset<string>, b': multiset<string>, c': multiset<string>, d': multiset<string>, e': multiset<string>)
    requires a + b + c == d + e && a' + b' + c' == d' + e'
    ensures a + b + a' + b' + (c + c') == d + e + d' + e'
  {
    assert a + b + a' + b' + (c + c') == (a + b + c) + (a' + b' + c');
  }

  // ---------- Dealing and shuffling conserve ----------

  lemma {:induction false} SumListsUpdate(lists: map<nat, seq<string>>, n: nat, s: nat, key: string)
    ensures SumLists(lists[s := At(lists, s) + [key]], n)
      == SumLists(lists, n) + if s < n then multiset{key} else multiset{}
  {
    if n > 0 {
      var lists', last := lists[s := At(lists, s) + [key]], n - 1;
      SumListsUpdate(lists, last, s, key);
      if s == last {
        AppendedCounts(At(lists, s), key);
        PairedSums(SumLists(lists, last), multiset{}, multiset(At(lists, last)), multiset{key});
      } else {
        assert At(lists', last) == At(lists, last);
        PairedSums(SumLists(lists, last), if s < last then multiset{key} else multiset{}, multiset(At(lists, last)), multiset{});
      }
    }
  }

  lemma PairedSums(a: multiset<string>, b: multiset<string>, c: multiset<string>, d: multiset<string>)
    ensures (a + b) + (c + d) == (a + c) + (b + d)
  {
  }

  lemma AppendedCounts(items: seq<string>, key: string)
    ensures multiset(items + [key]) == multiset(items) + multiset{key}
  {
  }

  lemma {:induction false} DealingConserves(cfg: Config, lists: map<nat, seq<string>>, candidates: seq<string>, rand: int)
    requires cfg.activeShards > 0
    ensures SumLists(Assigned(cfg, lists, candidates, rand), cfg.activeShards)
      == SumLists(lists, cfg.activeShards) + multiset(candidates)
    decreases |candidates|
  {
    if candidates != [] {
      var s := CandidateShard(cfg, candidates[0], rand);
      var next := lists[s := At(lists, s) + [candidates[0]]];
      DealingConserves(cfg, next, candidates[1..], rand);
      SumListsUpdate(lists, cfg.activeShards, s, candidates[0]);
      assert candidates == [candidates[0]] + candidates[1..];
    }
  }

  /** The candidates that the shuffle drops because another one has the same digest. */
  ghost function LostBy(cfg: Config, candidates: seq<string>, rand: int, order: seq<nat>): multiset<string>
  {
    multiset(candidates) - multiset(Shuffled(cfg, candidates, rand, order))
  }

  lemma ShuffleConserves(cfg: Config, candidates: seq<string>, rand: int, order: seq<nat>)
    requires Ranges(order, ByDigest(cfg, candidates, rand))
    ensures multiset(Shuffled(cfg, candidates, rand, order)) + LostBy(cfg, candidates, rand, order) == multiset(candidates)
    ensures LostBy(cfg, candidates, rand, order) == multiset{} <==> DistinctDigests(cfg, candidates, rand)
  {
    var shuffled := Shuffled(cfg, candidates, rand, order);
    ShuffleKeepsCandidates(cfg, candidates, rand, order, shuffled);
    NothingMissing(multiset(shuffled), multiset(candidates));
  }

  lemma NothingMissing(part: multiset<string>, whole: multiset<string>)
    requires part <= whole
    ensures part + (whole - part) == whole && (whole - part == multiset{} <==> part == whole)
  {
  }

  lemma DrawConserves(cfg: Config, g: BeaconState, order: seq<nat>)
    requires cfg.activeShards > 0
    requires Ranges(order, ByDigest(cfg, g.beaconWaitingForCurrentRandom, g.currentRandomNumber))
    ensures Everybody(cfg, Randomized(cfg, g, order))
        + LostBy(cfg, g.beaconWaitingForCurrentRandom, g.currentRandomNumber, order)
      == Everybody(cfg, g)
  {
    DealingConserves(cfg, g.shardPendingValidator, g.shardWaitingForCurrentRandom, g.currentRandomNumber);
    ShuffleConserves(cfg, g.beaconWaitingForCurrentRandom, g.currentRandomNumber, order);
    CountsAdd(g.beaconPendingValidator, Shuffled(cfg, g.beaconWaitingForCurrentRandom, g.currentRandomNumber, order));
  }

  lemma CountsAdd(a: seq<string>, b: seq<string>)
    ensures multiset(a + b) == multiset(a) + multiset(b)
  {
  }

  lemma SnapshotConserves(cfg: Config, g: BeaconState)
    requires g.shardWaitingForCurrentRandom == [] && g.beaconWaitingForCurrentRandom == []
    ensures Everybody(cfg, Snapshot(g)) == Everybody(cfg, g)
  {
  }

  /** The candidate handling moves candidates and loses only those that the shuffle drops: the lists the snapshot overwrites
      are empty. */
  lemma TimedConserves(cfg: Config, st: BeaconState, g: BeaconState, order: seq<nat>)
    requires cfg.activeShards > 0 && OnSchedule(st) && g.beaconHeight == st.beaconHeight + 1 > 1
    requires g.isGetRandomNumber == st.isGetRandomNumber
    requires g.shardWaitingForCurrentRandom == st.shardWaitingForCurrentRandom
    requires g.beaconWaitingForCurrentRandom == st.beaconWaitingForCurrentRandom
    requires Draws(st) ==> Ranges(order, ByDigest(cfg, g.beaconWaitingForCurrentRandom, g.currentRandomNumber))
    ensures Everybody(cfg, Timed(cfg, g, Draws(st), order))
        + (if Draws(st) then LostBy(cfg, g.beaconWaitingForCurrentRandom, g.currentRandomNumber, order) else multiset{})
      == Everybody(cfg, g)
  {
    DrawsOnce(st);
    TimedCases(cfg, st, g, order);
    if Draws(st) {
      DrawConserves(cfg, g, order);
    } else if g.beaconHeight % EPOCH == RANDOM_TIME {
      SnapshotConserves(cfg, g);
    }
  }

  /** What the candidate handling does, on schedule. */
  lemma TimedCases(cfg: Config, st: BeaconState, g: BeaconState, order: seq<nat>)
    requires cfg.activeShards > 0 && OnSchedule(st) && g.beaconHeight == st.beaconHeight + 1 > 1
    requires g.shardWaitingForCurrentRandom == st.shardWaitingForCurrentRandom
    requires g.beaconWaitingForCurrentRandom == st.beaconWaitingForCurrentRandom
    ensures Timed(cfg, g, Draws(st), order) ==
      if Draws(st) then Randomized(cfg, g, order)
      else if g.beaconHeight % EPOCH == RANDOM_TIME then Snapshot(g)
      else if g.beaconHeight % EPOCH == 1 then g.(isGetRandomNumber := false)
      else g
    ensures g.beaconHeight % EPOCH == RANDOM_TIME ==> g.shardWaitingForCurrentRandom == [] && g.beaconWaitingForCurrentRandom == []
  {
    DrawsOnce(st);
  }

  // ---------- Who joins ----------

  /** The waiting lists. */
  function Waiting(st: BeaconState): multiset<string>
  {
    multiset(st.beaconWaitingForCurrentRandom) + multiset(st.beaconWaitingForNextRandom)
      + multiset(st.shardWaitingForCurrentRandom) + multiset(st.shardWaitingForNextRandom)
  }

  lemma EverybodyParts(cfg: Config, st: BeaconState)
    ensures Everybody(cfg, st) == Placed(cfg, st) + Waiting(st)
  {
  }

  lemma {:induction false} SumIsListed(lists: map<nat, seq<string>>, n: nat, key: string)
    requires key in SumLists(lists, n)
    ensures key in InLists(lists, lists.Keys)
  {
    if key in SumLists(lists, n - 1) {
      SumIsListed(lists, n - 1, key);
    } else {
      assert key in multiset(At(lists, n - 1));
      assert n - 1 in lists.Keys && key in lists[n - 1];
    }
  }

  lemma EverybodyIsListed(cfg: Config, st: BeaconState, key: string)
    requires key in Everybody(cfg, st)
    ensures key in Everyone(st)
  {
    if key in SumLists(st.shardCommittee, cfg.activeShards) { SumIsListed(st.shardCommittee, cfg.activeShards, key); }
    if key in SumLists(st.shardPendingValidator, cfg.activeShards) {
      SumIsListed(st.shardPendingValidator, cfg.activeShards, key);
    }
  }

  lemma {:induction false} ExcludingCounts(stakers: seq<string>, known: set<string>, key: string)
    ensures multiset(Excluding(stakers, known))[key] == if key in known then 0 else multiset(stakers)[key]
  {
    if stakers != [] {
      ExcludingCounts(stakers[1..], known, key);
      assert stakers == [stakers[0]] + stakers[1..];
    }
  }

  lemma {:induction false} JoinedCounts(known: set<string>, stakes: seq<StakeRequest>, key: string)
    ensures multiset(FreshFor(known, stakes, ToBeacon))[key] + multiset(FreshFor(known, stakes, ToShard))[key]
      == if key in known then 0 else multiset(RequestedKeys(stakes))[key]
  {
    if stakes != [] {
      JoinedCounts(known, stakes[1..], key);
      ExcludingCounts(stakes[0].keys, known, key);
      var unlisted := Excluding(stakes[0].keys, known);
      assert multiset(stakes[0].keys + RequestedKeys(stakes[1..]))
        == multiset(stakes[0].keys) + multiset(RequestedKeys(stakes[1..]));
      FreshCounts(known, stakes, ToBeacon, key);
      FreshCounts(known, stakes, ToShard, key);
    }
  }

  lemma FreshCounts(known: set<string>, stakes: seq<StakeRequest>, target: Target, key: string)
    requires stakes != []
    ensures multiset(FreshFor(known, stakes, target))[key]
      == (if stakes[0].target == target then multiset(Excluding(stakes[0].keys, known))[key] else 0)
         + multiset(FreshFor(known, stakes[1..], target))[key]
  {
  }

  // ---------- The theorem of one step ----------

  lemma GatheredParts(cfg: Config, sys: System, input: BeaconInput, w: Work)
    requires WellFormed(cfg, sys) && CanTake(cfg, sys, input.take) && AfterInstructions(cfg, sys, input, w)
    ensures Everybody(cfg, WithCandidates(cfg, sys, input, w.st))
      == Placed(cfg, w.st) + Waiting(sys.beacon) + Joined(sys, input)
  {
    var st, g := sys.beacon, WithCandidates(cfg, sys, input, w.st);
    var toBeacon := FreshFor(Everyone(st), input.stakes, ToBeacon);
    var toShard := FreshFor(Everyone(st), input.stakes, ToShard);
    assert Placed(cfg, g) == Placed(cfg, w.st);
    assert multiset(st.beaconWaitingForNextRandom + toBeacon) == multiset(st.beaconWaitingForNextRandom) + multiset(toBeacon);
    assert multiset(st.shardWaitingForNextRandom + toShard) == multiset(st.shardWaitingForNextRandom) + multiset(toShard);
    assert Waiting(g) == Waiting(st) + Joined(sys, input);
    EverybodyParts(cfg, g);
  }

  /** Whom the step's shuffle drops. */
  ghost function Lost(cfg: Config, sys: System, input: BeaconInput): multiset<string>
  {
    if Draws(sys.beacon) then LostBy(cfg, sys.beacon.beaconWaitingForCurrentRandom, input.rand, input.shuffleOrder) else multiset{}
  }

  /** If the step draws the random number, it gives the waiting beacon candidates different digests. */
  ghost predicate DigestsDiffer(cfg: Config, sys: System, input: BeaconInput)
  {
    Draws(sys.beacon) ==> DistinctDigests(cfg, sys.beacon.beaconWaitingForCurrentRandom, input.rand)
  }

  /** No key appears from nowhere, and every one that goes is accounted for: after a beacon step the beacon lists exactly whom
      it listed before, plus the accepted stakers, minus the members swapped out and the candidates the shuffle dropped.
      It drops none exactly when their digests differ. */
  lemma BeaconStepConserves(cfg: Config, sys: System, input: BeaconInput)
    requires Inv(cfg, sys) && BeaconMay(cfg, sys, input)
    ensures BeaconStep(cfg, sys, input).status == Running
    ensures Everybody(cfg, BeaconStep(cfg, sys, input).sys.beacon) + (SwappedOut(cfg, sys, input) + Lost(cfg, sys, input))
      == Everybody(cfg, sys.beacon) + Joined(sys, input)
    ensures Lost(cfg, sys, input) == multiset{} <==> DigestsDiffer(cfg, sys, input)
  {
    var st, block := sys.beacon, NextBlock(cfg, sys, input);
    var w := ProcessAll(Started(st, block), block.instructions);
    StepOutcome(cfg, sys, input);
    HandlingConserves(cfg, sys, input, w);
    GatheredParts(cfg, sys, input, w);
    PlacedConserved(cfg, sys, input, w);
    EverybodyParts(cfg, st);
    MovedAcross(Placed(cfg, st), Placed(cfg, w.st), SwappedOut(cfg, sys, input), Waiting(st), Joined(sys, input),
      Everybody(cfg, BeaconStep(cfg, sys, input).sys.beacon), Lost(cfg, sys, input));
  }

  lemma HandlingConserves(cfg: Config, sys: System, input: BeaconInput, w: Work)
    requires Inv(cfg, sys) && BeaconMay(cfg, sys, input)
    requires AfterInstructions(cfg, sys, input, w)
    requires w == ProcessAll(Started(sys.beacon, NextBlock(cfg, sys, input)), NextBlock(cfg, sys, input).instructions)
    ensures var g := WithCandidates(cfg, sys, input, w.st);
      Everybody(cfg, Timed(cfg, g, Draws(sys.beacon), input.shuffleOrder)) + Lost(cfg, sys, input) == Everybody(cfg, g)
    ensures Lost(cfg, sys, input) == multiset{} <==> DigestsDiffer(cfg, sys, input)
  {
    var st, g := sys.beacon, WithCandidates(cfg, sys, input, w.st);
    HandlingFacts(cfg, sys, input, w);
    OrderIsPossible(cfg, sys, input, w);
    TimedConserves(cfg, st, g, input.shuffleOrder);
    if Draws(st) { ShuffleConserves(cfg, st.beaconWaitingForCurrentRandom, input.rand, input.shuffleOrder); }
  }

  lemma HandlingFacts(cfg: Config, sys: System, input: BeaconInput, w: Work)
    requires Inv(cfg, sys) && CanTake(cfg, sys, input.take) && AfterInstructions(cfg, sys, input, w)
    ensures var st, g := sys.beacon, WithCandidates(cfg, sys, input, w.st);
      && cfg.activeShards > 0 && OnSchedule(st) && g.beaconHeight == st.beaconHeight + 1 > 1
      && g.isGetRandomNumber == st.isGetRandomNumber
      && g.shardWaitingForCurrentRandom == st.shardWaitingForCurrentRandom
      && g.beaconWaitingForCurrentRandom == st.beaconWaitingForCurrentRandom
      && (Draws(st) ==> g.currentRandomNumber == input.rand)
  {
    InstructionsLeft(cfg, sys, input, w);
  }

  /** When the number is drawn, the order of the shuffle lists its digests once each. */
  lemma OrderIsPossible(cfg: Config, sys: System, input: BeaconInput, w: Work)
    requires WellFormed(cfg, sys) && BeaconMay(cfg, sys, input) && AfterInstructions(cfg, sys, input, w)
    requires OnSchedule(sys.beacon) && sys.beacon.beaconHeight > 0
    requires w == ProcessAll(Started(sys.beacon, NextBlock(cfg, sys, input)), NextBlock(cfg, sys, input).instructions)
    ensures var g := WithCandidates(cfg, sys, input, w.st);
      Draws(sys.beacon) ==> Ranges(input.shuffleOrder, ByDigest(cfg, g.beaconWaitingForCurrentRandom, g.currentRandomNumber))
  {
    DrawsOnce(sys.beacon);
    InstructionsLeft(cfg, sys, input, w);
  }

  lemma MovedAcross(before: multiset<string>, after: multiset<string>, out: multiset<string>, waiting: multiset<string>,
                    joined: multiset<string>, all: multiset<string>, lost: multiset<string>)
    requires after + out == before && all + lost == after + waiting + joined
    ensures all + (out + lost) == before + waiting + joined
  {
    assert all + (out + lost) == (all + lost) + out;
    assert after + waiting + joined + out == (after + out) + waiting + joined;
  }

  lemma JoinedAreNew(cfg: Config, sys: System, input: BeaconInput, key: string)
    requires WellFormed(cfg, sys) && BeaconMay(cfg, sys, input)
    ensures key in Joined(sys, input) ==> key !in Everybody(cfg, sys.beacon) && ValidKey(key)
  {
    JoinedCounts(Everyone(sys.beacon), input.stakes, key);
    if key in Joined(sys, input) {
      assert key in multiset(RequestedKeys(input.stakes));
      if key in Everybody(cfg, sys.beacon) { EverybodyIsListed(cfg, sys.beacon, key); }
    }
  }

  lemma StaysValid(cfg: Config, sys: System, input: BeaconInput, st': BeaconState, out: multiset<string>)
    requires WellFormed(cfg, sys) && BeaconMay(cfg, sys, input) && ValidKeys(cfg, sys.beacon)
    requires Everybody(cfg, st') + out == Everybody(cfg, sys.beacon) + Joined(sys, input)
    ensures ValidKeys(cfg, st')
  {
    forall key | key in Everybody(cfg, st') ensures ValidKey(key) {
      JoinedAreNew(cfg, sys, input, key);
      assert key in Everybody(cfg, st') + out;
    }
  }

  /** A beacon step never fails and keeps the invariant: the queue agreement of every shard, the schedule of the random number,
      and full committees of valid keys. */
  lemma BeaconStepKeeps(cfg: Config, sys: System, input: BeaconInput)
    requires Inv(cfg, sys) && BeaconMay(cfg, sys, input)
    ensures BeaconStep(cfg, sys, input).status == Running
    ensures Inv(cfg, BeaconStep(cfg, sys, input).sys)
  {
    var sys' := BeaconStep(cfg, sys, input).sys;
    BeaconStepConserves(cfg, sys, input);
    ScheduleKept(cfg, sys, input);
    StaysValid(cfg, sys, input, sys'.beacon, SwappedOut(cfg, sys, input) + Lost(cfg, sys, input));
    var w := StepDone(cfg, sys, input);
    StillWellFormed(cfg, sys, input, w, sys');
    forall s | 0 <= s < cfg.activeShards ensures Agree(cfg, sys', s) {
      AgreesAfterStep(cfg, sys, input, w, sys', s);
    }
  }

  // ---------- Who is listed twice ----------

  /** No key that the beacon does not list yet is requested twice among the requests of one beacon block. */
  ghost predicate RequestedOnce(sys: System, input: BeaconInput)
  {
    forall key | key !in Everyone(sys.beacon) :: multiset(RequestedKeys(input.stakes))[key] <= 1
  }

  lemma RequestedIsJoined(sys: System, input: BeaconInput)
    ensures RequestedOnce(sys, input) <==> forall key :: Joined(sys, input)[key] <= 1
  {
    forall key
      ensures Joined(sys, input)[key] == if key in Everyone(sys.beacon) then 0 else multiset(RequestedKeys(input.stakes))[key]
    {
      JoinedCounts(Everyone(sys.beacon), input.stakes, key);
    }
  }

  /** Whoever leaves in this step was listed before it. */
  lemma LeaversWereListed(cfg: Config, sys: System, input: BeaconInput)
    requires Inv(cfg, sys) && BeaconMay(cfg, sys, input)
    ensures SwappedOut(cfg, sys, input) + Lost(cfg, sys, input) <= Everybody(cfg, sys.beacon)
  {
    var st, block := sys.beacon, NextBlock(cfg, sys, input);
    var w := ProcessAll(Started(st, block), block.instructions);
    StepOutcome(cfg, sys, input);
    PlacedConserved(cfg, sys, input, w);
    EverybodyParts(cfg, st);
    PartsOfBoth(SwappedOut(cfg, sys, input), Placed(cfg, w.st), Placed(cfg, st), Lost(cfg, sys, input), Waiting(st));
  }

  lemma PartsOfBoth(a: multiset<string>, a': multiset<string>, c: multiset<string>, b: multiset<string>, d: multiset<string>)
    requires a' + a == c && b <= d
    ensures a + b <= c + d
  {
  }

  lemma OnceMeansJoinedOnce(before: multiset<string>, joined: multiset<string>, after: multiset<string>, out: multiset<string>)
    requires after + out == before + joined && out <= before
    requires forall key :: before[key] <= 1 && (key in joined ==> key !in before)
    ensures (forall key :: after[key] <= 1) <==> forall key :: joined[key] <= 1
  {
    forall key ensures joined[key] <= 1 <==> after[key] <= 1 {
      assert (after + out)[key] == (before + joined)[key];
      assert out[key] <= before[key];
    }
  }

  /** From a state that lists nobody twice, a step leads to such a state again if and only if no unlisted key is requested twice:
      the producer filters each request by the listed keys, and not by the other requests. */
  lemma StaysDisjoint(cfg: Config, sys: System, input: BeaconInput)
    requires Inv(cfg, sys) && BeaconMay(cfg, sys, input) && Disjoint(cfg, sys.beacon)
    ensures Disjoint(cfg, BeaconStep(cfg, sys, input).sys.beacon) <==> RequestedOnce(sys, input)
  {
    BeaconStepConserves(cfg, sys, input);
    LeaversWereListed(cfg, sys, input);
    RequestedIsJoined(sys, input);
    forall key | key in Joined(sys, input) ensures key !in Everybody(cfg, sys.beacon) { JoinedAreNew(cfg, sys, input, key); }
    OnceMeansJoinedOnce(Everybody(cfg, sys.beacon), Joined(sys, input), Everybody(cfg, BeaconStep(cfg, sys, input).sys.beacon),
      SwappedOut(cfg, sys, input) + Lost(cfg, sys, input));
  }

  /** Two shard blocks that one beacon block takes ask for the same unlisted key: it is listed twice afterwards. */
  lemma StakedInTwoBlocks(cfg: Config, sys: System, input: BeaconInput, key: string, target: Target)
    requires Inv(cfg, sys) && BeaconMay(cfg, sys, input) && key !in Everyone(sys.beacon)
    requires input.stakes == [StakeRequest([key], target), StakeRequest([key], target)]
    ensures Joined(sys, input)[key] == 2 && Everybody(cfg, BeaconStep(cfg, sys, input).sys.beacon)[key] == 2
  {
    var before, joined, out := Everybody(cfg, sys.beacon), Joined(sys, input), SwappedOut(cfg, sys, input) + Lost(cfg, sys, input);
    JoinedTwice(sys, input, key, target);
    BeaconStepConserves(cfg, sys, input);
    LeaversWereListed(cfg, sys, input);
    JoinedAreNew(cfg, sys, input, key);
    CountAfter(before, joined, Everybody(cfg, BeaconStep(cfg, sys, input).sys.beacon), out, key);
  }

  lemma JoinedTwice(sys: System, input: BeaconInput, key: string, target: Target)
    requires key !in Everyone(sys.beacon) && input.stakes == [StakeRequest([key], target), StakeRequest([key], target)]
    ensures Joined(sys, input)[key] == 2
  {
    var request := StakeRequest([key], target);
    assert [request][1..] == [] && input.stakes[1..] == [request];
    assert RequestedKeys([request]) == [key] + [];
    assert RequestedKeys(input.stakes) == [key] + RequestedKeys([request]);
    JoinedCounts(Everyone(sys.beacon), input.stakes, key);
  }

  lemma CountAfter(before: multiset<string>, joined: multiset<string>, after: multiset<string>, out: multiset<string>, key: string)
    requires after + out == before + joined && out <= before && key !in before
    ensures after[key] == joined[key]
  {
    assert (after + out)[key] == (before + joined)[key];
  }
}
