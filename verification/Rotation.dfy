/** The beacon and the shards keep separate copies of every committee and pending list and talk only through blocks.
    This module runs the two sides against each other, with blocks in flight in both directions. */
module Rotation {
  import opened Blocks
  import opened Lists
  import opened Text
  import opened Validators
  import opened Beacon
  import opened BeaconProducer
  import Shard

  // ---------- Replaying swaps on the beacon ----------

  predicate ValidKey(key: string)
  {
    key != "" && CommaFree(key)
  }

  /** The swap instructions of a list; a shard block's other instructions do not concern the committees. */
  function SwapsIn(ls: seq<Instruction>): seq<Instruction>
  {
    if ls == [] then [] else (if ls[0].SwapShard? then [ls[0]] else []) + SwapsIn(ls[1..])
  }

  /** Each swap exchanges one key for one key of the shard it names. */
  ghost predicate OneForOne(swaps: seq<Instruction>, shardID: nat)
  {
    forall i | 0 <= i < |swaps| :: swaps[i].SwapShard? && swaps[i].shardID == shardID
      && ValidKey(swaps[i].incoming) && ValidKey(swaps[i].outgoing)
  }

  function Ins(swaps: seq<Instruction>): (keys: seq<string>)
    ensures |keys| == |swaps|
  {
    seq(|swaps|, i requires 0 <= i < |swaps| => if swaps[i].SwapShard? then swaps[i].incoming else "")
  }

  function Outs(swaps: seq<Instruction>): (keys: seq<string>)
    ensures |keys| == |swaps|
  {
    seq(|swaps|, i requires 0 <= i < |swaps| => if swaps[i].SwapShard? then swaps[i].outgoing else "")
  }

  lemma {:induction false} ProcessConcat(w: Work, a: seq<Instruction>, b: seq<Instruction>)
    ensures ProcessAll(w, a + b) == ProcessAll(ProcessAll(w, a), b)
    decreases |a|
  {
    if a == [] {
      assert a + b == b;
    } else if w.status == Running {
      assert (a + b)[1..] == a[1..] + b;
      ProcessConcat(ProcessOne(w, a[0]), a[1..], b);
    }
  }

  /** What two states must share when only one shard's lists were touched. */
  ghost predicate SameExceptLists(w: Work, w': Work)
  {
    w' == w.(st := w.st.(shardPendingValidator := w'.st.shardPendingValidator, shardCommittee := w'.st.shardCommittee))
  }

  ghost predicate UntouchedExcept(st: BeaconState, st': BeaconState, shardID: nat)
  {
    forall t | t != shardID ::
      At(st'.shardPendingValidator, t) == At(st.shardPendingValidator, t) && At(st'.shardCommittee, t) == At(st.shardCommittee, t)
  }

  lemma ReplayOne(w: Work, l: Instruction)
    requires w.status == Running && l.SwapShard? && ValidKey(l.incoming) && ValidKey(l.outgoing)
    requires At(w.st.shardPendingValidator, l.shardID) != [] && At(w.st.shardPendingValidator, l.shardID)[0] == l.incoming
    requires At(w.st.shardCommittee, l.shardID) != [] && At(w.st.shardCommittee, l.shardID)[0] == l.outgoing
    ensures ProcessOne(w, l) == w.(st := w.st.(
      shardPendingValidator := w.st.shardPendingValidator[l.shardID := At(w.st.shardPendingValidator, l.shardID)[1..]],
      shardCommittee := w.st.shardCommittee[l.shardID := At(w.st.shardCommittee, l.shardID)[1..] + [l.incoming]]))
  {
    var members := At(w.st.shardCommittee, l.shardID);
    SplitCommaFree(l.incoming);
    SplitCommaFree(l.outgoing);
    RemoveHead(At(w.st.shardPendingValidator, l.shardID), l.incoming);
    RemoveHead(members + [l.incoming], l.outgoing);
    assert (members + [l.incoming])[1..] == members[1..] + [l.incoming];
    var taken := SwapIn(w, l.shardID, l.incoming);
    assert taken.st.shardCommittee == w.st.shardCommittee[l.shardID := members + [l.incoming]];
    assert w.st.shardCommittee[l.shardID := members + [l.incoming]][l.shardID := members[1..] + [l.incoming]]
        == w.st.shardCommittee[l.shardID := members[1..] + [l.incoming]];
  }

  /** Replaying swaps never fails and leaves exactly the rest of the pending list and the rotated committee, provided
      the two queues match the swaps. */
  lemma {:induction false} ReplaySwaps(w: Work, swaps: seq<Instruction>, shardID: nat, rest: seq<string>, committee: seq<string>)
    requires w.status == Running && OneForOne(swaps, shardID)
    requires At(w.st.shardPendingValidator, shardID) == Ins(swaps) + rest
    requires At(w.st.shardCommittee, shardID) != []
    requires At(w.st.shardCommittee, shardID) + Ins(swaps) == Outs(swaps) + committee
    ensures var w' := ProcessAll(w, swaps);
      && SameExceptLists(w, w')
      && At(w'.st.shardPendingValidator, shardID) == rest
      && At(w'.st.shardCommittee, shardID) == committee
      && UntouchedExcept(w.st, w'.st, shardID)
    decreases |swaps|
  {
    var pending, members := At(w.st.shardPendingValidator, shardID), At(w.st.shardCommittee, shardID);
    if swaps == [] {
      assert members == members + Ins(swaps) == Outs(swaps) + committee == committee;
    } else {
      var l, others := swaps[0], swaps[1..];
      assert OneForOne(others, shardID) by { assert forall i | 0 <= i < |others| :: others[i] == swaps[i + 1]; }
      assert Ins(swaps) == [l.incoming] + Ins(others) && Outs(swaps) == [l.outgoing] + Outs(others);
      QueuesShift(pending, members, l.incoming, l.outgoing, Ins(others), Outs(others), rest, committee);
      ReplayOne(w, l);
      ReplaySwaps(ProcessOne(w, l), others, shardID, rest, committee);
    }
  }

  lemma QueuesShift(pending: seq<string>, members: seq<string>, incoming: string, outgoing: string,
                    ins: seq<string>, outs: seq<string>, rest: seq<string>, committee: seq<string>)
    requires pending == [incoming] + ins + rest
    requires members != []
    requires members + ([incoming] + ins) == [outgoing] + outs + committee
    ensures pending[0] == incoming && pending[1..] == ins + rest
    ensures members[0] == outgoing && members[1..] + [incoming] + ins == outs + committee
  {
    assert (members + ([incoming] + ins))[0] == members[0];
    assert members[1..] + [incoming] + ins == (members + ([incoming] + ins))[1..];
    assert outs + committee == ([outgoing] + outs + committee)[1..];
  }

  // ---------- The system ----------

  /** One beacon and its shards. Both chains are kept whole: what one side has not read yet is in flight. Index `i` of a
      chain holds the block of height `i + 1`. */
  datatype System = System(
    beacon: BeaconState,
    beaconChain: seq<BeaconBlock>,
    shards: map<nat, Shard.ShardState>,
    shardChains: map<nat, seq<ShardBlock>>)

  /** How many blocks of a shard the beacon has taken; it never takes the genesis block. */
  function Taken(sys: System, shardID: nat): nat
  {
    if shardID in sys.beacon.bestShardHeight then sys.beacon.bestShardHeight[shardID] else 1
  }

  ghost predicate WellFormed(cfg: Config, sys: System)
  {
    && cfg.Valid() && cfg.activeShards <= SHARD_IDS
    && |sys.beaconChain| == sys.beacon.beaconHeight >= 1
    && forall s | 0 <= s < cfg.activeShards ::
         && s in sys.shards && s in sys.shardChains
         && 1 <= Taken(sys, s) <= |sys.shardChains[s]|
         && (forall i | 0 <= i < |sys.shardChains[s]| :: sys.shardChains[s][i].height == i + 1)
         && 1 <= sys.shards[s].beaconHeight <= |sys.beaconChain|
  }

  function SwapsOf(blocks: seq<ShardBlock>): seq<Instruction>
  {
    if blocks == [] then [] else SwapsIn(blocks[0].instructions) + SwapsOf(blocks[1..])
  }

  /** The swaps a shard has made and the beacon has not replayed yet. */
  ghost function InFlightSwaps(cfg: Config, sys: System, shardID: nat): seq<Instruction>
    requires WellFormed(cfg, sys) && shardID < cfg.activeShards
  {
    SwapsOf(sys.shardChains[shardID][Taken(sys, shardID)..])
  }

  /** The keys the beacon has assigned and the shard has not read yet. */
  ghost function InFlightAssignments(cfg: Config, sys: System, shardID: nat): seq<string>
    requires WellFormed(cfg, sys) && shardID < cfg.activeShards
  {
    Shard.AssignedBy(sys.beaconChain[sys.shards[shardID].beaconHeight..], shardID)
  }

  /** `waiting` and `members` are the shard's lists, `pending` and `committee` the beacon's copies. */
  ghost predicate QueuesMatch(pending: seq<string>, committee: seq<string>, swaps: seq<Instruction>,
                              waiting: seq<string>, members: seq<string>, later: seq<string>)
  {
    pending == Ins(swaps) + waiting + later && committee + Ins(swaps) == Outs(swaps) + members
  }

  /** Queue agreement. The beacon's pending list is the shard's with the swapped-in keys still in flight before it and
      the assignments still in flight behind it, and the in-flight swaps turn the beacon's copy of the committee into
      the shard's. */
  ghost predicate Agree(cfg: Config, sys: System, shardID: nat)
    requires WellFormed(cfg, sys) && shardID < cfg.activeShards
  {
    var swaps := InFlightSwaps(cfg, sys, shardID);
    var shard := sys.shards[shardID];
    && OneForOne(swaps, shardID)
    && QueuesMatch(At(sys.beacon.shardPendingValidator, shardID), At(sys.beacon.shardCommittee, shardID), swaps,
                   shard.shardPendingValidator, shard.shardCommittee, InFlightAssignments(cfg, sys, shardID))
    && |shard.shardCommittee| == cfg.shardCommitteeSize
  }

  function SumLists(lists: map<nat, seq<string>>, n: nat): multiset<string>
  {
    if n == 0 then multiset{} else SumLists(lists, n - 1) + multiset(At(lists, n - 1))
  }

  /** Every key the beacon lists for its own chain and its active shards, with its number of occurrences. */
  function Everybody(cfg: Config, st: BeaconState): multiset<string>
  {
    SumLists(st.shardCommittee, cfg.activeShards) + SumLists(st.shardPendingValidator, cfg.activeShards)
      + multiset(st.beaconCommittee) + multiset(st.beaconPendingValidator)
      + multiset(st.beaconWaitingForCurrentRandom) + multiset(st.beaconWaitingForNextRandom)
      + multiset(st.shardWaitingForCurrentRandom) + multiset(st.shardWaitingForNextRandom)
  }

  /** In every epoch the random number is drawn after the snapshot, once; between the draw and the next snapshot the two
      current lists are empty, so the snapshot overwrites nobody. */
  ghost predicate OnSchedule(st: BeaconState)
  {
    var phase := st.beaconHeight % EPOCH;
    && (st.isGetRandomNumber <==> phase == 0 || phase > RANDOM_TIME)
    && (phase != RANDOM_TIME ==> st.shardWaitingForCurrentRandom == [] && st.beaconWaitingForCurrentRandom == [])
  }

  /** Nobody is listed twice, in one list or in two. */
  ghost predicate Disjoint(cfg: Config, st: BeaconState)
  {
    forall key :: Everybody(cfg, st)[key] <= 1
  }

  ghost predicate ValidKeys(cfg: Config, st: BeaconState)
  {
    forall key | key in Everybody(cfg, st) :: ValidKey(key)
  }

  ghost predicate BeaconInv(cfg: Config, st: BeaconState)
  {
    && OnSchedule(st) && ValidKeys(cfg, st)
    && |st.beaconCommittee| == cfg.beaconCommitteeSize
  }

  ghost predicate Inv(cfg: Config, sys: System)
  {
    && WellFormed(cfg, sys)
    && (forall s | 0 <= s < cfg.activeShards :: Agree(cfg, sys, s))
    && BeaconInv(cfg, sys.beacon)
  }

  // ---------- Facts about in-flight blocks ----------

  lemma {:induction false} SwapsOfConcat(a: seq<ShardBlock>, b: seq<ShardBlock>)
    ensures SwapsOf(a + b) == SwapsOf(a) + SwapsOf(b)
  {
    if a == [] {
      assert a + b == b;
    } else {
      SwapsOfConcat(a[1..], b);
      assert (a + b)[1..] == a[1..] + b && (a + b)[0] == a[0];
      Regroup(SwapsIn(a[0].instructions), SwapsOf(a[1..]), SwapsOf(b));
    }
  }

  lemma InsOutsConcat(a: seq<Instruction>, b: seq<Instruction>)
    ensures Ins(a + b) == Ins(a) + Ins(b)
    ensures Outs(a + b) == Outs(a) + Outs(b)
  {
  }

  lemma {:induction false} AssignedByConcat(a: seq<BeaconBlock>, b: seq<BeaconBlock>, shardID: nat)
    ensures Shard.AssignedBy(a + b, shardID) == Shard.AssignedBy(a, shardID) + Shard.AssignedBy(b, shardID)
  {
    if a == [] {
      assert a + b == b;
    } else {
      AssignedByConcat(a[1..], b, shardID);
      assert (a + b)[1..] == a[1..] + b;
      Regroup(Shard.AssignedKeys(a[0].instructions, shardID), Shard.AssignedBy(a[1..], shardID), Shard.AssignedBy(b, shardID));
    }
  }

  lemma {:induction false} InSum(lists: map<nat, seq<string>>, n: nat, s: nat, key: string)
    requires s < n && key in At(lists, s)
    ensures key in SumLists(lists, n)
  {
    if s < n - 1 { InSum(lists, n - 1, s, key); } else { assert key in multiset(At(lists, s)); }
  }

  // ---------- A shard's step ----------

  datatype ShardInput = ShardInput(
    shardID: nat,
    beaconHeight: nat,
    crossShards: seq<nat>,
    crossTransactions: map<nat, seq<CrossTransaction>>)

  /** The shard produces its next block on top of any beacon block it has not passed yet. */
  ghost predicate ShardMay(cfg: Config, sys: System, input: ShardInput)
    requires WellFormed(cfg, sys)
  {
    && input.shardID < cfg.activeShards
    && sys.shards[input.shardID].beaconHeight <= input.beaconHeight <= |sys.beaconChain|
    && forall s | s in input.crossTransactions :: input.crossTransactions[s] != []
  }

  datatype Stepped = Stepped(sys: System, status: Status)

  function BeaconBlocksFor(sys: System, input: ShardInput): seq<BeaconBlock>
    requires input.shardID in sys.shards
    requires sys.shards[input.shardID].beaconHeight <= input.beaconHeight <= |sys.beaconChain|
  {
    sys.beaconChain[sys.shards[input.shardID].beaconHeight..input.beaconHeight]
  }

  /** Producing the block and applying it to the shard's own state. */
  ghost function ShardStep(cfg: Config, sys: System, input: ShardInput): Stepped
    requires WellFormed(cfg, sys) && ShardMay(cfg, sys, input)
  {
    var s := input.shardID;
    var blocks := BeaconBlocksFor(sys, input);
    match Shard.NewInstructions(sys.shards[s], cfg.shardCommitteeSize, s, blocks, input.beaconHeight)
    case NoBlock => Stepped(sys, Errored)
    case Produced(instructions) =>
      var block := ShardBlock(|sys.shardChains[s]| + 1, input.beaconHeight, input.crossShards, instructions, input.crossTransactions);
      var o := Shard.Updated(sys.shards[s], cfg.shardCommitteeSize, s, block, blocks);
      Stepped(sys.(shards := sys.shards[s := o.st], shardChains := sys.shardChains[s := sys.shardChains[s] + [block]]), o.status)
  }

  /** A shard with a full committee and valid keys always finds its own swap instruction correct. */
  lemma OwnSwapAccepted(st: Shard.ShardState, size: nat, shardID: nat)
    requires size > 0 && |st.shardCommittee| == size && st.shardPendingValidator != []
    requires ValidKey(st.shardPendingValidator[0]) && ValidKey(st.shardCommittee[0])
    ensures var entered, left := st.shardPendingValidator[0], st.shardCommittee[0];
      && Swap(st.shardPendingValidator, st.shardCommittee, size, OFFSET)
         == Swapped(st.shardPendingValidator[1..], st.shardCommittee[1..] + [entered], [left], [entered], true)
      && Join([entered]) == entered && Join([left]) == left
      && Shard.SwapAll(st, size, [SwapShard(entered, left, shardID)])
         == Shard.Outcome(st.(shardPendingValidator := st.shardPendingValidator[1..],
                              shardCommittee := st.shardCommittee[1..] + [entered]), Running)
  {
    var entered, left := st.shardPendingValidator[0], st.shardCommittee[0];
    var all := st.shardCommittee + st.shardPendingValidator[..1];
    assert st.shardPendingValidator[..1] == [entered] && st.shardPendingValidator[0..1] == [entered];
    assert all[..1] == [left] && all[1..] == st.shardCommittee[1..] + [entered];
    SplitCommaFree(entered);
    SplitCommaFree(left);
    var l := SwapShard(entered, left, shardID);
    assert [l][1..] == [];
  }

  lemma ShardKeysValid(cfg: Config, sys: System, s: nat)
    requires Inv(cfg, sys) && s < cfg.activeShards
    ensures forall key | key in At(sys.beacon.shardPendingValidator, s) :: ValidKey(key)
    ensures forall key | key in sys.shards[s].shardCommittee :: ValidKey(key)
  {
    forall key | key in At(sys.beacon.shardPendingValidator, s) ensures ValidKey(key) {
      InSum(sys.beacon.shardPendingValidator, cfg.activeShards, s, key);
    }
    assert Agree(cfg, sys, s);
    var swaps, committee := InFlightSwaps(cfg, sys, s), At(sys.beacon.shardCommittee, s);
    forall key | key in sys.shards[s].shardCommittee ensures ValidKey(key) {
      assert key in committee + Ins(swaps);
      if key in committee {
        InSum(sys.beacon.shardCommittee, cfg.activeShards, s, key);
      } else {
        assert key in Ins(swaps) + sys.shards[s].shardPendingValidator + InFlightAssignments(cfg, sys, s);
      }
    }
  }

  /** Appending a block to one shard's chain puts its swaps behind those in flight and leaves the other shards alone. */
  lemma ShardAppended(cfg: Config, sys: System, s: nat, block: ShardBlock, st: Shard.ShardState)
    requires Inv(cfg, sys) && s < cfg.activeShards
    requires block.height == |sys.shardChains[s]| + 1
    requires 1 <= st.beaconHeight <= |sys.beaconChain|
    ensures var sys' := sys.(shards := sys.shards[s := st], shardChains := sys.shardChains[s := sys.shardChains[s] + [block]]);
      && WellFormed(cfg, sys')
      && InFlightSwaps(cfg, sys', s) == InFlightSwaps(cfg, sys, s) + SwapsIn(block.instructions)
      && InFlightAssignments(cfg, sys', s) == Shard.AssignedBy(sys.beaconChain[st.beaconHeight..], s)
      && forall t | 0 <= t < cfg.activeShards && t != s :: Agree(cfg, sys', t)
  {
    var chain, chain' := sys.shardChains[s], sys.shardChains[s] + [block];
    var sys' := sys.(shards := sys.shards[s := st], shardChains := sys.shardChains[s := chain']);
    forall t | 0 <= t < cfg.activeShards
      ensures t in sys'.shards && t in sys'.shardChains && 1 <= Taken(sys', t) <= |sys'.shardChains[t]|
      ensures forall i | 0 <= i < |sys'.shardChains[t]| :: sys'.shardChains[t][i].height == i + 1
      ensures 1 <= sys'.shards[t].beaconHeight <= |sys'.beaconChain|
    {
      assert Taken(sys', t) == Taken(sys, t);
    }
    var k := Taken(sys, s);
    assert chain'[k..] == chain[k..] + [block];
    SwapsOfConcat(chain[k..], [block]);
    assert SwapsOf([block]) == SwapsIn(block.instructions) by { assert [block][1..] == []; }
    forall t | 0 <= t < cfg.activeShards && t != s ensures Agree(cfg, sys', t) {
      assert Agree(cfg, sys, t);
      assert InFlightSwaps(cfg, sys', t) == InFlightSwaps(cfg, sys, t);
      assert InFlightAssignments(cfg, sys', t) == InFlightAssignments(cfg, sys, t);
    }
  }

  ghost predicate SwapDue(pending: seq<string>, beaconHeight: nat)
  {
    beaconHeight % EPOCH == 0 && |pending| > 0
  }

  /** What an honest producer does with a full committee: at the end of an epoch the first pending key replaces the
      oldest member, and the block that says so passes the shard's own update. */
  lemma HonestBlock(shard: Shard.ShardState, size: nat, s: nat, blocks: seq<BeaconBlock>, block: ShardBlock)
    requires size > 0 && |shard.shardCommittee| == size
    requires block.height > 1 && forall t | t in block.crossTransactions :: block.crossTransactions[t] != []
    requires forall key | key in shard.shardPendingValidator + Shard.AssignedBy(blocks, s) :: ValidKey(key)
    requires forall key | key in shard.shardCommittee :: ValidKey(key)
    requires var pending := shard.shardPendingValidator + Shard.AssignedBy(blocks, s);
      block.instructions == if SwapDue(pending, block.beaconHeight) then [SwapShard(pending[0], shard.shardCommittee[0], s)] else []
    ensures Shard.NewInstructions(shard, size, s, blocks, block.beaconHeight) == Shard.Produced(block.instructions)
    ensures var pending := shard.shardPendingValidator + Shard.AssignedBy(blocks, s);
      var o := Shard.Updated(shard, size, s, block, blocks);
      && o.status == Running && o.st.beaconHeight == block.beaconHeight
      && o.st.shardPendingValidator == (if SwapDue(pending, block.beaconHeight) then pending[1..] else pending)
      && o.st.shardCommittee == (if SwapDue(pending, block.beaconHeight) then shard.shardCommittee[1..] + [pending[0]]
                                 else shard.shardCommittee)
  {
    var pending := shard.shardPendingValidator + Shard.AssignedBy(blocks, s);
    var before := shard.(shardHeight := block.height, beaconHeight := block.beaconHeight, shardPendingValidator := pending);
    if SwapDue(pending, block.beaconHeight) {
      assert pending[0] in pending;
      OwnSwapAccepted(before, size, s);
    }
  }

  lemma QueuesGrow(committee: seq<string>, ins: seq<string>, pending: seq<string>, later: seq<string>,
                   outs: seq<string>, members: seq<string>)
    requires pending != [] && members != []
    requires committee + ins == outs + members
    ensures ins + pending + later == ins + [pending[0]] + pending[1..] + later
    ensures committee + (ins + [pending[0]]) == outs + [members[0]] + (members[1..] + [pending[0]])
  {
    assert [pending[0]] + pending[1..] == pending && [members[0]] + members[1..] == members;
    assert committee + (ins + [pending[0]]) == (outs + members) + [pending[0]];
  }

  function Appended(sys: System, s: nat, block: ShardBlock, st: Shard.ShardState): System
    requires s in sys.shardChains
  {
    sys.(shards := sys.shards[s := st], shardChains := sys.shardChains[s := sys.shardChains[s] + [block]])
  }

  /** The blocks a shard reads leave the in-flight assignments from the front and enter its pending list at the back. */
  lemma ReadAssignments(cfg: Config, sys: System, input: ShardInput)
    requires Inv(cfg, sys) && ShardMay(cfg, sys, input)
    ensures var s := input.shardID;
      InFlightAssignments(cfg, sys, s)
        == Shard.AssignedBy(BeaconBlocksFor(sys, input), s) + Shard.AssignedBy(sys.beaconChain[input.beaconHeight..], s)
  {
    var s := input.shardID;
    var from := sys.shards[s].beaconHeight;
    assert sys.beaconChain[from..] == BeaconBlocksFor(sys, input) + sys.beaconChain[input.beaconHeight..];
    AssignedByConcat(BeaconBlocksFor(sys, input), sys.beaconChain[input.beaconHeight..], s);
  }

  lemma QueuesMatchAfterSwap(pending: seq<string>, committee: seq<string>, swaps: seq<Instruction>,
                             waiting: seq<string>, members: seq<string>, later: seq<string>, s: nat)
    requires waiting != [] && members != []
    requires QueuesMatch(pending, committee, swaps, waiting, members, later)
    ensures QueuesMatch(pending, committee, swaps + [SwapShard(waiting[0], members[0], s)],
                        waiting[1..], members[1..] + [waiting[0]], later)
  {
    var made := [SwapShard(waiting[0], members[0], s)];
    InsOutsConcat(swaps, made);
    assert Ins(made) == [waiting[0]] && Outs(made) == [members[0]];
    QueuesGrow(committee, Ins(swaps), waiting, later, Outs(swaps), members);
  }

  /** The swap, if one is due, and the lists after it. */
  ghost predicate BlockOf(s: nat, beaconHeight: nat, waiting: seq<string>, members: seq<string>,
                          made: seq<Instruction>, waiting': seq<string>, members': seq<string>)
  {
    if SwapDue(waiting, beaconHeight) then
      && members != [] && ValidKey(waiting[0]) && ValidKey(members[0])
      && made == [SwapShard(waiting[0], members[0], s)]
      && waiting' == waiting[1..] && members' == members[1..] + [waiting[0]]
    else made == [] && waiting' == waiting && members' == members
  }

  lemma MatchAfterBlock(pending: seq<string>, committee: seq<string>, swaps: seq<Instruction>, waiting: seq<string>,
                        members: seq<string>, later: seq<string>, s: nat, beaconHeight: nat,
                        made: seq<Instruction>, waiting': seq<string>, members': seq<string>)
    requires OneForOne(swaps, s) && QueuesMatch(pending, committee, swaps, waiting, members, later)
    requires BlockOf(s, beaconHeight, waiting, members, made, waiting', members')
    ensures SwapsIn(made) == made && OneForOne(swaps + made, s) && |members'| == |members|
    ensures QueuesMatch(pending, committee, swaps + made, waiting', members', later)
  {
    if SwapDue(waiting, beaconHeight) {
      assert made[1..] == [];
      QueuesMatchAfterSwap(pending, committee, swaps, waiting, members, later, s);
    } else {
      assert swaps + made == swaps;
    }
  }

  lemma AgreesAfterBlock(cfg: Config, sys: System, input: ShardInput, block: ShardBlock, st: Shard.ShardState)
    requires Inv(cfg, sys) && ShardMay(cfg, sys, input)
    requires block.height == |sys.shardChains[input.shardID]| + 1 && st.beaconHeight == input.beaconHeight
    requires var s := input.shardID;
      BlockOf(s, input.beaconHeight,
              sys.shards[s].shardPendingValidator + Shard.AssignedBy(BeaconBlocksFor(sys, input), s),
              sys.shards[s].shardCommittee, block.instructions, st.shardPendingValidator, st.shardCommittee)
    ensures Inv(cfg, Appended(sys, input.shardID, block, st))
  {
    var s := input.shardID;
    MatchesWithBlock(cfg, sys, input, block.instructions, st.shardPendingValidator, st.shardCommittee);
    ShardAppended(cfg, sys, s, block, st);
    StillAgrees(cfg, sys, Appended(sys, s, block, st), s, block, Shard.AssignedBy(sys.beaconChain[input.beaconHeight..], s));
  }

  lemma MatchesWithBlock(cfg: Config, sys: System, input: ShardInput, made: seq<Instruction>, waiting': seq<string>, members': seq<string>)
    requires Inv(cfg, sys) && ShardMay(cfg, sys, input)
    requires var s := input.shardID;
      BlockOf(s, input.beaconHeight,
              sys.shards[s].shardPendingValidator + Shard.AssignedBy(BeaconBlocksFor(sys, input), s),
              sys.shards[s].shardCommittee, made, waiting', members')
    ensures var s := input.shardID;
      && SwapsIn(made) == made && OneForOne(InFlightSwaps(cfg, sys, s) + made, s)
      && |members'| == |sys.shards[s].shardCommittee|
      && QueuesMatch(At(sys.beacon.shardPendingValidator, s), At(sys.beacon.shardCommittee, s), InFlightSwaps(cfg, sys, s) + made,
                     waiting', members', Shard.AssignedBy(sys.beaconChain[input.beaconHeight..], s))
  {
    var s := input.shardID;
    var read, later := Shard.AssignedBy(BeaconBlocksFor(sys, input), s), Shard.AssignedBy(sys.beaconChain[input.beaconHeight..], s);
    var shard, swaps := sys.shards[s], InFlightSwaps(cfg, sys, s);
    assert Agree(cfg, sys, s);
    ReadAssignments(cfg, sys, input);
    ReadMatches(At(sys.beacon.shardPendingValidator, s), At(sys.beacon.shardCommittee, s), swaps,
      shard.shardPendingValidator, shard.shardCommittee, read, later);
    MatchAfterBlock(At(sys.beacon.shardPendingValidator, s), At(sys.beacon.shardCommittee, s), swaps,
      shard.shardPendingValidator + read, shard.shardCommittee, later, s, input.beaconHeight, made, waiting', members');
  }

  lemma ReadMatches(pending: seq<string>, committee: seq<string>, swaps: seq<Instruction>, waiting: seq<string>,
                    members: seq<string>, read: seq<string>, later: seq<string>)
    requires QueuesMatch(pending, committee, swaps, waiting, members, read + later)
    ensures QueuesMatch(pending, committee, swaps, waiting + read, members, later)
  {
    assert Ins(swaps) + waiting + (read + later) == Ins(swaps) + (waiting + read) + later;
  }

  /** The beacon has not moved, and shard `s` agrees again. */
  lemma StillAgrees(cfg: Config, sys: System, sys': System, s: nat, block: ShardBlock, later: seq<string>)
    requires Inv(cfg, sys) && WellFormed(cfg, sys') && s < cfg.activeShards && sys'.beacon == sys.beacon
    requires forall t | 0 <= t < cfg.activeShards && t != s :: Agree(cfg, sys', t)
    requires |sys'.shards[s].shardCommittee| == |sys.shards[s].shardCommittee|
    requires InFlightSwaps(cfg, sys', s) == InFlightSwaps(cfg, sys, s) + SwapsIn(block.instructions)
    requires OneForOne(InFlightSwaps(cfg, sys', s), s)
    requires InFlightAssignments(cfg, sys', s) == later
    requires QueuesMatch(At(sys.beacon.shardPendingValidator, s), At(sys.beacon.shardCommittee, s), InFlightSwaps(cfg, sys', s),
      sys'.shards[s].shardPendingValidator, sys'.shards[s].shardCommittee, later)
    ensures Inv(cfg, sys')
  {
    assert Agree(cfg, sys, s);
    assert Agree(cfg, sys', s);
  }

  /** A shard step never fails and keeps the agreement. */
  lemma ShardStepKeeps(cfg: Config, sys: System, input: ShardInput)
    requires Inv(cfg, sys) && ShardMay(cfg, sys, input)
    ensures ShardStep(cfg, sys, input).status == Running
    ensures Inv(cfg, ShardStep(cfg, sys, input).sys)
  {
    var s := input.shardID;
    var shard, blocks := sys.shards[s], BeaconBlocksFor(sys, input);
    ReadKeysValid(cfg, sys, input);
    var block := OwnBlock(cfg, sys, input);
    HonestBlock(shard, cfg.shardCommitteeSize, s, blocks, block);
    AgreesAfterBlock(cfg, sys, input, block, Shard.Updated(shard, cfg.shardCommitteeSize, s, block, blocks).st);
  }

  ghost function OwnBlock(cfg: Config, sys: System, input: ShardInput): ShardBlock
    requires WellFormed(cfg, sys) && ShardMay(cfg, sys, input) && sys.shards[input.shardID].shardCommittee != []
  {
    var s := input.shardID;
    var pending := sys.shards[s].shardPendingValidator + Shard.AssignedBy(BeaconBlocksFor(sys, input), s);
    var made := if SwapDue(pending, input.beaconHeight) then [SwapShard(pending[0], sys.shards[s].shardCommittee[0], s)] else [];
    ShardBlock(|sys.shardChains[s]| + 1, input.beaconHeight, input.crossShards, made, input.crossTransactions)
  }

  lemma ReadKeysValid(cfg: Config, sys: System, input: ShardInput)
    requires Inv(cfg, sys) && ShardMay(cfg, sys, input)
    ensures var shard := sys.shards[input.shardID];
      && cfg.shardCommitteeSize > 0 && |shard.shardCommittee| == cfg.shardCommitteeSize
      && |sys.shardChains[input.shardID]| >= 1
      && (forall key | key in shard.shardPendingValidator + Shard.AssignedBy(BeaconBlocksFor(sys, input), input.shardID) :: ValidKey(key))
      && (forall key | key in shard.shardCommittee :: ValidKey(key))
  {
    var s := input.shardID;
    assert Agree(cfg, sys, s);
    ReadAssignments(cfg, sys, input);
    ShardKeysValid(cfg, sys, s);
    assert forall key | key in sys.shards[s].shardPendingValidator + Shard.AssignedBy(BeaconBlocksFor(sys, input), s) ::
        key in At(sys.beacon.shardPendingValidator, s);
  }
}
