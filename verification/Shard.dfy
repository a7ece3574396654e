/** A shard's best state and the part of its block production that concerns validators. */
module Shard {
  import opened Blocks
  import opened Lists
  import opened Text
  import opened Validators
  import Beacon

  datatype ShardState = ShardState(
    shardHeight: nat,
    beaconHeight: nat,
    shardCommittee: seq<string>,
    shardPendingValidator: seq<string>,
    bestCrossShard: map<nat, nat>)

  datatype Outcome = Outcome(st: ShardState, status: Status)

  /** The keys that a list of instructions assigns to one shard, in order. */
  function AssignedKeys(ls: seq<Instruction>, shardID: nat): seq<string>
  {
    if ls == [] then []
    else
      (match ls[0]
       case Assign(keys, id) => if id == shardID then Split(keys) else []
       case _ => []) + AssignedKeys(ls[1..], shardID)
  }

  function AssignedBy(blocks: seq<BeaconBlock>, shardID: nat): seq<string>
  {
    if blocks == [] then [] else AssignedKeys(blocks[0].instructions, shardID) + AssignedBy(blocks[1..], shardID)
  }

  /** One swap instruction, whatever chain it names: the shard rotates by itself and compares. */
  function Rotated(st: ShardState, size: nat, incoming: string, outgoing: string): Outcome
  {
    match Swap(st.shardPendingValidator, st.shardCommittee, size, Beacon.OFFSET)
    case SwapPanic => Outcome(st, Panicked)
    case Swapped(pending, current, swapped, entered, ok) =>
      var st' := st.(shardPendingValidator := pending, shardCommittee := current);
      if ok && Split(outgoing) == swapped && Split(incoming) == entered then Outcome(st', Running)
      else Outcome(st', Errored)
  }

  function SwapAll(st: ShardState, size: nat, ls: seq<Instruction>): Outcome
    decreases |ls|
  {
    if ls == [] then Outcome(st, Running)
    else
      var o := match ls[0]
        case SwapShard(incoming, outgoing, _) => Rotated(st, size, incoming, outgoing)
        case SwapBeacon(incoming, outgoing) => Rotated(st, size, incoming, outgoing)
        case _ => Outcome(st, Running);
      if o.status == Running then SwapAll(o.st, size, ls[1..]) else o
  }

  function LastHeights(cross: map<nat, seq<CrossTransaction>>): map<nat, nat>
    requires forall s | s in cross :: cross[s] != []
  {
    map s | s in cross :: cross[s][|cross[s]| - 1].height
  }

  /** What the update does before it comes to the instructions. */
  function Begun(st: ShardState, shardID: nat, block: ShardBlock, beaconBlocks: seq<BeaconBlock>): ShardState
  {
    st.(
      shardHeight := block.height,
      beaconHeight := block.beaconHeight,
      bestCrossShard := if block.height == 1 then map[] else st.bestCrossShard,
      shardPendingValidator := st.shardPendingValidator + AssignedBy(beaconBlocks, shardID))
  }

  function Updated(st: ShardState, size: nat, shardID: nat, block: ShardBlock, beaconBlocks: seq<BeaconBlock>): Outcome
  {
    var swapped := SwapAll(Begun(st, shardID, block, beaconBlocks), size, block.instructions);
    if swapped.status != Running then swapped
    else if exists s | s in block.crossTransactions :: block.crossTransactions[s] == [] then swapped.(status := Panicked)
    else swapped.(st := swapped.st.(
      bestCrossShard := swapped.st.bestCrossShard + LastHeights(block.crossTransactions)))
  }

  class BestStateShard {
    const shardID: nat
    const shardCommitteeSize: nat
    var shardHeight: nat
    var beaconHeight: nat
    var shardCommittee: seq<string>
    var shardPendingValidator: seq<string>
    var bestCrossShard: map<nat, nat>

    function State(): ShardState
      reads this
    {
      ShardState(shardHeight, beaconHeight, shardCommittee, shardPendingValidator, bestCrossShard)
    }

    constructor (shardID: nat, committeeSize: nat, committee: seq<string>)
      ensures this.shardID == shardID && shardCommitteeSize == committeeSize
      ensures State() == ShardState(0, 0, committee, [], map[])
    {
      this.shardID, shardCommitteeSize := shardID, committeeSize;
      shardHeight, beaconHeight, shardCommittee, shardPendingValidator, bestCrossShard := 0, 0, committee, [], map[];
    }

    method AddPendingValidators(beaconBlocks: seq<BeaconBlock>)
      modifies this`shardPendingValidator
      ensures shardPendingValidator == old(shardPendingValidator) + AssignedBy(beaconBlocks, shardID)
    {
      ghost var all := old(shardPendingValidator) + AssignedBy(beaconBlocks, shardID);
      assert beaconBlocks[0..] == beaconBlocks;
      for b := 0 to |beaconBlocks|
        invariant all == shardPendingValidator + AssignedBy(beaconBlocks[b..], shardID)
      {
        ghost var before := shardPendingValidator;
        AddAssigned(beaconBlocks[b].instructions);
        assert beaconBlocks[b..][1..] == beaconBlocks[b + 1..];
        Regroup(before, AssignedKeys(beaconBlocks[b].instructions, shardID), AssignedBy(beaconBlocks[b + 1..], shardID));
      }
    }

    method AddAssigned(instructions: seq<Instruction>)
      modifies this`shardPendingValidator
      ensures shardPendingValidator == old(shardPendingValidator) + AssignedKeys(instructions, shardID)
    {
      ghost var all := old(shardPendingValidator) + AssignedKeys(instructions, shardID);
      assert instructions[0..] == instructions;
      for i := 0 to |instructions|
        invariant all == shardPendingValidator + AssignedKeys(instructions[i..], shardID)
      {
        ghost var before := shardPendingValidator;
        assert instructions[i..][1..] == instructions[i + 1..];
        if instructions[i].Assign? && instructions[i].shardID == shardID {
          shardPendingValidator := shardPendingValidator + Split(instructions[i].keys);
          Regroup(before, Split(instructions[i].keys), AssignedKeys(instructions[i + 1..], shardID));
        }
      }
    }

    method SwapCommittee(incoming: string, outgoing: string) returns (status: Status)
      modifies this`shardPendingValidator, this`shardCommittee
      ensures var o := Rotated(old(State()), shardCommitteeSize, incoming, outgoing);
        status == o.status && (status != Panicked ==> State() == o.st)
    {
      var r := SwapValidator(shardPendingValidator, shardCommittee, shardCommitteeSize, Beacon.OFFSET);
      if r.SwapPanic? { return Panicked; }
      shardPendingValidator, shardCommittee := r.pending, r.current;
      if !r.ok { return Errored; }
      var swapedCommittees := Split(outgoing);
      var newCommittees := Split(incoming);
      if swapedCommittees != r.outgoing { return Errored; }
      if newCommittees != r.incoming { return Errored; }
      status := Running;
    }

    method Update(block: ShardBlock, beaconBlocks: seq<BeaconBlock>) returns (status: Status)
      modifies this
      ensures var o := Updated(old(State()), shardCommitteeSize, shardID, block, beaconBlocks);
        status == o.status && (status != Panicked ==> State() == o.st)
    {
      if block.height == 1 { bestCrossShard := map[]; }
      shardHeight := block.height;
      beaconHeight := block.beaconHeight;
      AddPendingValidators(beaconBlocks);
      ghost var begun := State();
      ghost var all := SwapAll(begun, shardCommitteeSize, block.instructions);
      assert block.instructions[0..] == block.instructions;
      status := Running;
      for i := 0 to |block.instructions|
        invariant status == Running
        invariant all == SwapAll(State(), shardCommitteeSize, block.instructions[i..])
      {
        var l := block.instructions[i];
        assert block.instructions[i..][1..] == block.instructions[i + 1..];
        match l {
          case SwapShard(incoming, outgoing, _) => status := SwapCommittee(incoming, outgoing);
          case SwapBeacon(incoming, outgoing) => status := SwapCommittee(incoming, outgoing);
          case _ =>
        }
        if status != Running { return; }
      }
      if exists s | s in block.crossTransactions :: block.crossTransactions[s] == [] { return Panicked; }
      bestCrossShard := bestCrossShard + LastHeights(block.crossTransactions);
    }
  }

  // ---------- Which swaps an update lets through ----------

  /** The texts of one swap instruction. */
  datatype Named = Named(incoming: string, outgoing: string)

  /** What the swap instructions name, in order. A shard reads those that are marked for the beacon, too. */
  function NamedIn(ls: seq<Instruction>): seq<Named>
  {
    if ls == [] then []
    else
      (match ls[0]
       case SwapShard(incoming, outgoing, _) => [Named(incoming, outgoing)]
       case SwapBeacon(incoming, outgoing) => [Named(incoming, outgoing)]
       case _ => []) + NamedIn(ls[1..])
  }

  /** Swap by swap the next pending key comes in and the longest-serving member goes out. */
  ghost predicate NamesTheNext(named: seq<Named>, pending: seq<string>, committee: seq<string>)
  {
    && |named| <= |pending|
    && forall i | 0 <= i < |named| :: named[i] == Named(pending[i], (committee + pending)[i])
  }

  ghost predicate FullAndReadable(st: ShardState, size: nat)
  {
    size > 0 && |st.shardCommittee| == size && AllCommaFree(st.shardCommittee + st.shardPendingValidator)
  }

  lemma TextIsKey(text: string, key: string)
    requires CommaFree(key)
    ensures Split(text) == [key] <==> text == key
  {
    SplitCommaFree(key);
    JoinSplit(text);
  }

  lemma KeysReadable(st: ShardState, size: nat)
    requires FullAndReadable(st, size)
    ensures CommaFree(st.shardCommittee[0])
    ensures st.shardPendingValidator != [] ==> CommaFree(st.shardPendingValidator[0])
  {
    var all := st.shardCommittee + st.shardPendingValidator;
    assert all[0] == st.shardCommittee[0];
    assert st.shardPendingValidator != [] ==> all[size] == st.shardPendingValidator[0];
  }

  /** One swap: it runs exactly when it names the first pending key and the first member, and errs otherwise. */
  lemma SwapNeedsNames(st: ShardState, size: nat, incoming: string, outgoing: string)
    requires FullAndReadable(st, size)
    ensures var o, pending, committee := Rotated(st, size, incoming, outgoing), st.shardPendingValidator, st.shardCommittee;
      && (o.status == Running <==> pending != [] && incoming == pending[0] && outgoing == committee[0])
      && (o.status != Running ==> o.status == Errored)
      && (o.status == Running ==>
        o.st == st.(shardPendingValidator := pending[1..], shardCommittee := committee[1..] + [pending[0]]))
  {
    var pending, committee := st.shardPendingValidator, st.shardCommittee;
    KeysReadable(st, size);
    if pending != [] {
      TextIsKey(incoming, pending[0]);
      TextIsKey(outgoing, committee[0]);
      var all := committee + pending[..1];
      assert pending[..1] == [pending[0]] && pending[0..1] == [pending[0]];
      assert all[..1] == [committee[0]] && all[1..] == committee[1..] + [pending[0]];
    }
  }

  lemma NamesShift(named: seq<Named>, pending: seq<string>, committee: seq<string>)
    requires named != [] && pending != [] && committee != []
    ensures NamesTheNext(named, pending, committee) <==>
      (named[0] == Named(pending[0], committee[0])
        && NamesTheNext(named[1..], pending[1..], committee[1..] + [pending[0]]))
    ensures committee[1..] + [pending[0]] + pending[1..] == (committee + pending)[1..]
  {
    var all, rest := committee + pending, committee[1..] + [pending[0]] + pending[1..];
    assert rest == all[1..];
    if named[0] == Named(pending[0], committee[0]) && NamesTheNext(named[1..], pending[1..], committee[1..] + [pending[0]]) {
      forall i | 0 <= i < |named| ensures named[i] == Named(pending[i], all[i]) {
        if i > 0 { assert named[i] == named[1..][i - 1]; }
      }
    }
    if NamesTheNext(named, pending, committee) {
      forall i | 0 <= i < |named[1..]| ensures named[1..][i] == Named(pending[1..][i], rest[i]) {
        assert named[1..][i] == named[i + 1];
      }
    }
  }

  /** What becomes of swaps that name `named`: they run exactly when these are the next keys one after the other, and err
      otherwise. */
  ghost predicate OutcomeOf(o: Outcome, st: ShardState, size: nat, named: seq<Named>)
  {
    && (o.status == Running <==> NamesTheNext(named, st.shardPendingValidator, st.shardCommittee))
    && (o.status != Running ==> o.status == Errored)
    && (o.status == Running ==> o.st == st.(
      shardPendingValidator := st.shardPendingValidator[|named|..],
      shardCommittee := (st.shardCommittee + st.shardPendingValidator)[|named|..|named| + |st.shardCommittee|]))
  }

  function AfterSwap(st: ShardState): ShardState
    requires st.shardPendingValidator != [] && st.shardCommittee != []
  {
    st.(shardPendingValidator := st.shardPendingValidator[1..], shardCommittee := st.shardCommittee[1..] + [st.shardPendingValidator[0]])
  }

  lemma {:induction false} SwapsNeedNames(st: ShardState, size: nat, ls: seq<Instruction>)
    requires FullAndReadable(st, size)
    ensures OutcomeOf(SwapAll(st, size, ls), st, size, NamedIn(ls))
    decreases |ls|
  {
    if ls == [] {
      NothingSwapped(st, size);
    } else if ls[0].SwapShard? || ls[0].SwapBeacon? {
      var incoming, outgoing := ls[0].incoming, ls[0].outgoing;
      SwapNeedsNames(st, size, incoming, outgoing);
      assert NamedIn(ls) == [Named(incoming, outgoing)] + NamedIn(ls[1..]);
      if Rotated(st, size, incoming, outgoing).status == Running {
        StillReadable(st, size);
        SwapsNeedNames(AfterSwap(st), size, ls[1..]);
        FirstRuns(SwapAll(AfterSwap(st), size, ls[1..]), st, size, NamedIn(ls));
      } else {
        FirstErrs(Rotated(st, size, incoming, outgoing), st, size, NamedIn(ls));
      }
    } else {
      SwapsNeedNames(st, size, ls[1..]);
      assert NamedIn(ls) == [] + NamedIn(ls[1..]) == NamedIn(ls[1..]);
    }
  }

  lemma NothingSwapped(st: ShardState, size: nat)
    ensures OutcomeOf(Outcome(st, Running), st, size, [])
  {
    var pending, committee := st.shardPendingValidator, st.shardCommittee;
    assert pending[0..] == pending && (committee + pending)[0..|committee|] == committee;
  }

  lemma StillReadable(st: ShardState, size: nat)
    requires FullAndReadable(st, size) && st.shardPendingValidator != []
    ensures FullAndReadable(AfterSwap(st), size)
  {
    var all, rest := st.shardCommittee + st.shardPendingValidator, AfterSwap(st).shardCommittee + AfterSwap(st).shardPendingValidator;
    NamesShift([Named("", "")], st.shardPendingValidator, st.shardCommittee);
    forall i | 0 <= i < |rest| ensures CommaFree(rest[i]) { assert rest[i] == all[i + 1]; }
  }

  lemma FirstRuns(o: Outcome, st: ShardState, size: nat, named: seq<Named>)
    requires FullAndReadable(st, size) && st.shardPendingValidator != [] && named != []
    requires named[0] == Named(st.shardPendingValidator[0], st.shardCommittee[0])
    requires OutcomeOf(o, AfterSwap(st), size, named[1..])
    ensures OutcomeOf(o, st, size, named)
  {
    var pending, committee, n := st.shardPendingValidator, st.shardCommittee, |named|;
    NamesShift(named, pending, committee);
    if o.status == Running {
      assert pending[1..][n - 1..] == pending[n..];
      assert (committee + pending)[1..][n - 1..n - 1 + size] == (committee + pending)[n..n + size];
    }
  }

  lemma FirstErrs(o: Outcome, st: ShardState, size: nat, named: seq<Named>)
    requires FullAndReadable(st, size) && named != [] && o.status == Errored
    requires st.shardPendingValidator == [] || named[0] != Named(st.shardPendingValidator[0], st.shardCommittee[0])
    ensures OutcomeOf(o, st, size, named)
  {
    assert st.shardPendingValidator != [] ==> (st.shardCommittee + st.shardPendingValidator)[0] == st.shardCommittee[0];
  }

  /** The update of a shard with a full committee runs exactly when the block's swaps name the next keys - the assigned ones
      counted - and no listed sender lacks transactions. It errs exactly when a swap names other keys. */
  lemma UpdateNeedsNames(st: ShardState, size: nat, shardID: nat, block: ShardBlock, beaconBlocks: seq<BeaconBlock>)
    requires FullAndReadable(Begun(st, shardID, block, beaconBlocks), size)
    ensures var o, named := Updated(st, size, shardID, block, beaconBlocks), NamedIn(block.instructions);
      var pending, committee := st.shardPendingValidator + AssignedBy(beaconBlocks, shardID), st.shardCommittee;
      && (o.status == Running <==> (NamesTheNext(named, pending, committee)
        && forall s | s in block.crossTransactions :: block.crossTransactions[s] != []))
      && (o.status == Errored <==> !NamesTheNext(named, pending, committee))
      && (o.status == Running ==>
        && o.st.shardPendingValidator == pending[|named|..]
        && o.st.shardCommittee == (committee + pending)[|named|..|named| + size]
        && o.st.shardHeight == block.height && o.st.beaconHeight == block.beaconHeight)
  {
    SwapsNeedNames(Begun(st, shardID, block, beaconBlocks), size, block.instructions);
  }

  /** After a block that runs, the best height of each listed sender is that of its last transaction; the others keep theirs,
      except that the genesis block clears them. */
  lemma HeightsAfter(st: ShardState, size: nat, shardID: nat, block: ShardBlock, beaconBlocks: seq<BeaconBlock>, s: nat)
    requires FullAndReadable(Begun(st, shardID, block, beaconBlocks), size)
    requires Updated(st, size, shardID, block, beaconBlocks).status == Running
    ensures var best, txs := Updated(st, size, shardID, block, beaconBlocks).st.bestCrossShard, At(block.crossTransactions, s);
      && (s in block.crossTransactions ==> txs != [] && s in best && best[s] == txs[|txs| - 1].height)
      && (s !in block.crossTransactions ==>
        NumberAt(best, s) == if block.height == 1 then 0 else NumberAt(st.bestCrossShard, s))
  {
    SwapsNeedNames(Begun(st, shardID, block, beaconBlocks), size, block.instructions);
  }

  /** A block whose only swap names two other keys than the first pending one and the first member is refused. */
  lemma OnlyTheNextSwap(st: ShardState, size: nat, shardID: nat, block: ShardBlock, beaconBlocks: seq<BeaconBlock>,
                        incoming: string, outgoing: string)
    requires FullAndReadable(Begun(st, shardID, block, beaconBlocks), size)
    requires NamedIn(block.instructions) == [Named(incoming, outgoing)]
    requires forall s | s in block.crossTransactions :: block.crossTransactions[s] != []
    ensures var pending := st.shardPendingValidator + AssignedBy(beaconBlocks, shardID);
      Updated(st, size, shardID, block, beaconBlocks).status ==
        if pending != [] && incoming == pending[0] && outgoing == st.shardCommittee[0] then Running else Errored
  {
    UpdateNeedsNames(st, size, shardID, block, beaconBlocks);
    var pending := st.shardPendingValidator + AssignedBy(beaconBlocks, shardID);
    assert pending != [] ==> (st.shardCommittee + pending)[0] == st.shardCommittee[0];
  }

  // ---------- Producing a block ----------

  datatype Produced = NoBlock | Produced(instructions: seq<Instruction>)

  /** The swap part of block production. A swap is asked for only at the last beacon block of an epoch. */
  function NewInstructions(st: ShardState, size: nat, shardID: nat, beaconBlocks: seq<BeaconBlock>, beaconHeight: nat): Produced
  {
    var pending := st.shardPendingValidator + AssignedBy(beaconBlocks, shardID);
    if beaconHeight % Beacon.EPOCH == 0 && |pending| > 0 then
      match Swap(pending, st.shardCommittee, size, Beacon.OFFSET)
      case SwapPanic => NoBlock
      case Swapped(_, _, outgoing, incoming, ok) =>
        if ok then Produced([SwapShard(Join(incoming), Join(outgoing), shardID)]) else NoBlock
    else Produced([])
  }

  method NewBlockShard(st: ShardState, size: nat, shardID: nat, beaconBlocks: seq<BeaconBlock>, beaconHeight: nat)
    returns (r: Produced)
    ensures r == NewInstructions(st, size, shardID, beaconBlocks, beaconHeight)
  {
    var shardPendingValidator := st.shardPendingValidator;
    assert beaconBlocks[0..] == beaconBlocks;
    for b := 0 to |beaconBlocks|
      invariant shardPendingValidator + AssignedBy(beaconBlocks[b..], shardID)
        == st.shardPendingValidator + AssignedBy(beaconBlocks, shardID)
    {
      assert beaconBlocks[b..][1..] == beaconBlocks[b + 1..];
      ghost var keys := AssignedKeys(beaconBlocks[b].instructions, shardID);
      Regroup(shardPendingValidator, keys, AssignedBy(beaconBlocks[b + 1..], shardID));
      shardPendingValidator := shardPendingValidator + AssignedKeys(beaconBlocks[b].instructions, shardID);
    }
    if beaconHeight % Beacon.EPOCH == 0 {
      if |shardPendingValidator| > 0 {
        var s := SwapValidator(shardPendingValidator, st.shardCommittee, size, Beacon.OFFSET);
        if s.SwapPanic? || !s.ok { return NoBlock; }
        return Produced([SwapShard(Join(s.incoming), Join(s.outgoing), shardID)]);
      }
    }
    r := Produced([]);
  }

  /** No block can be made exactly when a swap is due and the committee cannot take it: it has no place at all, or is overfull. */
  lemma NoBlockExactly(st: ShardState, size: nat, shardID: nat, beaconBlocks: seq<BeaconBlock>, beaconHeight: nat)
    ensures NewInstructions(st, size, shardID, beaconBlocks, beaconHeight) == NoBlock <==>
      (beaconHeight % Beacon.EPOCH == 0 && (st.shardPendingValidator + AssignedBy(beaconBlocks, shardID)) != []
        && (size == 0 || size < |st.shardCommittee|))
  {
    SwapExactly(st.shardPendingValidator + AssignedBy(beaconBlocks, shardID), st.shardCommittee, size, Beacon.OFFSET);
  }
}
