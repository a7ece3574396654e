/** Whole runs of cross-shard delivery to one shard: the beacon confirms blocks, the pool receives and sorts them, and the
    shard takes them over in blocks that its members have checked. */
module DeliveryRuns {
  import opened Blocks
  import opened Lists
  import opened NextHeights
  import opened CrossShardPool
  import opened CrossShardOrder
  import opened CrossShardBlocks
  import Shard

  /** The receiving shard, its committee size, the two checks of a cross-shard block - its members' signature and the Merkle
      path of its content - and the hash of a cross transaction. */
  datatype Receiver = Receiver(
    shardID: nat,
    size: nat,
    signed: CrossShardBlock -> bool,
    bound: CrossShardBlock -> bool,
    hash: CrossTransaction -> nat)

  /** The pool admits on the signature alone; the producer and the verifier check the content as well. */
  function Verifies(r: Receiver): CrossShardBlock -> bool
  {
    b => r.signed(b) && r.bound(b)
  }

  /** `approved` are the blocks that passed the check before signing on the current best state. `accepted` and `consumed` are
      history: every block entry the beacon confirmed and every transaction the shard took over. */
  datatype Net = Net(
    table: Table,
    accepted: map<nat, seq<ShardEntry>>,
    lane: nat -> Lane,
    known: map<nat, nat>,
    shard: Shard.ShardState,
    approved: set<ShardBlock>,
    consumed: map<nat, seq<CrossTransaction>>)

  datatype Event =
    | Confirm(fromShard: nat, entries: seq<ShardEntry>)
    | UpdatePool
    | RemoveOld
    | Receive(blk: CrossShardBlock)
    | PreSign(block: ShardBlock, beaconBlocks: seq<BeaconBlock>)
    | InsertBlock(block: ShardBlock, beaconBlocks: seq<BeaconBlock>, shared: bool)

  function Confirmed(net: Net, f: nat, r: Receiver): seq<nat>
  {
    HeightsFor(At(net.accepted, f), f, r.shardID)
  }

  function Best(net: Net, f: nat): nat
  {
    NumberAt(net.shard.bestCrossShard, f)
  }

  ghost predicate Verified(net: Net, r: Receiver, crossTransactions: map<nat, seq<CrossTransaction>>)
  {
    forall f | f in crossTransactions ::
      ShardAccepted(net.table.next, f, r.shardID, net.lane(f).valid, Best(net, f), crossTransactions[f], Verifies(r), r.hash)
  }

  /** Before signing, the body is checked against the pool and the update is tried on a copy of the best state. The block is
      inserted later, at a best state that has not moved on meanwhile; pool and beacon may have. */
  ghost predicate May(net: Net, r: Receiver, e: Event)
  {
    match e
    case Confirm(f, entries) => InOrder(At(net.accepted, f) + entries)
    case UpdatePool => true
    case RemoveOld => true
    case Receive(blk) => true
    case PreSign(block, beaconBlocks) =>
      && block.height == net.shard.shardHeight + 1
      && Verified(net, r, block.crossTransactions)
      && Shard.Updated(net.shard, r.size, r.shardID, block, beaconBlocks).status == Running
    case InsertBlock(block, beaconBlocks, shared) =>
      && block.height == net.shard.shardHeight + 1
      && block in net.approved
      && Shard.Updated(net.shard, r.size, r.shardID, block, beaconBlocks).status == Running
  }

  function RefreshedLanes(net: Net, r: Receiver, lane: nat -> Lane): nat -> Lane
  {
    (s: nat) => Refreshed(lane(s), net.table.next, s, r.shardID, Best(net, s))
  }

  function AdmittedLanes(net: Net, blk: CrossShardBlock): nat -> Lane
  {
    (s: nat) => Admitted(net.lane(s), s, blk)
  }

  function TrimmedLanes(net: Net): nat -> Lane
  {
    (s: nat) => Trim(net.lane(s), Best(net, s))
  }

  function Refresh(net: Net, r: Receiver, lane: nat -> Lane): Net
  {
    net.(lane := RefreshedLanes(net, r, lane), known := net.shard.bestCrossShard)
  }

  function Receiving(net: Net, r: Receiver, blk: CrossShardBlock): Net
  {
    if Judged(net.lane(blk.shardID), r.shardID, NumberAt(net.known, blk.shardID), r.signed(blk), blk) == Accepted
    then Refresh(net, r, AdmittedLanes(net, blk))
    else net
  }

  function TakenOver(consumed: map<nat, seq<CrossTransaction>>, more: map<nat, seq<CrossTransaction>>): map<nat, seq<CrossTransaction>>
  {
    map f | f in consumed.Keys + more.Keys :: At(consumed, f) + At(more, f)
  }

  function AfterConfirm(net: Net, f: nat, entries: seq<ShardEntry>): Net
  {
    net.(table := StoreEntries(net.table, f, entries), accepted := Accept(net.accepted, f, entries))
  }

  function AfterInsert(net: Net, shard: Shard.ShardState, crossTransactions: map<nat, seq<CrossTransaction>>, shared: bool): Net
  {
    net.(
      shard := shard,
      known := if shared then shard.bestCrossShard else net.known,
      approved := {},
      consumed := TakenOver(net.consumed, crossTransactions))
  }

  /** `shared`: the pool reads the very map that the best state updates, once it has fetched it. */
  function Next(net: Net, r: Receiver, e: Event): Net
  {
    match e
    case Confirm(f, entries) => AfterConfirm(net, f, entries)
    case UpdatePool => Refresh(net, r, net.lane)
    case RemoveOld => net.(lane := TrimmedLanes(net))
    case Receive(blk) => Receiving(net, r, blk)
    case PreSign(block, beaconBlocks) => net.(approved := net.approved + {block})
    case InsertBlock(block, beaconBlocks, shared) =>
      AfterInsert(net, Shard.Updated(net.shard, r.size, r.shardID, block, beaconBlocks).st, block.crossTransactions, shared)
  }

  ghost predicate Run(r: Receiver, states: seq<Net>, events: seq<Event>)
  {
    && |states| == |events| + 1
    && forall i | 0 <= i < |events| :: May(states[i], r, events[i]) && states[i + 1] == Next(states[i], r, events[i])
  }

  ghost predicate Initial(net: Net)
  {
    && net.table == Table(map[], map[]) && net.accepted == map[]
    && (forall s: nat :: net.lane(s) == Lane([], []))
    && net.shard.bestCrossShard == map[] && net.approved == {} && net.consumed == map[]
  }

  // ---------- In order, exactly once ----------

  /** What was taken over from `f` is a prefix of what the beacon confirmed for the pair, and the best height is its last. */
  ghost predicate Delivered(net: Net, r: Receiver, f: nat)
  {
    && TxHeights(At(net.consumed, f)) <= Confirmed(net, f, r)
    && Best(net, f) == Last(TxHeights(At(net.consumed, f)))
  }

  ghost predicate Genuine(r: Receiver, f: nat, txs: seq<CrossTransaction>)
  {
    forall tx | tx in txs :: FromBlock(r, f, tx)
  }

  ghost predicate FromBlock(r: Receiver, f: nat, tx: CrossTransaction)
  {
    exists b: CrossShardBlock :: b.shardID == f && b.toShardID == r.shardID && Verifies(r)(b) && SaysAs(tx, b, r.hash)
  }

  /** Blocks of one sender, addressed to the receiver and signed. */
  ghost predicate SignedBy(r: Receiver, f: nat, blks: seq<CrossShardBlock>)
  {
    forall b | b in blks :: b.shardID == f && b.toShardID == r.shardID && r.signed(b)
  }

  ghost predicate LaneSigned(r: Receiver, f: nat, lane: Lane)
  {
    SignedBy(r, f, lane.valid) && SignedBy(r, f, lane.pending)
  }

  /** An approved body would still pass the check now, and lists no sender without transactions. */
  ghost predicate ApprovedPass(net: Net, r: Receiver)
  {
    forall block | block in net.approved :: Passes(net, r, block.crossTransactions)
  }

  ghost predicate Passes(net: Net, r: Receiver, crossTransactions: map<nat, seq<CrossTransaction>>)
  {
    Verified(net, r, crossTransactions) && forall f | f in crossTransactions :: crossTransactions[f] != []
  }

  ghost predicate DeliveryInv(net: Net, r: Receiver)
  {
    Flow(net, r) && ApprovedPass(net, r)
  }

  ghost predicate Flow(net: Net, r: Receiver)
  {
    && Exact(net.table, net.accepted) && AllInOrder(net.accepted)
    && (forall f: nat :: Delivered(net, r, f))
    && (forall f: nat :: Genuine(r, f, At(net.consumed, f)))
    && (forall f: nat :: Ordered(net.lane(f)))
    && (forall f: nat :: LaneSigned(r, f, net.lane(f)))
    && (net.shard.shardHeight == 0 ==> net.shard.bestCrossShard == map[])
  }

  lemma ChainFacts(net: Net, r: Receiver, f: nat)
    requires Exact(net.table, net.accepted) && AllInOrder(net.accepted)
    ensures Ascending(Confirmed(net, f, r)) && Records(net.table.next, f, r.shardID, Confirmed(net, f, r))
    ensures Delivered(net, r, f) ==> OnChain(Confirmed(net, f, r), Best(net, f))
  {
    HeightsAreEntries(At(net.accepted, f), f, r.shardID);
    assert Follows(net.table, f, r.shardID, HeightsFor(At(net.accepted, f), f, r.shardID));
    if Delivered(net, r, f) && TxHeights(At(net.consumed, f)) != [] {
      var run := TxHeights(At(net.consumed, f));
      assert Confirmed(net, f, r)[|run| - 1] == Best(net, f);
    }
  }

  lemma ConfirmExtends(net: Net, r: Receiver, f: nat, entries: seq<ShardEntry>, g: nat)
    ensures var net' := AfterConfirm(net, f, entries);
      Confirmed(net', g, r) == Confirmed(net, g, r) + if g == f then HeightsFor(entries, f, r.shardID) else []
  {
    if g == f {
      HeightsAppend(At(net.accepted, f), entries, f, r.shardID);
    } else {
      NothingBehind(Confirmed(net, g, r));
    }
  }

  lemma NothingBehind<T>(items: seq<T>)
    ensures items + [] == items
  {
  }

  lemma ConfirmKeeps(net: Net, r: Receiver, f: nat, entries: seq<ShardEntry>)
    requires Flow(net, r) && May(net, r, Confirm(f, entries))
    ensures Flow(Next(net, r, Confirm(f, entries)), r)
  {
    StoreKeepsExact(net.table, net.accepted, f, entries);
    var net' := Next(net, r, Confirm(f, entries));
    forall g: nat ensures Delivered(net', r, g) {
      assert Delivered(net, r, g);
      ConfirmExtends(net, r, f, entries, g);
    }
    assert forall g: nat :: net'.lane(g) == net.lane(g);
    assert forall g: nat :: Genuine(r, g, At(net.consumed, g));
  }

  lemma PoolKeeps(net: Net, r: Receiver, e: Event)
    requires Flow(net, r) && (e.UpdatePool? || e.RemoveOld? || e.Receive?)
    ensures Flow(Next(net, r, e), r)
  {
    var net' := Next(net, r, e);
    RecordsForward(net.table, net.accepted);
    forall g: nat ensures Ordered(net'.lane(g)) && LaneSigned(r, g, net'.lane(g)) {
      assert LaneSigned(r, g, net.lane(g));
      LaneKeepsOrder(net, r, e, g);
      LaneKeepsSigned(net, r, e, g);
    }
    assert net' == net.(lane := net'.lane, known := net'.known);
    forall g: nat ensures Delivered(net', r, g) && Genuine(r, g, At(net'.consumed, g)) {
      assert Delivered(net, r, g) && Genuine(r, g, At(net.consumed, g));
    }
  }

  lemma LaneKeepsOrder(net: Net, r: Receiver, e: Event, g: nat)
    requires Ordered(net.lane(g)) && Forward(net.table.next) && (e.UpdatePool? || e.RemoveOld? || e.Receive?)
    requires e.Receive? ==> Ordered(net.lane(e.blk.shardID))
    ensures Ordered(Next(net, r, e).lane(g))
  {
    var next, best := net.table.next, Best(net, g);
    match e
    case UpdatePool => RefreshKeepsOrder(net.lane(g), next, g, r.shardID, best);
    case RemoveOld => TrimKeepsOrder(net.lane(g), best);
    case Receive(blk) =>
      if Judged(net.lane(blk.shardID), r.shardID, NumberAt(net.known, blk.shardID), r.signed(blk), blk) == Accepted {
        if g == blk.shardID {
          AdmitKeepsOrder(net.lane(g), g, blk, r.shardID, NumberAt(net.known, g), r.signed(blk));
        }
        RefreshKeepsOrder(Admitted(net.lane(g), g, blk), next, g, r.shardID, best);
      }
  }

  lemma RefreshedBlocks(lane: Lane, next: map<Link, nat>, f: nat, t: nat, best: nat, b: CrossShardBlock)
    requires Ordered(lane)
    requires var lane' := Refreshed(lane, next, f, t, best); b in lane'.valid || b in lane'.pending
    ensures b in lane.valid || b in lane.pending
  {
    DropUpToMember(lane.valid, best, b);
    DropUpToMember(lane.pending, best, b);
  }

  lemma RefreshKeepsSigned(r: Receiver, lane: Lane, next: map<Link, nat>, f: nat, best: nat)
    requires Ordered(lane) && LaneSigned(r, f, lane)
    ensures LaneSigned(r, f, Refreshed(lane, next, f, r.shardID, best))
  {
    var lane' := Refreshed(lane, next, f, r.shardID, best);
    forall b | b in lane'.valid || b in lane'.pending ensures b.shardID == f && b.toShardID == r.shardID && r.signed(b) {
      RefreshedBlocks(lane, next, f, r.shardID, best, b);
    }
  }

  lemma TrimKeepsSigned(r: Receiver, lane: Lane, f: nat, best: nat)
    requires Ordered(lane) && LaneSigned(r, f, lane)
    ensures LaneSigned(r, f, Trim(lane, best))
  {
    forall b ensures b in Trim(lane, best).valid ==> b in lane.valid { DropUpToMember(lane.valid, best, b); }
    forall b ensures b in Trim(lane, best).pending ==> b in lane.pending { DropUpToMember(lane.pending, best, b); }
  }

  lemma LaneKeepsSigned(net: Net, r: Receiver, e: Event, g: nat)
    requires Ordered(net.lane(g)) && LaneSigned(r, g, net.lane(g)) && (e.UpdatePool? || e.RemoveOld? || e.Receive?)
    ensures LaneSigned(r, g, Next(net, r, e).lane(g))
  {
    var next, best := net.table.next, Best(net, g);
    match e
    case UpdatePool => RefreshKeepsSigned(r, net.lane(g), next, g, best);
    case RemoveOld => TrimKeepsSigned(r, net.lane(g), g, best);
    case Receive(blk) =>
      if Judged(net.lane(blk.shardID), r.shardID, NumberAt(net.known, blk.shardID), r.signed(blk), blk) == Accepted {
        var lane := Admitted(net.lane(g), g, blk);
        if g == blk.shardID {
          AdmitKeepsOrder(net.lane(g), g, blk, r.shardID, NumberAt(net.known, g), r.signed(blk));
        }
        RefreshKeepsSigned(r, lane, next, g, best);
      }
  }

  /** What the verifier accepted for one shard continues what was taken over from it, and comes from verifying blocks of it. */
  lemma AcceptedContinues(net: Net, r: Receiver, f: nat, txs: seq<CrossTransaction>)
    requires Exact(net.table, net.accepted) && AllInOrder(net.accepted) && Delivered(net, r, f) && Ordered(net.lane(f))
    requires SignedBy(r, f, net.lane(f).valid)
    requires ShardAccepted(net.table.next, f, r.shardID, net.lane(f).valid, Best(net, f), txs, Verifies(r), r.hash)
    ensures ChainRun(Confirmed(net, f, r), Best(net, f), TxHeights(txs))
    ensures TxHeights(At(net.consumed, f) + txs) <= Confirmed(net, f, r)
    ensures Genuine(r, f, txs)
  {
    var heights := Confirmed(net, f, r);
    var valid := net.lane(f).valid;
    ChainFacts(net, r, f);
    AcceptedIsBacked(net.table.next, f, r, heights, valid, Best(net, f), txs);
    Continues(heights, At(net.consumed, f), Best(net, f), txs);
  }

  lemma Continues(heights: seq<nat>, consumed: seq<CrossTransaction>, best: nat, txs: seq<CrossTransaction>)
    requires Ascending(heights) && TxHeights(consumed) <= heights && best == Last(TxHeights(consumed))
    requires ChainRun(heights, best, TxHeights(txs))
    ensures TxHeights(consumed + txs) <= heights
  {
    var run := TxHeights(consumed);
    RunIsPrefix(heights, |run|, TxHeights(txs));
    PrefixJoins(heights, run, TxHeights(txs));
    assert TxHeights(consumed + txs) == run + TxHeights(txs);
  }

  lemma AcceptedIsBacked(next: map<Link, nat>, f: nat, r: Receiver, heights: seq<nat>, valid: seq<CrossShardBlock>, best: nat,
                         txs: seq<CrossTransaction>)
    requires Ascending(heights) && Records(next, f, r.shardID, heights) && OnChain(heights, best) && Sorted(valid)
    requires SignedBy(r, f, valid) && ShardAccepted(next, f, r.shardID, valid, best, txs, Verifies(r), r.hash)
    ensures ChainRun(heights, best, TxHeights(txs)) && Genuine(r, f, txs)
  {
    LimitedToLast(valid);
    SortedIsFixed(valid);
    VerifierAccepts(next, f, r.shardID, heights, valid, best, txs, Verifies(r), r.hash);
    forall tx | tx in txs ensures FromBlock(r, f, tx) {
      assert Backed(valid, tx, Verifies(r), r.hash);
    }
  }

  lemma PrefixJoins(all: seq<nat>, a: seq<nat>, b: seq<nat>)
    requires a <= all && b <= all[|a|..]
    ensures a + b <= all
  {
  }

  function Swaps(net: Net, r: Receiver, block: ShardBlock, beaconBlocks: seq<BeaconBlock>): Status
  {
    Shard.SwapAll(Shard.Begun(net.shard, r.shardID, block, beaconBlocks), r.size, block.instructions).status
  }

  ghost predicate Panics(net: Net, r: Receiver, block: ShardBlock, beaconBlocks: seq<BeaconBlock>)
  {
    Shard.Updated(net.shard, r.size, r.shardID, block, beaconBlocks).status == Panicked
  }

  ghost predicate PassesAndPanics(net: Net, r: Receiver, block: ShardBlock, beaconBlocks: seq<BeaconBlock>)
  {
    Verified(net, r, block.crossTransactions) && Panics(net, r, block, beaconBlocks)
  }

  /** For every block whose swaps run: the update panics exactly when a listed sender has no transactions. The check lets such a
      sender through exactly when the pool has a valid block of it, so the block can be given cross transactions that pass the
      check and make the update panic exactly when the pool's valid lists are not all empty. */
  lemma AcceptedBodyPanics(net: Net, r: Receiver, block: ShardBlock, beaconBlocks: seq<BeaconBlock>)
    requires (forall f: nat :: Ordered(net.lane(f))) && Swaps(net, r, block, beaconBlocks) == Running
    ensures Panics(net, r, block, beaconBlocks) <==> exists f | f in block.crossTransactions :: block.crossTransactions[f] == []
    ensures forall f: nat :: Verified(net, r, map[f := []]) <==> net.lane(f).valid != []
    ensures (exists txs :: PassesAndPanics(net, r, block.(crossTransactions := txs), beaconBlocks)) <==>
      exists f: nat :: net.lane(f).valid != []
  {
    forall f: nat ensures Verified(net, r, map[f := []]) <==> net.lane(f).valid != [] {
      EmptyListAlone(net, r, f);
    }
    forall f: nat | net.lane(f).valid != []
      ensures exists txs :: PassesAndPanics(net, r, block.(crossTransactions := txs), beaconBlocks)
    {
      EmptyListPanics(net, r, f, block, beaconBlocks);
    }
    forall txs | PassesAndPanics(net, r, block.(crossTransactions := txs), beaconBlocks)
      ensures exists f: nat :: net.lane(f).valid != []
    {
      var f :| f in txs && txs[f] == [];
      EmptyListPasses(net.table.next, f, r.shardID, net.lane(f).valid, Best(net, f), Verifies(r), r.hash);
    }
  }

  lemma EmptyListAlone(net: Net, r: Receiver, f: nat)
    requires Ordered(net.lane(f))
    ensures Verified(net, r, map[f := []]) <==> net.lane(f).valid != []
  {
    var body: map<nat, seq<CrossTransaction>> := map[f := []];
    EmptyListPasses(net.table.next, f, r.shardID, net.lane(f).valid, Best(net, f), Verifies(r), r.hash);
    assert f in body && body[f] == [];
  }

  lemma EmptyListPanics(net: Net, r: Receiver, f: nat, block: ShardBlock, beaconBlocks: seq<BeaconBlock>)
    requires Ordered(net.lane(f)) && net.lane(f).valid != [] && Swaps(net, r, block, beaconBlocks) == Running
    ensures PassesAndPanics(net, r, block.(crossTransactions := map[f := []]), beaconBlocks)
  {
    EmptyListAlone(net, r, f);
    assert f in block.(crossTransactions := map[f := []]).crossTransactions;
  }

  lemma BestAfterInsert(net: Net, r: Receiver, block: ShardBlock, beaconBlocks: seq<BeaconBlock>)
    requires block.height == net.shard.shardHeight + 1
    requires Shard.Updated(net.shard, r.size, r.shardID, block, beaconBlocks).status == Running
    requires net.shard.shardHeight == 0 ==> net.shard.bestCrossShard == map[]
    ensures forall f | f in block.crossTransactions :: block.crossTransactions[f] != []
    ensures var o := Shard.Updated(net.shard, r.size, r.shardID, block, beaconBlocks);
      && o.st.bestCrossShard == net.shard.bestCrossShard + Shard.LastHeights(block.crossTransactions)
      && o.st.shardHeight == block.height
  {
    SwapsLeaveHeights(Shard.Begun(net.shard, r.shardID, block, beaconBlocks), r.size, block.instructions);
  }

  lemma {:induction false} SwapsLeaveHeights(st: Shard.ShardState, size: nat, ls: seq<Instruction>)
    ensures Shard.SwapAll(st, size, ls).st.bestCrossShard == st.bestCrossShard
    ensures Shard.SwapAll(st, size, ls).st.shardHeight == st.shardHeight
    decreases |ls|
  {
    if ls != [] {
      var o := match ls[0]
        case SwapShard(incoming, outgoing, _) => Shard.Rotated(st, size, incoming, outgoing)
        case SwapBeacon(incoming, outgoing) => Shard.Rotated(st, size, incoming, outgoing)
        case _ => Shard.Outcome(st, Running);
      SwapsLeaveHeights(o.st, size, ls[1..]);
    }
  }

  lemma TakenAt(net: Net, shard: Shard.ShardState, cross: map<nat, seq<CrossTransaction>>, shared: bool, f: nat)
    requires forall g | g in cross :: cross[g] != []
    requires shard.bestCrossShard == net.shard.bestCrossShard + Shard.LastHeights(cross)
    ensures var net' := AfterInsert(net, shard, cross, shared);
      && At(net'.consumed, f) == At(net.consumed, f) + At(cross, f)
      && Best(net', f) == if At(cross, f) == [] then Best(net, f) else Last(TxHeights(At(cross, f)))
  {
    if f !in cross {
      assert At(net.consumed, f) + At(cross, f) == At(net.consumed, f);
    }
  }

  /** Taking over an accepted list, or none, from one sender. */
  lemma ContinuesDelivered(net: Net, net': Net, r: Receiver, f: nat, more: seq<CrossTransaction>)
    requires Exact(net.table, net.accepted) && AllInOrder(net.accepted)
    requires Delivered(net, r, f) && Ordered(net.lane(f)) && Genuine(r, f, At(net.consumed, f))
    requires SignedBy(r, f, net.lane(f).valid)
    requires more != [] ==>
      ShardAccepted(net.table.next, f, r.shardID, net.lane(f).valid, Best(net, f), more, Verifies(r), r.hash)
    requires net'.accepted == net.accepted && At(net'.consumed, f) == At(net.consumed, f) + more
    requires Best(net', f) == if more == [] then Best(net, f) else Last(TxHeights(more))
    ensures Delivered(net', r, f) && Genuine(r, f, At(net'.consumed, f)) && Best(net, f) <= Best(net', f)
    ensures OnChain(Confirmed(net, f, r), Best(net', f))
  {
    ChainFacts(net, r, f);
    if more != [] {
      AcceptedContinues(net, r, f, more);
      RunEnds(Confirmed(net, f, r), Best(net, f), At(net.consumed, f), more);
    } else {
      NothingBehind(At(net.consumed, f));
    }
  }

  lemma RunEnds(heights: seq<nat>, best: nat, consumed: seq<CrossTransaction>, more: seq<CrossTransaction>)
    requires Ascending(heights) && ChainRun(heights, best, TxHeights(more)) && more != []
    ensures Last(TxHeights(consumed + more)) == Last(TxHeights(more))
    ensures best <= Last(TxHeights(more)) && OnChain(heights, Last(TxHeights(more)))
  {
    var run := TxHeights(more);
    RunHoldsAll(heights, best, run);
    assert run[|run| - 1] in run;
  }

  lemma ApprovedAt(net: Net, r: Receiver, block: ShardBlock, f: nat)
    requires ApprovedPass(net, r) && block in net.approved
    ensures f in block.crossTransactions ==>
      ShardAccepted(net.table.next, f, r.shardID, net.lane(f).valid, Best(net, f), block.crossTransactions[f], Verifies(r), r.hash)
  {
    assert Passes(net, r, block.crossTransactions);
  }

  lemma InsertDelivers(net: Net, r: Receiver, block: ShardBlock, beaconBlocks: seq<BeaconBlock>, shared: bool, f: nat)
    requires DeliveryInv(net, r) && May(net, r, InsertBlock(block, beaconBlocks, shared))
    ensures var net' := Next(net, r, InsertBlock(block, beaconBlocks, shared));
      Delivered(net', r, f) && Genuine(r, f, At(net'.consumed, f)) && Best(net, f) <= Best(net', f)
      && OnChain(Confirmed(net, f, r), Best(net', f))
  {
    BestAfterInsert(net, r, block, beaconBlocks);
    ApprovedAt(net, r, block, f);
    var shard := Shard.Updated(net.shard, r.size, r.shardID, block, beaconBlocks).st;
    TakenAt(net, shard, block.crossTransactions, shared, f);
    assert Delivered(net, r, f) && Genuine(r, f, At(net.consumed, f)) && Ordered(net.lane(f)) && LaneSigned(r, f, net.lane(f));
    var net' := AfterInsert(net, shard, block.crossTransactions, shared);
    ContinuesDelivered(net, net', r, f, At(block.crossTransactions, f));
  }

  lemma InsertKeeps(net: Net, r: Receiver, block: ShardBlock, beaconBlocks: seq<BeaconBlock>, shared: bool)
    requires DeliveryInv(net, r) && May(net, r, InsertBlock(block, beaconBlocks, shared))
    ensures Flow(Next(net, r, InsertBlock(block, beaconBlocks, shared)), r)
  {
    var net' := Next(net, r, InsertBlock(block, beaconBlocks, shared));
    BestAfterInsert(net, r, block, beaconBlocks);
    forall f: nat ensures Delivered(net', r, f) && Genuine(r, f, At(net'.consumed, f)) {
      InsertDelivers(net, r, block, beaconBlocks, shared, f);
    }
    assert forall g: nat :: net'.lane(g) == net.lane(g);
  }

  // ---------- Between the check and the insertion ----------

  lemma AcceptedMeans(net: Net, r: Receiver, f: nat, txs: seq<CrossTransaction>)
    requires Exact(net.table, net.accepted) && AllInOrder(net.accepted) && Delivered(net, r, f) && Ordered(net.lane(f))
    requires txs != []
    ensures ShardAccepted(net.table.next, f, r.shardID, net.lane(f).valid, Best(net, f), txs, Verifies(r), r.hash) <==>
      (ChainRun(Confirmed(net, f, r), Best(net, f), TxHeights(txs)) && AllBacked(net.lane(f).valid, txs, r))
  {
    var valid := net.lane(f).valid;
    ChainFacts(net, r, f);
    LimitedToLast(valid);
    SortedIsFixed(valid);
    VerifierAccepts(net.table.next, f, r.shardID, Confirmed(net, f, r), valid, Best(net, f), txs, Verifies(r), r.hash);
    assert txs[0] in txs;
  }

  ghost predicate AllBacked(valid: seq<CrossShardBlock>, txs: seq<CrossTransaction>, r: Receiver)
  {
    forall tx | tx in txs :: Backed(valid, tx, Verifies(r), r.hash)
  }

  /** The pool gives up valid blocks only at consumed heights. */
  lemma NewBlocksStay(net: Net, r: Receiver, e: Event, f: nat, b: CrossShardBlock)
    requires Ordered(net.lane(f)) && (e.UpdatePool? || e.RemoveOld? || e.Receive?)
    requires b in net.lane(f).valid && Best(net, f) < b.height
    ensures b in Next(net, r, e).lane(f).valid
  {
    var best := Best(net, f);
    match e
    case UpdatePool => RefreshKeepsNew(net.lane(f), net.table.next, f, r.shardID, best, b);
    case RemoveOld => DropUpToMember(net.lane(f).valid, best, b);
    case Receive(blk) =>
      if Judged(net.lane(blk.shardID), r.shardID, NumberAt(net.known, blk.shardID), r.signed(blk), blk) == Accepted {
        RefreshKeepsNew(Admitted(net.lane(f), f, blk), net.table.next, f, r.shardID, best, b);
      }
  }

  lemma RefreshKeepsNew(lane: Lane, next: map<Link, nat>, f: nat, t: nat, best: nat, b: CrossShardBlock)
    requires Sorted(lane.valid) && b in lane.valid && best < b.height
    ensures b in Refreshed(lane, next, f, t, best).valid
  {
    DropUpToMember(lane.valid, best, b);
  }

  lemma StillBacked(net: Net, r: Receiver, e: Event, f: nat, txs: seq<CrossTransaction>)
    requires Ordered(net.lane(f)) && (e.UpdatePool? || e.RemoveOld? || e.Receive?)
    requires AllBacked(net.lane(f).valid, txs, r) && forall tx | tx in txs :: Best(net, f) < tx.height
    ensures AllBacked(Next(net, r, e).lane(f).valid, txs, r)
  {
    forall tx | tx in txs ensures Backed(Next(net, r, e).lane(f).valid, tx, Verifies(r), r.hash) {
      assert Backed(net.lane(f).valid, tx, Verifies(r), r.hash);
      var b :| b in net.lane(f).valid && Verifies(r)(b) && SaysAs(tx, b, r.hash);
      NewBlocksStay(net, r, e, f, b);
    }
  }

  lemma RunIsNew(heights: seq<nat>, best: nat, txs: seq<CrossTransaction>)
    requires Ascending(heights) && ChainRun(heights, best, TxHeights(txs))
    ensures forall tx | tx in txs :: best < tx.height
  {
    RunAscends(heights, best, TxHeights(txs));
    forall tx | tx in txs ensures best < tx.height {
      var i :| 0 <= i < |txs| && txs[i] == tx;
      assert TxHeights(txs)[i] == tx.height;
    }
  }

  /** What the check accepts it still accepts after any step of pool or beacon. */
  lemma AcceptanceSurvives(net: Net, r: Receiver, e: Event, f: nat, txs: seq<CrossTransaction>)
    requires Flow(net, r) && May(net, r, e) && !e.InsertBlock? && Flow(Next(net, r, e), r) && txs != []
    requires ShardAccepted(net.table.next, f, r.shardID, net.lane(f).valid, Best(net, f), txs, Verifies(r), r.hash)
    ensures var net' := Next(net, r, e);
      ShardAccepted(net'.table.next, f, r.shardID, net'.lane(f).valid, Best(net', f), txs, Verifies(r), r.hash)
  {
    var net' := Next(net, r, e);
    assert Delivered(net, r, f) && Ordered(net.lane(f)) && Delivered(net', r, f) && Ordered(net'.lane(f));
    AcceptedMeans(net, r, f, txs);
    AcceptedMeans(net', r, f, txs);
    GroundsSurvive(net, r, e, f, txs);
  }

  lemma GroundsSurvive(net: Net, r: Receiver, e: Event, f: nat, txs: seq<CrossTransaction>)
    requires Flow(net, r) && !e.InsertBlock? && Flow(Next(net, r, e), r)
    requires ChainRun(Confirmed(net, f, r), Best(net, f), TxHeights(txs)) && AllBacked(net.lane(f).valid, txs, r)
    ensures var net' := Next(net, r, e);
      ChainRun(Confirmed(net', f, r), Best(net', f), TxHeights(txs)) && AllBacked(net'.lane(f).valid, txs, r)
  {
    assert Ordered(net.lane(f));
    ChainFacts(net, r, f);
    RunIsNew(Confirmed(net, f, r), Best(net, f), txs);
    match e
    case Confirm(g, entries) => RunStaysOnChain(net, r, g, entries, f, TxHeights(txs));
    case PreSign(_, _) =>
    case UpdatePool => StillBacked(net, r, e, f, txs);
    case RemoveOld => StillBacked(net, r, e, f, txs);
    case Receive(_) => StillBacked(net, r, e, f, txs);
  }

  lemma RunStaysOnChain(net: Net, r: Receiver, g: nat, entries: seq<ShardEntry>, f: nat, run: seq<nat>)
    requires Flow(AfterConfirm(net, g, entries), r) && ChainRun(Confirmed(net, f, r), Best(net, f), run)
    ensures ChainRun(Confirmed(AfterConfirm(net, g, entries), f, r), Best(net, f), run)
  {
    ConfirmExtends(net, r, g, entries, f);
    ChainFacts(AfterConfirm(net, g, entries), r, f);
    RunSurvives(Confirmed(net, f, r), if f == g then HeightsFor(entries, g, r.shardID) else [], Best(net, f), run);
  }

  lemma PassingSurvives(net: Net, r: Receiver, e: Event, body: map<nat, seq<CrossTransaction>>)
    requires Flow(net, r) && May(net, r, e) && !e.InsertBlock? && Flow(Next(net, r, e), r) && Passes(net, r, body)
    ensures Passes(Next(net, r, e), r, body)
  {
    var net' := Next(net, r, e);
    forall f | f in body
      ensures ShardAccepted(net'.table.next, f, r.shardID, net'.lane(f).valid, Best(net', f), body[f], Verifies(r), r.hash)
    {
      AcceptanceSurvives(net, r, e, f, body[f]);
    }
  }

  lemma StepKeepsFlow(net: Net, r: Receiver, e: Event)
    requires DeliveryInv(net, r) && May(net, r, e)
    ensures Flow(Next(net, r, e), r)
  {
    match e
    case Confirm(f, entries) => ConfirmKeeps(net, r, f, entries);
    case InsertBlock(block, beaconBlocks, shared) => InsertKeeps(net, r, block, beaconBlocks, shared);
    case PreSign(_, _) => PreSignKeeps(net, r, e);
    case UpdatePool => PoolKeeps(net, r, e);
    case RemoveOld => PoolKeeps(net, r, e);
    case Receive(_) => PoolKeeps(net, r, e);
  }

  lemma PreSignKeeps(net: Net, r: Receiver, e: Event)
    requires Flow(net, r) && e.PreSign?
    ensures Flow(Next(net, r, e), r)
  {
    var net' := Next(net, r, e);
    forall g: nat ensures Delivered(net', r, g) && Genuine(r, g, At(net'.consumed, g)) && Ordered(net'.lane(g)) && LaneSigned(r, g, net'.lane(g)) {
      assert Delivered(net, r, g) && Genuine(r, g, At(net.consumed, g)) && Ordered(net.lane(g)) && LaneSigned(r, g, net.lane(g));
    }
  }

  /** So an approved block can be inserted later as if it were checked then. */
  lemma StepKeepsApproved(net: Net, r: Receiver, e: Event)
    requires DeliveryInv(net, r) && May(net, r, e) && Flow(Next(net, r, e), r)
    ensures ApprovedPass(Next(net, r, e), r)
  {
    if !e.InsertBlock? {
      if e.PreSign? { PreSignPasses(net, r, e.block, e.beaconBlocks); }
      forall block | block in Next(net, r, e).approved ensures Passes(Next(net, r, e), r, block.crossTransactions) {
        assert Passes(net, r, block.crossTransactions);
        PassingSurvives(net, r, e, block.crossTransactions);
      }
    }
  }

  lemma PreSignPasses(net: Net, r: Receiver, block: ShardBlock, beaconBlocks: seq<BeaconBlock>)
    requires May(net, r, PreSign(block, beaconBlocks)) && Flow(net, r)
    ensures Passes(net, r, block.crossTransactions)
  {
    BestAfterInsert(net, r, block, beaconBlocks);
  }

  lemma StepKeepsDelivery(net: Net, r: Receiver, e: Event)
    requires DeliveryInv(net, r) && May(net, r, e)
    ensures DeliveryInv(Next(net, r, e), r)
  {
    StepKeepsFlow(net, r, e);
    StepKeepsApproved(net, r, e);
  }

  /** In every state of every run, whatever blocks the pool is offered, the heights taken over from each shard are a prefix of
      the heights the beacon confirmed for the pair - in order, none skipped, none twice - and each comes from a block of that shard whose signature and content verify. */
  lemma {:induction false} DeliveredInOrder(r: Receiver, states: seq<Net>, events: seq<Event>)
    requires Run(r, states, events) && Initial(states[0])
    ensures forall i | 0 <= i < |states| :: DeliveryInv(states[i], r)
    decreases |events|
  {
    if events == [] {
      InitialDelivers(states[0], r);
    } else {
      var n := |events|;
      var before, past := states[..n], events[..n - 1];
      forall i | 0 <= i < |past|
        ensures May(before[i], r, past[i]) && before[i + 1] == Next(before[i], r, past[i])
      {
        assert May(states[i], r, events[i]) && states[i + 1] == Next(states[i], r, events[i]);
      }
      DeliveredInOrder(r, before, past);
      var last := n - 1;
      assert May(states[last], r, events[last]) && states[last + 1] == Next(states[last], r, events[last]);
      assert DeliveryInv(before[last], r);
      StepKeepsDelivery(states[last], r, events[last]);
      forall i | 0 <= i < |states| ensures DeliveryInv(states[i], r) {
        if i < n { assert DeliveryInv(before[i], r); }
      }
    }
  }

  lemma InitialDelivers(net: Net, r: Receiver)
    requires Initial(net)
    ensures DeliveryInv(net, r)
  {
    assert forall f: nat :: Delivered(net, r, f);
  }

  // ---------- No gaps when every offered block is confirmed sooner or later ----------

  /** `full(f)` is the list that the beacon will have confirmed for sender `f` in the end. */
  ghost predicate Foreseen(net: Net, r: Receiver, full: nat -> seq<nat>)
  {
    forall f: nat :: Ascending(full(f)) && Confirmed(net, f, r) <= full(f)
  }

  ghost predicate Offered(e: Event, full: nat -> seq<nat>)
  {
    e.Receive? ==> e.blk.height in full(e.blk.shardID)
  }

  /** The valid list is a gap-free run, possibly still holding blocks that were just consumed. */
  ghost predicate NoGap(net: Net, r: Receiver, full: nat -> seq<nat>, f: nat)
  {
    && Confirmable(full(f), net.lane(f).pending)
    && exists base: nat :: base <= Best(net, f) && GapFree(Confirmed(net, f, r), net.lane(f), base)
  }

  lemma RefreshLeavesNoGap(net: Net, r: Receiver, full: nat -> seq<nat>, f: nat, lane: Lane, base: nat)
    requires Exact(net.table, net.accepted) && AllInOrder(net.accepted) && Delivered(net, r, f)
    requires Ascending(full(f)) && Confirmed(net, f, r) <= full(f)
    requires Ordered(lane) && Confirmable(full(f), lane.pending)
    requires base <= Best(net, f) && GapFree(Confirmed(net, f, r), lane, base)
    ensures var lane' := Refreshed(lane, net.table.next, f, r.shardID, Best(net, f));
      Confirmable(full(f), lane'.pending) && GapFree(Confirmed(net, f, r), lane', Best(net, f))
  {
    ChainFacts(net, r, f);
    RefreshKeepsGapFree(net.table.next, f, r.shardID, Confirmed(net, f, r), full(f), lane, base, Best(net, f));
  }

  lemma ConfirmLeavesNoGap(net: Net, r: Receiver, full: nat -> seq<nat>, f: nat, g: nat, entries: seq<ShardEntry>)
    requires DeliveryInv(net, r) && NoGap(net, r, full, g)
    requires Foreseen(Next(net, r, Confirm(f, entries)), r, full)
    ensures NoGap(Next(net, r, Confirm(f, entries)), r, full, g)
  {
    var net' := Next(net, r, Confirm(f, entries));
    ConfirmExtends(net, r, f, entries, g);
    var base: nat :| base <= Best(net, g) && GapFree(Confirmed(net, g, r), net.lane(g), base);
    var more := if g == f then HeightsFor(entries, f, r.shardID) else [];
    assert Ascending(full(g)) && Confirmed(net', g, r) <= full(g);
    PrefixAscends(Confirmed(net, g, r) + more, full(g));
    RunSurvives(Confirmed(net, g, r), more, base, Heights(net.lane(g).valid));
    assert GapFree(Confirmed(net', g, r), net'.lane(g), base);
  }

  lemma TrimLeavesNoGap(net: Net, r: Receiver, full: nat -> seq<nat>, f: nat)
    requires DeliveryInv(net, r) && NoGap(net, r, full, f)
    ensures NoGap(net.(lane := TrimmedLanes(net)), r, full, f)
  {
    var base: nat :| base <= Best(net, f) && GapFree(Confirmed(net, f, r), net.lane(f), base);
    assert Delivered(net, r, f) && Ordered(net.lane(f));
    ChainFacts(net, r, f);
    var lane := net.lane(f);
    RunTrimmed(Confirmed(net, f, r), base, lane.valid, Best(net, f));
    DropUpToDropsOld(lane.pending, Best(net, f));
    var net' := net.(lane := TrimmedLanes(net));
    assert Confirmed(net', f, r) == Confirmed(net, f, r) && Best(net', f) == Best(net, f);
    assert GapFree(Confirmed(net', f, r), net'.lane(f), Best(net, f));
  }

  lemma ReceiveLeavesNoGap(net: Net, r: Receiver, full: nat -> seq<nat>, blk: CrossShardBlock, f: nat)
    requires DeliveryInv(net, r) && NoGap(net, r, full, f) && Foreseen(net, r, full) && Offered(Receive(blk), full)
    ensures NoGap(Receiving(net, r, blk), r, full, f)
  {
    if Judged(net.lane(blk.shardID), r.shardID, NumberAt(net.known, blk.shardID), r.signed(blk), blk) == Accepted {
      AcceptedLeavesNoGap(net, r, full, blk, f);
    }
  }

  lemma AcceptedLeavesNoGap(net: Net, r: Receiver, full: nat -> seq<nat>, blk: CrossShardBlock, f: nat)
    requires DeliveryInv(net, r) && NoGap(net, r, full, f) && Foreseen(net, r, full) && Offered(Receive(blk), full)
    requires Judged(net.lane(blk.shardID), r.shardID, NumberAt(net.known, blk.shardID), r.signed(blk), blk) == Accepted
    ensures NoGap(Refresh(net, r, AdmittedLanes(net, blk)), r, full, f)
  {
    assert Ordered(net.lane(f)) && Ordered(net.lane(blk.shardID)) && Delivered(net, r, f);
    assert Ascending(full(f)) && Confirmed(net, f, r) <= full(f);
    AdmittedLeavesNoGap(net, r, full, blk, f);
    RefreshedNet(net, r, full, AdmittedLanes(net, blk), f);
  }

  lemma AdmittedLeavesNoGap(net: Net, r: Receiver, full: nat -> seq<nat>, blk: CrossShardBlock, f: nat)
    requires Exact(net.table, net.accepted) && AllInOrder(net.accepted) && Delivered(net, r, f) && NoGap(net, r, full, f)
    requires Ascending(full(f)) && Confirmed(net, f, r) <= full(f) && blk.height in full(blk.shardID)
    requires Ordered(net.lane(f)) && Ordered(net.lane(blk.shardID))
    requires Judged(net.lane(blk.shardID), r.shardID, NumberAt(net.known, blk.shardID), r.signed(blk), blk) == Accepted
    ensures var lane' := Refreshed(Admitted(net.lane(f), f, blk), net.table.next, f, r.shardID, Best(net, f));
      Confirmable(full(f), lane'.pending) && GapFree(Confirmed(net, f, r), lane', Best(net, f))
  {
    var base: nat :| base <= Best(net, f) && GapFree(Confirmed(net, f, r), net.lane(f), base);
    var lane := Admitted(net.lane(f), f, blk);
    AdmitKeepsOrder(net.lane(blk.shardID), f, blk, r.shardID, NumberAt(net.known, blk.shardID), r.signed(blk));
    RefreshLeavesNoGap(net, r, full, f, lane, base);
  }

  lemma RefreshedNet(net: Net, r: Receiver, full: nat -> seq<nat>, lane: nat -> Lane, f: nat)
    requires var lane' := Refreshed(lane(f), net.table.next, f, r.shardID, Best(net, f));
      Confirmable(full(f), lane'.pending) && GapFree(Confirmed(net, f, r), lane', Best(net, f))
    ensures NoGap(Refresh(net, r, lane), r, full, f)
  {
    var net' := Refresh(net, r, lane);
    assert Confirmed(net', f, r) == Confirmed(net, f, r) && Best(net', f) == Best(net, f);
    assert GapFree(Confirmed(net', f, r), net'.lane(f), Best(net, f));
  }

  lemma UpdateLeavesNoGap(net: Net, r: Receiver, full: nat -> seq<nat>, f: nat)
    requires DeliveryInv(net, r) && NoGap(net, r, full, f) && Foreseen(net, r, full)
    ensures NoGap(Refresh(net, r, net.lane), r, full, f)
  {
    var base: nat :| base <= Best(net, f) && GapFree(Confirmed(net, f, r), net.lane(f), base);
    assert Ordered(net.lane(f)) && Delivered(net, r, f);
    assert Ascending(full(f)) && Confirmed(net, f, r) <= full(f);
    RefreshLeavesNoGap(net, r, full, f, net.lane(f), base);
    RefreshedNet(net, r, full, net.lane, f);
  }

  lemma SameLanesNoGap(net: Net, net': Net, r: Receiver, full: nat -> seq<nat>, f: nat)
    requires NoGap(net, r, full, f) && net' == net.(approved := net'.approved)
    ensures NoGap(net', r, full, f)
  {
    var base: nat :| base <= Best(net, f) && GapFree(Confirmed(net, f, r), net.lane(f), base);
    assert base <= Best(net', f) && GapFree(Confirmed(net', f, r), net'.lane(f), base);
  }

  lemma StepLeavesNoGap(net: Net, r: Receiver, full: nat -> seq<nat>, e: Event, f: nat)
    requires DeliveryInv(net, r) && May(net, r, e) && Offered(e, full)
    requires Foreseen(net, r, full) && Foreseen(Next(net, r, e), r, full)
    requires NoGap(net, r, full, f)
    ensures NoGap(Next(net, r, e), r, full, f)
  {
    match e
    case Confirm(g, entries) => ConfirmLeavesNoGap(net, r, full, g, f, entries);
    case UpdatePool => UpdateLeavesNoGap(net, r, full, f);
    case RemoveOld => TrimLeavesNoGap(net, r, full, f);
    case Receive(blk) => ReceiveLeavesNoGap(net, r, full, blk, f);
    case PreSign(_, _) => SameLanesNoGap(net, Next(net, r, e), r, full, f);
    case InsertBlock(block, beaconBlocks, shared) =>
      InsertDelivers(net, r, block, beaconBlocks, shared, f);
      var base: nat :| base <= Best(net, f) && GapFree(Confirmed(net, f, r), net.lane(f), base);
      var net' := Next(net, r, e);
      assert base <= Best(net', f) && GapFree(Confirmed(net', f, r), net'.lane(f), base);
  }

  /** If every block offered to the pool is on the list the beacon confirms in the end, the pool never leaves a gap. */
  lemma {:induction false} NoGapsInRuns(r: Receiver, states: seq<Net>, events: seq<Event>, full: nat -> seq<nat>)
    requires Run(r, states, events) && Initial(states[0])
    requires forall i | 0 <= i < |states| :: Foreseen(states[i], r, full)
    requires forall e | e in events :: Offered(e, full)
    ensures forall i, f: nat | 0 <= i < |states| :: NoGap(states[i], r, full, f)
    decreases |events|
  {
    if events == [] {
      forall f: nat ensures NoGap(states[0], r, full, f) {
        assert states[0].lane(f) == Lane([], []);
        assert GapFree(Confirmed(states[0], f, r), states[0].lane(f), 0);
      }
    } else {
      var n := |events|;
      var before, past := states[..n], events[..n - 1];
      forall i | 0 <= i < |past|
        ensures May(before[i], r, past[i]) && before[i + 1] == Next(before[i], r, past[i])
      {
        assert May(states[i], r, events[i]) && states[i + 1] == Next(states[i], r, events[i]);
      }
      NoGapsInRuns(r, before, past, full);
      DeliveredInOrder(r, states, events);
      var last := n - 1;
      assert May(states[last], r, events[last]) && states[last + 1] == Next(states[last], r, events[last]);
      assert Foreseen(states[last], r, full) && Foreseen(states[last + 1], r, full);
      assert Offered(events[last], full) && DeliveryInv(states[last], r);
      forall i, f: nat | 0 <= i < |states| ensures NoGap(states[i], r, full, f) {
        if i < n {
          assert NoGap(before[i], r, full, f);
        } else {
          assert NoGap(before[last], r, full, f);
          StepLeavesNoGap(states[last], r, full, events[last], f);
        }
      }
    }
  }

  /** Then, once the pool has been refreshed, the producer takes over the valid list up to its first block whose content does
      not verify - all of it if and only if all contents verify -, the verifier accepts that, and the next confirmed height is
      not left waiting among the pending blocks. */
  lemma RefreshedPoolIsTaken(net: Net, r: Receiver, full: nat -> seq<nat>, f: nat)
    requires DeliveryInv(net, r) && Foreseen(net, r, full) && NoGap(net, r, full, f)
    ensures var next, best := net.table.next, Best(net, f);
      var lane := Next(net, r, UpdatePool).lane(f);
      var picked := Pick(next, f, r.shardID, lane.valid, best, Verifies(r));
      && LongestVerified(picked, lane.valid, r.bound)
      && (picked == lane.valid <==> forall b | b in lane.valid :: r.bound(b))
      && !HasHeight(lane.pending, After(Confirmed(net, f, r), Start(lane, best)))
      && (picked != [] ==> ShardAccepted(next, f, r.shardID, lane.valid, best, ExtractAll(picked), Verifies(r), r.hash))
  {
    assert Delivered(net, r, f);
    ChainFacts(net, r, f);
    RefreshedLane(net, r, full, f);
    RunIsTaken(net.table.next, f, r, Confirmed(net, f, r), Next(net, r, UpdatePool).lane(f).valid, Best(net, f));
  }

  lemma RefreshedLane(net: Net, r: Receiver, full: nat -> seq<nat>, f: nat)
    requires DeliveryInv(net, r) && Foreseen(net, r, full) && NoGap(net, r, full, f)
    ensures var lane := Next(net, r, UpdatePool).lane(f);
      && Sorted(lane.valid) && SignedBy(r, f, lane.valid)
      && ChainRun(Confirmed(net, f, r), Best(net, f), Heights(lane.valid))
      && !HasHeight(lane.pending, After(Confirmed(net, f, r), Start(lane, Best(net, f))))
  {
    var next, best := net.table.next, Best(net, f);
    var base: nat :| base <= best && GapFree(Confirmed(net, f, r), net.lane(f), base);
    assert Ordered(net.lane(f)) && Delivered(net, r, f) && Ascending(full(f)) && Confirmed(net, f, r) <= full(f);
    assert LaneSigned(r, f, net.lane(f));
    ChainFacts(net, r, f);
    RefreshKeepsGapFree(next, f, r.shardID, Confirmed(net, f, r), full(f), net.lane(f), base, best);
    RecordsForward(net.table, net.accepted);
    RefreshKeepsOrder(net.lane(f), next, f, r.shardID, best);
    RefreshKeepsSigned(r, net.lane(f), next, f, best);
  }

  lemma RunIsTaken(next: map<Link, nat>, f: nat, r: Receiver, heights: seq<nat>, valid: seq<CrossShardBlock>, best: nat)
    requires Ascending(heights) && Records(next, f, r.shardID, heights) && OnChain(heights, best)
    requires Sorted(valid) && ChainRun(heights, best, Heights(valid)) && SignedBy(r, f, valid)
    ensures var picked := Pick(next, f, r.shardID, valid, best, Verifies(r));
      && LongestVerified(picked, valid, r.bound)
      && (picked == valid <==> forall b | b in valid :: r.bound(b))
      && (picked != [] ==> ShardAccepted(next, f, r.shardID, valid, best, ExtractAll(picked), Verifies(r), r.hash))
  {
    var picked := Pick(next, f, r.shardID, valid, best, Verifies(r));
    PickTakesRun(next, f, r.shardID, heights, valid, best, Verifies(r));
    assert LongestVerified(picked, valid, r.bound);
    WholeOrBroken(picked, valid, r.bound);
    ProducedIsAccepted(next, f, r.shardID, heights, valid, best, 0, Verifies(r), r.hash);
    LimitedZero(valid);
    SortedIsFixed(valid);
  }

  lemma {:induction false} LimitedZero(blks: seq<CrossShardBlock>)
    ensures Limited(blks, 0) == blks
  {
    if blks != [] {
      LimitedZero(blks[1..]);
      assert blks == [blks[0]] + blks[1..];
    }
  }
}
