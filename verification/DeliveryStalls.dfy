/** What becomes of a sender whose next confirmed block the pool has passed over: nothing of it is ever taken over again. */
module DeliveryStalls {
  import opened Blocks
  import opened Lists
  import opened NextHeights
  import opened CrossShardPool
  import opened CrossShardOrder
  import opened CrossShardBlocks
  import opened DeliveryRuns
  import Shard

  /** The next confirmed height of the sender, or 0 when the beacon has confirmed no further one. */
  ghost function NextConfirmed(net: Net, r: Receiver, f: nat): nat
  {
    After(Confirmed(net, f, r), Best(net, f))
  }

  /** The valid list goes beyond `height` and does not have it. */
  ghost predicate PassedOver(valid: seq<CrossShardBlock>, height: nat)
  {
    valid != [] && height < valid[|valid| - 1].height && !HasHeight(valid, height)
  }

  ghost predicate Stalled(net: Net, r: Receiver, f: nat)
  {
    NextConfirmed(net, r, f) != 0 && PassedOver(net.lane(f).valid, NextConfirmed(net, r, f))
  }

  // ---------- The pool's own steps ----------

  lemma TrimPassesOver(lane: Lane, best: nat, missed: nat)
    requires Ordered(lane) && PassedOver(lane.valid, missed) && best < missed
    ensures PassedOver(Trim(lane, best).valid, missed)
  {
    DropUpToDropsOld(lane.valid, best);
    var last := lane.valid[|lane.valid| - 1];
    assert last in lane.valid && last in DropUpTo(lane.valid, best);
    SuffixKeepsLast(lane.valid, best);
  }

  lemma {:induction false} SuffixKeepsLast(blks: seq<CrossShardBlock>, height: nat)
    requires DropUpTo(blks, height) != []
    ensures DropUpTo(blks, height)[|DropUpTo(blks, height)| - 1] == blks[|blks| - 1]
  {
    if blks[0].height <= height { SuffixKeepsLast(blks[1..], height); }
  }

  lemma PromotePassesOver(lane: Lane, next: map<Link, nat>, f: nat, t: nat, best: nat, missed: nat)
    requires Ordered(lane) && Forward(next) && PassedOver(lane.valid, missed)
    ensures PassedOver(Promote(lane, next, f, t, best).valid, missed)
  {
    PassedOverForGood(lane, next, f, t, best, missed);
    PromoteKeepsOrder(lane, next, f, t, best);
    var valid := Promote(lane, next, f, t, best).valid;
    assert lane.valid <= valid;
    assert valid[|lane.valid| - 1].height <= valid[|valid| - 1].height;
  }

  lemma RefreshPassesOver(lane: Lane, next: map<Link, nat>, f: nat, t: nat, best: nat, missed: nat)
    requires Ordered(lane) && Forward(next) && PassedOver(lane.valid, missed) && best < missed
    ensures PassedOver(Refreshed(lane, next, f, t, best).valid, missed)
  {
    TrimPassesOver(lane, best, missed);
    TrimKeepsOrder(lane, best);
    PromotePassesOver(Trim(lane, best), next, f, t, best, missed);
  }

  lemma AdmitPassesOver(net: Net, r: Receiver, f: nat, blk: CrossShardBlock, missed: nat)
    requires DeliveryInv(net, r) && PassedOver(net.lane(f).valid, missed) && Best(net, f) < missed
    ensures PassedOver(Receiving(net, r, blk).lane(f).valid, missed)
  {
    var lane := net.lane(f);
    LaneFacts(net, r, f);
    if Judged(net.lane(blk.shardID), r.shardID, NumberAt(net.known, blk.shardID), r.signed(blk), blk) == Accepted {
      AdmitLane(lane, f, blk, r.shardID, NumberAt(net.known, f), r.signed(blk));
      RefreshPassesOver(Admitted(lane, f, blk), net.table.next, f, r.shardID, Best(net, f), missed);
    }
  }

  lemma AdmitLane(lane: Lane, f: nat, blk: CrossShardBlock, shardID: nat, known: nat, signed: bool)
    requires Ordered(lane) && (f == blk.shardID ==> Judged(lane, shardID, known, signed, blk) == Accepted)
    ensures Ordered(Admitted(lane, f, blk)) && Admitted(lane, f, blk).valid == lane.valid
  {
    if f == blk.shardID { AdmitKeepsOrder(lane, f, blk, shardID, known, signed); }
  }

  // ---------- Every step ----------

  /** Nothing more is consumed from the sender, and it stays stalled at the same height. */
  ghost predicate StillStalled(net: Net, net': Net, r: Receiver, f: nat)
  {
    && Stalled(net', r, f) && NextConfirmed(net', r, f) == NextConfirmed(net, r, f)
    && At(net'.consumed, f) == At(net.consumed, f) && Best(net', f) == Best(net, f)
  }

  lemma NextIsLater(net: Net, r: Receiver, f: nat)
    requires DeliveryInv(net, r) && NextConfirmed(net, r, f) != 0
    ensures Best(net, f) < NextConfirmed(net, r, f)
  {
    ChainFacts(net, r, f);
    AfterIsLeast(Confirmed(net, f, r), Best(net, f));
  }

  lemma ConfirmStalls(net: Net, r: Receiver, f: nat, g: nat, entries: seq<ShardEntry>)
    requires DeliveryInv(net, r) && May(net, r, Confirm(g, entries)) && Stalled(net, r, f)
    ensures StillStalled(net, Next(net, r, Confirm(g, entries)), r, f)
  {
    var net' := Next(net, r, Confirm(g, entries));
    ConfirmKeeps(net, r, g, entries);
    ChainFacts(net', r, f);
    ConfirmExtends(net, r, g, entries, f);
    ChainFacts(net, r, f);
    var more := if f == g then HeightsFor(entries, g, r.shardID) else [];
    AfterIsLeast(Confirmed(net, f, r), Best(net, f));
    AfterExtended(Confirmed(net, f, r), more, Best(net, f));
  }

  lemma PoolStalls(net: Net, r: Receiver, f: nat, e: Event)
    requires DeliveryInv(net, r) && (e.UpdatePool? || e.RemoveOld? || e.Receive?) && Stalled(net, r, f)
    ensures StillStalled(net, Next(net, r, e), r, f)
  {
    NextIsLater(net, r, f);
    RecordsForward(net.table, net.accepted);
    var lane, missed, best := net.lane(f), NextConfirmed(net, r, f), Best(net, f);
    assert Ordered(lane);
    match e
    case UpdatePool => RefreshPassesOver(lane, net.table.next, f, r.shardID, best, missed);
    case RemoveOld => TrimPassesOver(lane, best, missed);
    case Receive(blk) => AdmitPassesOver(net, r, f, blk, missed);
  }

  /** The verifier accepts no transaction of a stalled sender. */
  lemma NothingAccepted(net: Net, r: Receiver, f: nat, txs: seq<CrossTransaction>)
    requires DeliveryInv(net, r) && Stalled(net, r, f)
    requires ShardAccepted(net.table.next, f, r.shardID, net.lane(f).valid, Best(net, f), txs, Verifies(r), r.hash)
    ensures txs == []
  {
    var valid := net.lane(f).valid;
    assert Ordered(net.lane(f)) && Delivered(net, r, f);
    ChainFacts(net, r, f);
    LimitedToLast(valid);
    SortedIsFixed(valid);
    VerifierAccepts(net.table.next, f, r.shardID, Confirmed(net, f, r), valid, Best(net, f), txs, Verifies(r), r.hash);
    assert txs != [] ==> TxHeights(txs)[0] == txs[0].height && txs[0] in txs;
    assert txs != [] ==> Backed(valid, txs[0], Verifies(r), r.hash);
  }

  lemma InsertStalls(net: Net, r: Receiver, f: nat, block: ShardBlock, beaconBlocks: seq<BeaconBlock>, shared: bool)
    requires DeliveryInv(net, r) && May(net, r, InsertBlock(block, beaconBlocks, shared)) && Stalled(net, r, f)
    ensures StillStalled(net, Next(net, r, InsertBlock(block, beaconBlocks, shared)), r, f)
  {
    var txs := block.crossTransactions;
    BestAfterInsert(net, r, block, beaconBlocks);
    if f in txs {
      ApprovedAt(net, r, block, f);
      NothingAccepted(net, r, f, txs[f]);
      assert false;
    }
    TakenAt(net, Shard.Updated(net.shard, r.size, r.shardID, block, beaconBlocks).st, txs, shared, f);
    assert At(net.consumed, f) + At(txs, f) == At(net.consumed, f);
  }

  lemma StepStalls(net: Net, r: Receiver, f: nat, e: Event)
    requires DeliveryInv(net, r) && May(net, r, e) && Stalled(net, r, f)
    ensures StillStalled(net, Next(net, r, e), r, f)
  {
    match e
    case Confirm(g, entries) => ConfirmStalls(net, r, f, g, entries);
    case InsertBlock(block, beaconBlocks, shared) => InsertStalls(net, r, f, block, beaconBlocks, shared);
    case UpdatePool => PoolStalls(net, r, f, e);
    case RemoveOld => PoolStalls(net, r, f, e);
    case Receive(_) => PoolStalls(net, r, f, e);
    case PreSign(_, _) =>
  }

  /** Once the valid list has passed over the next confirmed height of a sender, then whatever is confirmed, received, removed
      or inserted, it never gets that height, and nothing more is ever consumed from that sender. */
  lemma {:induction false} StalledForGood(r: Receiver, states: seq<Net>, events: seq<Event>, f: nat, i: nat, j: nat)
    requires Run(r, states, events) && Initial(states[0]) && i <= j < |states| && Stalled(states[i], r, f)
    ensures StillStalled(states[i], states[j], r, f)
    decreases j
  {
    if i < j {
      var k: nat := j - 1;
      StalledForGood(r, states, events, f, i, k);
      assert Stalled(states[k], r, f);
      StepOfRun(r, states, events, f, k);
      StallsJoin(states[i], states[k], states[k + 1], r, f);
    }
  }

  lemma StallsJoin(a: Net, b: Net, c: Net, r: Receiver, f: nat)
    requires StillStalled(a, b, r, f) && StillStalled(b, c, r, f)
    ensures StillStalled(a, c, r, f)
  {
  }

  lemma StepOfRun(r: Receiver, states: seq<Net>, events: seq<Event>, f: nat, k: nat)
    requires Run(r, states, events) && Initial(states[0]) && k < |events| && Stalled(states[k], r, f)
    ensures StillStalled(states[k], states[k + 1], r, f)
  {
    DeliveredInOrder(r, states, events);
    assert DeliveryInv(states[k], r);
    StepStalls(states[k], r, f, events[k]);
  }

  /** Meanwhile the producer selects nothing of that sender, under any limit, and the verifier accepts no transaction of it. */
  lemma StalledOffersNothing(net: Net, r: Receiver, f: nat, limit: nat)
    requires DeliveryInv(net, r) && Stalled(net, r, f)
    ensures var next, valid, best := net.table.next, net.lane(f).valid, Best(net, f);
      && Pick(next, f, r.shardID, SortByHeight(Limited(valid, limit)), best, Verifies(r)) == []
      && forall txs | ShardAccepted(next, f, r.shardID, valid, best, txs, Verifies(r), r.hash) :: txs == []
  {
    var valid, best := net.lane(f).valid, Best(net, f);
    assert Ordered(net.lane(f)) && Delivered(net, r, f);
    ChainFacts(net, r, f);
    LimitedIs(valid, limit);
    SortedIsFixed(Limited(valid, limit));
    NothingWithoutNext(net.table.next, f, r.shardID, Confirmed(net, f, r), Limited(valid, limit), best, Verifies(r));
    forall txs | ShardAccepted(net.table.next, f, r.shardID, valid, best, txs, Verifies(r), r.hash) ensures txs == [] {
      NothingAccepted(net, r, f, txs);
    }
  }

  // ---------- When a sender stalls ----------

  /** A pool without a gap has stalled no sender. */
  lemma NoGapNoStall(net: Net, r: Receiver, full: nat -> seq<nat>, f: nat)
    requires DeliveryInv(net, r) && NoGap(net, r, full, f)
    ensures !Stalled(net, r, f)
  {
    var heights, best, valid := Confirmed(net, f, r), Best(net, f), net.lane(f).valid;
    var base: nat :| base <= best && GapFree(heights, net.lane(f), base);
    assert Delivered(net, r, f);
    ChainFacts(net, r, f);
    AfterIsLeast(heights, best);
    RunHoldsAll(heights, base, Heights(valid));
    var missed := After(heights, best);
    if missed != 0 && valid != [] && missed < valid[|valid| - 1].height {
      assert missed in Heights(valid);
      var i :| 0 <= i < |valid| && Heights(valid)[i] == missed;
      assert valid[i] in valid;
    }
  }

  // ---------- Exactly when a refresh stalls a sender ----------

  /** What the scan takes out of the pending list, whichever blocks the removed ones were. */
  function Slice(next: map<Link, nat>, f: nat, t: nat, blks: seq<CrossShardBlock>, start: nat): seq<CrossShardBlock>
  {
    var sc := ScanPending(next, f, t, blks, start);
    blks[sc.removeIndex..sc.index]
  }

  /** A right slice begins with the next height, if it has a block at all. */
  lemma {:induction false} TakenBeginsWithNext(next: map<Link, nat>, f: nat, t: nat, blks: seq<CrossShardBlock>, start: nat)
    ensures var taken := Taken(next, f, t, blks, start); taken != [] ==> taken[0].height == NextHeight(next, f, t, start)
    decreases |blks|
  {
    if blks != [] && NextHeight(next, f, t, start) > blks[0].height { TakenBeginsWithNext(next, f, t, blks[1..], start); }
  }

  lemma {:induction false} NoneRemovedIsRight(next: map<Link, nat>, f: nat, t: nat, blks: seq<CrossShardBlock>, start: nat)
    requires ScanPending(next, f, t, blks, start).removeIndex == 0
    ensures RightOnesPromoted(next, f, t, blks, start)
    decreases |blks|
  {
    if blks != [] && NextHeight(next, f, t, start) == blks[0].height {
      NoneRemovedIsRight(next, f, t, blks[1..], blks[0].height);
      HeadPromoted(next, f, t, blks, start);
    }
  }

  /** A wrong slice has lost the next height and goes beyond it. */
  lemma {:induction false} WrongSlicePassesOver(next: map<Link, nat>, f: nat, t: nat, blks: seq<CrossShardBlock>, start: nat)
    requires Sorted(blks) && !RightOnesPromoted(next, f, t, blks, start)
    ensures PassedOver(Slice(next, f, t, blks, start), NextHeight(next, f, t, start)) && NextHeight(next, f, t, start) != 0
    decreases |blks|
  {
    var w := NextHeight(next, f, t, start);
    if blks != [] && blks[0].height < w {
      TailSorted(blks);
      SkipPromotes(next, f, t, blks, start);
      WrongSlicePassesOver(next, f, t, blks[1..], start);
      var sc := ScanPending(next, f, t, blks[1..], start);
      assert blks[sc.removeIndex + 1..sc.index + 1] == blks[1..][sc.removeIndex..sc.index];
    } else {
      assert blks != [] && blks[0].height == w;
      var sc := ScanPending(next, f, t, blks[1..], w);
      if sc.removeIndex == 0 {
        NoneRemovedIsRight(next, f, t, blks[1..], w);
        HeadPromoted(next, f, t, blks, start);
      }
      BeyondFirst(blks, sc.removeIndex, sc.index + 1);
    }
  }

  lemma BeyondFirst(blks: seq<CrossShardBlock>, i: nat, j: nat)
    requires Sorted(blks) && 0 < i < j <= |blks|
    ensures PassedOver(blks[i..j], blks[0].height)
  {
    var part := blks[i..j];
    forall b | b in part ensures blks[0].height < b.height {
      var k :| 0 <= k < |part| && part[k] == b;
    }
    assert part[|part| - 1] in part;
  }

  /** So the slice passes over the next height exactly when a pending block lies in a gap behind a reached height. */
  lemma SlicePassesOver(next: map<Link, nat>, f: nat, t: nat, heights: seq<nat>, blks: seq<CrossShardBlock>, start: nat)
    requires Ascending(heights) && Records(next, f, t, heights) && OnChain(heights, start) && Sorted(blks)
    ensures (After(heights, start) != 0 && PassedOver(Slice(next, f, t, blks, start), After(heights, start)))
      <==> !NothingBetween(heights, blks, start)
  {
    NextIsAfter(next, f, t, heights, start);
    PromotesRightOnes(next, f, t, heights, blks, start);
    var slice := Slice(next, f, t, blks, start);
    if RightOnesPromoted(next, f, t, blks, start) {
      TakenBeginsWithNext(next, f, t, blks, start);
      if slice != [] { assert slice[0] in slice; }
    } else {
      WrongSlicePassesOver(next, f, t, blks, start);
    }
  }

  /** From a height off the chain the scan takes nothing. */
  lemma NothingFromOffChain(next: map<Link, nat>, f: nat, t: nat, heights: seq<nat>, blks: seq<CrossShardBlock>, start: nat)
    requires Records(next, f, t, heights) && !OnChain(heights, start) && Sorted(blks)
    ensures Slice(next, f, t, blks, start) == []
  {
    if blks != [] { assert NextHeight(next, f, t, start) == 0 < blks[0].height; }
  }

  ghost predicate LaneStalled(heights: seq<nat>, lane: Lane, best: nat)
  {
    After(heights, best) != 0 && PassedOver(lane.valid, After(heights, best))
  }

  /** Promotion behind a valid list that is not empty stalls no sender anew. */
  lemma PromoteBehindValid(lane: Lane, next: map<Link, nat>, f: nat, t: nat, heights: seq<nat>, best: nat)
    requires Ordered(lane) && Forward(next) && lane.valid != [] && AllAbove(lane.valid, best)
    requires Ascending(heights) && Records(next, f, t, heights) && OnChain(heights, best)
    ensures LaneStalled(heights, Promote(lane, next, f, t, best), best) <==> LaneStalled(heights, lane, best)
  {
    var w, last := After(heights, best), lane.valid[|lane.valid| - 1];
    assert last in lane.valid;
    AfterIsLeast(heights, best);
    if w != 0 && PassedOver(lane.valid, w) {
      PromotePassesOver(lane, next, f, t, best, w);
    } else if w != 0 {
      assert lane.valid <= Promote(lane, next, f, t, best).valid;
      if last.height < w {
        NothingFromOffChain(next, f, t, heights, lane.pending, last.height);
        assert lane.valid + [] == lane.valid;
      } else {
        var b :| b in lane.valid && b.height == w;
        assert b in Promote(lane, next, f, t, best).valid;
      }
    }
  }

  lemma PromoteIntoEmpty(lane: Lane, next: map<Link, nat>, f: nat, t: nat, heights: seq<nat>, best: nat)
    requires Ordered(lane) && lane.valid == []
    requires Ascending(heights) && Records(next, f, t, heights) && OnChain(heights, best)
    ensures LaneStalled(heights, Promote(lane, next, f, t, best), best) <==> !NothingBetween(heights, lane.pending, best)
  {
    SlicePassesOver(next, f, t, heights, lane.pending, best);
    PromotedSlice(lane, next, f, t, best);
  }

  lemma PromotedSlice(lane: Lane, next: map<Link, nat>, f: nat, t: nat, best: nat)
    requires lane.valid == []
    ensures Promote(lane, next, f, t, best).valid == Slice(next, f, t, lane.pending, best)
  {
    var slice := Slice(next, f, t, lane.pending, best);
    assert [] + slice == slice;
  }

  lemma TrimStalls(lane: Lane, heights: seq<nat>, best: nat)
    requires Ordered(lane) && Ascending(heights)
    ensures LaneStalled(heights, Trim(lane, best), best) <==> LaneStalled(heights, lane, best)
  {
    AfterIsLeast(heights, best);
    DropUpToDropsOld(lane.valid, best);
    if LaneStalled(heights, lane, best) {
      TrimPassesOver(lane, best, After(heights, best));
    } else if DropUpTo(lane.valid, best) != [] {
      SuffixKeepsLast(lane.valid, best);
    }
  }

  /** Refreshing a lane stalls the sender anew exactly when no valid block is left once the consumed ones are gone, and a pending
      block lies in a gap behind a height that the pending list reaches. */
  lemma RefreshStalls(lane: Lane, next: map<Link, nat>, f: nat, t: nat, heights: seq<nat>, best: nat)
    requires Ordered(lane) && Forward(next)
    requires Ascending(heights) && Records(next, f, t, heights) && OnChain(heights, best)
    ensures LaneStalled(heights, Refreshed(lane, next, f, t, best), best) <==>
      (LaneStalled(heights, lane, best)
        || (Trim(lane, best).valid == [] && !NothingBetween(heights, Trim(lane, best).pending, best)))
  {
    var trimmed := Trim(lane, best);
    TrimKeepsOrder(lane, best);
    TrimStalls(lane, heights, best);
    DropUpToDropsOld(lane.valid, best);
    if trimmed.valid == [] {
      PromoteIntoEmpty(trimmed, next, f, t, heights, best);
    } else {
      PromoteBehindValid(trimmed, next, f, t, heights, best);
    }
  }

  /** A refresh of the pool: which senders are stalled after it. */
  lemma UpdateStalls(net: Net, r: Receiver, f: nat)
    requires DeliveryInv(net, r)
    ensures var trimmed := Trim(net.lane(f), Best(net, f));
      Stalled(Next(net, r, UpdatePool), r, f) <==>
        (Stalled(net, r, f)
          || (trimmed.valid == [] && !NothingBetween(Confirmed(net, f, r), trimmed.pending, Best(net, f))))
  {
    LaneFacts(net, r, f);
    RefreshStalls(net.lane(f), net.table.next, f, r.shardID, Confirmed(net, f, r), Best(net, f));
    StalledIsLaneStalled(net, Next(net, r, UpdatePool), r, f);
  }

  lemma StalledIsLaneStalled(net: Net, net': Net, r: Receiver, f: nat)
    requires Confirmed(net', f, r) == Confirmed(net, f, r) && Best(net', f) == Best(net, f)
    ensures Stalled(net', r, f) <==> LaneStalled(Confirmed(net, f, r), net'.lane(f), Best(net, f))
    ensures Stalled(net, r, f) <==> LaneStalled(Confirmed(net, f, r), net.lane(f), Best(net, f))
  {
  }

  /** The same for an accepted block: it counts as a pending one. */
  lemma ReceptionStalls(net: Net, r: Receiver, blk: CrossShardBlock)
    requires DeliveryInv(net, r)
    requires Judged(net.lane(blk.shardID), r.shardID, NumberAt(net.known, blk.shardID), r.signed(blk), blk) == Accepted
    ensures var f := blk.shardID;
      var trimmed := Trim(Admitted(net.lane(f), f, blk), Best(net, f));
      Stalled(Next(net, r, Receive(blk)), r, f) <==>
        (Stalled(net, r, f)
          || (trimmed.valid == [] && !NothingBetween(Confirmed(net, f, r), trimmed.pending, Best(net, f))))
  {
    var f := blk.shardID;
    var net', lane := Next(net, r, Receive(blk)), Admitted(net.lane(f), f, blk);
    LaneFacts(net, r, f);
    AdmitLane(net.lane(f), f, blk, r.shardID, NumberAt(net.known, f), r.signed(blk));
    RefreshStalls(lane, net.table.next, f, r.shardID, Confirmed(net, f, r), Best(net, f));
    ReceivedLane(net, r, blk);
    StalledIsLaneStalled(net, net', r, f);
    assert LaneStalled(Confirmed(net, f, r), lane, Best(net, f)) <==> LaneStalled(Confirmed(net, f, r), net.lane(f), Best(net, f));
  }

  lemma LaneFacts(net: Net, r: Receiver, f: nat)
    requires DeliveryInv(net, r)
    ensures Ordered(net.lane(f)) && Forward(net.table.next)
    ensures Ascending(Confirmed(net, f, r)) && Records(net.table.next, f, r.shardID, Confirmed(net, f, r))
    ensures OnChain(Confirmed(net, f, r), Best(net, f))
  {
    assert Ordered(net.lane(f)) && Delivered(net, r, f);
    ChainFacts(net, r, f);
    RecordsForward(net.table, net.accepted);
  }

  lemma ReceivedLane(net: Net, r: Receiver, blk: CrossShardBlock)
    requires Judged(net.lane(blk.shardID), r.shardID, NumberAt(net.known, blk.shardID), r.signed(blk), blk) == Accepted
    ensures var f := blk.shardID;
      var net' := Next(net, r, Receive(blk));
      && net'.lane(f) == Refreshed(Admitted(net.lane(f), f, blk), net.table.next, f, r.shardID, Best(net, f))
      && Confirmed(net', f, r) == Confirmed(net, f, r) && Best(net', f) == Best(net, f)
  {
  }

  /** The list 5, 8 with the pending blocks 5, 6, 8: block 6 lies in the gap behind 5, and one refresh stalls the sender. */
  lemma WrongBlockStalls(net: Net, r: Receiver, f: nat, content: nat)
    requires DeliveryInv(net, r) && Confirmed(net, f, r) == [5, 8] && Best(net, f) == 0
    requires net.lane(f) == Lane([], ThreeBlocks(f, r.shardID, content))
    ensures Stalled(Next(net, r, UpdatePool), r, f)
  {
    UpdateStalls(net, r, f);
    GapBehindFive(f, r.shardID, content);
    assert Trim(net.lane(f), 0) == net.lane(f);
  }

  lemma GapBehindFive(f: nat, t: nat, content: nat)
    ensures !NothingBetween([5, 8], ThreeBlocks(f, t, content), 0)
  {
    var heights: seq<nat>, blks := [5, 8], ThreeBlocks(f, t, content);
    assert heights[1..] == [8] && heights[1..][1..] == [];
    assert After(heights, 5) == 8 && heights[0] == 5;
    assert blks[0] in blks && blks[1] in blks;
    assert HasHeight(blks, 5) && Reached(heights, blks, 0, 5);
  }

  function ThreeBlocks(f: nat, t: nat, content: nat): seq<CrossShardBlock>
  {
    [CrossShardBlock(f, t, 5, content), CrossShardBlock(f, t, 6, content), CrossShardBlock(f, t, 8, content)]
  }

  // ---------- A run that gets there ----------

  /** While the beacon has confirmed nothing, a higher block than all before goes to the end of the pending list. */
  lemma NextPending(net: Net, r: Receiver, blk: CrossShardBlock)
    requires net.table.next == map[] && net.shard.bestCrossShard == map[] && net.known == map[]
    requires net.lane(blk.shardID).valid == [] && Sorted(net.lane(blk.shardID).pending) && |net.lane(blk.shardID).pending| <= 2
    requires forall b | b in net.lane(blk.shardID).pending :: b.height < blk.height
    requires blk.toShardID == r.shardID && blk.height > 0 && r.signed(blk)
    ensures var net' := Receiving(net, r, blk);
      && net' == net.(lane := net'.lane)
      && net'.lane(blk.shardID) == Lane([], net.lane(blk.shardID).pending + [blk])
  {
    var f := blk.shardID;
    HigherIsLast(net.lane(f).pending, blk, r.shardID, r.signed(blk));
    NothingToTake(net.table.next, f, r.shardID, Admitted(net.lane(f), f, blk));
    ReceivedLane(net, r, blk);
  }

  lemma HigherIsLast(pending: seq<CrossShardBlock>, blk: CrossShardBlock, shardID: nat, signed: bool)
    requires Sorted(pending) && |pending| <= 2 && forall b | b in pending :: b.height < blk.height
    requires blk.toShardID == shardID && blk.height > 0 && signed
    ensures Judged(Lane([], pending), shardID, 0, signed, blk) == Accepted
    ensures Admitted(Lane([], pending), blk.shardID, blk) == Lane([], pending + [blk])
  {
    SortAppended(pending, blk);
    assert pending != [] ==> pending[|pending| - 1] in pending;
    assert Insert(pending, blk) == pending + [blk] && !HasHeight(pending, blk.height);
  }

  lemma NothingToTake(next: map<Link, nat>, f: nat, t: nat, lane: Lane)
    requires next == map[] && lane.valid == [] && lane.pending != [] && lane.pending[0].height > 0
    ensures Refreshed(lane, next, f, t, 0) == lane
  {
    assert Trim(lane, 0) == lane;
    assert ScanPending(next, f, t, lane.pending, 0) == Scan(0, 0);
  }

  ghost predicate Waiting(net: Net, r: Receiver, f: nat, pending: seq<CrossShardBlock>)
  {
    && net.table == Table(map[], map[]) && net.accepted == map[] && net.shard.bestCrossShard == map[] && net.known == map[]
    && net.lane(f) == Lane([], pending)
  }

  /** The first so many of the blocks wait. */
  ghost predicate FirstWait(net: Net, r: Receiver, f: nat, blks: seq<CrossShardBlock>, n: nat)
  {
    n <= |blks| && Waiting(net, r, f, blks[..n])
  }

  ghost predicate Rising(r: Receiver, f: nat, blks: seq<CrossShardBlock>)
  {
    && (forall i | 0 <= i < |blks| :: blks[i].height > 0 && blks[i].shardID == f && blks[i].toShardID == r.shardID && r.signed(blks[i]))
    && (forall i, j | 0 <= i < j < |blks| :: blks[i].height < blks[j].height)
  }

  /** While nothing is confirmed, blocks that arrive in ascending order wait in this order. */
  lemma OneMoreWaits(net: Net, r: Receiver, f: nat, blks: seq<CrossShardBlock>, n: nat)
    requires Rising(r, f, blks) && n < |blks| && n <= 2 && FirstWait(net, r, f, blks, n)
    ensures FirstWait(Receiving(net, r, blks[n]), r, f, blks, n + 1)
  {
    var pending, blk := blks[..n], blks[n];
    forall b | b in pending ensures b.height < blk.height {
      var i :| 0 <= i < n && blks[i] == b;
    }
    assert Sorted(pending);
    assert blks[..n + 1] == pending + [blk];
    NextPending(net, r, blk);
  }

  function TwoEntries(t: nat): seq<ShardEntry>
  {
    [ShardEntry(5, [t]), ShardEntry(8, [t])]
  }

  lemma BothConfirmed(net: Net, r: Receiver, f: nat)
    requires f != r.shardID && net.accepted == map[]
    ensures InOrder(TwoEntries(r.shardID))
    ensures May(net, r, Confirm(f, TwoEntries(r.shardID)))
    ensures Confirmed(Next(net, r, Confirm(f, TwoEntries(r.shardID))), f, r) == [5, 8]
  {
    var entries := TwoEntries(r.shardID);
    TwoHeights(f, r.shardID);
    assert At(net.accepted, f) + entries == entries;
    ConfirmExtends(net, r, f, entries, f);
    assert Confirmed(net, f, r) == [];
  }

  lemma TwoHeights(f: nat, t: nat)
    requires f != t
    ensures InOrder(TwoEntries(t)) && HeightsFor(TwoEntries(t), f, t) == [5, 8]
  {
    var entries := TwoEntries(t);
    assert entries[1..] == [entries[1]] && [entries[1]][1..] == [];
    assert HeightsFor([entries[1]], f, t) == [8] + [];
    assert HeightsFor(entries, f, t) == [5] + HeightsFor([entries[1]], f, t);
  }

  /** Whatever other shard it is: a run that receives its signed blocks 5, 6, 8 and then learns of the list 5, 8 stalls it. */
  lemma StallIsReached(r: Receiver, f: nat, content: nat) returns (states: seq<Net>, events: seq<Event>)
    requires f != r.shardID && forall b | b in ThreeBlocks(f, r.shardID, content) :: r.signed(b)
    ensures Run(r, states, events) && Initial(states[0]) && Stalled(states[|events|], r, f)
  {
    var net;
    states, events, net := ListsTurnUp(r, f, content);
    DeliveredInOrder(r, states, events);
    assert DeliveryInv(states[|events|], r);
    WrongBlockStalls(net, r, f, content);
    states, events := OneMoreStep(r, states, events, UpdatePool);
  }

  lemma ListsTurnUp(r: Receiver, f: nat, content: nat) returns (states: seq<Net>, events: seq<Event>, net: Net)
    requires f != r.shardID && forall b | b in ThreeBlocks(f, r.shardID, content) :: r.signed(b)
    ensures Run(r, states, events) && Initial(states[0]) && states[|events|] == net
    ensures Confirmed(net, f, r) == [5, 8] && Best(net, f) == 0
    ensures net.lane(f) == Lane([], ThreeBlocks(f, r.shardID, content))
  {
    var blks := ThreeBlocks(f, r.shardID, content);
    assert blks[0] in blks && blks[1] in blks && blks[2] in blks;
    states, events := BlocksTurnUp(r, f, blks, 3);
    var n3 := states[|events|];
    assert blks[..3] == blks;
    BothConfirmed(n3, r, f);
    net := Next(n3, r, Confirm(f, TwoEntries(r.shardID)));
    states, events := OneMoreStep(r, states, events, Confirm(f, TwoEntries(r.shardID)));
  }

  /** A run from the start in which the first `n` blocks arrive. */
  lemma {:induction false} BlocksTurnUp(r: Receiver, f: nat, blks: seq<CrossShardBlock>, n: nat)
    returns (states: seq<Net>, events: seq<Event>)
    requires Rising(r, f, blks) && n <= |blks| <= 3
    ensures Run(r, states, events) && Initial(states[0]) && FirstWait(states[|events|], r, f, blks, n)
  {
    if n == 0 {
      states := [Net(Table(map[], map[]), map[], (s: nat) => Lane([], []), map[], Shard.ShardState(0, 0, [], [], map[]), {}, map[])];
      events := [];
    } else {
      var m: nat := n - 1;
      states, events := BlocksTurnUp(r, f, blks, m);
      OneMoreWaits(states[|events|], r, f, blks, m);
      states, events := OneMoreStep(r, states, events, Receive(blks[m]));
    }
  }

  lemma OneMoreStep(r: Receiver, states: seq<Net>, events: seq<Event>, e: Event) returns (states': seq<Net>, events': seq<Event>)
    requires Run(r, states, events) && May(states[|events|], r, e)
    ensures |events'| == |events| + 1 && |states'| == |events'| + 1 && Run(r, states', events')
    ensures states'[0] == states[0] && states'[|events'|] == Next(states[|events|], r, e)
  {
    var n := |events|;
    states', events' := states + [Next(states[n], r, e)], events + [e];
    forall i | 0 <= i < |events'| ensures May(states'[i], r, events'[i]) && states'[i + 1] == Next(states'[i], r, events'[i]) {
      if i < n { assert May(states[i], r, events[i]) && states[i + 1] == Next(states[i], r, events[i]); }
    }
  }
}
