/** What the cross-shard pool keeps: order always, and a gap-free run of the beacon's list exactly when no block off the
    list gets between two blocks on it. */
module CrossShardOrder {
  import opened Blocks
  import opened Lists
  import opened NextHeights
  import opened CrossShardPool

  /** `run` continues the chain from `start` without leaving a height out. */
  ghost predicate ChainRun(heights: seq<nat>, start: nat, run: seq<nat>)
    decreases |run|
  {
    run == [] || (run[0] != 0 && run[0] == After(heights, start) && ChainRun(heights, run[0], run[1..]))
  }

  function LastOr(start: nat, run: seq<nat>): nat
  {
    if run == [] then start else run[|run| - 1]
  }

  lemma {:induction false} RunJoins(heights: seq<nat>, start: nat, a: seq<nat>, b: seq<nat>)
    ensures ChainRun(heights, start, a + b) <==> (ChainRun(heights, start, a) && ChainRun(heights, LastOr(start, a), b))
    decreases |a|
  {
    if a == [] {
      assert a + b == b;
    } else {
      assert (a + b)[1..] == a[1..] + b;
      assert LastOr(start, a) == LastOr(a[0], a[1..]);
      RunJoins(heights, a[0], a[1..], b);
    }
  }

  /** A run lies on the chain, above its start, and holds every height of the chain up to its own end. */
  lemma RunHoldsAll(heights: seq<nat>, start: nat, run: seq<nat>)
    requires Ascending(heights) && ChainRun(heights, start, run)
    ensures start <= LastOr(start, run)
    ensures forall h :: h in run <==> h in heights && start < h <= LastOr(start, run)
    ensures Ascending(run)
  {
    RunAscends(heights, start, run);
    forall h: nat ensures h in run <==> h in heights && start < h <= LastOr(start, run) {
      RunHolds(heights, start, run, h);
    }
  }

  lemma {:induction false} RunAscends(heights: seq<nat>, start: nat, run: seq<nat>)
    requires Ascending(heights) && ChainRun(heights, start, run)
    ensures Ascending(run) && start <= LastOr(start, run)
    ensures forall i | 0 <= i < |run| :: start < run[i] <= LastOr(start, run)
    decreases |run|
  {
    if run != [] {
      AfterIsLeast(heights, start);
      RunAscends(heights, run[0], run[1..]);
      LastOfTail(start, run);
      assert forall i | 0 <= i < |run[1..]| :: run[1..][i] == run[i + 1];
    }
  }

  lemma LastOfTail(start: nat, run: seq<nat>)
    requires run != []
    ensures LastOr(start, run) == LastOr(run[0], run[1..])
  {
  }

  lemma {:induction false} RunHolds(heights: seq<nat>, start: nat, run: seq<nat>, h: nat)
    requires Ascending(heights) && ChainRun(heights, start, run)
    ensures h in run <==> h in heights && start < h <= LastOr(start, run)
    decreases |run|
  {
    if run != [] {
      AfterIsLeast(heights, start);
      RunHolds(heights, run[0], run[1..], h);
      LastOfTail(start, run);
      RunAscends(heights, start, run);
      assert run == [run[0]] + run[1..];
    }
  }

  /** Confirming more heights does not disturb a run. */
  lemma {:induction false} RunSurvives(heights: seq<nat>, more: seq<nat>, start: nat, run: seq<nat>)
    requires Ascending(heights + more) && ChainRun(heights, start, run)
    ensures ChainRun(heights + more, start, run)
    decreases |run|
  {
    if run != [] {
      assert forall i | 0 <= i < |heights| :: (heights + more)[i] == heights[i];
      AfterExtended(heights, more, start);
      RunSurvives(heights, more, run[0], run[1..]);
    }
  }

  /** Runs from the beginning of the chain are its prefixes. */
  lemma {:induction false} RunIsPrefix(heights: seq<nat>, k: nat, run: seq<nat>)
    requires Ascending(heights) && k <= |heights|
    ensures ChainRun(heights, if k == 0 then 0 else heights[k - 1], run) <==> run <= heights[k..]
    decreases |run|
  {
    if run != [] {
      AfterAt(heights, k);
      if k < |heights| {
        assert heights[k..] == [heights[k]] + heights[k + 1..];
        RunIsPrefix(heights, k + 1, run[1..]);
        if run[0] == heights[k] {
          assert run == [run[0]] + run[1..];
          assert run <= heights[k..] <==> run[1..] <= heights[k + 1..];
        }
      }
    }
  }

  /** Dropping what is not above some chain height leaves the run that starts there. */
  lemma {:induction false} RunTrimmed(heights: seq<nat>, start: nat, blks: seq<CrossShardBlock>, best: nat)
    requires Ascending(heights) && ChainRun(heights, start, Heights(blks))
    requires start <= best && OnChain(heights, best)
    ensures ChainRun(heights, best, Heights(DropUpTo(blks, best)))
    decreases |blks|
  {
    if blks != [] {
      assert Heights(blks)[1..] == Heights(blks[1..]);
      AfterIsLeast(heights, start);
      var h := blks[0].height;
      if h <= best {
        RunTrimmed(heights, h, blks[1..], best);
      } else {
        assert best == start;
      }
    }
  }

  // ---------- Order, whatever blocks arrive ----------

  /** Links lead upwards, or end the list. */
  ghost predicate Forward(next: map<Link, nat>)
  {
    forall l | l in next :: next[l] == 0 || l.height < next[l]
  }

  lemma RecordsForward(tb: Table, accepted: map<nat, seq<ShardEntry>>)
    requires Exact(tb, accepted) && AllInOrder(accepted)
    ensures Forward(tb.next)
  {
    forall l | l in tb.next ensures tb.next[l] == 0 || l.height < tb.next[l] {
      var f, t := l.fromShard, l.toShard;
      assert l == Link(f, t, l.height);
      assert Follows(tb, f, t, HeightsFor(At(accepted, f), f, t));
      HeightsAreEntries(At(accepted, f), f, t);
      AfterIsLeast(HeightsFor(At(accepted, f), f, t), l.height);
    }
  }

  ghost predicate Apart(a: seq<CrossShardBlock>, b: seq<CrossShardBlock>)
  {
    forall x, y | x in a && y in b :: x.height != y.height
  }

  /** Both lists strictly ascend and share no height. */
  ghost predicate Ordered(lane: Lane)
  {
    Sorted(lane.valid) && Sorted(lane.pending) && Apart(lane.valid, lane.pending)
  }

  lemma {:induction false} ScanAbove(next: map<Link, nat>, f: nat, t: nat, blks: seq<CrossShardBlock>, start: nat)
    requires Forward(next) && Sorted(blks)
    ensures var sc := ScanPending(next, f, t, blks, start);
      forall i | sc.removeIndex <= i < sc.index :: start < blks[i].height
    decreases |blks|
  {
    if blks != [] {
      var waitHeight := NextHeight(next, f, t, start);
      var tail := blks[1..];
      assert forall i | 0 <= i < |tail| :: tail[i] == blks[i + 1];
      var sc := ScanPending(next, f, t, blks, start);
      if waitHeight > blks[0].height {
        ScanAbove(next, f, t, tail, start);
        forall i | sc.removeIndex <= i < sc.index ensures start < blks[i].height { assert blks[i] == tail[i - 1]; }
      } else if waitHeight == blks[0].height {
        assert start < waitHeight;
      }
    }
  }

  lemma SliceSorted(blks: seq<CrossShardBlock>, i: nat, j: nat)
    requires Sorted(blks) && i <= j <= |blks|
    ensures Sorted(blks[i..j])
  {
  }

  lemma SortedJoins(a: seq<CrossShardBlock>, b: seq<CrossShardBlock>)
    requires Sorted(a) && Sorted(b)
    requires a != [] && b != [] ==> a[|a| - 1].height < b[0].height
    ensures Sorted(a + b)
  {
    var all := a + b;
    forall i, j | 0 <= i < j < |all| ensures all[i].height < all[j].height {
      if i < |a| <= j {
        assert all[i].height <= a[|a| - 1].height;
        assert b[0].height <= b[j - |a|].height;
      }
    }
  }

  /** Removing old blocks and promoting keep both lists ordered and apart, even when the wrong blocks are promoted. */
  lemma TrimKeepsOrder(lane: Lane, best: nat)
    requires Ordered(lane)
    ensures Ordered(Trim(lane, best))
  {
    DropUpToDropsOld(lane.valid, best);
    DropUpToDropsOld(lane.pending, best);
  }

  lemma PromoteKeepsOrder(lane: Lane, next: map<Link, nat>, f: nat, t: nat, best: nat)
    requires Ordered(lane) && Forward(next)
    ensures Ordered(Promote(lane, next, f, t, best))
  {
    var start := Start(lane, best);
    var sc := ScanPending(next, f, t, lane.pending, start);
    ScanAbove(next, f, t, lane.pending, start);
    MiddleMoves(lane, sc.removeIndex, sc.index);
  }

  lemma MiddleMoves(lane: Lane, i: nat, j: nat)
    requires Ordered(lane) && i <= j <= |lane.pending|
    requires lane.valid != [] && i < j ==> lane.valid[|lane.valid| - 1].height < lane.pending[i].height
    ensures Ordered(Lane(lane.valid + lane.pending[i..j], lane.pending[j..]))
  {
    var promoted, rest := lane.pending[i..j], lane.pending[j..];
    SliceSorted(lane.pending, i, j);
    SliceSorted(lane.pending, j, |lane.pending|);
    assert lane.pending[j..|lane.pending|] == rest;
    SortedJoins(lane.valid, promoted);
    SlicesApart(lane.pending, i, j);
    assert forall y | y in rest :: y in lane.pending;
  }

  lemma SlicesApart(blks: seq<CrossShardBlock>, i: nat, j: nat)
    requires Sorted(blks) && i <= j <= |blks|
    ensures Apart(blks[i..j], blks[j..])
  {
    var a, b := blks[i..j], blks[j..];
    forall x, y | x in a && y in b ensures x.height < y.height {
      var k :| 0 <= k < |a| && a[k] == x;
      var l :| 0 <= l < |b| && b[l] == y;
      var k', l' := i + k, j + l;
      assert blks[k'].height < blks[l'].height;
    }
  }

  lemma RefreshKeepsOrder(lane: Lane, next: map<Link, nat>, f: nat, t: nat, best: nat)
    requires Ordered(lane) && Forward(next)
    ensures Ordered(Refreshed(lane, next, f, t, best))
  {
    TrimKeepsOrder(lane, best);
    PromoteKeepsOrder(Trim(lane, best), next, f, t, best);
  }

  /** An accepted block joins the pending list in its place; only a full list gives up its highest block for it. */
  lemma AdmitKeepsOrder(lane: Lane, f: nat, blk: CrossShardBlock, shardID: nat, known: nat, signed: bool)
    requires Ordered(lane) && Judged(lane, shardID, known, signed, blk) == Accepted
    ensures Ordered(Admitted(lane, f, blk))
    ensures f == blk.shardID ==> forall b :: b in Admitted(lane, f, blk).pending ==> b in lane.pending || b == blk
    ensures f == blk.shardID ==> blk in Admitted(lane, f, blk).pending
    ensures f == blk.shardID ==> forall b | b in lane.pending ::
      b in Admitted(lane, f, blk).pending || (|lane.pending| > MAX_PENDING_CROSS_SHARD_IN_POOL && b == lane.pending[|lane.pending| - 1])
  {
    if f == blk.shardID {
      var n := |lane.pending|;
      var full := n > MAX_PENDING_CROSS_SHARD_IN_POOL;
      var kept := if full then lane.pending[..n - 1] else lane.pending;
      assert Sorted(kept);
      assert full ==> lane.pending == kept + [lane.pending[n - 1]];
      SortAppended(kept, blk);
      assert forall b | b in kept :: b in lane.pending;
      InsertKeepsSorted(kept, blk);
    }
  }

  // ---------- When the right blocks are promoted ----------

  /** The pending blocks that the scan recognises as the next ones of the chain. */
  function Taken(next: map<Link, nat>, f: nat, t: nat, blks: seq<CrossShardBlock>, start: nat): seq<CrossShardBlock>
    decreases |blks|
  {
    if blks == [] then []
    else
      var waitHeight := NextHeight(next, f, t, start);
      if waitHeight > blks[0].height then Taken(next, f, t, blks[1..], start)
      else if waitHeight == blks[0].height then [blks[0]] + Taken(next, f, t, blks[1..], waitHeight)
      else []
  }

  /** What is asked for is the successor of the last block recognised, when the scan does not read the whole list. */
  lemma {:induction false} AwaitsNext(next: map<Link, nat>, f: nat, t: nat, blks: seq<CrossShardBlock>, start: nat)
    ensures Awaited(next, f, t, blks, start)
      == if ScanPending(next, f, t, blks, start).index == |blks| then Missing
         else Found(NextHeight(next, f, t, LastOr(start, Heights(Taken(next, f, t, blks, start)))))
    decreases |blks|
  {
    if blks != [] {
      var waitHeight := NextHeight(next, f, t, start);
      if waitHeight > blks[0].height {
        AwaitsNext(next, f, t, blks[1..], start);
      } else if waitHeight == blks[0].height {
        AwaitsNext(next, f, t, blks[1..], waitHeight);
        var rest := Taken(next, f, t, blks[1..], waitHeight);
        assert Heights([blks[0]] + rest) == [waitHeight] + Heights(rest);
      }
    }
  }

  /** Every height of the chain from `start` up to `a` is there. */
  ghost predicate Reached(heights: seq<nat>, blks: seq<CrossShardBlock>, start: nat, a: nat)
  {
    && a in heights && start < a
    && forall x | x in heights && start < x <= a :: HasHeight(blks, x)
  }

  /** No block lies strictly between a reached height and its successor on the chain. */
  ghost predicate NothingBetween(heights: seq<nat>, blks: seq<CrossShardBlock>, start: nat)
  {
    forall a: nat, b | Reached(heights, blks, start, a) && b in blks :: !(a < b.height < After(heights, a))
  }

  lemma NextIsAfter(next: map<Link, nat>, f: nat, t: nat, heights: seq<nat>, start: nat)
    requires Records(next, f, t, heights) && OnChain(heights, start)
    ensures NextHeight(next, f, t, start) == After(heights, start)
  {
  }

  lemma {:induction false} ReachedSkips(heights: seq<nat>, blks: seq<CrossShardBlock>, start: nat, a: nat)
    requires Ascending(heights) && blks != [] && blks[0].height < After(heights, start)
    ensures Reached(heights, blks, start, a) <==> Reached(heights, blks[1..], start, a)
  {
    AfterIsLeast(heights, start);
    assert blks == [blks[0]] + blks[1..];
    forall x | x in heights && start < x ensures HasHeight(blks, x) <==> HasHeight(blks[1..], x) {
      if HasHeight(blks, x) {
        var b :| b in blks && b.height == x;
        assert b in blks[1..];
      }
    }
  }

  lemma {:induction false} ReachedSteps(heights: seq<nat>, blks: seq<CrossShardBlock>, start: nat, a: nat)
    requires Ascending(heights) && blks != [] && blks[0].height == After(heights, start) && blks[0].height != 0
    ensures Reached(heights, blks, start, a) <==> (a == blks[0].height || Reached(heights, blks[1..], blks[0].height, a))
  {
    var w := blks[0].height;
    AfterIsLeast(heights, start);
    assert blks == [blks[0]] + blks[1..];
    assert HasHeight(blks, w);
    forall x | x != w ensures HasHeight(blks, x) <==> HasHeight(blks[1..], x) {
      if HasHeight(blks, x) {
        var b :| b in blks && b.height == x;
        assert b in blks[1..];
      }
    }
    if Reached(heights, blks[1..], w, a) {
      forall x | x in heights && start < x <= a ensures HasHeight(blks, x) { assert x == w || w < x; }
    }
  }

  /** A removed block stands in the gap behind the block the scan had reached. */
  lemma {:induction false} RemovedIsBetween(next: map<Link, nat>, f: nat, t: nat, heights: seq<nat>, blks: seq<CrossShardBlock>, start: nat)
    returns (a: nat, b: CrossShardBlock)
    requires Ascending(heights) && Records(next, f, t, heights) && OnChain(heights, start)
    requires Sorted(blks) && forall i | 0 <= i < |blks| :: start < blks[i].height
    requires ScanPending(next, f, t, blks, start).removeIndex > 0
    ensures b in blks && a < b.height < After(heights, a)
    ensures a == start || Reached(heights, blks, start, a)
    decreases |blks|
  {
    NextIsAfter(next, f, t, heights, start);
    AfterIsLeast(heights, start);
    var w := After(heights, start);
    if w > blks[0].height {
      a, b := start, blks[0];
    } else {
      var tail := blks[1..];
      assert forall i | 0 <= i < |tail| :: tail[i] == blks[i + 1];
      a, b := RemovedIsBetween(next, f, t, heights, tail, w);
      ReachedSteps(heights, blks, start, a);
    }
  }

  ghost predicate RightOnesPromoted(next: map<Link, nat>, f: nat, t: nat, blks: seq<CrossShardBlock>, start: nat)
  {
    var sc := ScanPending(next, f, t, blks, start);
    blks[sc.removeIndex..sc.index] == Taken(next, f, t, blks, start)
  }

  lemma StopIsClean(heights: seq<nat>, blks: seq<CrossShardBlock>, start: nat)
    requires Ascending(heights) && Sorted(blks)
    requires blks != [] ==> After(heights, start) < blks[0].height
    ensures NothingBetween(heights, blks, start)
  {
    AfterIsLeast(heights, start);
    forall a: nat ensures !Reached(heights, blks, start, a) {
      var w := After(heights, start);
      if a in heights && start < a {
        assert w <= a && w in heights && start < w;
        assert forall i | 0 <= i < |blks| :: w < blks[i].height;
        assert !HasHeight(blks, w);
      }
    }
  }

  lemma SkipIsClean(heights: seq<nat>, blks: seq<CrossShardBlock>, start: nat)
    requires Ascending(heights) && blks != [] && blks[0].height < After(heights, start)
    ensures NothingBetween(heights, blks, start) <==> NothingBetween(heights, blks[1..], start)
  {
    AfterIsLeast(heights, start);
    assert blks == [blks[0]] + blks[1..];
    forall a ensures Reached(heights, blks, start, a) <==> Reached(heights, blks[1..], start, a) {
      ReachedSkips(heights, blks, start, a);
    }
    assert forall a | Reached(heights, blks, start, a) :: After(heights, start) <= a;
  }

  lemma StepIsClean(heights: seq<nat>, blks: seq<CrossShardBlock>, start: nat)
    requires Ascending(heights) && blks != [] && blks[0].height == After(heights, start) && blks[0].height != 0
    ensures NothingBetween(heights, blks, start) <==>
      (NothingBetween(heights, blks[1..], blks[0].height)
        && forall b | b in blks[1..] :: !(blks[0].height < b.height < After(heights, blks[0].height)))
  {
    AfterIsLeast(heights, start);
    assert blks == [blks[0]] + blks[1..];
    var w := blks[0].height;
    forall a ensures Reached(heights, blks, start, a) <==> (a == w || Reached(heights, blks[1..], w, a)) {
      ReachedSteps(heights, blks, start, a);
    }
    assert Reached(heights, blks, start, w);
    assert forall b | b in blks[1..] :: b in blks;
    assert forall a | Reached(heights, blks[1..], w, a) :: w < a;
  }

  /** The blocks promoted are the ones recognised exactly when no pending block lies in a gap behind a reached one. */
  lemma {:induction false} PromotesRightOnes(next: map<Link, nat>, f: nat, t: nat, heights: seq<nat>, blks: seq<CrossShardBlock>, start: nat)
    requires Ascending(heights) && Records(next, f, t, heights) && OnChain(heights, start) && Sorted(blks)
    ensures RightOnesPromoted(next, f, t, blks, start) <==> NothingBetween(heights, blks, start)
    decreases |blks|
  {
    NextIsAfter(next, f, t, heights, start);
    AfterIsLeast(heights, start);
    var w := After(heights, start);
    if blks == [] || w < blks[0].height {
      StopIsClean(heights, blks, start);
    } else {
      var tail := blks[1..];
      TailSorted(blks);
      if blks[0].height < w {
        PromotesRightOnes(next, f, t, heights, tail, start);
        SkipIsClean(heights, blks, start);
        SkipPromotes(next, f, t, blks, start);
      } else {
        PromotesRightOnes(next, f, t, heights, tail, w);
        StepIsClean(heights, blks, start);
        StepPromotes(next, f, t, heights, blks, start);
      }
    }
  }

  lemma StepPromotes(next: map<Link, nat>, f: nat, t: nat, heights: seq<nat>, blks: seq<CrossShardBlock>, start: nat)
    requires Ascending(heights) && Records(next, f, t, heights) && OnChain(heights, start) && Sorted(blks)
    requires blks != [] && blks[0].height == After(heights, start) == NextHeight(next, f, t, start)
    requires RightOnesPromoted(next, f, t, blks[1..], blks[0].height) <==> NothingBetween(heights, blks[1..], blks[0].height)
    ensures RightOnesPromoted(next, f, t, blks, start) <==>
      (RightOnesPromoted(next, f, t, blks[1..], blks[0].height)
        && forall b | b in blks[1..] :: !(blks[0].height < b.height < After(heights, blks[0].height)))
  {
    var w, tail := blks[0].height, blks[1..];
    AfterIsLeast(heights, start);
    TailSorted(blks);
    NextIsAfter(next, f, t, heights, w);
    if ScanPending(next, f, t, tail, w).removeIndex == 0 {
      HeadPromoted(next, f, t, blks, start);
      NoneInGap(next, f, t, heights, tail, w);
    } else {
      HeadLost(next, f, t, blks, start);
      var a, b := RemovedIsBetween(next, f, t, heights, tail, w);
    }
  }

  lemma TailSorted(blks: seq<CrossShardBlock>)
    requires Sorted(blks) && blks != []
    ensures Sorted(blks[1..]) && forall i | 0 <= i < |blks[1..]| :: blks[0].height < blks[1..][i].height
  {
  }

  lemma SkipPromotes(next: map<Link, nat>, f: nat, t: nat, blks: seq<CrossShardBlock>, start: nat)
    requires blks != [] && blks[0].height < NextHeight(next, f, t, start)
    ensures RightOnesPromoted(next, f, t, blks, start) <==> RightOnesPromoted(next, f, t, blks[1..], start)
  {
    var sc := ScanPending(next, f, t, blks[1..], start);
    assert blks[sc.removeIndex + 1..sc.index + 1] == blks[1..][sc.removeIndex..sc.index];
  }

  lemma HeadPromoted(next: map<Link, nat>, f: nat, t: nat, blks: seq<CrossShardBlock>, start: nat)
    requires blks != [] && blks[0].height == NextHeight(next, f, t, start)
    requires ScanPending(next, f, t, blks[1..], blks[0].height).removeIndex == 0
    ensures RightOnesPromoted(next, f, t, blks, start) <==> RightOnesPromoted(next, f, t, blks[1..], blks[0].height)
  {
    var tail := blks[1..];
    var n := ScanPending(next, f, t, tail, blks[0].height).index;
    var rest := Taken(next, f, t, tail, blks[0].height);
    assert blks[0..n + 1] == [blks[0]] + tail[0..n];
    assert [blks[0]] + tail[0..n] == [blks[0]] + rest ==> ([blks[0]] + tail[0..n])[1..] == ([blks[0]] + rest)[1..];
  }

  lemma HeadLost(next: map<Link, nat>, f: nat, t: nat, blks: seq<CrossShardBlock>, start: nat)
    requires Sorted(blks) && blks != [] && blks[0].height == NextHeight(next, f, t, start)
    requires ScanPending(next, f, t, blks[1..], blks[0].height).removeIndex > 0
    ensures !RightOnesPromoted(next, f, t, blks, start)
  {
    var sc := ScanPending(next, f, t, blks, start);
    assert blks[sc.removeIndex..sc.index][0] == blks[sc.removeIndex];
    assert blks[0].height < blks[sc.removeIndex].height;
    assert Taken(next, f, t, blks, start)[0] == blks[0];
  }

  lemma NoneInGap(next: map<Link, nat>, f: nat, t: nat, heights: seq<nat>, blks: seq<CrossShardBlock>, w: nat)
    requires Sorted(blks) && NextHeight(next, f, t, w) == After(heights, w)
    requires ScanPending(next, f, t, blks, w).removeIndex == 0
    ensures forall b | b in blks :: !(w < b.height < After(heights, w))
  {
    forall b | b in blks ensures After(heights, w) <= b.height {
      var i :| 0 <= i < |blks| && blks[i] == b;
      assert i == 0 || blks[0].height < blks[i].height;
    }
  }

  // ---------- Senders whose blocks all end up on the list ----------

  /** Every block's height is on the list that the beacon will eventually have confirmed. */
  ghost predicate Confirmable(full: seq<nat>, blks: seq<CrossShardBlock>)
  {
    forall b | b in blks :: b.height in full
  }

  ghost predicate AllAbove(blks: seq<CrossShardBlock>, height: nat)
  {
    forall b | b in blks :: height < b.height
  }

  /** The valid list is the gap-free run of the beacon's list right after the last consumed height. */
  ghost predicate GapFree(heights: seq<nat>, lane: Lane, best: nat)
  {
    OnChain(heights, best) && ChainRun(heights, best, Heights(lane.valid))
  }

  lemma StartOnChain(heights: seq<nat>, lane: Lane, best: nat)
    requires Ascending(heights) && GapFree(heights, lane, best)
    ensures Start(lane, best) == LastOr(best, Heights(lane.valid))
    ensures OnChain(heights, Start(lane, best)) && best <= Start(lane, best)
  {
    RunHoldsAll(heights, best, Heights(lane.valid));
    if lane.valid != [] {
      assert Start(lane, best) in Heights(lane.valid);
    }
  }

  lemma ConfirmedOrLater(heights: seq<nat>, full: seq<nat>, h: nat)
    requires Ascending(full) && heights <= full && h in full
    ensures h in heights || forall x | x in heights :: x < h
  {
    var i :| 0 <= i < |full| && full[i] == h;
    if i < |heights| {
      assert heights[i] == h;
    } else {
      forall x | x in heights ensures x < h {
        var j :| 0 <= j < |heights| && heights[j] == x;
        assert full[j] == x && full[j] < full[i];
      }
    }
  }

  lemma PrefixAscends(heights: seq<nat>, full: seq<nat>)
    requires Ascending(full) && heights <= full
    ensures Ascending(heights)
  {
    assert forall i | 0 <= i < |heights| :: heights[i] == full[i];
  }

  lemma PendingAbove(heights: seq<nat>, full: seq<nat>, lane: Lane, best: nat)
    requires Ascending(full) && heights <= full && GapFree(heights, lane, best)
    requires Apart(lane.valid, lane.pending) && Confirmable(full, lane.pending) && AllAbove(lane.pending, best)
    ensures AllAbove(lane.pending, Start(lane, best))
  {
    PrefixAscends(heights, full);
    StartOnChain(heights, lane, best);
    RunHoldsAll(heights, best, Heights(lane.valid));
    forall b | b in lane.pending ensures Start(lane, best) < b.height {
      ConfirmedOrLater(heights, full, b.height);
      forall i | 0 <= i < |lane.valid| ensures lane.valid[i].height != b.height {
        assert lane.valid[i] in lane.valid;
      }
      assert b.height !in Heights(lane.valid);
    }
  }

  lemma {:induction false} ScanTakesRun(next: map<Link, nat>, f: nat, t: nat, heights: seq<nat>, full: seq<nat>, blks: seq<CrossShardBlock>, start: nat)
    requires Ascending(full) && heights <= full && Records(next, f, t, heights) && OnChain(heights, start)
    requires Sorted(blks) && Confirmable(full, blks) && AllAbove(blks, start)
    ensures var sc := ScanPending(next, f, t, blks, start);
      && sc.removeIndex == 0
      && ChainRun(heights, start, Heights(blks[..sc.index]))
      && !HasHeight(blks[sc.index..], After(heights, LastOr(start, Heights(blks[..sc.index]))))
    decreases |blks|
  {
    PrefixAscends(heights, full);
    NextIsAfter(next, f, t, heights, start);
    AfterIsLeast(heights, start);
    var w := After(heights, start);
    if blks != [] && w == blks[0].height {
      var tail := blks[1..];
      TailSorted(blks);
      assert forall b | b in tail :: b in blks;
      assert AllAbove(tail, w);
      ScanTakesRun(next, f, t, heights, full, tail, w);
      ScanStep(next, f, t, heights, blks, start);
    } else {
      ScanStops(heights, full, blks, start);
      assert blks[..0] == [] && blks[0..] == blks;
    }
  }

  lemma ScanStops(heights: seq<nat>, full: seq<nat>, blks: seq<CrossShardBlock>, start: nat)
    requires Ascending(full) && heights <= full && Sorted(blks) && Confirmable(full, blks) && AllAbove(blks, start)
    requires blks != [] ==> After(heights, start) != blks[0].height
    ensures forall i | 0 <= i < |blks| :: After(heights, start) < blks[i].height
    ensures !HasHeight(blks, After(heights, start))
  {
    PrefixAscends(heights, full);
    AfterIsLeast(heights, start);
    if blks != [] {
      assert blks[0] in blks;
      ConfirmedOrLater(heights, full, blks[0].height);
    }
  }

  lemma ScanStep(next: map<Link, nat>, f: nat, t: nat, heights: seq<nat>, blks: seq<CrossShardBlock>, start: nat)
    requires blks != [] && NextHeight(next, f, t, start) == blks[0].height == After(heights, start) != 0
    ensures var sc, sct := ScanPending(next, f, t, blks, start), ScanPending(next, f, t, blks[1..], blks[0].height);
      && sc == Scan(sct.index + 1, sct.removeIndex)
      && blks[sc.index..] == blks[1..][sct.index..]
      && (ChainRun(heights, blks[0].height, Heights(blks[1..][..sct.index])) ==> ChainRun(heights, start, Heights(blks[..sc.index])))
      && LastOr(start, Heights(blks[..sc.index])) == LastOr(blks[0].height, Heights(blks[1..][..sct.index]))
  {
    var n := ScanPending(next, f, t, blks[1..], blks[0].height).index;
    var run := Heights(blks[1..][..n]);
    assert Heights(blks[..n + 1]) == [blks[0].height] + run;
  }

  /** With such senders, refreshing keeps the valid list a gap-free run, takes in every pending block that has become next,
      and drops a block only when its height has been consumed. */
  lemma RefreshKeepsGapFree(next: map<Link, nat>, f: nat, t: nat, heights: seq<nat>, full: seq<nat>, lane: Lane, before: nat, best: nat)
    requires Ascending(full) && heights <= full && Records(next, f, t, heights)
    requires Ordered(lane) && Confirmable(full, lane.pending)
    requires GapFree(heights, lane, before) && before <= best && OnChain(heights, best)
    ensures var r := Refreshed(lane, next, f, t, best);
      && GapFree(heights, r, best)
      && Confirmable(full, r.pending)
      && !HasHeight(r.pending, After(heights, Start(r, best)))
      && forall b | b in lane.valid || b in lane.pending :: b.height <= best || b in r.valid || b in r.pending
  {
    PrefixAscends(heights, full);
    var trimmed := Trim(lane, best);
    TrimKeepsOrder(lane, best);
    DropUpToDropsOld(lane.valid, best);
    DropUpToDropsOld(lane.pending, best);
    RunTrimmed(heights, before, lane.valid, best);
    PromotedRun(next, f, t, heights, full, trimmed, best);
  }

  lemma PromotedRun(next: map<Link, nat>, f: nat, t: nat, heights: seq<nat>, full: seq<nat>, lane: Lane, best: nat)
    requires Ascending(full) && heights <= full && Records(next, f, t, heights)
    requires Ordered(lane) && Confirmable(full, lane.pending) && AllAbove(lane.pending, best)
    requires GapFree(heights, lane, best)
    ensures var r := Promote(lane, next, f, t, best);
      && GapFree(heights, r, best)
      && Confirmable(full, r.pending)
      && !HasHeight(r.pending, After(heights, Start(r, best)))
      && forall b | b in lane.valid || b in lane.pending :: b in r.valid || b in r.pending
  {
    PrefixAscends(heights, full);
    PendingAbove(heights, full, lane, best);
    StartOnChain(heights, lane, best);
    var start := Start(lane, best);
    ScanTakesRun(next, f, t, heights, full, lane.pending, start);
    var n := ScanPending(next, f, t, lane.pending, start).index;
    assert lane.pending[0..n] == lane.pending[..n];
    FrontMoved(heights, full, lane, n, best);
  }

  lemma FrontMoved(heights: seq<nat>, full: seq<nat>, lane: Lane, n: nat, best: nat)
    requires n <= |lane.pending| && GapFree(heights, lane, best) && Confirmable(full, lane.pending)
    requires ChainRun(heights, Start(lane, best), Heights(lane.pending[..n]))
    requires !HasHeight(lane.pending[n..], After(heights, LastOr(Start(lane, best), Heights(lane.pending[..n]))))
    ensures var r := Lane(lane.valid + lane.pending[..n], lane.pending[n..]);
      && GapFree(heights, r, best)
      && Confirmable(full, r.pending)
      && !HasHeight(r.pending, After(heights, Start(r, best)))
      && forall b | b in lane.valid || b in lane.pending :: b in r.valid || b in r.pending
  {
    MoveFront(lane, n);
    LongerRun(heights, lane, lane.pending[..n], best);
  }

  lemma LongerRun(heights: seq<nat>, lane: Lane, taken: seq<CrossShardBlock>, best: nat)
    requires ChainRun(heights, best, Heights(lane.valid))
    requires ChainRun(heights, Start(lane, best), Heights(taken))
    ensures ChainRun(heights, best, Heights(lane.valid + taken))
    ensures forall rest :: Start(Lane(lane.valid + taken, rest), best) == LastOr(Start(lane, best), Heights(taken))
  {
    JoinHeights(lane.valid, taken);
    RunJoins(heights, best, Heights(lane.valid), Heights(taken));
    assert Start(lane, best) == LastOr(best, Heights(lane.valid));
  }

  lemma MoveFront(lane: Lane, n: nat)
    requires n <= |lane.pending|
    ensures forall b :: (b in lane.valid || b in lane.pending) <==> (b in lane.valid + lane.pending[..n] || b in lane.pending[n..])
    ensures forall b | b in lane.pending[n..] :: b in lane.pending
  {
    assert lane.pending == lane.pending[..n] + lane.pending[n..];
  }

  lemma JoinHeights(a: seq<CrossShardBlock>, b: seq<CrossShardBlock>)
    ensures Heights(a + b) == Heights(a) + Heights(b)
  {
  }

  // ---------- When a block off the list arrives ----------

  /** Promotion does not bring back a height that the valid list has passed over. */
  lemma PassedOverForGood(lane: Lane, next: map<Link, nat>, f: nat, t: nat, best: nat, missed: nat)
    requires Ordered(lane) && Forward(next)
    requires !HasHeight(lane.valid, missed) && lane.valid != [] && missed < lane.valid[|lane.valid| - 1].height
    ensures !HasHeight(Promote(lane, next, f, t, best).valid, missed)
  {
    var start := Start(lane, best);
    var sc := ScanPending(next, f, t, lane.pending, start);
    ScanAbove(next, f, t, lane.pending, start);
    PartAbove(lane.pending, sc.removeIndex, sc.index, start);
  }

  lemma PartAbove(blks: seq<CrossShardBlock>, i: nat, j: nat, height: nat)
    requires i <= j <= |blks| && forall k | i <= k < j :: height < blks[k].height
    ensures AllAbove(blks[i..j], height)
  {
  }

  /** Chain 5 -> 8 and pending blocks 5, 6, 8: block 6 is off the chain, yet 6 and 8 become valid and 5 is dropped. */
  lemma WrongBlockPromoted(f: nat, t: nat, next: map<Link, nat>, content: nat)
    requires Records(next, f, t, [5, 8])
    ensures var block := (h: nat) => CrossShardBlock(f, t, h, content);
      var lane := Lane([], [block(5), block(6), block(8)]);
      && Promote(lane, next, f, t, 0) == Lane([block(6), block(8)], [])
      && !GapFree([5, 8], Promote(lane, next, f, t, 0), 0)
  {
    var blks := [CrossShardBlock(f, t, 5, content), CrossShardBlock(f, t, 6, content), CrossShardBlock(f, t, 8, content)];
    var heights: seq<nat> := [5, 8];
    assert heights[1..] == [8] && heights[1..][1..] == [];
    assert 5 in heights;
    assert After(heights, 0) == 5 && After(heights, 5) == 8;
    assert NextHeight(next, f, t, 0) == 5 && NextHeight(next, f, t, 5) == 8;
    assert blks[1..][1..] == blks[2..] && blks[2..][1..] == [];
    assert ScanPending(next, f, t, blks[2..], 5) == Scan(1, 0);
    assert ScanPending(next, f, t, blks[1..], 5) == Scan(2, 1);
    assert ScanPending(next, f, t, blks, 0) == Scan(3, 1);
    assert blks[1..3] == blks[1..] && blks[3..] == [];
    assert Heights([blks[1], blks[2]])[0] == 6;
  }
}
