/** The pool in which a shard keeps the blocks that other shards send it: in order in `validPool`, still waiting for the
    beacon in `pendingPool`. */
module CrossShardPool {
  import opened Blocks
  import opened Lists
  import opened NextHeights

  const MAX_PENDING_CROSS_SHARD_IN_POOL := 2000

  function Heights(blks: seq<CrossShardBlock>): seq<nat>
  {
    seq(|blks|, i requires 0 <= i < |blks| => blks[i].height)
  }

  ghost predicate Sorted(blks: seq<CrossShardBlock>)
  {
    && (forall i | 0 <= i < |blks| :: 0 < blks[i].height)
    && (forall i, j | 0 <= i < j < |blks| :: blks[i].height < blks[j].height)
  }

  /** The two lists that the pool keeps for one sending shard. */
  datatype Lane = Lane(valid: seq<CrossShardBlock>, pending: seq<CrossShardBlock>)

  // ---------- Removing old blocks ----------

  function DropUpTo(blks: seq<CrossShardBlock>, height: nat): seq<CrossShardBlock>
  {
    if blks != [] && blks[0].height <= height then DropUpTo(blks[1..], height) else blks
  }

  lemma DropUpToDropsOld(blks: seq<CrossShardBlock>, height: nat)
    requires Sorted(blks)
    ensures Sorted(DropUpTo(blks, height))
    ensures forall b :: b in DropUpTo(blks, height) <==> b in blks && height < b.height
  {
    DropUpToSorted(blks, height);
    forall b ensures b in DropUpTo(blks, height) <==> b in blks && height < b.height {
      DropUpToMember(blks, height, b);
    }
  }

  lemma {:induction false} DropUpToSorted(blks: seq<CrossShardBlock>, height: nat)
    requires Sorted(blks)
    ensures Sorted(DropUpTo(blks, height))
  {
    if blks != [] && blks[0].height <= height {
      assert forall i | 0 <= i < |blks[1..]| :: blks[1..][i] == blks[i + 1];
      DropUpToSorted(blks[1..], height);
    }
  }

  lemma {:induction false} DropUpToMember(blks: seq<CrossShardBlock>, height: nat, b: CrossShardBlock)
    requires Sorted(blks)
    ensures b in DropUpTo(blks, height) <==> b in blks && height < b.height
  {
    if blks != [] {
      assert blks == [blks[0]] + blks[1..];
      if blks[0].height <= height {
        assert forall i | 0 <= i < |blks[1..]| :: blks[1..][i] == blks[i + 1];
        DropUpToMember(blks[1..], height, b);
      } else if b in blks {
        var i :| 0 <= i < |blks| && blks[i] == b;
      }
    }
  }

  function Trim(lane: Lane, best: nat): Lane
  {
    Lane(DropUpTo(lane.valid, best), DropUpTo(lane.pending, best))
  }

  // ---------- Promoting pending blocks ----------

  function NextHeight(next: map<Link, nat>, fromShard: nat, toShard: nat, start: nat): nat
  {
    match Fetch(next, fromShard, toShard, start)
    case Missing => 0
    case Found(n) => n
  }

  datatype Scan = Scan(index: nat, removeIndex: nat)

  /** How far the pending list is read, and how many of the blocks read are off the chain. */
  function ScanPending(next: map<Link, nat>, fromShard: nat, toShard: nat, blks: seq<CrossShardBlock>, start: nat): (sc: Scan)
    ensures sc.removeIndex <= sc.index <= |blks|
    decreases |blks|
  {
    if blks == [] then Scan(0, 0)
    else
      var waitHeight := NextHeight(next, fromShard, toShard, start);
      if waitHeight > blks[0].height then
        var sc := ScanPending(next, fromShard, toShard, blks[1..], start);
        Scan(sc.index + 1, sc.removeIndex + 1)
      else if waitHeight == blks[0].height then
        var sc := ScanPending(next, fromShard, toShard, blks[1..], waitHeight);
        Scan(sc.index + 1, sc.removeIndex)
      else Scan(0, 0)
  }

  /** The height that the scan stopped for, to be asked for: none when it read the whole list. */
  function Awaited(next: map<Link, nat>, fromShard: nat, toShard: nat, blks: seq<CrossShardBlock>, start: nat): Fetched
    decreases |blks|
  {
    if blks == [] then Missing
    else
      var waitHeight := NextHeight(next, fromShard, toShard, start);
      if waitHeight > blks[0].height then Awaited(next, fromShard, toShard, blks[1..], start)
      else if waitHeight == blks[0].height then Awaited(next, fromShard, toShard, blks[1..], waitHeight)
      else Found(waitHeight)
  }

  function Start(lane: Lane, best: nat): nat
  {
    if lane.valid != [] then lane.valid[|lane.valid| - 1].height else best
  }

  /** What follows the count of removed blocks becomes valid, whichever blocks were the removed ones. */
  function Promote(lane: Lane, next: map<Link, nat>, fromShard: nat, toShard: nat, best: nat): Lane
  {
    var sc := ScanPending(next, fromShard, toShard, lane.pending, Start(lane, best));
    Lane(lane.valid + lane.pending[sc.removeIndex..sc.index], lane.pending[sc.index..])
  }

  /** What refreshing a lane asks for. */
  function Expected(lane: Lane, next: map<Link, nat>, fromShard: nat, toShard: nat, best: nat): Fetched
  {
    Awaited(next, fromShard, toShard, lane.pending, Start(lane, best))
  }

  ghost predicate LaneDone(lane: Lane, lane': Lane, expected: Fetched, next: map<Link, nat>, fromShard: nat, toShard: nat, best: nat)
  {
    lane' == Promote(lane, next, fromShard, toShard, best) && expected == Expected(lane, next, fromShard, toShard, best)
  }

  function Refreshed(lane: Lane, next: map<Link, nat>, fromShard: nat, toShard: nat, best: nat): Lane
  {
    Promote(Trim(lane, best), next, fromShard, toShard, best)
  }

  // ---------- Receiving a block ----------

  datatype Reception = Accepted | WrongShard | Old | Duplicate | BadSignature | PoolFull

  function HasHeight(blks: seq<CrossShardBlock>, height: nat): bool
  {
    exists b | b in blks :: b.height == height
  }

  /** Stable insertion into an ascending list. */
  function Insert(blks: seq<CrossShardBlock>, blk: CrossShardBlock): seq<CrossShardBlock>
  {
    if blks == [] then [blk]
    else if blk.height < blks[|blks| - 1].height then Insert(blks[..|blks| - 1], blk) + [blks[|blks| - 1]]
    else blks + [blk]
  }

  function SortByHeight(blks: seq<CrossShardBlock>): seq<CrossShardBlock>
  {
    if blks == [] then [] else Insert(SortByHeight(blks[..|blks| - 1]), blks[|blks| - 1])
  }

  function Received(lane: Lane, blk: CrossShardBlock): (r: (Reception, seq<CrossShardBlock>))
  {
    var n := |lane.pending|;
    if n > MAX_PENDING_CROSS_SHARD_IN_POOL && lane.pending[n - 1].height <= blk.height then (PoolFull, lane.pending)
    else
      var kept := if n > MAX_PENDING_CROSS_SHARD_IN_POOL then lane.pending[..n - 1] else lane.pending;
      (Accepted, SortByHeight(kept + [blk]))
  }

  function Judged(lane: Lane, shardID: nat, known: nat, signed: bool, blk: CrossShardBlock): Reception
  {
    if blk.toShardID != shardID then WrongShard
    else if blk.height <= known then Old
    else if HasHeight(lane.valid, blk.height) || HasHeight(lane.pending, blk.height) then Duplicate
    else if !signed then BadSignature
    else Received(lane, blk).0
  }

  ghost predicate NoneAt(blks: seq<CrossShardBlock>, height: nat)
  {
    forall i | 0 <= i < |blks| :: blks[i].height != height
  }

  /** There is room in the pending list, or a higher block that gives up its place. */
  ghost predicate HasRoom(pending: seq<CrossShardBlock>, blk: CrossShardBlock)
  {
    |pending| <= MAX_PENDING_CROSS_SHARD_IN_POOL || exists i | 0 <= i < |pending| :: blk.height < pending[i].height
  }

  /** Exactly which blocks are accepted: addressed to this shard, above the known height, at a height that neither list has,
      signed, and with room. */
  lemma AcceptedExactly(lane: Lane, shardID: nat, known: nat, signed: bool, blk: CrossShardBlock)
    requires Sorted(lane.pending)
    ensures Judged(lane, shardID, known, signed, blk) == Accepted <==>
      (blk.toShardID == shardID && known < blk.height && NoneAt(lane.valid, blk.height) && NoneAt(lane.pending, blk.height)
        && signed && HasRoom(lane.pending, blk))
  {
    HeightsCompared(lane.valid, blk.height);
    HeightsCompared(lane.pending, blk.height);
    var n := |lane.pending|;
    assert forall i | 0 <= i < n :: lane.pending[i].height <= lane.pending[n - 1].height;
  }

  /** The reason for a refusal is the first one that applies, in this order. */
  lemma RefusedExactly(lane: Lane, shardID: nat, known: nat, signed: bool, blk: CrossShardBlock)
    requires Sorted(lane.pending)
    ensures var j := Judged(lane, shardID, known, signed, blk);
      && (j == WrongShard <==> blk.toShardID != shardID)
      && (j == Old <==> blk.toShardID == shardID && blk.height <= known)
      && (j == Duplicate <==> (blk.toShardID == shardID && known < blk.height
        && !(NoneAt(lane.valid, blk.height) && NoneAt(lane.pending, blk.height))))
      && (j == BadSignature <==> (blk.toShardID == shardID && known < blk.height
        && NoneAt(lane.valid, blk.height) && NoneAt(lane.pending, blk.height) && !signed))
      && (j == PoolFull <==> (blk.toShardID == shardID && known < blk.height
        && NoneAt(lane.valid, blk.height) && NoneAt(lane.pending, blk.height) && signed && !HasRoom(lane.pending, blk)))
  {
    AcceptedExactly(lane, shardID, known, signed, blk);
    HeightsCompared(lane.valid, blk.height);
    HeightsCompared(lane.pending, blk.height);
  }

  lemma HeightsCompared(blks: seq<CrossShardBlock>, height: nat)
    ensures HasHeight(blks, height) <==> !NoneAt(blks, height)
  {
    forall i | 0 <= i < |blks| && blks[i].height == height ensures HasHeight(blks, height) { assert blks[i] in blks; }
  }

  function Admitted(lane: Lane, fromShard: nat, blk: CrossShardBlock): Lane
  {
    if fromShard != blk.shardID then lane else Lane(lane.valid, Received(lane, blk).1)
  }

  lemma NothingPending(lane: Lane, next: map<Link, nat>, fromShard: nat, toShard: nat, best: nat)
    requires lane.pending == []
    ensures LaneDone(lane, lane, Missing, next, fromShard, toShard, best)
  {
  }

  lemma PromoteParts(lane: Lane, next: map<Link, nat>, fromShard: nat, toShard: nat, best: nat, sc: Scan)
    requires sc == ScanPending(next, fromShard, toShard, lane.pending, Start(lane, best))
    ensures var r := Promote(lane, next, fromShard, toShard, best);
      && (sc.index == 0 ==> r == lane)
      && (sc.removeIndex == sc.index ==> r == Lane(lane.valid, lane.pending[sc.index..]))
      && r == Lane(lane.valid + lane.pending[sc.removeIndex..sc.index], lane.pending[sc.index..])
  {
    if sc.removeIndex == sc.index {
      assert lane.pending[sc.removeIndex..sc.index] == [];
      assert lane.valid + [] == lane.valid;
    }
    if sc.index == 0 { assert lane.pending[0..] == lane.pending; }
  }

  lemma {:induction false} InsertKeepsSorted(blks: seq<CrossShardBlock>, blk: CrossShardBlock)
    requires Sorted(blks) && blk.height > 0 && !HasHeight(blks, blk.height)
    ensures Sorted(Insert(blks, blk))
    ensures forall b :: b in Insert(blks, blk) <==> b in blks || b == blk
  {
    var n := |blks|;
    if n > 0 {
      var last := blks[n - 1];
      assert last in blks;
      assert blks == blks[..n - 1] + [last];
      if blk.height < last.height {
        InsertKeepsSorted(blks[..n - 1], blk);
        var front := Insert(blks[..n - 1], blk);
        forall i | 0 <= i < |front| ensures front[i].height < last.height {
          assert front[i] in front;
        }
      }
    }
  }

  lemma {:induction false} SortedIsFixed(blks: seq<CrossShardBlock>)
    requires Sorted(blks)
    ensures SortByHeight(blks) == blks
  {
    var n := |blks|;
    if n > 0 {
      SortedIsFixed(blks[..n - 1]);
      assert blks == blks[..n - 1] + [blks[n - 1]];
    }
  }

  lemma SortAppended(blks: seq<CrossShardBlock>, blk: CrossShardBlock)
    requires Sorted(blks)
    ensures SortByHeight(blks + [blk]) == Insert(blks, blk)
  {
    SortedIsFixed(blks);
    assert (blks + [blk])[..|blks|] == blks;
  }

  // ---------- Reading ----------

  function Limited(blks: seq<CrossShardBlock>, limit: nat): seq<CrossShardBlock>
  {
    if blks == [] || (limit != 0 && limit < blks[0].height) then [] else [blks[0]] + Limited(blks[1..], limit)
  }

  lemma LimitedStep(blks: seq<CrossShardBlock>, i: nat, limit: nat, front: seq<CrossShardBlock>)
    requires i < |blks| && !(limit != 0 && limit < blks[i].height)
    ensures front + Limited(blks[i..], limit) == front + [blks[i]] + Limited(blks[i + 1..], limit)
  {
    assert blks[i..][1..] == blks[i + 1..];
  }

  lemma LimitedIs(blks: seq<CrossShardBlock>, limit: nat)
    requires Sorted(blks)
    ensures Sorted(Limited(blks, limit))
    ensures forall b :: b in Limited(blks, limit) <==> b in blks && (limit == 0 || b.height <= limit)
  {
    LimitedPrefix(blks, limit);
    forall b ensures b in Limited(blks, limit) <==> b in blks && (limit == 0 || b.height <= limit) {
      LimitedMember(blks, limit, b);
    }
  }

  lemma {:induction false} LimitedPrefix(blks: seq<CrossShardBlock>, limit: nat)
    ensures Limited(blks, limit) <= blks
  {
    if blks != [] {
      assert blks == [blks[0]] + blks[1..];
      LimitedPrefix(blks[1..], limit);
    }
  }

  lemma {:induction false} LimitedMember(blks: seq<CrossShardBlock>, limit: nat, b: CrossShardBlock)
    requires Sorted(blks)
    ensures b in Limited(blks, limit) <==> b in blks && (limit == 0 || b.height <= limit)
  {
    if blks != [] {
      assert blks == [blks[0]] + blks[1..];
      if limit != 0 && limit < blks[0].height {
        if b in blks {
          var i :| 0 <= i < |blks| && blks[i] == b;
        }
      } else {
        assert forall i | 0 <= i < |blks[1..]| :: blks[1..][i] == blks[i + 1];
        LimitedMember(blks[1..], limit, b);
      }
    }
  }

  // ---------- The pool ----------

  function LaneIn(validPool: map<nat, seq<CrossShardBlock>>, pendingPool: map<nat, seq<CrossShardBlock>>, fromShard: nat): Lane
  {
    Lane(At(validPool, fromShard), At(pendingPool, fromShard))
  }

  function Lookup(heights: map<nat, nat>, s: nat): Fetched
  {
    if s in heights then Found(heights[s]) else Missing
  }

  class CrossShardPool_v2 {
    const shardID: nat
    const signed: CrossShardBlock -> bool
    var validPool: map<nat, seq<CrossShardBlock>>
    var pendingPool: map<nat, seq<CrossShardBlock>>
    var crossShardState: map<nat, nat>

    function LaneOf(fromShard: nat): Lane
      reads this
    {
      LaneIn(validPool, pendingPool, fromShard)
    }

    constructor (shardID: nat, signed: CrossShardBlock -> bool)
      ensures this.shardID == shardID && this.signed == signed
      ensures crossShardState == map[] && forall s: nat :: LaneOf(s) == Lane([], [])
    {
      this.shardID, this.signed := shardID, signed;
      validPool, pendingPool, crossShardState := map[], map[], map[];
    }

    method RemoveBlockByHeight(removeSinceBlkHeight: map<nat, nat>)
      modifies this`validPool, this`pendingPool
      ensures forall s: nat :: LaneOf(s) == Trim(old(LaneOf(s)), NumberAt(removeSinceBlkHeight, s))
    {
      validPool := RemoveOld(validPool, removeSinceBlkHeight);
      pendingPool := RemoveOld(pendingPool, removeSinceBlkHeight);
    }

    method RemoveOld(pool: map<nat, seq<CrossShardBlock>>, heights: map<nat, nat>)
      returns (r: map<nat, seq<CrossShardBlock>>)
      ensures forall s: nat :: At(r, s) == DropUpTo(At(pool, s), NumberAt(heights, s))
    {
      r := pool;
      var todo := pool.Keys;
      while todo != {}
        invariant todo <= pool.Keys && r.Keys == pool.Keys
        invariant forall s | s in todo :: r[s] == pool[s]
        invariant forall s | s in pool.Keys - todo :: r[s] == DropUpTo(pool[s], NumberAt(heights, s))
      {
        var s :| s in todo;
        var kept := Newer(pool[s], NumberAt(heights, s));
        r := r[s := kept];
        todo := todo - {s};
      }
    }

    method Newer(blks: seq<CrossShardBlock>, height: nat) returns (r: seq<CrossShardBlock>)
      ensures r == DropUpTo(blks, height)
    {
      var removeIndex := 0;
      while removeIndex < |blks| && blks[removeIndex].height <= height
        invariant removeIndex <= |blks|
        invariant DropUpTo(blks[removeIndex..], height) == DropUpTo(blks, height)
      {
        assert blks[removeIndex..][1..] == blks[removeIndex + 1..];
        removeIndex := removeIndex + 1;
      }
      r := blks[removeIndex..];
    }

    method GetNextCrossShardHeight(db: NextHeightStore, fromShard: nat, toShard: nat, startHeight: nat) returns (h: nat)
      ensures h == NextHeight(db.next, fromShard, toShard, startHeight)
    {
      var r := db.FetchCrossShardNextHeight(fromShard, toShard, startHeight);
      match r {
        case Missing => h := 0;
        case Found(n) => h := n;
      }
    }

    method ScanLane(db: NextHeightStore, fromShard: nat, blks: seq<CrossShardBlock>, start: nat)
      returns (sc: Scan, expected: Fetched)
      ensures sc == ScanPending(db.next, fromShard, shardID, blks, start)
      ensures expected == Awaited(db.next, fromShard, shardID, blks, start)
    {
      expected := Missing;
      var startHeight: nat, index: nat, removeIndex: nat := start, 0, 0;
      while index < |blks|
        invariant removeIndex <= index <= |blks|
        invariant var rest := ScanPending(db.next, fromShard, shardID, blks[index..], startHeight);
          ScanPending(db.next, fromShard, shardID, blks, start) == Scan(index + rest.index, removeIndex + rest.removeIndex)
        invariant expected == Missing
        invariant Awaited(db.next, fromShard, shardID, blks, start) == Awaited(db.next, fromShard, shardID, blks[index..], startHeight)
      {
        var waitHeight := GetNextCrossShardHeight(db, fromShard, shardID, startHeight);
        assert blks[index..][1..] == blks[index + 1..];
        if waitHeight > blks[index].height {
          removeIndex, index := removeIndex + 1, index + 1;
        } else if waitHeight == blks[index].height {
          index := index + 1;
          startHeight := waitHeight;
        } else {
          expected := Found(waitHeight);
          break;
        }
      }
      sc := Scan(index, removeIndex);
    }

    method UpdatePool(db: NextHeightStore, bestCrossShard: map<nat, nat>) returns (expectedHeight: map<nat, nat>)
      modifies this
      ensures crossShardState == bestCrossShard
      ensures forall s: nat :: LaneOf(s) == Refreshed(old(LaneOf(s)), db.next, s, shardID, NumberAt(bestCrossShard, s))
      ensures forall s: nat :: (Lookup(expectedHeight, s)
        == Expected(Trim(old(LaneOf(s)), NumberAt(bestCrossShard, s)), db.next, s, shardID, NumberAt(bestCrossShard, s)))
    {
      crossShardState := bestCrossShard;
      RemoveBlockByHeight(crossShardState);
      label trimmed:
      expectedHeight := PromoteLanes(db);
      forall s: nat
        ensures LaneOf(s) == Promote(old@trimmed(LaneOf(s)), db.next, s, shardID, NumberAt(bestCrossShard, s))
        ensures Lookup(expectedHeight, s) == Expected(old@trimmed(LaneOf(s)), db.next, s, shardID, NumberAt(bestCrossShard, s))
      {
        assert LaneDone(old@trimmed(LaneOf(s)), LaneOf(s), Lookup(expectedHeight, s), db.next, s, shardID, NumberAt(bestCrossShard, s));
      }
    }

    method PromoteLanes(db: NextHeightStore) returns (expectedHeight: map<nat, nat>)
      modifies this`validPool, this`pendingPool
      ensures forall s: nat ::
        LaneDone(old(LaneOf(s)), LaneOf(s), Lookup(expectedHeight, s), db.next, s, shardID, NumberAt(crossShardState, s))
    {
      expectedHeight := map[];
      ghost var valid0, pending0 := validPool, pendingPool;
      var todo := pendingPool.Keys;
      while todo != {}
        invariant todo <= pendingPool.Keys == pending0.Keys
        invariant forall s: nat | s in todo || s !in pending0 ::
          LaneIn(validPool, pendingPool, s) == LaneIn(valid0, pending0, s) && s !in expectedHeight
        invariant forall s: nat | s in pending0.Keys - todo ::
          LaneDone(LaneIn(valid0, pending0, s), LaneIn(validPool, pendingPool, s), Lookup(expectedHeight, s),
            db.next, s, shardID, NumberAt(crossShardState, s))
      {
        var s :| s in todo;
        var expected := PromoteLane(db, s);
        if expected.Found? { expectedHeight := expectedHeight[s := expected.height]; }
        todo := todo - {s};
      }
      forall s: nat
        ensures LaneDone(old(LaneOf(s)), LaneOf(s), Lookup(expectedHeight, s), db.next, s, shardID, NumberAt(crossShardState, s))
      {
        if s !in pending0 { NothingPending(LaneOf(s), db.next, s, shardID, NumberAt(crossShardState, s)); }
      }
    }

    method PromoteLane(db: NextHeightStore, s: nat) returns (expected: Fetched)
      requires s in pendingPool
      modifies this`validPool, this`pendingPool
      ensures LaneDone(LaneIn(old(validPool), old(pendingPool), s), LaneIn(validPool, pendingPool, s), expected,
        db.next, s, shardID, NumberAt(crossShardState, s))
      ensures pendingPool.Keys == old(pendingPool.Keys)
      ensures forall t: nat | t != s :: LaneIn(validPool, pendingPool, t) == LaneIn(old(validPool), old(pendingPool), t)
    {
      var valid, blks := At(validPool, s), pendingPool[s];
      var startHeight := NumberAt(crossShardState, s);
      if |valid| > 0 {
        startHeight := valid[|valid| - 1].height;
      }
      var sc;
      sc, expected := ScanLane(db, s, blks, startHeight);
      PromoteParts(Lane(valid, blks), db.next, s, shardID, NumberAt(crossShardState, s), sc);
      if sc.index > 0 || sc.removeIndex > 0 {
        pendingPool := pendingPool[s := blks[sc.index..]];
        if sc.removeIndex < sc.index {
          validPool := validPool[s := valid + blks[sc.removeIndex..sc.index]];
        }
      }
    }

    method AddCrossShardBlock(blk: CrossShardBlock, db: NextHeightStore, bestCrossShard: map<nat, nat>)
      returns (r: Reception, expectedHeight: map<nat, nat>)
      modifies this
      ensures r == Judged(old(LaneOf(blk.shardID)), shardID, NumberAt(old(crossShardState), blk.shardID), signed(blk), blk)
      ensures r != Accepted ==>
        && crossShardState == old(crossShardState)
        && validPool == old(validPool) && pendingPool == old(pendingPool) && expectedHeight == map[]
      ensures r == Accepted ==>
        && crossShardState == bestCrossShard
        && forall s: nat :: LaneOf(s) == Refreshed(
          Admitted(old(LaneOf(s)), s, blk),
          db.next, s, shardID, NumberAt(bestCrossShard, s))
      ensures r == Accepted ==> forall s: nat :: (Lookup(expectedHeight, s)
        == Expected(Trim(Admitted(old(LaneOf(s)), s, blk), NumberAt(bestCrossShard, s)), db.next, s, shardID, NumberAt(bestCrossShard, s)))
    {
      expectedHeight := map[];
      var from := blk.shardID;
      if blk.toShardID != shardID { return WrongShard, expectedHeight; }
      if blk.height <= NumberAt(crossShardState, from) { return Old, expectedHeight; }
      if HasHeight(At(validPool, from), blk.height) { return Duplicate, expectedHeight; }
      if HasHeight(At(pendingPool, from), blk.height) { return Duplicate, expectedHeight; }
      if !signed(blk) { return BadSignature, expectedHeight; }
      r := Admit(blk);
      if r == Accepted { expectedHeight := UpdatePool(db, bestCrossShard); }
    }

    method Admit(blk: CrossShardBlock) returns (r: Reception)
      modifies this`pendingPool
      ensures r == Received(old(LaneOf(blk.shardID)), blk).0
      ensures r != Accepted ==> pendingPool == old(pendingPool)
      ensures r == Accepted ==> forall s: nat :: LaneOf(s) == Admitted(old(LaneOf(s)), s, blk)
    {
      var from := blk.shardID;
      var waiting := At(pendingPool, from);
      if |waiting| > MAX_PENDING_CROSS_SHARD_IN_POOL {
        if waiting[|waiting| - 1].height > blk.height {
          waiting := waiting[..|waiting| - 1];
        } else {
          return PoolFull;
        }
      }
      pendingPool := pendingPool[from := SortByHeight(waiting + [blk])];
      r := Accepted;
    }

    /** A nil limit is the empty map. */
    method GetValidBlock(limit: map<nat, nat>) returns (finalBlocks: map<nat, seq<CrossShardBlock>>)
      ensures forall s: nat :: At(finalBlocks, s) == Limited(At(validPool, s), NumberAt(limit, s))
      ensures forall s | s in finalBlocks :: finalBlocks[s] != []
    {
      finalBlocks := map[];
      var todo := validPool.Keys;
      while todo != {}
        invariant todo <= validPool.Keys
        invariant forall s: nat | s in todo || s !in validPool :: s !in finalBlocks
        invariant forall s: nat | s in validPool.Keys - todo :: At(finalBlocks, s) == Limited(validPool[s], NumberAt(limit, s))
        invariant forall s | s in finalBlocks :: finalBlocks[s] != []
      {
        var s :| s in todo;
        var blks := validPool[s];
        var some := UpTo(blks, NumberAt(limit, s));
        if |some| > 0 { finalBlocks := finalBlocks[s := some]; }
        todo := todo - {s};
      }
    }

    method UpTo(blks: seq<CrossShardBlock>, limit: nat) returns (r: seq<CrossShardBlock>)
      ensures r == Limited(blks, limit)
    {
      r := [];
      var i := 0;
      assert blks[0..] == blks;
      while i < |blks| && !(limit != 0 && limit < blks[i].height)
        invariant i <= |blks|
        invariant Limited(blks, limit) == r + Limited(blks[i..], limit)
      {
        LimitedStep(blks, i, limit, r);
        r := r + [blks[i]];
        i := i + 1;
      }
    }

    method GetLatestValidBlockHeight() returns (latest: map<nat, nat>)
      ensures latest.Keys == validPool.Keys
      ensures forall s | s in validPool :: latest[s] == Last(Heights(validPool[s]))
    {
      latest := map s | s in validPool :: if |validPool[s]| > 0 then validPool[s][|validPool[s]| - 1].height else 0;
    }
  }
}
