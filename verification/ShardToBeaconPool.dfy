/** The beacon's pool of shard blocks: for each shard an ascending list whose first part continues the best chain without a gap. */
module ShardToBeaconPool {
  import opened Lists

  const MAX_VALID_SHARD_TO_BEACON_BLK_IN_POOL := 1000
  const MAX_INVALID_SHARD_TO_BEACON_BLK_IN_POOL := 2000
  const MAX_OFFERED := 50

  datatype Block = Block(shardID: nat, height: nat, content: nat)

  /** One shard's list and its latest valid height. */
  datatype Lane = Lane(blocks: seq<Block>, latest: nat)

  /** A missing or zero height stands for the genesis block. */
  function AtLeastOne(height: nat): nat
  {
    if height == 0 then 1 else height
  }

  // ---------- The latest valid height ----------

  /** Reads on from `last`; a block at or below it sets the height back to that block's. */
  function Scan(blocks: seq<Block>, last: nat): nat
    decreases |blocks|
  {
    if blocks == [] then last
    else if blocks[0].height > last && last + 1 != blocks[0].height then last
    else Scan(blocks[1..], blocks[0].height)
  }

  function Rescanned(lane: Lane): Lane
  {
    lane.(latest := AtLeastOne(Scan(lane.blocks, lane.latest)))
  }

  function DropUpTo(blocks: seq<Block>, height: nat): seq<Block>
  {
    if blocks != [] && blocks[0].height <= height then DropUpTo(blocks[1..], height) else blocks
  }

  /** The best chain is at `best`, whether that is further on or further back than before. */
  function Reset(lane: Lane, best: nat): Lane
  {
    Rescanned(Lane(DropUpTo(lane.blocks, AtLeastOne(best)), AtLeastOne(best)))
  }

  // ---------- Receiving ----------

  datatype Verdict = Fine | Old | Duplicate | TooManyValid | TooManyInvalid

  function HasHeight(blocks: seq<Block>, height: nat): bool
  {
    exists b | b in blocks :: b.height == height
  }

  /** One less than the number of valid blocks when there are any: the list starts one above the best height. */
  function CountedValid(lane: Lane): nat
    requires lane.blocks != []
  {
    if lane.latest < lane.blocks[0].height then 0 else lane.latest - lane.blocks[0].height
  }

  function Judged(lane: Lane, blk: Block): Verdict
  {
    if blk.height <= lane.latest then Old
    else if HasHeight(lane.blocks, blk.height) then Duplicate
    else if lane.blocks == [] then Fine
    else if CountedValid(lane) > MAX_VALID_SHARD_TO_BEACON_BLK_IN_POOL then TooManyValid
    else if |lane.blocks| - CountedValid(lane) > MAX_INVALID_SHARD_TO_BEACON_BLK_IN_POOL
      && lane.blocks[|lane.blocks| - 1].height <= blk.height then TooManyInvalid
    else Fine
  }

  function Insert(blocks: seq<Block>, blk: Block): seq<Block>
  {
    if blocks == [] then [blk]
    else if blk.height < blocks[|blocks| - 1].height then Insert(blocks[..|blocks| - 1], blk) + [blocks[|blocks| - 1]]
    else blocks + [blk]
  }

  function SortByHeight(blocks: seq<Block>): seq<Block>
  {
    if blocks == [] then [] else Insert(SortByHeight(blocks[..|blocks| - 1]), blocks[|blocks| - 1])
  }

  /** A list with too many waiting blocks gives up its last one for a lower one. */
  function Kept(lane: Lane): seq<Block>
  {
    if lane.blocks != [] && |lane.blocks| - CountedValid(lane) > MAX_INVALID_SHARD_TO_BEACON_BLK_IN_POOL
    then lane.blocks[..|lane.blocks| - 1] else lane.blocks
  }

  function Received(lane: Lane, blk: Block): Lane
  {
    if Judged(lane, blk) != Fine then lane
    else Rescanned(lane.(blocks := SortByHeight(Kept(lane) + [blk])))
  }

  /** The heights to ask for when the list does not start right behind the latest valid height; zeros otherwise. */
  function Wanted(lane: Lane): (nat, nat)
    requires lane.blocks != []
  {
    if lane.blocks[0].height > lane.latest then
      var offset := lane.blocks[0].height - lane.latest;
      (lane.latest + 1,
       lane.latest + if offset > MAX_VALID_SHARD_TO_BEACON_BLK_IN_POOL then MAX_VALID_SHARD_TO_BEACON_BLK_IN_POOL else offset)
    else (0, 0)
  }

  // ---------- Offering ----------

  /** The valid blocks up to a limit (zero for none), no more than `room` of them. */
  function Offered(blocks: seq<Block>, latest: nat, limit: nat, room: nat): seq<Block>
    decreases |blocks|
  {
    if blocks == [] || blocks[0].height > latest || room == 0 || (limit != 0 && limit < blocks[0].height) then []
    else [blocks[0]] + Offered(blocks[1..], latest, limit, room - 1)
  }

  // ---------- Invariant ----------

  ghost predicate Ascending(blocks: seq<Block>)
  {
    forall i, j | 0 <= i < j < |blocks| :: blocks[i].height < blocks[j].height
  }

  /** Strictly ascending above `best`; the part up to the latest valid height is exactly best + 1, best + 2, ..., and the next
      height is not there. */
  ghost predicate LaneInv(lane: Lane, best: nat)
  {
    && 1 <= best <= lane.latest
    && Ascending(lane.blocks)
    && lane.latest - best <= |lane.blocks|
    && (forall i | 0 <= i < lane.latest - best :: lane.blocks[i].height == best + 1 + i)
    && (forall i | lane.latest - best <= i < |lane.blocks| :: lane.blocks[i].height > lane.latest + 1)
    && |lane.blocks| <= MAX_VALID_SHARD_TO_BEACON_BLK_IN_POOL + MAX_INVALID_SHARD_TO_BEACON_BLK_IN_POOL + 1
  }

  ghost predicate AllAbove(blocks: seq<Block>, height: nat)
  {
    forall i | 0 <= i < |blocks| :: blocks[i].height > height
  }

  /** Scanning from the best height finds the end of the gap-free part. */
  lemma {:induction false} ScanFindsEnd(blocks: seq<Block>, best: nat)
    requires Ascending(blocks) && AllAbove(blocks, best)
    ensures var latest := Scan(blocks, best);
      && best <= latest && latest - best <= |blocks|
      && (forall i | 0 <= i < latest - best :: blocks[i].height == best + 1 + i)
      && (forall i | latest - best <= i < |blocks| :: blocks[i].height > latest + 1)
    decreases |blocks|
  {
    if blocks != [] {
      if blocks[0].height == best + 1 {
        var rest := blocks[1..];
        assert forall i | 0 <= i < |rest| :: rest[i] == blocks[i + 1];
        ScanFindsEnd(rest, best + 1);
        var latest := Scan(blocks, best);
        forall i | 0 <= i < latest - best ensures blocks[i].height == best + 1 + i {
          if i > 0 { assert blocks[i] == rest[i - 1]; }
        }
        forall i | latest - best <= i < |blocks| ensures blocks[i].height > latest + 1 {
          assert blocks[i] == rest[i - 1];
        }
      } else {
        forall i | 0 <= i < |blocks| ensures blocks[i].height > best + 1 {
          assert i == 0 || blocks[0].height < blocks[i].height;
        }
      }
    }
  }

  /** Scanning from anywhere in the gap-free part gives the same result as scanning from the best height. */
  lemma ScanFromAnywhere(blocks: seq<Block>, best: nat, last: nat)
    requires Ascending(blocks) && AllAbove(blocks, best) && best <= last
    requires last == best || (blocks != [] && blocks[0].height == best + 1)
    ensures Scan(blocks, last) == Scan(blocks, best)
  {
  }

  lemma {:induction false} DropUpToIs(blocks: seq<Block>, height: nat)
    requires Ascending(blocks)
    ensures Ascending(DropUpTo(blocks, height)) && AllAbove(DropUpTo(blocks, height), height)
    ensures forall b :: b in DropUpTo(blocks, height) <==> b in blocks && b.height > height
    ensures |DropUpTo(blocks, height)| <= |blocks|
    decreases |blocks|
  {
    if blocks != [] && blocks[0].height <= height {
      var rest := blocks[1..];
      assert forall i | 0 <= i < |rest| :: rest[i] == blocks[i + 1];
      assert blocks == [blocks[0]] + rest;
      DropUpToIs(rest, height);
    } else {
      forall i | 0 <= i < |blocks| ensures blocks[i].height > height {
        assert i == 0 || blocks[0].height < blocks[i].height;
      }
    }
  }

  /** Any new best height, higher or lower, leaves a lane that fits it. */
  lemma ResetKeeps(lane: Lane, best: nat, best': nat)
    requires LaneInv(lane, best)
    ensures LaneInv(Reset(lane, best'), AtLeastOne(best'))
  {
    DropUpToIs(lane.blocks, AtLeastOne(best'));
    ScanFindsEnd(DropUpTo(lane.blocks, AtLeastOne(best')), AtLeastOne(best'));
  }

  lemma LaneAbove(lane: Lane, best: nat)
    requires LaneInv(lane, best)
    ensures AllAbove(lane.blocks, best)
    ensures lane.latest == best || (lane.blocks != [] && lane.blocks[0].height == best + 1)
  {
  }

  /** Scanning again changes nothing. */
  lemma RescanIsIdle(lane: Lane, best: nat)
    requires LaneInv(lane, best)
    ensures Rescanned(lane) == lane
  {
    LaneAbove(lane, best);
    ScanFromAnywhere(lane.blocks, best, lane.latest);
    ScanFindsEnd(lane.blocks, best);
    EndIsUnique(lane.blocks, best, Scan(lane.blocks, best), lane.latest);
  }

  lemma EndIsUnique(blocks: seq<Block>, best: nat, a: nat, b: nat)
    requires best <= a && a - best <= |blocks| && best <= b && b - best <= |blocks|
    requires forall i | 0 <= i < a - best :: blocks[i].height == best + 1 + i
    requires forall i | a - best <= i < |blocks| :: blocks[i].height > a + 1
    requires forall i | 0 <= i < b - best :: blocks[i].height == best + 1 + i
    requires forall i | b - best <= i < |blocks| :: blocks[i].height > b + 1
    ensures a == b
  {
    var atA := if a - best < |blocks| then blocks[a - best].height else 0;
    var atB := if b - best < |blocks| then blocks[b - best].height else 0;
  }

  lemma {:induction false} InsertAscends(blocks: seq<Block>, blk: Block)
    requires Ascending(blocks) && !HasHeight(blocks, blk.height)
    ensures Ascending(Insert(blocks, blk)) && |Insert(blocks, blk)| == |blocks| + 1
    ensures forall b :: b in Insert(blocks, blk) <==> b in blocks || b == blk
  {
    var n := |blocks|;
    if n > 0 {
      var last := blocks[n - 1];
      assert last in blocks && blocks == blocks[..n - 1] + [last];
      if blk.height < last.height {
        InsertAscends(blocks[..n - 1], blk);
        var front := Insert(blocks[..n - 1], blk);
        forall i | 0 <= i < |front| ensures front[i].height < last.height {
          assert front[i] in front;
        }
      }
    }
  }

  lemma {:induction false} AscendingIsSorted(blocks: seq<Block>)
    requires Ascending(blocks)
    ensures SortByHeight(blocks) == blocks
  {
    var n := |blocks|;
    if n > 0 {
      AscendingIsSorted(blocks[..n - 1]);
      assert blocks == blocks[..n - 1] + [blocks[n - 1]];
    }
  }

  lemma SortAppended(blocks: seq<Block>, blk: Block)
    requires Ascending(blocks)
    ensures SortByHeight(blocks + [blk]) == Insert(blocks, blk)
  {
    AscendingIsSorted(blocks);
    assert (blocks + [blk])[..|blocks|] == blocks;
  }

  /** The block given up is never one of the valid ones. */
  lemma KeptKeepsValid(lane: Lane, best: nat)
    requires LaneInv(lane, best)
    ensures Kept(lane) <= lane.blocks && lane.latest - best <= |Kept(lane)|
    ensures lane.blocks != [] && CountedValid(lane) <= MAX_VALID_SHARD_TO_BEACON_BLK_IN_POOL ==>
      |Kept(lane)| <= MAX_VALID_SHARD_TO_BEACON_BLK_IN_POOL + MAX_INVALID_SHARD_TO_BEACON_BLK_IN_POOL
  {
  }

  lemma ReceivedKeeps(lane: Lane, blk: Block, best: nat)
    requires LaneInv(lane, best)
    ensures LaneInv(Received(lane, blk), best) && lane.latest <= Received(lane, blk).latest
  {
    if Judged(lane, blk) == Fine {
      var kept := Kept(lane);
      KeptKeepsValid(lane, best);
      assert forall b | b in kept :: b in lane.blocks;
      SortAppended(kept, blk);
      PlacedFits(lane, kept, blk, best);
    }
  }

  lemma PlacedFits(lane: Lane, kept: seq<Block>, blk: Block, best: nat)
    requires LaneInv(lane, best) && kept <= lane.blocks && lane.latest - best <= |kept|
    requires blk.height > lane.latest && !HasHeight(kept, blk.height)
    requires |kept| <= MAX_VALID_SHARD_TO_BEACON_BLK_IN_POOL + MAX_INVALID_SHARD_TO_BEACON_BLK_IN_POOL
    ensures var placed := Rescanned(Lane(Insert(kept, blk), lane.latest));
      LaneInv(placed, best) && lane.latest <= placed.latest
  {
    LaneAbove(lane, best);
    InsertAscends(kept, blk);
    var blocks := Insert(kept, blk);
    InsertAbove(kept, blk, best);
    FirstStays(lane, kept, blk, best);
    ScanFromAnywhere(blocks, best, lane.latest);
    ScanFindsEnd(blocks, best);
    LatestGrows(lane, blocks, best, Scan(blocks, best));
  }

  lemma InsertAbove(kept: seq<Block>, blk: Block, best: nat)
    requires Ascending(kept) && !HasHeight(kept, blk.height) && AllAbove(kept, best) && blk.height > best
    ensures AllAbove(Insert(kept, blk), best)
  {
    InsertAscends(kept, blk);
    var r := Insert(kept, blk);
    forall i | 0 <= i < |r| ensures r[i].height > best {
      assert r[i] in r;
    }
  }

  lemma {:induction false} InsertBehind(kept: seq<Block>, blk: Block, n: nat)
    requires n <= |kept| && forall i | 0 <= i < n :: kept[i].height < blk.height
    ensures |Insert(kept, blk)| == |kept| + 1 && Insert(kept, blk)[..n] == kept[..n]
    decreases |kept|
  {
    var m := |kept|;
    if m > 0 && blk.height < kept[m - 1].height {
      assert n <= m - 1;
      InsertBehind(kept[..m - 1], blk, n);
    }
  }

  lemma FirstStays(lane: Lane, kept: seq<Block>, blk: Block, best: nat)
    requires LaneInv(lane, best) && kept <= lane.blocks && lane.latest - best <= |kept| && blk.height > lane.latest
    ensures |Insert(kept, blk)| == |kept| + 1
    ensures forall i | 0 <= i < lane.latest - best :: Insert(kept, blk)[i] == lane.blocks[i]
    ensures lane.latest == best || Insert(kept, blk)[0].height == best + 1
  {
    var n := lane.latest - best;
    InsertBehind(kept, blk, n);
    assert forall i | 0 <= i < n :: Insert(kept, blk)[i] == Insert(kept, blk)[..n][i] == kept[..n][i];
  }

  lemma LatestGrows(lane: Lane, blocks: seq<Block>, best: nat, latest: nat)
    requires LaneInv(lane, best) && best <= latest && lane.latest - best <= |blocks|
    requires forall i | 0 <= i < lane.latest - best :: blocks[i] == lane.blocks[i]
    requires forall i | latest - best <= i < |blocks| :: blocks[i].height > latest + 1
    ensures lane.latest <= latest
  {
    var next := if latest - best < |blocks| then blocks[latest - best].height else 0;
  }

  // ---------- What is offered ----------

  /** The blocks offered for the next beacon block are best + 1, best + 2, ... without a gap: at most fifty, within the limit, and as
      many as that allows. */
  lemma {:induction false} OfferedIs(blocks: seq<Block>, best: nat, latest: nat, limit: nat, room: nat)
    requires best <= latest && latest - best <= |blocks|
    requires forall i | 0 <= i < latest - best :: blocks[i].height == best + 1 + i
    requires forall i | latest - best <= i < |blocks| :: blocks[i].height > latest
    ensures var o := Offered(blocks, latest, limit, room);
      && o <= blocks && |o| <= room && |o| <= latest - best
      && (forall i | 0 <= i < |o| :: o[i].height == best + 1 + i)
      && (limit != 0 ==> forall i | 0 <= i < |o| :: o[i].height <= limit)
      && (|o| < room && |o| < latest - best ==> limit != 0 && limit <= best + |o|)
    decreases |blocks|
  {
    if blocks != [] && blocks[0].height <= latest && room > 0 && !(limit != 0 && limit < blocks[0].height) {
      var rest := blocks[1..];
      assert best < latest;
      forall i | 0 <= i < latest - (best + 1) ensures rest[i].height == best + 2 + i { assert rest[i] == blocks[i + 1]; }
      forall i | latest - (best + 1) <= i < |rest| ensures rest[i].height > latest { assert rest[i] == blocks[i + 1]; }
      OfferedIs(rest, best + 1, latest, limit, room - 1);
      var o, r := Offered(blocks, latest, limit, room), Offered(rest, latest, limit, room - 1);
      assert o == [blocks[0]] + r && blocks == [blocks[0]] + rest;
      forall i | 0 <= i < |o| ensures o[i].height == best + 1 + i && (limit != 0 ==> o[i].height <= limit) {
        if i > 0 { assert o[i] == r[i - 1]; }
      }
    }
  }

  lemma OfferedContinues(lane: Lane, best: nat, limit: nat)
    requires LaneInv(lane, best)
    ensures var o := Offered(lane.blocks, lane.latest, limit, MAX_OFFERED);
      && |o| <= MAX_OFFERED
      && (forall i | 0 <= i < |o| :: o[i].height == best + 1 + i)
      && StepsByOne(Heights(o)) && Checked(Heights(o))
  {
    OfferedIs(lane.blocks, best, lane.latest, limit, MAX_OFFERED);
  }

  function Heights(blocks: seq<Block>): seq<nat>
  {
    seq(|blocks|, i requires 0 <= i < |blocks| => blocks[i].height)
  }

  ghost predicate StepsByOne(heights: seq<nat>)
  {
    forall i | 0 <= i < |heights| - 1 :: heights[i + 1] == heights[i] + 1
  }

  /** The beacon's check of one shard's heights, whose loop ends before the last pair. */
  ghost predicate Checked(heights: seq<nat>)
  {
    forall i | 0 <= i < |heights| - 2 :: heights[i + 1] == heights[i] + 1
  }

  method CheckShardStates(heights: seq<nat>) returns (ok: bool)
    ensures ok <==> Checked(heights)
  {
    var i := 0;
    while i < |heights| - 2
      invariant 0 <= i && forall k | 0 <= k < i && k < |heights| - 2 :: heights[k + 1] == heights[k] + 1
    {
      if heights[i + 1] as int - heights[i] as int != 1 { return false; }
      i := i + 1;
    }
    ok := true;
  }

  /** The check amounts to stepping by one except for the last pair, about which it says nothing. */
  lemma CheckMissesLastPair(heights: seq<nat>)
    requires |heights| >= 2
    ensures Checked(heights) <==> StepsByOne(heights[..|heights| - 1])
    ensures StepsByOne(heights) <==> Checked(heights) && heights[|heights| - 1] == heights[|heights| - 2] + 1
    ensures Checked([5, 9]) && !StepsByOne([5, 9])
  {
    var front := heights[..|heights| - 1];
    assert forall i | 0 <= i < |front| :: front[i] == heights[i];
    assert StepsByOne(heights) ==> heights[|heights| - 2 + 1] == heights[|heights| - 2] + 1;
    assert Checked(heights) <==> StepsByOne(front) by {
      if StepsByOne(front) {
        forall i | 0 <= i < |heights| - 2 ensures heights[i + 1] == heights[i] + 1 { assert front[i + 1] == front[i] + 1; }
      }
    }
    assert [5, 9][0 + 1] != [5, 9][0] + 1;
  }

  // ---------- Runs of one lane ----------

  datatype Op = Receive(blk: Block) | SetState(best: nat) | Rescan

  datatype World = World(lane: Lane, best: nat)

  function Step(w: World, op: Op): World
  {
    match op
    case Receive(blk) => w.(lane := Received(w.lane, blk))
    case SetState(best) => World(Reset(w.lane, best), AtLeastOne(best))
    case Rescan => w.(lane := Rescanned(w.lane))
  }

  function Run(w: World, ops: seq<Op>): World
    decreases |ops|
  {
    if ops == [] then w else Run(Step(w, ops[0]), ops[1..])
  }

  lemma {:induction false} RunKeeps(w: World, ops: seq<Op>)
    requires LaneInv(w.lane, w.best)
    ensures LaneInv(Run(w, ops).lane, Run(w, ops).best)
    decreases |ops|
  {
    if ops != [] {
      match ops[0] {
        case Receive(blk) => ReceivedKeeps(w.lane, blk, w.best);
        case SetState(best) => ResetKeeps(w.lane, w.best, best);
        case Rescan => RescanIsIdle(w.lane, w.best);
      }
      RunKeeps(Step(w, ops[0]), ops[1..]);
    }
  }

  // ---------- The pool ----------

  class ShardToBeaconPool {
    var pool: map<nat, seq<Block>>
    var latestValidHeight: map<nat, nat>

    function LaneOf(s: nat): Lane
      reads this
    {
      Lane(At(pool, s), AtLeastOne(NumberAt(latestValidHeight, s)))
    }

    constructor ()
      ensures forall s: nat :: LaneOf(s) == Lane([], 1) && LaneInv(LaneOf(s), 1)
    {
      pool, latestValidHeight := map[], map[];
    }

    method SetShardState(latestShardState: map<nat, nat>)
      modifies this
      ensures forall s: nat | s in latestShardState :: LaneOf(s) == Reset(old(LaneOf(s)), latestShardState[s])
      ensures forall s: nat | s !in latestShardState :: LaneOf(s) == Rescanned(old(LaneOf(s)))
    {
      var state := map s | s in latestShardState :: AtLeastOne(latestShardState[s]);
      var todo := state.Keys;
      while todo != {}
        invariant todo <= state.Keys && pool == old(pool)
        invariant forall s: nat | s in todo || s !in state :: NumberAt(latestValidHeight, s) == NumberAt(old(latestValidHeight), s)
        invariant forall s: nat | s in state && s !in todo :: NumberAt(latestValidHeight, s) == state[s]
      {
        var s :| s in todo;
        latestValidHeight := latestValidHeight[s := state[s]];
        todo := todo - {s};
      }
      RemovePendingBlock(state);
      UpdateLatestShardState();
    }

    method RemovePendingBlock(blockItems: map<nat, nat>)
      modifies this`pool
      ensures forall s: nat :: At(pool, s) == if s in blockItems then DropUpTo(At(old(pool), s), blockItems[s]) else At(old(pool), s)
    {
      var todo := blockItems.Keys;
      while todo != {}
        invariant todo <= blockItems.Keys
        invariant forall s: nat | s in todo || s !in blockItems :: At(pool, s) == At(old(pool), s)
        invariant forall s: nat | s in blockItems && s !in todo :: At(pool, s) == DropUpTo(At(old(pool), s), blockItems[s])
      {
        var s :| s in todo;
        var rest := RemoveOld(At(pool, s), blockItems[s]);
        if s in pool { pool := pool[s := rest]; }
        todo := todo - {s};
      }
    }

    method RemoveOld(blocks: seq<Block>, height: nat) returns (r: seq<Block>)
      ensures r == DropUpTo(blocks, height)
    {
      var index := 0;
      while index < |blocks| && blocks[index].height <= height
        invariant index <= |blocks|
        invariant DropUpTo(blocks[index..], height) == DropUpTo(blocks, height)
      {
        assert blocks[index..][1..] == blocks[index + 1..];
        index := index + 1;
      }
      r := blocks[index..];
    }

    method UpdateLatestShardState()
      modifies this`latestValidHeight
      ensures forall s: nat :: LaneOf(s) == Rescanned(old(LaneOf(s)))
    {
      var todo := pool.Keys;
      while todo != {}
        invariant todo <= pool.Keys && pool == old(pool)
        invariant forall s: nat | s in todo || s !in pool :: LaneOf(s) == old(LaneOf(s))
        invariant forall s: nat | s in pool && s !in todo :: LaneOf(s) == Rescanned(old(LaneOf(s)))
      {
        var s :| s in todo;
        var lastHeight := LatestOf(pool[s], AtLeastOne(NumberAt(latestValidHeight, s)));
        latestValidHeight := latestValidHeight[s := lastHeight];
        todo := todo - {s};
      }
    }

    method LatestOf(blks: seq<Block>, latest: nat) returns (lastHeight: nat)
      ensures lastHeight == Scan(blks, latest)
    {
      lastHeight := latest;
      var i := 0;
      while i < |blks| && !(blks[i].height > lastHeight && lastHeight + 1 != blks[i].height)
        invariant i <= |blks| && Scan(blks[i..], lastHeight) == Scan(blks, latest)
      {
        assert blks[i..][1..] == blks[i + 1..];
        lastHeight := blks[i].height;
        i := i + 1;
      }
    }

    /** On success, the heights to ask other nodes for. */
    method AddShardToBeaconBlock(blk: Block) returns (verdict: Verdict, wanted: (nat, nat))
      modifies this
      ensures verdict == Judged(old(LaneOf(blk.shardID)), blk)
      ensures LaneOf(blk.shardID) == Received(old(LaneOf(blk.shardID)), blk)
      ensures forall s: nat | s != blk.shardID ::
        LaneOf(s) == if verdict == Fine then Rescanned(old(LaneOf(s))) else old(LaneOf(s))
      ensures verdict != Fine ==> wanted == (0, 0)
      ensures verdict == Fine ==> LaneOf(blk.shardID).blocks != [] && wanted == Wanted(LaneOf(blk.shardID))
    {
      var s := blk.shardID;
      wanted := (0, 0);
      if NumberAt(latestValidHeight, s) == 0 { latestValidHeight := latestValidHeight[s := 1]; }
      var blocks;
      verdict, blocks := MakeRoom(At(pool, s), latestValidHeight[s], blk);
      if verdict != Fine { return; }
      NeverEmpty(blocks, blk);
      pool := pool[s := SortByHeight(blocks + [blk])];
      UpdateLatestShardState();
      wanted := Ask(pool[s][0].height, AtLeastOne(NumberAt(latestValidHeight, s)));
    }

    method MakeRoom(inPool: seq<Block>, latest: nat, blk: Block) returns (verdict: Verdict, blocks: seq<Block>)
      ensures verdict == Judged(Lane(inPool, latest), blk)
      ensures verdict == Fine ==> blocks == Kept(Lane(inPool, latest))
    {
      blocks := inPool;
      if blk.height <= latest { return Old, blocks; }
      if HasHeight(blocks, blk.height) { return Duplicate, blocks; }
      if |blocks| != 0 {
        var numValid: int := latest as int - blocks[0].height as int;
        if numValid < 0 { numValid := 0; }
        var numInvalid := |blocks| - numValid;
        if numValid > MAX_VALID_SHARD_TO_BEACON_BLK_IN_POOL { return TooManyValid, blocks; }
        if numInvalid > MAX_INVALID_SHARD_TO_BEACON_BLK_IN_POOL {
          if blocks[|blocks| - 1].height > blk.height {
            blocks := blocks[..|blocks| - 1];
          } else {
            return TooManyInvalid, blocks;
          }
        }
      }
      verdict := Fine;
    }

    method Ask(first: nat, latest: nat) returns (wanted: (nat, nat))
      ensures forall blocks: seq<Block> | blocks != [] && blocks[0].height == first :: wanted == Wanted(Lane(blocks, latest))
    {
      wanted := (0, 0);
      if first > latest {
        var offset := first - latest;
        if offset > MAX_VALID_SHARD_TO_BEACON_BLK_IN_POOL { offset := MAX_VALID_SHARD_TO_BEACON_BLK_IN_POOL; }
        wanted := (latest + 1, latest + offset);
      }
    }

    /** A nil limit is the empty map. */
    method GetValidPendingBlock(limit: map<nat, nat>) returns (finalBlocks: map<nat, seq<Block>>)
      modifies this`latestValidHeight
      ensures forall s: nat :: LaneOf(s) == old(LaneOf(s))
      ensures forall s: nat :: At(finalBlocks, s) == Offered(LaneOf(s).blocks, LaneOf(s).latest, NumberAt(limit, s), MAX_OFFERED)
    {
      finalBlocks := map[];
      var todo := pool.Keys;
      while todo != {}
        invariant todo <= pool.Keys && forall s: nat :: LaneOf(s) == old(LaneOf(s))
        invariant forall s: nat | s in todo || s !in pool :: At(finalBlocks, s) == []
        invariant forall s: nat | s in pool && s !in todo ::
          At(finalBlocks, s) == Offered(LaneOf(s).blocks, LaneOf(s).latest, NumberAt(limit, s), MAX_OFFERED)
      {
        var s :| s in todo;
        if NumberAt(latestValidHeight, s) == 0 { latestValidHeight := latestValidHeight[s := 1]; }
        var some := Offer(pool[s], latestValidHeight[s], NumberAt(limit, s));
        if |some| > 0 { finalBlocks := finalBlocks[s := some]; }
        todo := todo - {s};
      }
    }

    method Offer(blks: seq<Block>, latest: nat, limit: nat) returns (r: seq<Block>)
      ensures r == Offered(blks, latest, limit, MAX_OFFERED)
    {
      r := [];
      var i := 0;
      while i < |blks| && blks[i].height <= latest && i < 50 && !(limit != 0 && limit < blks[i].height)
        invariant i <= |blks| && i <= 50
        invariant Offered(blks, latest, limit, MAX_OFFERED) == r + Offered(blks[i..], latest, limit, MAX_OFFERED - i)
      {
        assert blks[i..][1..] == blks[i + 1..];
        r := r + [blks[i]];
        i := i + 1;
      }
    }
  }

  lemma NeverEmpty(blocks: seq<Block>, blk: Block)
    ensures SortByHeight(blocks + [blk]) != []
  {
  }

  // ---------- Which blocks are taken in, and which are asked for ----------

  /** A block is judged fine exactly when it is above the valid ones, no block has its height, and the list has room: not too many
      valid ones, and if too many wait, one that is higher. */
  lemma FineExactly(lane: Lane, blk: Block)
    requires Ascending(lane.blocks)
    ensures Judged(lane, blk) == Fine <==>
      && lane.latest < blk.height
      && (forall i | 0 <= i < |lane.blocks| :: lane.blocks[i].height != blk.height)
      && (lane.blocks != [] ==>
        var valid := if lane.latest < lane.blocks[0].height then 0 else lane.latest - lane.blocks[0].height;
        valid <= 1000 && (|lane.blocks| - valid <= 2000 || exists i | 0 <= i < |lane.blocks| :: blk.height < lane.blocks[i].height))
  {
    forall i | 0 <= i < |lane.blocks| && lane.blocks[i].height == blk.height ensures HasHeight(lane.blocks, blk.height) {
      assert lane.blocks[i] in lane.blocks;
    }
    var n := |lane.blocks|;
    assert forall i | 0 <= i < n :: lane.blocks[i].height <= lane.blocks[n - 1].height;
  }

  /** The reason for a refusal, and the number that a full list is judged by. */
  lemma RefusedExactly(lane: Lane, blk: Block)
    requires Ascending(lane.blocks)
    ensures var j := Judged(lane, blk);
      && (j == Old <==> blk.height <= lane.latest)
      && (j == Duplicate <==> lane.latest < blk.height && exists i | 0 <= i < |lane.blocks| :: lane.blocks[i].height == blk.height)
      && (j == TooManyValid ==> lane.blocks != [] && lane.latest > lane.blocks[0].height + 1000)
      && (j == TooManyInvalid ==> (lane.blocks != [] && lane.latest <= lane.blocks[0].height + 1000
        && lane.blocks[|lane.blocks| - 1].height <= blk.height))
  {
    FineExactly(lane, blk);
    forall i | 0 <= i < |lane.blocks| && lane.blocks[i].height == blk.height ensures HasHeight(lane.blocks, blk.height) {
      assert lane.blocks[i] in lane.blocks;
    }
  }

  /** A fine block is in the list afterwards, with all others except perhaps the highest. */
  lemma FineIsHeld(lane: Lane, blk: Block)
    requires Ascending(lane.blocks) && Judged(lane, blk) == Fine
    ensures blk in Received(lane, blk).blocks
    ensures forall b | b in Received(lane, blk).blocks :: b == blk || b in lane.blocks
    ensures forall i | 0 <= i < |lane.blocks| - 1 :: lane.blocks[i] in Received(lane, blk).blocks
    ensures lane.blocks != [] && |lane.blocks| - CountedValid(lane) <= 2000 ==>
      lane.blocks[|lane.blocks| - 1] in Received(lane, blk).blocks
  {
    KeptIs(lane);
    FineInserts(lane, blk);
    var received := Received(lane, blk).blocks;
    forall b | b in received ensures b == blk || b in lane.blocks {}
    forall i | 0 <= i < |lane.blocks| - 1 ensures lane.blocks[i] in received {}
  }

  lemma FineInserts(lane: Lane, blk: Block)
    requires Ascending(Kept(lane)) && !HasHeight(Kept(lane), blk.height) && Judged(lane, blk) == Fine
    ensures forall b :: b in Received(lane, blk).blocks <==> b in Kept(lane) || b == blk
  {
    SortAppended(Kept(lane), blk);
    InsertAscends(Kept(lane), blk);
  }

  lemma KeptIs(lane: Lane)
    requires Ascending(lane.blocks)
    ensures var kept := Kept(lane);
      && Ascending(kept) && (forall b | b in kept :: b in lane.blocks)
      && (forall i | 0 <= i < |lane.blocks| - 1 :: lane.blocks[i] in kept)
      && (lane.blocks != [] && |lane.blocks| - CountedValid(lane) <= 2000 ==> kept == lane.blocks)
  {
    var kept := Kept(lane);
    forall i | 0 <= i < |lane.blocks| - 1 ensures lane.blocks[i] in kept { assert kept[i] == lane.blocks[i]; }
  }

  /** Heights are asked for exactly when nothing valid waits. They begin with the first missing height and go on to the first block
      of the list - which is asked for again - or for a thousand heights. */
  lemma WantedIs(lane: Lane, best: nat)
    requires LaneInv(lane, best) && lane.blocks != []
    ensures var (from, to) := Wanted(lane);
      && (lane.latest > best ==> (from, to) == (0, 0))
      && (lane.latest == best ==>
        && from == best + 1 <= to && to == (if lane.blocks[0].height <= best + 1000 then lane.blocks[0].height else best + 1000)
        && forall i | 0 <= i < |lane.blocks| && from <= lane.blocks[i].height <= to :: i == 0 && lane.blocks[i].height == to)
  {
  }
}
