/** How a shard block takes in blocks of other shards: the producer walks the beacon's list over the pool's valid blocks,
    and every other member checks the result against its own pool and table. */
module CrossShardBlocks {
  import opened Blocks
  import opened Lists
  import opened NextHeights
  import opened CrossShardPool
  import opened CrossShardOrder

  function Extract(blk: CrossShardBlock): CrossTransaction
  {
    CrossTransaction(blk.height, blk.content)
  }

  function ExtractAll(blks: seq<CrossShardBlock>): seq<CrossTransaction>
  {
    seq(|blks|, i requires 0 <= i < |blks| => Extract(blks[i]))
  }

  /** Field by field: the i-th transaction carries the height and the content of the i-th block. */
  ghost predicate TakenFrom(txs: seq<CrossTransaction>, blks: seq<CrossShardBlock>)
  {
    && |txs| == |blks|
    && forall i | 0 <= i < |txs| :: txs[i].height == blks[i].height && txs[i].content == blks[i].content
  }

  lemma ExtractedAreTaken(blks: seq<CrossShardBlock>)
    ensures TakenFrom(ExtractAll(blks), blks) && forall txs :: TakenFrom(txs, blks) <==> txs == ExtractAll(blks)
  {
    forall txs | TakenFrom(txs, blks) ensures txs == ExtractAll(blks) {
      assert forall i | 0 <= i < |txs| :: txs[i] == Extract(blks[i]);
    }
  }

  function TxHeights(txs: seq<CrossTransaction>): seq<nat>
  {
    seq(|txs|, i requires 0 <= i < |txs| => txs[i].height)
  }

  // ---------- Producing ----------

  /** The walk stops at an old block, at the end of the table and at a block that does not verify; it passes over any
      other height. `verifies` stands for `VerifyCrossShardBlock`: signature and Merkle path. */
  function Pick(next: map<Link, nat>, f: nat, t: nat, blks: seq<CrossShardBlock>, start: nat, verifies: CrossShardBlock -> bool):
    seq<CrossShardBlock>
    decreases |blks|
  {
    if blks == [] || blks[0].height <= start then []
    else
      match Fetch(next, f, t, start)
      case Missing => []
      case Found(n) =>
        if n != blks[0].height then Pick(next, f, t, blks[1..], start, verifies)
        else if !verifies(blks[0]) then []
        else [blks[0]] + Pick(next, f, t, blks[1..], n, verifies)
  }

  method PickBlocks(db: NextHeightStore, fromShard: nat, toShard: nat, blks: seq<CrossShardBlock>, best: nat, verifies: CrossShardBlock -> bool)
    returns (picked: seq<CrossShardBlock>)
    ensures picked == Pick(db.next, fromShard, toShard, blks, best, verifies)
  {
    picked := [];
    var startHeight: nat := best;
    var index := 0;
    while index < |blks|
      invariant 0 <= index <= |blks|
      invariant Pick(db.next, fromShard, toShard, blks, best, verifies)
        == picked + Pick(db.next, fromShard, toShard, blks[index..], startHeight, verifies)
    {
      var blk := blks[index];
      assert blks[index..][1..] == blks[index + 1..];
      index := index + 1;
      if blk.height <= startHeight { break; }
      var fetched := db.FetchCrossShardNextHeight(fromShard, toShard, startHeight);
      if fetched.Missing? { break; }
      if fetched.height != blk.height { continue; }
      startHeight := fetched.height;
      if !verifies(blk) { break; }
      picked := picked + [blk];
    }
  }

  method GetCrossShardData(pool: CrossShardPool_v2, db: NextHeightStore, bestCrossShard: map<nat, nat>, crossShards: map<nat, nat>,
                           verifies: CrossShardBlock -> bool)
    returns (crossTransactions: map<nat, seq<CrossTransaction>>)
    ensures forall f: nat :: TakenFrom(At(crossTransactions, f), Pick(db.next, f, pool.shardID,
      SortByHeight(Limited(At(pool.validPool, f), NumberAt(crossShards, f))), NumberAt(bestCrossShard, f), verifies))
    ensures forall f | f in crossTransactions :: crossTransactions[f] != []
  {
    var all := pool.GetValidBlock(crossShards);
    crossTransactions := map[];
    var todo := all.Keys;
    while todo != {}
      invariant todo <= all.Keys
      invariant forall f: nat | f in todo || f !in all :: f !in crossTransactions
      invariant forall f: nat | f in all.Keys - todo :: TakenFrom(At(crossTransactions, f), Pick(db.next, f, pool.shardID,
        SortByHeight(all[f]), NumberAt(bestCrossShard, f), verifies))
      invariant forall f | f in crossTransactions :: crossTransactions[f] != []
    {
      var f :| f in todo;
      var picked := PickBlocks(db, f, pool.shardID, SortByHeight(all[f]), NumberAt(bestCrossShard, f), verifies);
      ExtractedAreTaken(picked);
      if |picked| > 0 { crossTransactions := crossTransactions[f := ExtractAll(picked)]; }
      todo := todo - {f};
    }
  }

  // ---------- Checking ----------

  datatype Checked = Passed(count: nat) | Failed

  function FirstAt(blks: seq<CrossShardBlock>, height: nat): (i: nat)
    ensures i <= |blks|
    ensures forall j | 0 <= j < i :: blks[j].height != height
    ensures i < |blks| ==> blks[i].height == height
  {
    if blks == [] || blks[0].height == height then 0 else 1 + FirstAt(blks[1..], height)
  }

  /** Each listed transaction is looked up in what is left of the pool's list; one that is not found is not counted. */
  function Check(next: map<Link, nat>, f: nat, t: nat, blks: seq<CrossShardBlock>, start: nat, txs: seq<CrossTransaction>,
                 verifies: CrossShardBlock -> bool, hash: CrossTransaction -> nat): Checked
    decreases |txs|
  {
    if txs == [] then Passed(0)
    else
      var i := FirstAt(blks, txs[0].height);
      if i == |blks| then Check(next, f, t, blks, start, txs[1..], verifies, hash)
      else
        match Fetch(next, f, t, start)
        case Missing => Failed
        case Found(n) =>
          if n != txs[0].height || !verifies(blks[i]) || hash(txs[0]) != hash(Extract(blks[i])) then Failed
          else
            match Check(next, f, t, blks[i..], n, txs[1..], verifies, hash)
            case Failed => Failed
            case Passed(count) => Passed(count + 1)
  }

  method CheckShard(db: NextHeightStore, fromShard: nat, toShard: nat, blocks: seq<CrossShardBlock>, best: nat,
                    crossTransactions: seq<CrossTransaction>, verifies: CrossShardBlock -> bool, hash: CrossTransaction -> nat)
    returns (r: Checked)
    ensures r == Check(db.next, fromShard, toShard, blocks, best, crossTransactions, verifies, hash)
  {
    var blks := blocks;
    var startHeight: nat, isValids: nat := best, 0;
    ghost var whole := Check(db.next, fromShard, toShard, blocks, best, crossTransactions, verifies, hash);
    assert crossTransactions[0..] == crossTransactions;
    for k := 0 to |crossTransactions|
      invariant match Check(db.next, fromShard, toShard, blks, startHeight, crossTransactions[k..], verifies, hash)
        case Failed => whole == Failed
        case Passed(count) => whole == Passed(isValids + count)
    {
      var tx := crossTransactions[k];
      assert crossTransactions[k..][0] == tx && crossTransactions[k..][1..] == crossTransactions[k + 1..];
      var index := FindAt(blks, tx.height);
      if index < |blks| {
        var fetched := db.FetchCrossShardNextHeight(fromShard, toShard, startHeight);
        if fetched.Missing? { return Failed; }
        if fetched.height != tx.height { return Failed; }
        startHeight := fetched.height;
        if !verifies(blks[index]) { return Failed; }
        if hash(tx) != hash(Extract(blks[index])) { return Failed; }
        blks := blks[index..];
        isValids := isValids + 1;
      }
    }
    r := Passed(isValids);
  }

  method FindAt(blks: seq<CrossShardBlock>, height: nat) returns (index: nat)
    ensures index == FirstAt(blks, height)
  {
    index := 0;
    while index < |blks| && blks[index].height != height
      invariant index <= |blks|
      invariant FirstAt(blks, height) == index + FirstAt(blks[index..], height)
    {
      assert blks[index..][1..] == blks[index + 1..];
      index := index + 1;
    }
  }

  /** A sending shard that the body lists must be present in the pool, and every listed transaction must have counted. */
  ghost predicate ShardAccepted(next: map<Link, nat>, f: nat, t: nat, valid: seq<CrossShardBlock>, best: nat, txs: seq<CrossTransaction>,
                                verifies: CrossShardBlock -> bool, hash: CrossTransaction -> nat)
  {
    var blks := Limited(valid, Last(Heights(valid)));
    blks != [] && Check(next, f, t, SortByHeight(blks), best, txs, verifies, hash) == Passed(|txs|)
  }

  method VerifyCrossTransactions(pool: CrossShardPool_v2, db: NextHeightStore, bestCrossShard: map<nat, nat>,
                                 crossTransactions: map<nat, seq<CrossTransaction>>,
                                 verifies: CrossShardBlock -> bool, hash: CrossTransaction -> nat)
    returns (ok: bool)
    ensures ok <==> forall f | f in crossTransactions ::
      ShardAccepted(db.next, f, pool.shardID, At(pool.validPool, f), NumberAt(bestCrossShard, f), crossTransactions[f], verifies, hash)
  {
    var limit := pool.GetLatestValidBlockHeight();
    var all := pool.GetValidBlock(limit);
    var todo := crossTransactions.Keys;
    while todo != {}
      invariant todo <= crossTransactions.Keys
      invariant forall f | f in crossTransactions.Keys - todo ::
        ShardAccepted(db.next, f, pool.shardID, At(pool.validPool, f), NumberAt(bestCrossShard, f), crossTransactions[f], verifies, hash)
    {
      var f :| f in todo;
      LimitedHere(all, limit, pool.validPool, f);
      if f !in all { return false; }
      var r := CheckShard(db, f, pool.shardID, SortByHeight(all[f]), NumberAt(bestCrossShard, f), crossTransactions[f], verifies, hash);
      if r != Passed(|crossTransactions[f]|) { return false; }
      todo := todo - {f};
    }
    ok := true;
  }

  lemma LimitedHere(all: map<nat, seq<CrossShardBlock>>, limit: map<nat, nat>, validPool: map<nat, seq<CrossShardBlock>>, f: nat)
    requires limit.Keys == validPool.Keys && forall s | s in validPool :: limit[s] == Last(Heights(validPool[s]))
    requires forall s: nat :: At(all, s) == Limited(At(validPool, s), NumberAt(limit, s))
    requires forall s | s in all :: all[s] != []
    ensures At(all, f) == Limited(At(validPool, f), Last(Heights(At(validPool, f))))
    ensures f in all <==> At(all, f) != []
  {
  }

  // ---------- The producer's selection ----------

  lemma {:induction false} PickIsRun(next: map<Link, nat>, f: nat, t: nat, heights: seq<nat>, blks: seq<CrossShardBlock>, start: nat,
                                     verifies: CrossShardBlock -> bool)
    requires Ascending(heights) && Records(next, f, t, heights) && OnChain(heights, start)
    ensures var picked := Pick(next, f, t, blks, start, verifies);
      && ChainRun(heights, start, Heights(picked))
      && forall b | b in picked :: b in blks && verifies(b)
    decreases |blks|
  {
    if blks != [] {
      AfterIsLeast(heights, start);
      NextIsAfter(next, f, t, heights, start);
      var fetched := Fetch(next, f, t, start);
      assert forall b | b in blks[1..] :: b in blks;
      if blks[0].height > start && fetched.Found? {
        if fetched.height != blks[0].height {
          PickIsRun(next, f, t, heights, blks[1..], start, verifies);
        } else {
          PickIsRun(next, f, t, heights, blks[1..], fetched.height, verifies);
          var rest := Pick(next, f, t, blks[1..], fetched.height, verifies);
          assert Heights([blks[0]] + rest)[1..] == Heights(rest);
        }
      }
    }
  }

  /** Nothing more could have been picked: the pool has no verifying block at the next height of the list. */
  lemma {:induction false} PickIsMaximal(next: map<Link, nat>, f: nat, t: nat, heights: seq<nat>, blks: seq<CrossShardBlock>, start: nat,
                                         verifies: CrossShardBlock -> bool)
    requires Ascending(heights) && Records(next, f, t, heights) && OnChain(heights, start)
    requires Sorted(blks) && AllAbove(blks, start)
    ensures NoneVerifies(blks, After(heights, LastOr(start, Heights(Pick(next, f, t, blks, start, verifies)))), verifies)
    decreases |blks|
  {
    if blks != [] {
      AfterIsLeast(heights, start);
      NextIsAfter(next, f, t, heights, start);
      TailSorted(blks);
      var w := After(heights, start);
      assert blks[0] in blks && blks == [blks[0]] + blks[1..];
      if w != blks[0].height {
        PickIsMaximal(next, f, t, heights, blks[1..], start, verifies);
        PickSkips(next, f, t, heights, blks, start, verifies);
      } else if verifies(blks[0]) {
        assert AllAbove(blks[1..], w);
        PickIsMaximal(next, f, t, heights, blks[1..], w, verifies);
        PickSteps(next, f, t, heights, blks, start, verifies);
      }
    }
  }

  ghost predicate NoneVerifies(blks: seq<CrossShardBlock>, height: nat, verifies: CrossShardBlock -> bool)
  {
    forall b | b in blks && b.height == height :: !verifies(b)
  }

  lemma PickSteps(next: map<Link, nat>, f: nat, t: nat, heights: seq<nat>, blks: seq<CrossShardBlock>, start: nat,
                  verifies: CrossShardBlock -> bool)
    requires Ascending(heights) && Records(next, f, t, heights) && OnChain(heights, start)
    requires blks != [] && start < blks[0].height == After(heights, start) && verifies(blks[0])
    ensures var last := LastOr(start, Heights(Pick(next, f, t, blks, start, verifies)));
      && last == LastOr(blks[0].height, Heights(Pick(next, f, t, blks[1..], blks[0].height, verifies)))
      && After(heights, last) != blks[0].height
  {
    var w := blks[0].height;
    NextIsAfter(next, f, t, heights, start);
    AfterIsLeast(heights, start);
    PickIsRun(next, f, t, heights, blks[1..], w, verifies);
    var rest := Pick(next, f, t, blks[1..], w, verifies);
    assert Heights([blks[0]] + rest) == [w] + Heights(rest);
    RunHoldsAll(heights, w, Heights(rest));
    AfterIsLeast(heights, LastOr(w, Heights(rest)));
  }

  lemma PickSkips(next: map<Link, nat>, f: nat, t: nat, heights: seq<nat>, blks: seq<CrossShardBlock>, start: nat,
                  verifies: CrossShardBlock -> bool)
    requires Ascending(heights) && Records(next, f, t, heights) && OnChain(heights, start)
    requires Sorted(blks) && blks != [] && start < blks[0].height != After(heights, start)
    ensures Pick(next, f, t, blks, start, verifies) == Pick(next, f, t, blks[1..], start, verifies)
    ensures After(heights, LastOr(start, Heights(Pick(next, f, t, blks, start, verifies)))) != blks[0].height
  {
    NextIsAfter(next, f, t, heights, start);
    TailSorted(blks);
    var picked := Pick(next, f, t, blks[1..], start, verifies);
    if Fetch(next, f, t, start) == Missing {
      assert heights == [];
    } else {
      PickIsRun(next, f, t, heights, blks[1..], start, verifies);
      LastAbove(heights, start, blks, picked);
    }
  }

  lemma LastAbove(heights: seq<nat>, start: nat, blks: seq<CrossShardBlock>, picked: seq<CrossShardBlock>)
    requires Ascending(heights) && Sorted(blks) && blks != [] && After(heights, start) != blks[0].height
    requires forall b | b in picked :: b in blks[1..]
    ensures After(heights, LastOr(start, Heights(picked))) != blks[0].height
  {
    TailSorted(blks);
    var end := LastOr(start, Heights(picked));
    AfterIsLeast(heights, end);
    if picked != [] {
      var last := picked[|picked| - 1];
      assert last in picked && last in blks[1..];
      var i :| 0 <= i < |blks[1..]| && blks[1..][i] == last;
      assert blks[0].height < last.height == end;
    }
  }

  /** `part` is the longest prefix of `blks` all of which verifies. */
  ghost predicate LongestVerified(part: seq<CrossShardBlock>, blks: seq<CrossShardBlock>, verifies: CrossShardBlock -> bool)
  {
    && part <= blks
    && (forall b | b in part :: verifies(b))
    && (|part| < |blks| ==> !verifies(blks[|part|]))
  }

  /** A gap-free list is taken over up to its first block that does not verify. */
  lemma {:induction false} PickTakesRun(next: map<Link, nat>, f: nat, t: nat, heights: seq<nat>, blks: seq<CrossShardBlock>, start: nat,
                                        verifies: CrossShardBlock -> bool)
    requires Ascending(heights) && Records(next, f, t, heights) && OnChain(heights, start)
    requires ChainRun(heights, start, Heights(blks))
    ensures LongestVerified(Pick(next, f, t, blks, start, verifies), blks, verifies)
    decreases |blks|
  {
    if blks != [] {
      AfterIsLeast(heights, start);
      NextIsAfter(next, f, t, heights, start);
      assert Heights(blks)[1..] == Heights(blks[1..]);
      assert blks == [blks[0]] + blks[1..];
      if verifies(blks[0]) {
        PickTakesRun(next, f, t, heights, blks[1..], blks[0].height, verifies);
      }
    }
  }

  /** So the whole list is taken over if and only if all of it verifies. */
  lemma WholeOrBroken(part: seq<CrossShardBlock>, blks: seq<CrossShardBlock>, verifies: CrossShardBlock -> bool)
    requires LongestVerified(part, blks, verifies)
    ensures part == blks <==> forall b | b in blks :: verifies(b)
  {
    if |part| == |blks| {
      assert part == blks;
    } else {
      assert blks[|part|] in blks;
    }
  }

  /** A pool that lacks the next height offers the producer nothing, whatever else it holds. */
  lemma {:induction false} NothingWithoutNext(next: map<Link, nat>, f: nat, t: nat, heights: seq<nat>, blks: seq<CrossShardBlock>, start: nat,
                                              verifies: CrossShardBlock -> bool)
    requires Records(next, f, t, heights) && OnChain(heights, start) && !HasHeight(blks, After(heights, start))
    ensures Pick(next, f, t, blks, start, verifies) == []
    decreases |blks|
  {
    if blks != [] {
      NextIsAfter(next, f, t, heights, start);
      assert blks[0] in blks && forall b | b in blks[1..] :: b in blks;
      NothingWithoutNext(next, f, t, heights, blks[1..], start, verifies);
    }
  }

  // ---------- The verifier's verdict ----------

  /** The transaction has the hash of the height and content of the block. */
  ghost predicate SaysAs(tx: CrossTransaction, b: CrossShardBlock, hash: CrossTransaction -> nat)
  {
    b.height == tx.height && hash(tx) == hash(CrossTransaction(b.height, b.content))
  }

  /** The pool holds a verifying block that says the same as the listed transaction. */
  ghost predicate Backed(blks: seq<CrossShardBlock>, tx: CrossTransaction, verifies: CrossShardBlock -> bool, hash: CrossTransaction -> nat)
  {
    exists b | b in blks :: verifies(b) && SaysAs(tx, b, hash)
  }

  lemma {:induction false} CountIsBounded(next: map<Link, nat>, f: nat, t: nat, blks: seq<CrossShardBlock>, start: nat, txs: seq<CrossTransaction>,
                       verifies: CrossShardBlock -> bool, hash: CrossTransaction -> nat)
    ensures var r := Check(next, f, t, blks, start, txs, verifies, hash); r.Passed? ==> r.count <= |txs|
    decreases |txs|
  {
    if txs != [] {
      var i := FirstAt(blks, txs[0].height);
      CountIsBounded(next, f, t, blks, start, txs[1..], verifies, hash);
      var fetched := Fetch(next, f, t, start);
      if fetched.Found? {
        CountIsBounded(next, f, t, blks[i..], fetched.height, txs[1..], verifies, hash);
      }
    }
  }

  lemma OnlyOneAt(blks: seq<CrossShardBlock>, b: CrossShardBlock)
    requires Sorted(blks) && b in blks
    ensures FirstAt(blks, b.height) < |blks| && blks[FirstAt(blks, b.height)] == b
  {
    var j :| 0 <= j < |blks| && blks[j] == b;
    var i := FirstAt(blks, b.height);
    assert i <= j;
  }

  lemma LaterIsBehind(blks: seq<CrossShardBlock>, i: nat, tx: CrossTransaction, verifies: CrossShardBlock -> bool, hash: CrossTransaction -> nat)
    requires Sorted(blks) && i < |blks| && blks[i].height < tx.height
    ensures Backed(blks[i..], tx, verifies, hash) <==> Backed(blks, tx, verifies, hash)
  {
    assert blks == blks[..i] + blks[i..];
    if Backed(blks, tx, verifies, hash) {
      var b :| b in blks && verifies(b) && SaysAs(tx, b, hash);
      var j :| 0 <= j < |blks| && blks[j] == b;
      assert blks[i..][j - i] == b;
    }
  }

  /** The verifier accepts the transactions of one sending shard exactly when their heights are a gap-free run of the beacon's
      list right after the last consumed height, and the pool backs each of them. */
  lemma {:induction false} VerifierAccepts(next: map<Link, nat>, f: nat, t: nat, heights: seq<nat>, blks: seq<CrossShardBlock>, start: nat,
                                           txs: seq<CrossTransaction>, verifies: CrossShardBlock -> bool, hash: CrossTransaction -> nat)
    requires Ascending(heights) && Records(next, f, t, heights) && OnChain(heights, start) && Sorted(blks)
    ensures Check(next, f, t, blks, start, txs, verifies, hash) == Passed(|txs|) <==>
      (ChainRun(heights, start, TxHeights(txs)) && forall tx | tx in txs :: Backed(blks, tx, verifies, hash))
    decreases |txs|
  {
    if txs != [] {
      var tx, rest := txs[0], txs[1..];
      assert txs == [tx] + rest && TxHeights(txs)[1..] == TxHeights(rest);
      var i := FirstAt(blks, tx.height);
      if i == |blks| {
        CountIsBounded(next, f, t, blks, start, rest, verifies, hash);
        assert !Backed(blks, tx, verifies, hash);
      } else {
        OnlyOneAt(blks, blks[i]);
        HeadBacked(blks, i, tx, verifies, hash);
        NextIsAfter(next, f, t, heights, start);
        AfterIsLeast(heights, start);
        if After(heights, start) == tx.height {
          TailAccepted(next, f, t, heights, blks, i, rest, verifies, hash);
          SliceSorted(blks, i, |blks|);
          assert blks[i..|blks|] == blks[i..];
          VerifierAccepts(next, f, t, heights, blks[i..], tx.height, rest, verifies, hash);
        }
      }
    }
  }

  lemma HeadBacked(blks: seq<CrossShardBlock>, i: nat, tx: CrossTransaction, verifies: CrossShardBlock -> bool, hash: CrossTransaction -> nat)
    requires Sorted(blks) && i < |blks| && blks[i].height == tx.height
    ensures Backed(blks, tx, verifies, hash) <==> (verifies(blks[i]) && hash(tx) == hash(CrossTransaction(blks[i].height, blks[i].content)))
  {
    forall b | b in blks && b.height == tx.height ensures b == blks[i] {
      var j :| 0 <= j < |blks| && blks[j] == b;
    }
    assert blks[i] in blks;
  }

  lemma TailAccepted(next: map<Link, nat>, f: nat, t: nat, heights: seq<nat>, blks: seq<CrossShardBlock>, i: nat, rest: seq<CrossTransaction>,
                     verifies: CrossShardBlock -> bool, hash: CrossTransaction -> nat)
    requires Ascending(heights) && Sorted(blks) && i < |blks|
    ensures ChainRun(heights, blks[i].height, TxHeights(rest)) ==>
      forall tx | tx in rest :: Backed(blks[i..], tx, verifies, hash) <==> Backed(blks, tx, verifies, hash)
  {
    if ChainRun(heights, blks[i].height, TxHeights(rest)) {
      RunHoldsAll(heights, blks[i].height, TxHeights(rest));
      forall tx | tx in rest ensures Backed(blks[i..], tx, verifies, hash) <==> Backed(blks, tx, verifies, hash) {
        assert tx.height in TxHeights(rest) by {
          var k :| 0 <= k < |rest| && rest[k] == tx;
          assert TxHeights(rest)[k] == tx.height;
        }
        LaterIsBehind(blks, i, tx, verifies, hash);
      }
    }
  }

  // ---------- Both sides together ----------

  lemma LimitedToLast(blks: seq<CrossShardBlock>)
    requires Sorted(blks)
    ensures Limited(blks, Last(Heights(blks))) == blks
  {
    LimitedWhole(blks, Last(Heights(blks)));
  }

  lemma {:induction false} LimitedWhole(blks: seq<CrossShardBlock>, limit: nat)
    requires Sorted(blks) && (blks != [] ==> blks[|blks| - 1].height <= limit)
    ensures Limited(blks, limit) == blks
  {
    if blks != [] {
      TailSorted(blks);
      assert blks[0].height <= blks[|blks| - 1].height;
      LimitedWhole(blks[1..], limit);
      assert blks == [blks[0]] + blks[1..];
    }
  }

  /** A list of no transactions passes the loop exactly when the pool has a valid block of that sender. */
  lemma EmptyListPasses(next: map<Link, nat>, f: nat, t: nat, valid: seq<CrossShardBlock>, best: nat,
                        verifies: CrossShardBlock -> bool, hash: CrossTransaction -> nat)
    requires Sorted(valid)
    ensures ShardAccepted(next, f, t, valid, best, [], verifies, hash) <==> valid != []
  {
    LimitedToLast(valid);
  }

  /** Whatever the producer selects, under any limit, the verifier accepts against the same pool and table. */
  lemma ProducedIsAccepted(next: map<Link, nat>, f: nat, t: nat, heights: seq<nat>, valid: seq<CrossShardBlock>, best: nat, limit: nat,
                           verifies: CrossShardBlock -> bool, hash: CrossTransaction -> nat)
    requires Ascending(heights) && Records(next, f, t, heights) && OnChain(heights, best) && Sorted(valid)
    ensures var txs := ExtractAll(Pick(next, f, t, SortByHeight(Limited(valid, limit)), best, verifies));
      txs != [] ==> ShardAccepted(next, f, t, valid, best, txs, verifies, hash)
  {
    LimitedIs(valid, limit);
    SortedIsFixed(Limited(valid, limit));
    LimitedToLast(valid);
    SortedIsFixed(valid);
    var picked := Pick(next, f, t, Limited(valid, limit), best, verifies);
    var txs := ExtractAll(picked);
    PickIsRun(next, f, t, heights, Limited(valid, limit), best, verifies);
    assert TxHeights(txs) == Heights(picked);
    forall tx | tx in txs ensures Backed(valid, tx, verifies, hash) {
      var i :| 0 <= i < |txs| && txs[i] == tx;
      assert picked[i] in picked && picked[i] in valid && SaysAs(tx, picked[i], hash);
    }
    VerifierAccepts(next, f, t, heights, valid, best, txs, verifies, hash);
    if txs != [] { assert txs[0] in txs; }
  }
}
