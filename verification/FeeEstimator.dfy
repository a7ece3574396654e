/** The fee estimator's operations. */
module FeeEstimator {
  import opened Codec
  import opened Lists
  import opened FeeBins
  import opened FeeUndo
  import opened FeeHistory
  import opened FeeRegister
  import opened FeeRuns

  datatype Registration = Done | Gap | AlreadyMined

  datatype Undoing = Undid | NotFound | Panicked

  /** How far below the top of the stack the block lies, counted from one; one more than its height when it is not there. */
  function DepthOf(stack: seq<RegisteredBlock>, hash: Hash): (n: nat)
    ensures 1 <= n <= |stack| + 1
  {
    if stack == [] || stack[|stack| - 1].hash == hash then 1 else 1 + DepthOf(stack[..|stack| - 1], hash)
  }

  /** The block found is the topmost one with the hash. */
  lemma {:induction false} DepthIsTopmost(stack: seq<RegisteredBlock>, hash: Hash)
    ensures var n := DepthOf(stack, hash);
      && (n <= |stack| ==> stack[|stack| - n].hash == hash)
      && forall k | |stack| - n < k < |stack| :: stack[k].hash != hash
  {
    if stack != [] && stack[|stack| - 1].hash != hash {
      var below := stack[..|stack| - 1];
      DepthIsTopmost(below, hash);
      assert forall k | 0 <= k < |below| :: below[k] == stack[k];
    }
  }

  class FeeEstimator {
    const maxRollback: u32
    const binSize: u32
    const maxReplacements: u32
    const minRegisteredBlocks: u32
    var lastKnownHeight: u64
    var numBlocksRegistered: u32
    var observed: map<Hash, Tx>
    var mined: map<Tx, u64>
    var bin: seq<seq<Tx>>
    var cached: Cache
    var dropped: seq<RegisteredBlock>

    function State(): Fees
      reads this
    {
      Fees(lastKnownHeight, numBlocksRegistered, observed, mined, bin, cached, dropped)
    }

    function Params(): Limits
      reads this
    {
      Limits(maxRollback, binSize, maxReplacements, minRegisteredBlocks)
    }

    /** Refills the bins from the dropped list, in its order; each bin is read on from where it was left. */
    method Replace(list: seq<Tx>) returns (panicked: bool, counters: seq<nat>)
      requires Placed(bin, mined) && |bin| == estimateFeeDepth && lastKnownHeight != UnminedHeight
      requires forall o | o in list :: o in mined && SlotIn(mined, o) < estimateFeeDepth && mined[o] != lastKnownHeight
      modifies this`bin, this`mined
      ensures panicked <==> !Room(old(bin), old(mined), lastKnownHeight, list)
      ensures !panicked ==> AllProgress(bin, old(bin), counters, old(mined), lastKnownHeight, [], list)
      ensures !panicked ==> Cleared(mined, old(mined), old(bin), counters, lastKnownHeight)
    {
      ghost var bins, m0, h := bin, mined, lastKnownHeight;
      panicked, counters := false, seq(estimateFeeDepth, _ => 0);
      AllProgressStart(bins, counters, m0, h, list);
      assert list[0..] == list;
      for k := 0 to |list|
        invariant |bin| == |counters| == estimateFeeDepth && !panicked && lastKnownHeight == h
        invariant AllProgress(bin, bins, counters, m0, h, list[k..], list)
        invariant Cleared(mined, m0, bins, counters, h)
      {
        panicked, counters := ReplaceOne(list, k, counters, bins, m0);
        if panicked { return; }
      }
      assert list[|list|..] == [];
      AllProgressEnds(bin, bins, counters, m0, h, list);
    }

    method ReplaceOne(list: seq<Tx>, k: nat, counters: seq<nat>, ghost bins: seq<seq<Tx>>, ghost m0: map<Tx, u64>)
      returns (panicked: bool, counters': seq<nat>)
      requires k < |list| && list[k] in m0 && SlotIn(m0, list[k]) < |bin| && m0[list[k]] != lastKnownHeight
      requires Placed(bins, m0) && lastKnownHeight != UnminedHeight
      requires AllProgress(bin, bins, counters, m0, lastKnownHeight, list[k..], list)
      requires Cleared(mined, m0, bins, counters, lastKnownHeight)
      modifies this`bin, this`mined
      ensures |bin| == |old(bin)|
      ensures panicked ==> !Room(bins, m0, lastKnownHeight, list)
      ensures !panicked ==> AllProgress(bin, bins, counters', m0, lastKnownHeight, list[k + 1..], list)
      ensures !panicked ==> Cleared(mined, m0, bins, counters', lastKnownHeight)
    {
      ghost var before := bin;
      var o := list[k];
      ghost var rest := list[k..];
      assert rest[0] == o && rest[1..] == list[k + 1..];
      MarkKept(mined, m0, bins, counters, lastKnownHeight, o);
      var blocksToConfirm := SlotIn(mined, o);
      ghost var more, all := Of(rest[1..], m0, blocksToConfirm), Of(list, m0, blocksToConfirm);
      assert Of(rest, m0, blocksToConfirm) == [o] + more;
      var b, counter, m;
      panicked, b, counter, m := ReplaceNext(bin[blocksToConfirm], o, counters[blocksToConfirm], mined, lastKnownHeight,
        blocksToConfirm, counters, bins, m0, more, all);
      bin, mined, counters' := bin[blocksToConfirm := b], m, counters[blocksToConfirm := counter];
      if panicked {
        NoRoomIn(bins, m0, lastKnownHeight, list, blocksToConfirm);
      } else {
        AllProgressSteps(before, bin, bins, counters, counters', m0, lastKnownHeight, rest, list, blocksToConfirm);
      }
    }

    /** Goes on through one bin to its next newest entry and puts the dropped transaction there. */
    method ReplaceNext(b: seq<Tx>, o: Tx, start: nat, m: map<Tx, u64>, height: u64, ghost i: nat, ghost counters: seq<nat>,
                       ghost bins: seq<seq<Tx>>, ghost m0: map<Tx, u64>, ghost rest: seq<Tx>, ghost all: seq<Tx>)
      returns (panicked: bool, b': seq<Tx>, counter: nat, m': map<Tx, u64>)
      requires |counters| == |bins| && i < |bins| && counters[i] == start && Placed(bins, m0) && height != UnminedHeight
      requires Progress(b, bins[i], start, m0, height, [o] + rest, all)
      requires Cleared(m, m0, bins, counters, height)
      ensures panicked ==> |all| > CountAt(bins[i], m0, height)
      ensures !panicked ==> Progress(b', bins[i], counter, m0, height, rest, all)
      ensures !panicked ==> Cleared(m', m0, bins, counters[i := counter], height)
    {
      counter, m', b' := start, m, b;
      assert counters == counters[i := start];
      while counter < |b| && Mark(m, b[counter]) != height
        invariant Searching(b, m, i, counter, counters, bins, m0, height, [o] + rest, all)
      {
        SearchingStep(b, m, i, counter, counters, bins, m0, height, [o] + rest, all);
        counter := counter + 1;
      }
      if counter >= |b| {
        SearchFailed(b, m, i, counters, bins, m0, height, [o] + rest, all);
        return true, b', counter, m';
      }
      panicked := false;
      SearchingStep(b, m, i, counter, counters, bins, m0, height, [o] + rest, all);
      assert ([o] + rest)[1..] == rest;
      m' := m - {b[counter]};
      b' := b[counter := o];
      counter := counter + 1;
    }

    /** Takes the remaining newest entries out of one bin, from position `start` on. */
    method Evict(bi: seq<Tx>, start: nat, m: map<Tx, u64>, height: u64, ghost i: nat, ghost counters: seq<nat>,
                 ghost bins: seq<seq<Tx>>, ghost m0: map<Tx, u64>, ghost all: seq<Tx>)
      returns (b: seq<Tx>, m': map<Tx, u64>)
      requires |counters| == |bins| && i < |bins| && counters[i] == start && Placed(bins, m0) && height != UnminedHeight
      requires Progress(bi, bins[i], start, m0, height, [], all)
      requires Cleared(m, m0, bins, counters, height)
      ensures b == Refill(bins[i], m0, height, all)
      ensures Cleared(m', m0, bins, counters[i := |bins[i]|], height)
    {
      var j: nat := start;
      b, m' := bi, m;
      ghost var c: nat := start;
      assert counters == counters[i := start];
      while j < |b|
        invariant Evicting(b, j, m', i, c, counters, bins, m0, height, all)
        decreases |b| - j
      {
        var prev := b[j];
        EvictingStep(b, j, m', i, c, counters, bins, m0, height, all);
        if Mark(m', prev) == height {
          m' := m' - {prev};
          b := b[..j] + b[j + 1..];
        } else {
          j := j + 1;
        }
        c := c + 1;
      }
      SettlingEnds(b, bins[i], c, m0, height, all);
    }

    method EvictAll(start: seq<nat>, ghost bins: seq<seq<Tx>>, ghost m0: map<Tx, u64>, ghost list: seq<Tx>)
      requires |bin| == estimateFeeDepth && Placed(bins, m0) && lastKnownHeight != UnminedHeight
      requires AllProgress(bin, bins, start, m0, lastKnownHeight, [], list)
      requires Cleared(mined, m0, bins, start, lastKnownHeight)
      modifies this`bin, this`mined
      ensures bin == RefillAll(bins, m0, lastKnownHeight, list)
      ensures mined == Unmark(m0, bins, lastKnownHeight)
    {
      ghost var counters: seq<nat> := start;
      assert forall i | 0 <= i < |bin| :: Of([], m0, i) == [];
      for i := 0 to estimateFeeDepth
        invariant |bin| == estimateFeeDepth
        invariant Settled(bin, bins, counters, m0, lastKnownHeight, list, i)
        invariant forall j | i <= j < |bin| :: counters[j] == start[j]
        invariant Cleared(mined, m0, bins, counters, lastKnownHeight)
      {
        var b, m := Evict(bin[i], start[i], mined, lastKnownHeight, i, counters, bins, m0, Of(list, m0, i));
        bin, mined := bin[i := b], m;
        counters := counters[i := |bins[i]|];
      }
      ClearedAll(mined, m0, bins, counters, lastKnownHeight);
    }

    /** Takes back the last registered block. */
    method RollbackLast() returns (panicked: bool)
      requires Valid(State(), Params())
      modifies this
      ensures panicked <==> !CanUndo(old(State()))
      ensures !panicked ==> State() == Undone(old(State()))
    {
      cached := Nothing;
      var last := |dropped| - 1;
      if last == -1 { return false; }
      ghost var s, bins, m0 := old(State()), bin, mined;
      var list := dropped[last].transactions;
      LastIsPlaced(s, Params(), list);
      var counters;
      panicked, counters := Replace(list);
      if panicked { return; }
      EvictAll(counters, bins, m0, list);
      dropped := dropped[..last];
      numBlocksRegistered := (numBlocksRegistered - 1) % TWO32;
      lastKnownHeight := Minus(lastKnownHeight, 1);
      IsUndone(s, State());
    }

    /** Takes back the registered blocks down to and including the given one. */
    method Rollback(hash: Hash) returns (r: Undoing)
      requires Valid(State(), Params())
      modifies this
      ensures var n := DepthOf(old(dropped), hash);
        && (r == NotFound <==> n > |old(dropped)|)
        && (r == NotFound ==> State() == old(State()))
        && (r == Panicked <==> n <= |old(dropped)| && !CanUndoTimes(old(State()), n))
        && (r == Undid ==> State() == UndoneTimes(old(State()), n) && Valid(State(), Params()))
    {
      var n := FindBlock(dropped, hash);
      if n > |dropped| { return NotFound; }
      var panicked := RollbackTimes(n);
      r := if panicked then Panicked else Undid;
    }

    method FindBlock(stack: seq<RegisteredBlock>, hash: Hash) returns (n: nat)
      ensures n == DepthOf(stack, hash)
    {
      n := 1;
      assert stack[..|stack|] == stack;
      while n <= |stack| && stack[|stack| - n].hash != hash
        invariant 1 <= n <= |stack| + 1
        invariant DepthOf(stack, hash) == n - 1 + DepthOf(stack[..|stack| - (n - 1)], hash)
      {
        var rest := stack[..|stack| - (n - 1)];
        assert rest[..|rest| - 1] == stack[..|stack| - n];
        n := n + 1;
      }
    }

    method RollbackTimes(n: nat) returns (panicked: bool)
      requires Valid(State(), Params())
      modifies this
      ensures panicked <==> !CanUndoTimes(old(State()), n)
      ensures !panicked ==> State() == UndoneTimes(old(State()), n) && Valid(State(), Params())
    {
      for i := 0 to n
        invariant Valid(State(), Params())
        invariant CanUndoTimes(old(State()), n) <==> CanUndoTimes(State(), n - i)
        invariant UndoneTimes(old(State()), n) == UndoneTimes(State(), n - i)
      {
        ghost var before := State();
        panicked := RollbackLast();
        if panicked { return; }
        UndoneKeepsValid(before, Params());
      }
      panicked := false;
    }

    constructor (maxRollback: u32, minRegisteredBlocks: u32)
      ensures Params() == Limits(maxRollback, estimateFeeBinSize, estimateFeeMaxReplacements, minRegisteredBlocks)
      ensures State() == Fees(UnminedHeight, 0, map[], map[], seq(estimateFeeDepth, _ => []), Nothing, [])
      ensures Valid(State(), Params())
    {
      this.maxRollback, this.minRegisteredBlocks := maxRollback, minRegisteredBlocks;
      binSize, maxReplacements := estimateFeeBinSize, estimateFeeMaxReplacements;
      lastKnownHeight, numBlocksRegistered := UnminedHeight, 0;
      observed, mined, bin, cached, dropped := map[], map[], seq(estimateFeeDepth, _ => []), Nothing, [];
    }

    /** `hash`, `feeRate` and `height` are read off the mempool's descriptor of the transaction. */
    method ObserveTransaction(hash: Hash, feeRate: u64, height: u64)
      requires Valid(State(), Params())
      modifies this`observed
      ensures State() == Observed(old(State()), hash, feeRate, height) && Valid(State(), Params())
    {
      if lastKnownHeight == UnminedHeight { return; }
      if hash !in observed {
        observed := observed[hash := Tx(hash, feeRate, height)];
      }
    }

    method EstimateFee(numBlocks: u64) returns (r: FeeResult)
      requires Valid(State(), Params())
      modifies this`cached
      ensures r == Answer(old(State()), Params(), numBlocks)
      ensures Asked(old(State()), State()) && Valid(State(), Params())
      ensures r.Fee? ==> cached == Estimated(Estimates(bin))
    {
      if numBlocksRegistered < minRegisteredBlocks { return TooFewBlocks; }
      if numBlocks == 0 { return ZeroBlocks; }
      if numBlocks > estimateFeeDepth { return TooManyBlocks; }
      if cached == Nothing { cached := Estimated(Estimates(bin)); }
      r := Fee(cached.rates[numBlocks - 1]);
    }

    method PlaceOne(o: Tx, height: u64, counts: seq<nat>, list: seq<Tx>, ghost s: Fees, ghost added: set<Tx>)
      returns (r: Registration, counts': seq<nat>, list': seq<Tx>, ghost added': set<Tx>)
      requires Roomy(bin, counts, Params())
      requires Usual(height) ==> Earlier(s.bin, s.mined, binSize, height) && MarksOk(s)
      requires Usual(height) ==> PlacedSoFar(s, bin, mined, Params(), height, counts, added, list)
      requires o.hash in s.observed && s.observed[o.hash] == o
      modifies this`bin, this`mined
      ensures r != Gap && Roomy(bin, counts', Params())
      ensures Usual(height) ==> PlacedSoFar(s, bin, mined, Params(), height, counts', added', list')
      ensures Usual(height) ==> r == if o in s.mined || o in added then AlreadyMined else Done
      ensures Usual(height) && r == Done ==> TreatedSoFar(s, counts', Params(), height, added', o.hash)
      ensures added <= added' <= added + {o}
      ensures |counts'| == |counts| && forall i | 0 <= i < |counts| :: counts[i] <= counts'[i]
    {
      r, counts', list', added' := Done, counts, list, added;
      if Usual(height) { PlacingMarks(s, height, added, o); }
      var blocksToConfirm := Slot(height, o);
      if Mark(mined, o) != UnminedHeight { return AlreadyMined, counts', list', added'; }
      if blocksToConfirm >= estimateFeeDepth { return; }
      if counts[blocksToConfirm] == maxReplacements { return; }
      var b := bin[blocksToConfirm];
      counts' := counts[blocksToConfirm := counts[blocksToConfirm] + 1];
      if |b| == binSize {
        var l := binSize - counts'[blocksToConfirm];
        var drop :| 0 <= drop < l;
        if Usual(height) { MoreReplaced(s, bin, mined, Params(), height, counts, added, list, o, l, drop); }
        list' := list + [b[drop]];
        b := b[drop := b[l - 1]];
        b := b[l - 1 := o];
      } else {
        if Usual(height) { MoreAppended(s, bin, mined, Params(), height, counts, added, list, o); }
        b := b + [o];
      }
      mined := mined[o := height];
      bin := bin[blocksToConfirm := b];
      added' := added + {o};
    }

    method PlaceAll(height: u64, transactions: seq<Hash>, ghost s: Fees)
      returns (r: Registration, list: seq<Tx>, ghost added: set<Tx>)
      requires Roomy(bin, seq(estimateFeeDepth, _ => 0), Params()) && MarksOk(s)
      requires Usual(height) ==> Earlier(s.bin, s.mined, binSize, height)
      requires bin == s.bin && mined == s.mined && observed == s.observed
      modifies this`bin, this`mined
      ensures r != Gap
      ensures Usual(height) ==>
        BinsRegistered(s.bin, s.mined, bin, binSize, height, added, list) && mined == MarkAll(s.mined, added, height)
      ensures Usual(height) ==> forall o | o in added :: Addable(s, height, o)
      ensures Usual(height) ==> FewReplaced(State(), s, Params(), height, list)
      ensures forall o | o in added :: o.hash in transactions
      ensures Usual(height) && r == Done ==> forall h | h in transactions :: Treated(s, State(), Params(), height, added, h)
    {
      var counts: seq<nat> := seq(estimateFeeDepth, _ => 0);
      r, list, added := Done, [], {};
      if Usual(height) { FillingStarts(bin, mined, binSize, height, counts); }
      assert MarkAll(mined, {}, height) == mined;
      var todo := multiset(transactions);
      while todo != multiset{}
        invariant todo <= multiset(transactions) && observed == s.observed
        invariant r == Done && Roomy(bin, counts, Params())
        invariant forall o | o in added :: o.hash in transactions
        invariant Usual(height) ==> PlacedSoFar(s, bin, mined, Params(), height, counts, added, list)
        invariant Usual(height) ==> AllTreated(s, counts, Params(), height, added, transactions, todo)
        decreases |todo|
      {
        var h :| h in todo;
        ghost var counts0, added0, todo0 := counts, added, todo;
        todo := todo - multiset{h};
        if h in observed {
          r, counts, list, added := PlaceOne(observed[h], height, counts, list, s, added);
          if r != Done {
            if Usual(height) { PlacedInTheEnd(s, State(), Params(), height, counts, added, list); }
            return;
          }
        }
        if Usual(height) { MoreTreated(s, counts0, counts, Params(), height, added0, added, transactions, todo0, h); }
      }
      if Usual(height) { PlacedInTheEnd(s, State(), Params(), height, counts, added, list); }
      forall h | Usual(height) && h in transactions ensures Treated(s, State(), Params(), height, added, h) {
        TreatedInTheEnd(s, State(), counts, Params(), height, added, list, h);
      }
    }

    /** Forgets what has been waiting unmined for too long. */
    method Forget(height: u64)
      modifies this`observed
      ensures (forall o | o in mined :: mined[o] != UnminedHeight) ==>
        observed == map h | h in old(observed) && !Stale(mined, old(observed)[h], height) :: old(observed)[h]
    {
      var todo := observed.Keys;
      while todo != {}
        invariant todo <= observed.Keys <= old(observed).Keys
        invariant forall h | h in observed :: observed[h] == old(observed)[h]
        invariant (forall o | o in mined :: mined[o] != UnminedHeight) ==>
          forall h | h in old(observed) && h !in todo :: h in observed <==> !Stale(mined, old(observed)[h], height)
      {
        var h :| h in todo;
        todo := todo - {h};
        var o := observed[h];
        if Mark(mined, o) == UnminedHeight && Minus(height, o.observed) >= estimateFeeDepth {
          observed := observed - {h};
        }
      }
    }

    method Push(rb: RegisteredBlock)
      modifies this`dropped
      ensures dropped == Pushed(old(dropped), rb, maxRollback)
    {
      if maxRollback != 0 {
        if |dropped| == maxRollback {
          dropped := dropped[1..] + [rb];
        } else {
          dropped := dropped + [rb];
        }
      }
    }

    /** `transactions` are the hashes of the block's normal, reward and return-staking transactions. They are taken in any order, and
        any old entry of a full bin may be the one that is dropped. */
    method RegisterBlock(hash: Hash, height: u64, transactions: seq<Hash>)
      returns (r: Registration, ghost added: set<Tx>, ghost list: seq<Tx>)
      requires Valid(State(), Params())
      modifies this
      ensures r == Gap <==> height != old(lastKnownHeight) + 1 && old(lastKnownHeight) != UnminedHeight
      ensures r == Gap ==> State() == old(State()).(cached := Nothing)
      ensures r != Gap ==> Counted(old(State()), State(), height)
      ensures r == AlreadyMined ==> dropped == old(dropped) && observed == old(observed)
      ensures r == Done ==> dropped == Pushed(old(dropped), RegisteredBlock(hash, list), maxRollback)
      ensures forall o | o in added :: o.hash in transactions
      ensures r == Gap || Usual(height) ==> Valid(State(), Params())
      ensures Usual(height) && r == AlreadyMined ==> Partial(old(State()), State(), Params(), height, added, list)
      ensures Usual(height) && r == Done ==> Registered(old(State()), State(), Params(), hash, height, added, list)
      ensures Usual(height) && r != Gap ==> FewReplaced(State(), old(State()), Params(), height, list)
      ensures Usual(height) && r == Done ==> forall h | h in transactions :: Treated(old(State()), State(), Params(), height, added, h)
    {
      added, list := {}, [];
      cached := Nothing;
      if height != lastKnownHeight + 1 && lastKnownHeight != UnminedHeight { return Gap, added, list; }
      ghost var s := old(State());
      var droppedTxs;
      r, droppedTxs, added := PlaceBlock(height, transactions, s);
      list := droppedTxs;
      if r == Done { Complete(hash, height, droppedTxs, s, added); }
    }

    method PlaceBlock(height: u64, transactions: seq<Hash>, ghost s: Fees) returns (r: Registration, list: seq<Tx>, ghost added: set<Tx>)
      requires Valid(s, Params()) && State() == s.(cached := Nothing)
      requires height == lastKnownHeight + 1 || lastKnownHeight == UnminedHeight
      modifies this`lastKnownHeight, this`numBlocksRegistered, this`bin, this`mined
      ensures r != Gap && Counted(s, State(), height)
      ensures Usual(height) ==> Partial(s, State(), Params(), height, added, list) && Valid(State(), Params())
      ensures Usual(height) ==> FewReplaced(State(), s, Params(), height, list)
      ensures Usual(height) && r == Done ==> forall h | h in transactions :: Treated(s, State(), Params(), height, added, h)
      ensures forall o | o in added :: o.hash in transactions
    {
      ValidIsRoomy(s, Params());
      if Usual(height) { ValidIsEarlier(s, Params(), height); }
      lastKnownHeight := height;
      numBlocksRegistered := (numBlocksRegistered + 1) % TWO32;
      r, list, added := PlaceAll(height, transactions, s);
      if Usual(height) { FailedKeepsValid(s, State(), Params(), height, added, list); }
    }

    method Complete(hash: Hash, height: u64, list: seq<Tx>, ghost s: Fees, ghost added: set<Tx>)
      requires Valid(s, Params()) && observed == s.observed && dropped == s.dropped
      requires Usual(height) ==> Partial(s, State(), Params(), height, added, list)
      modifies this`observed, this`dropped
      ensures dropped == Pushed(old(dropped), RegisteredBlock(hash, list), maxRollback)
      ensures Usual(height) ==> Registered(s, State(), Params(), hash, height, added, list) && Valid(State(), Params())
      ensures Usual(height) ==>
        forall h :: Treated(s, old(State()), Params(), height, added, h) ==> Treated(s, State(), Params(), height, added, h)
    {
      ghost var placed := State();
      if Usual(height) { PartialMarks(s, placed, Params(), height, added, list); }
      Forget(height);
      Push(RegisteredBlock(hash, list));
      if Usual(height) { RegisteredFrom(s, placed, State(), Params(), hash, height, added, list); }
    }
  }

  lemma IsUndone(s: Fees, u: Fees)
    requires s.dropped != [] && u.observed == s.observed && u.cached == Nothing
    requires u.bin == RefillAll(s.bin, s.mined, s.lastKnownHeight, LastDropped(s)) && u.mined == Unmark(s.mined, s.bin, s.lastKnownHeight)
    requires u.lastKnownHeight == Minus(s.lastKnownHeight, 1) && u.numBlocksRegistered == (s.numBlocksRegistered - 1) % TWO32
    requires u.dropped == s.dropped[..|s.dropped| - 1]
    ensures u == Undone(s)
  {
  }

  lemma LastIsPlaced(s: Fees, limits: Limits, list: seq<Tx>)
    requires Valid(s, limits) && s.dropped != [] && list == LastDropped(s)
    ensures Placed(s.bin, s.mined) && |s.bin| == estimateFeeDepth && s.lastKnownHeight != UnminedHeight
    ensures forall o | o in list :: o in s.mined && SlotIn(s.mined, o) < estimateFeeDepth && s.mined[o] != s.lastKnownHeight
  {
  }

  /** The heights a chain has: a block at 0 leaves a stack that undoes below 0, one at `UnminedHeight` marks what it mines as unmined. */
  predicate Usual(height: u64)
  {
    0 < height < UnminedHeight
  }

  /** What a block changes for every height, completed or not. */
  ghost predicate Counted(s: Fees, s': Fees, height: u64)
  {
    s'.lastKnownHeight == height && s'.numBlocksRegistered == (s.numBlocksRegistered + 1) % TWO32 && s'.cached == Nothing
  }

  /** A full bin still has an entry that may be replaced. */
  ghost predicate Roomy(bin: seq<seq<Tx>>, counts: seq<nat>, limits: Limits)
  {
    && |bin| == |counts| == estimateFeeDepth && limits.maxReplacements < limits.binSize
    && (forall i | 0 <= i < |bin| :: |bin[i]| <= limits.binSize)
    && (forall i | 0 <= i < |counts| :: counts[i] <= limits.maxReplacements)
  }

  /** Only full bins have given up entries. */
  ghost predicate OnlyFullGaveUp(bin: seq<seq<Tx>>, mined: map<Tx, u64>, list: seq<Tx>, binSize: nat)
  {
    forall o | o in list :: SlotIn(mined, o) < |bin| && |bin[SlotIn(mined, o)]| == binSize
  }

  /** A block puts at most `maxReplacements` transactions into a bin, and only full bins give up entries for them. */
  ghost predicate FewReplaced(s': Fees, s: Fees, limits: Limits, height: u64, list: seq<Tx>)
  {
    && (forall i | 0 <= i < |s'.bin| :: CountAt(s'.bin[i], s'.mined, height) <= limits.maxReplacements)
    && OnlyFullGaveUp(s'.bin, s.mined, list, limits.binSize)
  }

  lemma StillOnlyFull(bin: seq<seq<Tx>>, mined: map<Tx, u64>, list: seq<Tx>, binSize: nat, i: nat, o: Tx)
    requires OnlyFullGaveUp(bin, mined, list, binSize) && i < |bin| && |bin[i]| < binSize
    ensures OnlyFullGaveUp(bin[i := bin[i] + [o]], mined, list, binSize)
  {
  }

  lemma FullGivesUp(s: Fees, bin: seq<seq<Tx>>, mined: map<Tx, u64>, limits: Limits, height: u64, counts: seq<nat>,
                    added: set<Tx>, list: seq<Tx>, o: Tx, l: nat, drop: nat)
    requires Earlier(s.bin, s.mined, limits.binSize, height) && Placing(s, bin, mined, limits, height, counts, added, list)
    requires OnlyFullGaveUp(bin, s.mined, list, limits.binSize) && Slot(height, o) < |bin|
    requires |bin[Slot(height, o)]| == limits.binSize && counts[Slot(height, o)] < limits.binSize
    requires l == |bin[Slot(height, o)]| - (counts[Slot(height, o)] + 1) && drop < l
    ensures var i := Slot(height, o);
      OnlyFullGaveUp(bin[i := Replaced(bin[i], l, drop, o)], s.mined, list + [bin[i][drop]], limits.binSize)
  {
    var i := Slot(height, o);
    assert NewestBehind(bin[i], MarkAll(s.mined, added, height), height, counts[i]);
    VictimIsOld(bin, counts, s.bin, s.mined, limits.binSize, height, added, list, i, bin[i][drop]);
  }

  /** Where placing ends, after its last transaction or at one that is already mined. */
  lemma PlacedInTheEnd(s: Fees, s': Fees, limits: Limits, height: u64, counts: seq<nat>, added: set<Tx>, list: seq<Tx>)
    requires PlacedSoFar(s, s'.bin, s'.mined, limits, height, counts, added, list)
    ensures BinsRegistered(s.bin, s.mined, s'.bin, limits.binSize, height, added, list) && s'.mined == MarkAll(s.mined, added, height)
    ensures forall o | o in added :: Addable(s, height, o)
    ensures FewReplaced(s', s, limits, height, list)
  {
    var bin, mined := s'.bin, s'.mined;
    forall i | 0 <= i < |bin| ensures CountAt(bin[i], mined, height) <= limits.maxReplacements {
      assert NewestBehind(bin[i], MarkAll(s.mined, added, height), height, counts[i]);
    }
  }

  lemma MoreAppended(s: Fees, bin: seq<seq<Tx>>, mined: map<Tx, u64>, limits: Limits, height: u64, counts: seq<nat>,
                     added: set<Tx>, list: seq<Tx>, o: Tx)
    requires Earlier(s.bin, s.mined, limits.binSize, height) && MarksOk(s) && height != UnminedHeight
    requires PlacedSoFar(s, bin, mined, limits, height, counts, added, list)
    requires Addable(s, height, o) && o !in added
    requires |bin[Slot(height, o)]| < limits.binSize && counts[Slot(height, o)] < limits.maxReplacements
    ensures var i := Slot(height, o);
      PlacedSoFar(s, bin[i := bin[i] + [o]], mined[o := height], limits, height, counts[i := counts[i] + 1], added + {o}, list)
  {
    PlacingAppends(s, bin, mined, limits, height, counts, added, list, o);
    StillOnlyFull(bin, s.mined, list, limits.binSize, Slot(height, o), o);
  }

  lemma MoreReplaced(s: Fees, bin: seq<seq<Tx>>, mined: map<Tx, u64>, limits: Limits, height: u64, counts: seq<nat>,
                     added: set<Tx>, list: seq<Tx>, o: Tx, l: nat, drop: nat)
    requires Earlier(s.bin, s.mined, limits.binSize, height) && MarksOk(s) && height != UnminedHeight
    requires PlacedSoFar(s, bin, mined, limits, height, counts, added, list)
    requires Addable(s, height, o) && o !in added && counts[Slot(height, o)] < limits.maxReplacements
    requires |bin[Slot(height, o)]| == limits.binSize && counts[Slot(height, o)] < limits.binSize
    requires l == |bin[Slot(height, o)]| - (counts[Slot(height, o)] + 1) && drop < l
    ensures var i := Slot(height, o);
      PlacedSoFar(s, bin[i := Replaced(bin[i], l, drop, o)], mined[o := height], limits, height, counts[i := counts[i] + 1],
        added + {o}, list + [bin[i][drop]])
  {
    PlacingReplaces(s, bin, mined, limits, height, counts, added, list, o, l, drop);
    FullGivesUp(s, bin, mined, limits, height, counts, added, list, o, l, drop);
  }

  lemma ValidIsRoomy(s: Fees, limits: Limits)
    requires Valid(s, limits)
    ensures Roomy(s.bin, seq(estimateFeeDepth, _ => 0), limits)
  {
  }

  lemma PartialMarks(s: Fees, s': Fees, limits: Limits, height: u64, added: set<Tx>, list: seq<Tx>)
    requires Valid(s, limits) && Partial(s, s', limits, height, added, list)
    ensures forall o | o in s'.mined :: s'.mined[o] != UnminedHeight
  {
  }

  /** Forgetting and pushing complete what placing began. */
  lemma RegisteredFrom(s: Fees, placed: Fees, s': Fees, limits: Limits, hash: Hash, height: u64, added: set<Tx>, list: seq<Tx>)
    requires Valid(s, limits) && Partial(s, placed, limits, height, added, list)
    requires placed.observed == s.observed && placed.dropped == s.dropped
    requires s' == placed.(observed := s'.observed, dropped := s'.dropped)
    requires s'.observed == (map h | h in s.observed && !Stale(placed.mined, s.observed[h], height) :: s.observed[h])
    requires s'.dropped == Pushed(s.dropped, RegisteredBlock(hash, list), limits.maxRollback)
    ensures Registered(s, s', limits, hash, height, added, list) && Valid(s', limits)
    ensures forall h :: Treated(s, placed, limits, height, added, h) ==> Treated(s, s', limits, height, added, h)
  {
    RegisteredKeepsValid(s, s', limits, hash, height, added, list);
  }

  /** The bins and marks are those of a partly placed block. */
  ghost predicate Placing(s: Fees, bin: seq<seq<Tx>>, mined: map<Tx, u64>, limits: Limits, height: u64, counts: seq<nat>,
                          added: set<Tx>, list: seq<Tx>)
  {
    && Filling(bin, counts, s.bin, s.mined, limits.binSize, height, added, list)
    && mined == MarkAll(s.mined, added, height)
    && (forall o | o in added :: Addable(s, height, o))
    && (forall i | 0 <= i < |counts| :: counts[i] <= limits.maxReplacements)
  }

  ghost predicate PlacedSoFar(s: Fees, bin: seq<seq<Tx>>, mined: map<Tx, u64>, limits: Limits, height: u64, counts: seq<nat>,
                              added: set<Tx>, list: seq<Tx>)
  {
    Placing(s, bin, mined, limits, height, counts, added, list) && OnlyFullGaveUp(bin, s.mined, list, limits.binSize)
  }

  lemma PlacingMarks(s: Fees, height: u64, added: set<Tx>, o: Tx)
    requires height != UnminedHeight && MarksOk(s)
    ensures Mark(MarkAll(s.mined, added, height), o) == UnminedHeight <==> o !in s.mined && o !in added
    ensures MarkAll(s.mined, added, height)[o := height] == MarkAll(s.mined, added + {o}, height)
  {
  }

  /** `Treated`, as far as the counts of a partly placed block tell. */
  ghost predicate TreatedSoFar(s: Fees, counts: seq<nat>, limits: Limits, height: u64, added: set<Tx>, h: Hash)
  {
    h in s.observed ==>
      var o := s.observed[h];
      && o !in s.mined
      && (o in added || Slot(height, o) >= estimateFeeDepth
        || (Slot(height, o) < |counts| && counts[Slot(height, o)] == limits.maxReplacements))
  }

  ghost predicate AllTreated(s: Fees, counts: seq<nat>, limits: Limits, height: u64, added: set<Tx>, hashes: seq<Hash>, todo: multiset<Hash>)
  {
    && (forall o | o in added :: o.hash in hashes)
    && (forall h | h in hashes && h !in todo :: TreatedSoFar(s, counts, limits, height, added, h))
  }

  lemma MoreTreated(s: Fees, counts: seq<nat>, counts': seq<nat>, limits: Limits, height: u64, added: set<Tx>, added': set<Tx>,
                    hashes: seq<Hash>, todo: multiset<Hash>, h: Hash)
    requires AllTreated(s, counts, limits, height, added, hashes, todo) && h in todo && h in hashes && MarksOk(s)
    requires TreatedSoFar(s, counts', limits, height, added', h)
    requires added <= added' && forall o | o in added' - added :: o.hash == h
    requires |counts'| == |counts| && forall i | 0 <= i < |counts| :: counts[i] <= counts'[i] <= limits.maxReplacements
    ensures AllTreated(s, counts', limits, height, added', hashes, todo - multiset{h})
  {
    forall o | o in added' ensures o.hash in hashes { assert o in added || o in added' - added; }
    forall g | g in hashes && g !in todo - multiset{h} ensures TreatedSoFar(s, counts', limits, height, added', g) {
      if g != h { assert g !in todo; }
    }
  }

  lemma TreatedInTheEnd(s: Fees, s': Fees, counts: seq<nat>, limits: Limits, height: u64, added: set<Tx>, list: seq<Tx>, h: Hash)
    requires Placing(s, s'.bin, s'.mined, limits, height, counts, added, list)
    requires TreatedSoFar(s, counts, limits, height, added, h)
    ensures Treated(s, s', limits, height, added, h)
  {
    if h in s.observed && Slot(height, s.observed[h]) < |counts| {
      var i := Slot(height, s.observed[h]);
      assert NewestBehind(s'.bin[i], MarkAll(s.mined, added, height), height, counts[i]);
    }
  }

  lemma PlacingAppends(s: Fees, bin: seq<seq<Tx>>, mined: map<Tx, u64>, limits: Limits, height: u64, counts: seq<nat>,
                       added: set<Tx>, list: seq<Tx>, o: Tx)
    requires Earlier(s.bin, s.mined, limits.binSize, height) && MarksOk(s) && height != UnminedHeight
    requires Placing(s, bin, mined, limits, height, counts, added, list)
    requires Addable(s, height, o) && o !in added
    requires |bin[Slot(height, o)]| < limits.binSize && counts[Slot(height, o)] < limits.maxReplacements
    ensures var i := Slot(height, o);
      Placing(s, bin[i := bin[i] + [o]], mined[o := height], limits, height, counts[i := counts[i] + 1], added + {o}, list)
  {
    BinsAppended(bin, counts, s.bin, s.mined, limits.binSize, height, added, list, o);
    PlacingMarks(s, height, added, o);
  }

  lemma PlacingReplaces(s: Fees, bin: seq<seq<Tx>>, mined: map<Tx, u64>, limits: Limits, height: u64, counts: seq<nat>,
                        added: set<Tx>, list: seq<Tx>, o: Tx, l: nat, drop: nat)
    requires Earlier(s.bin, s.mined, limits.binSize, height) && MarksOk(s) && height != UnminedHeight
    requires Placing(s, bin, mined, limits, height, counts, added, list)
    requires Addable(s, height, o) && o !in added && counts[Slot(height, o)] < limits.maxReplacements
    requires l == |bin[Slot(height, o)]| - (counts[Slot(height, o)] + 1) && drop < l
    ensures var i := Slot(height, o);
      Placing(s, bin[i := Replaced(bin[i], l, drop, o)], mined[o := height], limits, height, counts[i := counts[i] + 1], added + {o},
        list + [bin[i][drop]])
  {
    BinsReplaced(bin, counts, s.bin, s.mined, limits.binSize, height, added, list, o, l, drop);
    PlacingMarks(s, height, added, o);
  }

  /** An observed, unmined transaction that waited less than 25 blocks is added, unless its bin had taken in its share. */
  ghost predicate Treated(s: Fees, s': Fees, limits: Limits, height: u64, added: set<Tx>, h: Hash)
  {
    h in s.observed ==>
      var o := s.observed[h];
      && o !in s.mined
      && (o in added || Slot(height, o) >= estimateFeeDepth
        || (Slot(height, o) < |s'.bin| && CountAt(s'.bin[Slot(height, o)], s'.mined, height) == limits.maxReplacements))
  }
}
