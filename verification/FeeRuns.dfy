/** Several registered blocks and as many undos. */
module FeeRuns {
  import opened Codec
  import opened Lists
  import opened FeeBins
  import opened FeeHistory

  ghost function UndoneTimes(s: Fees, n: nat): Fees
    decreases n
  {
    if n == 0 then s else UndoneTimes(Undone(s), n - 1)
  }

  /** No undo on the way panics. */
  ghost predicate CanUndoTimes(s: Fees, n: nat)
    decreases n
  {
    n == 0 || (CanUndo(s) && CanUndoTimes(Undone(s), n - 1))
  }

  lemma {:induction false} UndoTimesKeepValid(s: Fees, limits: Limits, n: nat)
    requires Valid(s, limits) && CanUndoTimes(s, n)
    ensures Valid(UndoneTimes(s, n), limits)
    decreases n
  {
    if n > 0 {
      UndoneKeepsValid(s, limits);
      UndoTimesKeepValid(Undone(s), limits, n - 1);
    }
  }

  // ---------- Undo sees only what `Same` compares ----------

  lemma SameBinsSomewhere(a: seq<seq<Tx>>, b: seq<seq<Tx>>, o: Tx)
    requires |a| == |b| && forall i | 0 <= i < |a| :: SameMembers(a[i], b[i])
    ensures InSomeBin(a, o) <==> InSomeBin(b, o)
  {
    if InSomeBin(a, o) {
      var i :| 0 <= i < |a| && o in a[i];
      assert SameMembers(a[i], b[i]) && o in b[i];
    }
    if InSomeBin(b, o) {
      var i :| 0 <= i < |b| && o in b[i];
      assert SameMembers(a[i], b[i]) && o in a[i];
    }
  }

  lemma SameRoom(a: Fees, b: Fees, list: seq<Tx>)
    requires Same(a, b) && Room(b.bin, b.mined, b.lastKnownHeight, list)
    ensures Room(a.bin, a.mined, a.lastKnownHeight, list)
  {
    forall i | 0 <= i < |a.bin| ensures |Of(list, a.mined, i)| <= CountAt(a.bin[i], a.mined, a.lastKnownHeight) {
      SameCount(a.bin[i], b.bin[i], a.mined, a.lastKnownHeight);
    }
  }

  lemma SameUndoneMarks(a: Fees, b: Fees)
    requires Same(a, b)
    ensures Unmark(a.mined, a.bin, a.lastKnownHeight) == Unmark(b.mined, b.bin, b.lastKnownHeight)
  {
    forall o ensures InSomeBin(a.bin, o) <==> InSomeBin(b.bin, o) {
      SameBinsSomewhere(a.bin, b.bin, o);
    }
  }

  lemma UndoRespectsSame(a: Fees, b: Fees, limits: Limits)
    requires Valid(a, limits) && Valid(b, limits) && Same(a, b)
    requires a.dropped != [] && b.dropped != [] && LastDropped(a) == LastDropped(b) && CanUndo(b)
    ensures CanUndo(a) && Same(Undone(a), Undone(b))
  {
    var list := LastDropped(a);
    SameRoom(a, b, list);
    UndoneBins(a, limits);
    UndoneBins(b, limits);
    SameUndoneMarks(a, b);
    SameUndoneBins(a, b, list, Undone(a), Undone(b));
  }

  lemma SameUndoneBins(a: Fees, b: Fees, list: seq<Tx>, ua: Fees, ub: Fees)
    requires Same(a, b) && BinsUndone(a, list, ua) && BinsUndone(b, list, ub)
    ensures |ua.bin| == |ub.bin| && forall i | 0 <= i < |ua.bin| :: SameMembers(ua.bin[i], ub.bin[i])
  {
    forall i | 0 <= i < |ua.bin| ensures SameMembers(ua.bin[i], ub.bin[i]) {
      assert SameMembers(a.bin[i], b.bin[i]);
      assert BinUndone(a.bin[i], a.mined, a.lastKnownHeight, list, i, ua.bin[i]);
      assert BinUndone(b.bin[i], b.mined, b.lastKnownHeight, list, i, ub.bin[i]);
    }
  }

  // ---------- What happens between two blocks ----------

  /** A transaction seen in the mempool: recorded once, and only after a first block. */
  function Observed(s: Fees, hash: Hash, feeRate: u64, height: u64): Fees
  {
    if s.lastKnownHeight == UnminedHeight || hash in s.observed then s
    else s.(observed := s.observed[hash := Tx(hash, feeRate, height)])
  }

  /** The first observation of a hash counts, and none before the first block. */
  lemma ObservedExactly(s: Fees, hash: Hash, feeRate: u64, height: u64, h: Hash)
    ensures var s' := Observed(s, hash, feeRate, height);
      && (h in s'.observed <==> h in s.observed || (h == hash && s.lastKnownHeight != UnminedHeight))
      && (h in s.observed ==> s'.observed[h] == s.observed[h])
      && (h in s'.observed && h !in s.observed ==> s'.observed[h] == Tx(hash, feeRate, height))
  {
  }

  /** An estimate may fill the cache. */
  ghost predicate Asked(s: Fees, s': Fees)
  {
    s' == s || s' == s.(cached := Estimated(Estimates(s.bin)))
  }

  /** One call of the estimator's operations. A refused block only empties the cache; a half-way failure leaves the block's
      height and the transactions placed so far, but no entry on the stack. */
  datatype Call =
    | Register(hash: Hash, height: u64, added: set<Tx>, dropped: seq<Tx>)
    | RollBack(blocks: nat)
    | FailHalfway(height: u64, added: set<Tx>, dropped: seq<Tx>)
    | Refused
    | Observe(hash: Hash, feeRate: u64, height: u64)
    | Estimate

  ghost predicate Called(s: Fees, s': Fees, limits: Limits, call: Call)
  {
    match call
    case Register(hash, height, added, dropped) => Registered(s, s', limits, hash, height, added, dropped)
    case RollBack(blocks) => blocks <= |s.dropped| && CanUndoTimes(s, blocks) && s' == UndoneTimes(s, blocks)
    case FailHalfway(height, added, dropped) =>
      Partial(s, s', limits, height, added, dropped) && s'.dropped == s.dropped && s'.observed == s.observed
    case Refused => s' == s.(cached := Nothing)
    case Observe(hash, feeRate, height) => s' == Observed(s, hash, feeRate, height)
    case Estimate => Asked(s, s')
  }

  predicate LeavesBins(call: Call)
  {
    call.Refused? || call.Observe? || call.Estimate?
  }

  /** Observing and asking, and a refused block, leave what an undo reads and restores. */
  lemma OtherCallsLeave(s: Fees, s': Fees, limits: Limits, call: Call)
    requires Valid(s, limits) && Called(s, s', limits, call) && LeavesBins(call)
    ensures Valid(s', limits) && s' == s.(observed := s'.observed, cached := s'.cached)
  {
    if call.Observe? {
      ObservedKeepsMarks(s, call.hash, call.feeRate, call.height);
    }
    ValidWith(s, limits, s'.observed, s'.cached);
  }

  lemma ObservedKeepsMarks(s: Fees, hash: Hash, feeRate: u64, height: u64)
    requires MarksOk(s)
    ensures MarksOk(Observed(s, hash, feeRate, height))
  {
  }

  lemma ValidWith(s: Fees, limits: Limits, observed: map<Hash, Tx>, cached: Cache)
    requires Valid(s, limits)
    ensures var s' := s.(observed := observed, cached := cached); MarksOk(s') && CacheOk(s') ==> Valid(s', limits)
  {
  }

  // ---------- A chain of calls ----------

  /** Each state comes from the one before it by one call; a first block was registered before them all. */
  ghost predicate Chain(states: seq<Fees>, calls: seq<Call>, limits: Limits)
  {
    && |states| == |calls| + 1 && Valid(states[0], limits) && states[0].lastKnownHeight != UnminedHeight
    && forall i | 0 <= i < |calls| :: Called(states[i], states[i + 1], limits, calls[i])
  }

  function Change(call: Call): int
  {
    if call.Register? then 1 else if call.RollBack? then 0 - call.blocks else 0
  }

  /** How many more blocks are registered after the calls than before them. */
  function Net(calls: seq<Call>): int
  {
    if calls == [] then 0 else Net(calls[..|calls| - 1]) + Change(calls[|calls| - 1])
  }

  /** The calls never go back below where they began, never more than `maxRollback` blocks beyond it, and none fails half-way. */
  ghost predicate Within(calls: seq<Call>, maxRollback: nat)
  {
    && (forall j | 0 <= j <= |calls| :: 0 <= Net(calls[..j]) <= maxRollback)
    && (forall j | 0 <= j < |calls| :: !calls[j].FailHalfway?)
  }

  lemma {:induction false} ChainIsValid(states: seq<Fees>, calls: seq<Call>, limits: Limits, i: nat)
    requires Chain(states, calls, limits) && i < |states|
    ensures Valid(states[i], limits) && states[i].lastKnownHeight != UnminedHeight
  {
    if i > 0 {
      var k := i - 1;
      ChainIsValid(states, calls, limits, k);
      CallKeepsValid(states[k], states[k + 1], limits, calls[k]);
    }
  }

  lemma CallKeepsValid(s: Fees, s': Fees, limits: Limits, call: Call)
    requires Valid(s, limits) && Called(s, s', limits, call) && s.lastKnownHeight != UnminedHeight
    ensures Valid(s', limits) && s'.lastKnownHeight != UnminedHeight
  {
    match call
    case Register(hash, height, added, dropped) => RegisteredKeepsValid(s, s', limits, hash, height, added, dropped);
    case RollBack(blocks) =>
      UndoTimesKeepValid(s, limits, blocks);
      UndoTimesKeepMined(s, limits, blocks);
    case FailHalfway(height, added, dropped) => FailedKeepsValid(s, s', limits, height, added, dropped);
    case _ => OtherCallsLeave(s, s', limits, call);
  }

  lemma {:induction false} UndoTimesKeepMined(s: Fees, limits: Limits, n: nat)
    requires Valid(s, limits) && CanUndoTimes(s, n) && s.lastKnownHeight != UnminedHeight
    ensures UndoneTimes(s, n).lastKnownHeight != UnminedHeight
    decreases n
  {
    if n > 0 {
      UndoneKeepsValid(s, limits);
      UndoTimesKeepMined(Undone(s), limits, n - 1);
    }
  }

  /** The same `n` newest entries on both stacks. */
  ghost predicate SameTop(a: seq<RegisteredBlock>, b: seq<RegisteredBlock>, n: nat)
  {
    n <= |a| && n <= |b| && a[|a| - n..] == b[|b| - n..]
  }

  lemma TopPopped(a: seq<RegisteredBlock>, b: seq<RegisteredBlock>, n: nat)
    requires SameTop(a, b, n + 1)
    ensures a[|a| - 1] == b[|b| - 1] && SameTop(a[..|a| - 1], b[..|b| - 1], n)
  {
    var ta, tb := a[|a| - (n + 1)..], b[|b| - (n + 1)..];
    assert a[|a| - 1] == ta[n] && b[|b| - 1] == tb[n];
    assert a[..|a| - 1][|a| - 1 - n..] == ta[..n] && b[..|b| - 1][|b| - 1 - n..] == tb[..n];
  }

  /** `a` is where the estimator was at `s`, and has its `left` newest entries of the stack. */
  ghost predicate BackAt(a: Fees, s: Fees, limits: Limits, left: nat)
  {
    Valid(a, limits) && Valid(s, limits) && Same(a, s) && SameTop(a.dropped, s.dropped, left)
  }

  /** `n` blocks can be taken back from `a`, and that leads where it leads from `s`. */
  ghost predicate SameUndone(a: Fees, s: Fees, limits: Limits, n: nat)
  {
    CanUndoTimes(a, n) && CanUndoTimes(s, n) && BackAt(UndoneTimes(a, n), UndoneTimes(s, n), limits, 0)
  }

  /** Undoing sees no difference between two such states. */
  lemma {:induction false} UndoTimesRespectSame(a: Fees, s: Fees, limits: Limits, n: nat)
    requires BackAt(a, s, limits, n) && CanUndoTimes(s, n)
    ensures SameUndone(a, s, limits, n)
    decreases n
  {
    if n > 0 {
      var left: nat := n - 1;
      FirstUndo(s, n);
      UndoOnceRespectsSame(a, s, limits, left);
      UndoTimesRespectSame(Undone(a), Undone(s), limits, left);
      OneMoreUndo(a, s, limits, left);
    }
  }

  lemma OneMoreUndo(a: Fees, s: Fees, limits: Limits, n: nat)
    requires CanUndo(a) && CanUndo(s) && SameUndone(Undone(a), Undone(s), limits, n)
    ensures SameUndone(a, s, limits, n + 1)
  {
    FirstUndo(a, n + 1);
    FirstUndo(s, n + 1);
  }

  lemma FirstUndo(s: Fees, n: nat)
    requires n > 0
    ensures UndoneTimes(s, n) == UndoneTimes(Undone(s), n - 1)
    ensures CanUndoTimes(s, n) <==> CanUndo(s) && CanUndoTimes(Undone(s), n - 1)
  {
  }

  lemma UndoOnceRespectsSame(a: Fees, s: Fees, limits: Limits, left: nat)
    requires BackAt(a, s, limits, left + 1) && CanUndo(s)
    ensures CanUndo(a) && BackAt(Undone(a), Undone(s), limits, left)
  {
    TopPopped(a.dropped, s.dropped, left);
    UndoRespectsSame(a, s, limits);
    UndoneKeepsValid(a, limits);
    UndoneKeepsValid(s, limits);
  }

  lemma {:induction false} UndoTimesAdd(s: Fees, m: nat, n: nat)
    ensures UndoneTimes(s, m + n) == UndoneTimes(UndoneTimes(s, m), n)
    ensures CanUndoTimes(s, m + n) <==> CanUndoTimes(s, m) && CanUndoTimes(UndoneTimes(s, m), n)
    decreases m
  {
    if m > 0 { UndoTimesAdd(Undone(s), m - 1, n); }
  }

  lemma {:induction false} UndoTimesPop(s: Fees, n: nat)
    requires n <= |s.dropped|
    ensures |UndoneTimes(s, n).dropped| == |s.dropped| - n
    decreases n
  {
    if n > 0 { UndoTimesPop(Undone(s), n - 1); }
  }

  lemma SameThrough(a: Fees, b: Fees, c: Fees)
    requires Same(a, b) && Same(b, c)
    ensures Same(a, c)
  {
    forall i | 0 <= i < |a.bin| ensures SameMembers(a.bin[i], c.bin[i]) {
      assert SameMembers(a.bin[i], b.bin[i]) && SameMembers(b.bin[i], c.bin[i]);
    }
  }

  /** Taking back `n` blocks from `s` leads back to `start`. */
  ghost predicate LeadsBack(s: Fees, start: Fees, limits: Limits, n: int)
  {
    && 0 <= n <= |s.dropped| && CanUndoTimes(s, n)
    && Valid(UndoneTimes(s, n), limits) && Same(UndoneTimes(s, n), start)
  }

  lemma RegisterLeadsBack(s: Fees, s': Fees, start: Fees, limits: Limits, n: nat,
                          hash: Hash, height: u64, added: set<Tx>, dropped: seq<Tx>)
    requires LeadsBack(s, start, limits, n) && n < limits.maxRollback
    requires Valid(s, limits) && s.lastKnownHeight != UnminedHeight && Registered(s, s', limits, hash, height, added, dropped)
    ensures LeadsBack(s', start, limits, n + 1)
  {
    UndoRestores(s, s', limits, hash, height, added, dropped);
    RegisteredKeepsValid(s, s', limits, hash, height, added, dropped);
    UndoneKeepsValid(s', limits);
    PushedTop(s.dropped, RegisteredBlock(hash, dropped), limits.maxRollback, n);
    UndoTimesRespectSame(Undone(s'), s, limits, n);
    SameThrough(UndoneTimes(Undone(s'), n), UndoneTimes(s, n), start);
    FirstUndo(s', n + 1);
  }

  lemma PushedTop(stack: seq<RegisteredBlock>, rb: RegisteredBlock, max: u32, n: nat)
    requires n <= |stack| <= max && n < max
    ensures var pushed := Pushed(stack, rb, max);
      |pushed| >= n + 1 && SameTop(pushed[..|pushed| - 1], stack, n)
  {
    var pushed := Pushed(stack, rb, max);
    var popped := pushed[..|pushed| - 1];
    if |stack| == max {
      assert popped == stack[1..];
      assert popped[|popped| - n..] == stack[|stack| - n..];
    } else {
      assert popped == stack;
    }
  }

  lemma RollBackLeadsBack(s: Fees, start: Fees, limits: Limits, n: nat, blocks: nat)
    requires LeadsBack(s, start, limits, n) && blocks <= n
    ensures LeadsBack(UndoneTimes(s, blocks), start, limits, n - blocks)
  {
    var left: nat := n - blocks;
    UndoTimesAdd(s, blocks, left);
    UndoTimesPop(s, blocks);
    assert LeadsBack(UndoneTimes(s, blocks), start, limits, left);
  }

  lemma OtherLeadsBack(s: Fees, s': Fees, start: Fees, limits: Limits, n: nat, call: Call)
    requires LeadsBack(s, start, limits, n) && Valid(s, limits) && Called(s, s', limits, call) && LeavesBins(call)
    ensures LeadsBack(s', start, limits, n)
  {
    OtherCallsLeave(s, s', limits, call);
    SameAsItself(s', s, limits);
    UndoTimesRespectSame(s', s, limits, n);
    SameThrough(UndoneTimes(s', n), UndoneTimes(s, n), start);
  }

  lemma SameAsItself(a: Fees, s: Fees, limits: Limits)
    requires Valid(a, limits) && Valid(s, limits) && a == s.(observed := a.observed, cached := a.cached)
    ensures Same(a, s) && forall n: nat | n <= |s.dropped| :: SameTop(a.dropped, s.dropped, n)
  {
    forall i | 0 <= i < |a.bin| ensures SameMembers(a.bin[i], s.bin[i]) {}
  }

  lemma CallLeadsBack(s: Fees, s': Fees, start: Fees, limits: Limits, n: nat, call: Call, n': int)
    requires Valid(s, limits) && s.lastKnownHeight != UnminedHeight && Called(s, s', limits, call) && !call.FailHalfway?
    requires LeadsBack(s, start, limits, n)
    requires n' == n + Change(call) && 0 <= n' <= limits.maxRollback
    ensures LeadsBack(s', start, limits, n')
  {
    match call
    case Register(hash, height, added, dropped) => RegisterLeadsBack(s, s', start, limits, n, hash, height, added, dropped);
    case RollBack(blocks) => RollBackLeadsBack(s, start, limits, n, blocks);
    case _ => OtherLeadsBack(s, s', start, limits, n, call);
  }

  lemma {:induction false} ChainLeadsBack(states: seq<Fees>, calls: seq<Call>, limits: Limits, j: nat)
    requires Chain(states, calls, limits) && Within(calls, limits.maxRollback) && j <= |calls|
    ensures LeadsBack(states[j], states[0], limits, Net(calls[..j]))
  {
    if j == 0 {
      SameAsItself(states[0], states[0], limits);
    } else {
      var k := j - 1;
      ChainLeadsBack(states, calls, limits, k);
      ChainIsValid(states, calls, limits, k);
      assert calls[..j][..k] == calls[..k];
      assert 0 <= Net(calls[..j]) <= limits.maxRollback;
      CallLeadsBack(states[k], states[j], states[0], limits, Net(calls[..k]), calls[k], Net(calls[..j]));
    }
  }

  lemma LaterChain(states: seq<Fees>, calls: seq<Call>, limits: Limits, i: nat)
    requires Chain(states, calls, limits) && i <= |calls|
    ensures Chain(states[i..], calls[i..], limits)
  {
    ChainIsValid(states, calls, limits, i);
    var later, rest := states[i..], calls[i..];
    forall k | 0 <= k < |rest| ensures Called(later[k], later[k + 1], limits, rest[k]) {
      var j := i + k;
      assert Called(states[j], states[j + 1], limits, calls[j]);
    }
  }

  /** Whatever is registered, rolled back, observed and asked since some state: as long as the calls never go back below it nor
      more than `maxRollback` blocks beyond it, taking back the blocks that are left of them never panics and restores that
      state's bins as multisets, all mined marks, the last known height and the number of registered blocks. */
  lemma RollbackRestores(states: seq<Fees>, calls: seq<Call>, limits: Limits, i: nat)
    requires Chain(states, calls, limits) && i <= |calls| && Within(calls[i..], limits.maxRollback)
    ensures LeadsBack(states[|calls|], states[i], limits, Net(calls[i..]))
  {
    LaterChain(states, calls, limits, i);
    ChainLeadsBack(states[i..], calls[i..], limits, |calls| - i);
    assert calls[i..][..|calls| - i] == calls[i..];
  }

  lemma RestoredMultisets(states: seq<Fees>, calls: seq<Call>, limits: Limits, i: nat)
    requires Chain(states, calls, limits) && i <= |calls| && Within(calls[i..], limits.maxRollback)
    ensures var n := Net(calls[i..]);
      && n >= 0
      && var u, s := UndoneTimes(states[|calls|], n), states[i];
      && u.mined == s.mined && u.lastKnownHeight == s.lastKnownHeight && u.numBlocksRegistered == s.numBlocksRegistered
      && |u.bin| == |s.bin|
      && forall b | 0 <= b < |u.bin| :: multiset(u.bin[b]) == multiset(s.bin[b])
  {
    RollbackRestores(states, calls, limits, i);
    var u, s := UndoneTimes(states[|calls|], Net(calls[i..])), states[i];
    forall b | 0 <= b < |u.bin| ensures multiset(u.bin[b]) == multiset(s.bin[b]) {
      SameMultiset(u.bin[b], s.bin[b]);
    }
  }

  // ---------- A block that fails half-way ----------

  /** The transactions that a block of this height put into bin `i`. */
  ghost function AddedTo(added: set<Tx>, height: u64, i: nat): set<Tx>
  {
    set o | o in added && Slot(height, o) == i
  }

  /** A block that stops at an already mined transaction has moved the height and pushed nothing. Taking back the block below
      it then panics exactly when, in some bin, that block had dropped more than the failed one has added. */
  lemma UndoAfterFailedBlock(s: Fees, s': Fees, limits: Limits, height: u64, added: set<Tx>, dropped: seq<Tx>)
    requires Valid(s, limits) && Partial(s, s', limits, height, added, dropped)
    requires s'.dropped == s.dropped != []
    ensures CanUndo(s') <==>
      forall i | 0 <= i < estimateFeeDepth :: |Of(LastDropped(s), s.mined, i)| <= |AddedTo(added, height, i)|
  {
    var list := LastDropped(s);
    forall o | o in list ensures Mark(s.mined, o) == Mark(s'.mined, o) {
      assert o in s.dropped[|s.dropped| - 1].transactions;
      NotAdded(s, height, added, o);
    }
    forall i | 0 <= i < estimateFeeDepth
      ensures Of(list, s'.mined, i) == Of(list, s.mined, i)
      ensures CountAt(s'.bin[i], s'.mined, height) == |AddedTo(added, height, i)|
    {
      OfSameMarks(list, s.mined, s'.mined, i);
      NewestAreAdded(s, s', limits, height, added, dropped, i);
    }
  }

  lemma NewestAreAdded(s: Fees, s': Fees, limits: Limits, height: u64, added: set<Tx>, dropped: seq<Tx>, i: nat)
    requires Valid(s, limits) && Partial(s, s', limits, height, added, dropped) && s.dropped != [] && i < estimateFeeDepth
    ensures CountAt(s'.bin[i], s'.mined, height) == |AddedTo(added, height, i)|
  {
    assert BinRegistered(s.bin[i], s'.bin[i], limits.binSize, height, added, dropped, i);
    CountIsSize(s'.bin[i], s'.mined, height);
    forall o | o in s.bin[i] ensures Mark(s'.mined, o) != height {
      NotAdded(s, height, added, o);
    }
    assert Newest(s'.bin[i], s'.mined, height) == AddedTo(added, height, i);
  }

  /** In particular a failed block that added nothing blocks the undo of every block that dropped something. */
  lemma FailedBlockBlocksUndo(s: Fees, s': Fees, limits: Limits, height: u64, dropped: seq<Tx>)
    requires Valid(s, limits) && Partial(s, s', limits, height, {}, dropped)
    requires s'.dropped == s.dropped != []
    ensures CanUndo(s') <==> LastDropped(s) == []
  {
    UndoAfterFailedBlock(s, s', limits, height, {}, dropped);
    forall i | 0 <= i < estimateFeeDepth ensures |AddedTo({}, height, i)| == 0 {
      assert AddedTo({}, height, i) == {};
    }
    if LastDropped(s) != [] {
      var i := DroppedFrom(s, limits);
      assert |AddedTo({}, height, i)| == 0;
    }
  }

  lemma DroppedFrom(s: Fees, limits: Limits) returns (i: nat)
    requires Valid(s, limits) && s.dropped != [] && LastDropped(s) != []
    ensures i < estimateFeeDepth && |Of(LastDropped(s), s.mined, i)| > 0
  {
    var list := LastDropped(s);
    var o := list[0];
    assert o in s.dropped[|s.dropped| - 1].transactions;
    i := SlotIn(s.mined, o);
    OfMembers(list, s.mined, i);
    assert o in Of(list, s.mined, i);
  }
}
