/** What registering a block does to the estimator, and why undoing it gives back what was there before. */
module FeeHistory {
  import opened Codec
  import opened Lists
  import opened FeeBins

  // ---------- Lists of one bin ----------

  lemma {:induction false} OfMembers(txs: seq<Tx>, mined: map<Tx, u64>, i: nat)
    requires NoRepeats(txs)
    ensures NoRepeats(Of(txs, mined, i))
    ensures forall o :: o in Of(txs, mined, i) <==> o in txs && SlotIn(mined, o) == i
  {
    if txs != [] {
      assert forall k | 0 <= k < |txs[1..]| :: txs[1..][k] == txs[k + 1];
      OfMembers(txs[1..], mined, i);
      assert txs == [txs[0]] + txs[1..];
      assert txs[0] !in txs[1..];
    }
  }

  lemma {:induction false} OfSameMarks(txs: seq<Tx>, m: map<Tx, u64>, m': map<Tx, u64>, i: nat)
    requires forall o | o in txs :: Mark(m, o) == Mark(m', o)
    ensures Of(txs, m, i) == Of(txs, m', i)
  {
    if txs != [] { OfSameMarks(txs[1..], m, m', i); }
  }

  lemma TailDistinct(txs: seq<Tx>)
    requires NoRepeats(txs) && txs != []
    ensures NoRepeats(txs[1..]) && txs[0] !in txs[1..] && forall o :: o in txs <==> o == txs[0] || o in txs[1..]
  {
    assert forall k | 0 <= k < |txs[1..]| :: txs[1..][k] == txs[k + 1];
    assert txs == [txs[0]] + txs[1..];
  }

  ghost predicate Apart(a: seq<Tx>, b: seq<Tx>)
  {
    forall o | o in a :: o !in b
  }

  /** An undone bin holds its older entries and the dropped ones, each once. */
  lemma {:induction false} RefillMembers(bin: seq<Tx>, mined: map<Tx, u64>, height: u64, ds: seq<Tx>)
    requires NoRepeats(bin) && NoRepeats(ds) && Apart(bin, ds) && |ds| <= CountAt(bin, mined, height)
    ensures var r := Refill(bin, mined, height, ds);
      NoRepeats(r) && |r| <= |bin| && forall o :: o in r <==> (o in bin && Mark(mined, o) != height) || o in ds
    decreases |bin|
  {
    if bin != [] {
      TailDistinct(bin);
      if Mark(mined, bin[0]) != height {
        RefillMembers(bin[1..], mined, height, ds);
      } else if ds == [] {
        RefillMembers(bin[1..], mined, height, []);
      } else {
        TailDistinct(ds);
        RefillMembers(bin[1..], mined, height, ds[1..]);
      }
    }
  }

  ghost function Newest(bin: seq<Tx>, mined: map<Tx, u64>, height: u64): set<Tx>
  {
    set o | o in bin && Mark(mined, o) == height
  }

  lemma {:induction false} CountIsSize(bin: seq<Tx>, mined: map<Tx, u64>, height: u64)
    requires NoRepeats(bin)
    ensures CountAt(bin, mined, height) == |Newest(bin, mined, height)|
  {
    if bin != [] {
      TailDistinct(bin);
      CountIsSize(bin[1..], mined, height);
      var rest := Newest(bin[1..], mined, height);
      if Mark(mined, bin[0]) == height {
        assert Newest(bin, mined, height) == rest + {bin[0]};
      } else {
        assert Newest(bin, mined, height) == rest;
      }
    }
  }

  ghost predicate SameMembers(a: seq<Tx>, b: seq<Tx>)
  {
    NoRepeats(a) && NoRepeats(b) && forall o :: o in a <==> o in b
  }

  lemma SameCount(a: seq<Tx>, b: seq<Tx>, mined: map<Tx, u64>, height: u64)
    requires SameMembers(a, b)
    ensures CountAt(a, mined, height) == CountAt(b, mined, height)
  {
    CountIsSize(a, mined, height);
    CountIsSize(b, mined, height);
    assert Newest(a, mined, height) == Newest(b, mined, height);
  }

  /** Without repetitions, the same members are the same multiset. */
  lemma {:induction false} SameMultiset(a: seq<Tx>, b: seq<Tx>)
    requires SameMembers(a, b)
    ensures multiset(a) == multiset(b)
  {
    forall o ensures multiset(a)[o] == multiset(b)[o] {
      CountedOnce(a, o);
      CountedOnce(b, o);
    }
  }

  lemma {:induction false} NoneNewer(bin: seq<Tx>, mined: map<Tx, u64>, height: u64)
    requires forall o | o in bin :: Mark(mined, o) < height
    ensures CountAt(bin, mined, height) == 0
  {
    if bin != [] {
      assert bin[0] in bin;
      NoneNewer(bin[1..], mined, height);
    }
  }

  // ---------- An undo keeps the estimator valid ----------

  /** What the undone bins hold. */
  ghost predicate BinsUndone(s: Fees, list: seq<Tx>, u: Fees)
  {
    && |u.bin| == |s.bin|
    && forall i | 0 <= i < |u.bin| :: BinUndone(s.bin[i], s.mined, s.lastKnownHeight, list, i, u.bin[i])
  }

  ghost predicate BinUndone(bin: seq<Tx>, mined: map<Tx, u64>, height: u64, list: seq<Tx>, i: nat, undone: seq<Tx>)
  {
    && NoRepeats(undone) && |undone| <= |bin|
    && forall o :: o in undone <==> (o in bin && Mark(mined, o) != height) || (o in list && SlotIn(mined, o) == i)
  }

  lemma UndoneBins(s: Fees, limits: Limits)
    requires BinsOk(s, limits) && DroppedOk(s, limits) && DroppedApart(s) && s.dropped != [] && CanUndo(s)
    ensures BinsUndone(s, LastDropped(s), Undone(s))
  {
    var list := LastDropped(s);
    var u := Undone(s);
    assert list == s.dropped[|s.dropped| - 1].transactions;
    forall i | 0 <= i < |u.bin|
      ensures BinUndone(s.bin[i], s.mined, s.lastKnownHeight, list, i, u.bin[i])
    {
      OfMembers(list, s.mined, i);
      RefillMembers(s.bin[i], s.mined, s.lastKnownHeight, Of(list, s.mined, i));
    }
  }

  ghost predicate MarksUndone(s: Fees, u: Fees)
  {
    && (forall o :: o in u.mined <==> o in s.mined && !(s.mined[o] == s.lastKnownHeight && InSomeBin(s.bin, o)))
    && (forall o | o in u.mined :: u.mined[o] == s.mined[o])
  }

  lemma UndoneBinsOk(s: Fees, limits: Limits, u: Fees)
    requires BinsOk(s, limits) && DroppedOk(s, limits) && s.dropped != []
    requires BinsUndone(s, LastDropped(s), u) && MarksUndone(s, u) && u.lastKnownHeight == s.lastKnownHeight - 1
    ensures BinsOk(u, limits)
  {
    var last := |s.dropped| - 1;
    forall i, o | 0 <= i < |u.bin| && o in u.bin[i]
      ensures o in u.mined && SlotIn(u.mined, o) == i && u.mined[o] <= u.lastKnownHeight
    {
      assert BinUndone(s.bin[i], s.mined, s.lastKnownHeight, LastDropped(s), i, u.bin[i]);
      if !(o in s.bin[i] && Mark(s.mined, o) != s.lastKnownHeight) {
        assert o in s.dropped[last].transactions;
      }
    }
  }

  lemma UndoneDroppedOk(s: Fees, limits: Limits, u: Fees)
    requires BinsOk(s, limits) && DroppedOk(s, limits) && DroppedApart(s) && s.dropped != []
    requires BinsUndone(s, LastDropped(s), u) && MarksUndone(s, u) && u.lastKnownHeight == s.lastKnownHeight - 1
    requires u.dropped == s.dropped[..|s.dropped| - 1]
    ensures DroppedOk(u, limits) && DroppedApart(u)
  {
    var last := |s.dropped| - 1;
    assert forall j | 0 <= j < |u.dropped| :: u.dropped[j] == s.dropped[j];
    forall i, j, o | 0 <= i < |u.bin| && 0 <= j < |u.dropped| && o in u.dropped[j].transactions ensures o !in u.bin[i] {
      assert BinUndone(s.bin[i], s.mined, s.lastKnownHeight, LastDropped(s), i, u.bin[i]);
      assert o in s.dropped[j].transactions;
      assert o !in s.dropped[last].transactions && o !in s.bin[i];
    }
  }

  lemma UndoneOthers(s: Fees, limits: Limits, u: Fees)
    requires Valid(s, limits) && s.dropped != [] && u == Undone(s)
    ensures MarksUndone(s, u) && MarksOk(u) && CacheOk(u) && FreshOk(u)
    ensures u.lastKnownHeight == s.lastKnownHeight - 1 && u.dropped == s.dropped[..|s.dropped| - 1]
  {
  }

  lemma UndoneKeepsValid(s: Fees, limits: Limits)
    requires Valid(s, limits) && CanUndo(s)
    ensures Valid(Undone(s), limits)
  {
    if s.dropped != [] {
      var u := Undone(s);
      UndoneOthers(s, limits, u);
      UndoneBins(s, limits);
      UndoneBinsOk(s, limits, u);
      UndoneDroppedOk(s, limits, u);
    }
  }

  // ---------- Registering a block ----------

  /** Unmined for too long: forgotten when a block of this height is registered. */
  ghost predicate Stale(mined: map<Tx, u64>, o: Tx, height: u64)
  {
    o !in mined && Minus(height, o.observed) >= estimateFeeDepth
  }

  function Pushed(stack: seq<RegisteredBlock>, rb: RegisteredBlock, maxRollback: u32): seq<RegisteredBlock>
  {
    if maxRollback == 0 then stack
    else if |stack| == maxRollback then stack[1..] + [rb]
    else stack + [rb]
  }

  ghost function MarkAll(mined: map<Tx, u64>, added: set<Tx>, height: u64): map<Tx, u64>
  {
    map o | o in mined.Keys + added :: if o in added then height else mined[o]
  }

  /** Bins before and after: `dropped` left them, `added` joined them, at most one out for each one in. */
  ghost predicate BinsRegistered(bins: seq<seq<Tx>>, mined: map<Tx, u64>, bins': seq<seq<Tx>>, binSize: nat, height: u64,
                                 added: set<Tx>, dropped: seq<Tx>)
  {
    && |bins'| == |bins| == estimateFeeDepth && NoRepeats(dropped)
    && (forall o | o in dropped :: SlotIn(mined, o) < |bins| && o in bins[SlotIn(mined, o)])
    && (forall i | 0 <= i < |bins'| :: BinRegistered(bins[i], bins'[i], binSize, height, added, dropped, i))
    && (forall i | 0 <= i < |bins'| :: |Of(dropped, mined, i)| <= CountAt(bins'[i], MarkAll(mined, added, height), height))
  }

  ghost predicate BinRegistered(bin: seq<Tx>, bin': seq<Tx>, binSize: nat, height: u64, added: set<Tx>, dropped: seq<Tx>, i: nat)
  {
    && NoRepeats(bin') && |bin'| <= binSize
    && forall o :: o in bin' <==> (o in bin && o !in dropped) || (o in added && Slot(height, o) == i)
  }

  ghost predicate Addable(s: Fees, height: u64, o: Tx)
  {
    o.hash in s.observed && s.observed[o.hash] == o && o !in s.mined && Slot(height, o) < estimateFeeDepth
  }

  /** Some transactions of the block are in their bins. */
  ghost predicate Partial(s: Fees, s': Fees, limits: Limits, height: u64, added: set<Tx>, dropped: seq<Tx>)
  {
    && (s.lastKnownHeight == UnminedHeight || height == s.lastKnownHeight + 1)
    && 0 < height < UnminedHeight
    && (forall o | o in added :: Addable(s, height, o))
    && BinsRegistered(s.bin, s.mined, s'.bin, limits.binSize, height, added, dropped)
    && s'.lastKnownHeight == height
    && s'.numBlocksRegistered == (s.numBlocksRegistered + 1) % TWO32
    && s'.mined == MarkAll(s.mined, added, height)
    && s'.cached == Nothing
  }

  ghost predicate Registered(s: Fees, s': Fees, limits: Limits, hash: Hash, height: u64, added: set<Tx>, dropped: seq<Tx>)
  {
    && Partial(s, s', limits, height, added, dropped)
    && s'.observed == (map h | h in s.observed && !Stale(s'.mined, s.observed[h], height) :: s.observed[h])
    && s'.dropped == Pushed(s.dropped, RegisteredBlock(hash, dropped), limits.maxRollback)
  }

  lemma PartialBinsOk(s: Fees, s': Fees, limits: Limits, height: u64, added: set<Tx>, dropped: seq<Tx>)
    requires Valid(s, limits) && Partial(s, s', limits, height, added, dropped)
    ensures BinsOk(s', limits)
  {
    forall i, o | 0 <= i < |s'.bin| && o in s'.bin[i]
      ensures o in s'.mined && SlotIn(s'.mined, o) == i && s'.mined[o] <= s'.lastKnownHeight
    {
      assert BinRegistered(s.bin[i], s'.bin[i], limits.binSize, height, added, dropped, i);
      if o in added { assert Addable(s, height, o); }
    }
  }

  /** The pushed list and the ones under it, whether or not the oldest one fell out. */
  lemma PushedEntries(s: Fees, s': Fees, limits: Limits, hash: Hash, height: u64, added: set<Tx>, dropped: seq<Tx>, j: nat)
    requires Valid(s, limits) && Registered(s, s', limits, hash, height, added, dropped) && j < |s'.dropped|
    ensures var d := s'.dropped[j].transactions;
      && NoRepeats(d)
      && forall o | o in d ::
        && o in s.mined && o !in added && SlotIn(s.mined, o) < estimateFeeDepth
        && s.mined[o] + (|s'.dropped| - 1 - j) < height
        && (forall i | 0 <= i < |s'.bin| :: o !in s'.bin[i])
  {
    var d := s'.dropped[j].transactions;
    var shift := if |s.dropped| == limits.maxRollback then 1 else 0;
    if limits.maxRollback > 0 && j == |s'.dropped| - 1 {
      assert d == dropped;
      forall o | o in d ensures o in s.mined && s.mined[o] < height && o !in added && forall i | 0 <= i < |s'.bin| :: o !in s'.bin[i] {
        assert o in s.bin[SlotIn(s.mined, o)];
        NotAdded(s, height, added, o);
        NowhereElse(s, s', limits, height, added, dropped, o);
      }
    } else {
      var k := if limits.maxRollback == 0 then j else j + shift;
      assert s'.dropped[j] == s.dropped[k];
      forall o | o in d ensures o in s.mined && o !in added && forall i | 0 <= i < |s'.bin| :: o !in s'.bin[i] {
        assert o in s.dropped[k].transactions;
        NotAdded(s, height, added, o);
        NowhereElse(s, s', limits, height, added, dropped, o);
      }
    }
  }

  lemma NowhereElse(s: Fees, s': Fees, limits: Limits, height: u64, added: set<Tx>, dropped: seq<Tx>, o: Tx)
    requires Partial(s, s', limits, height, added, dropped) && o !in added
    requires o in dropped || forall i | 0 <= i < |s.bin| :: o !in s.bin[i]
    ensures forall i | 0 <= i < |s'.bin| :: o !in s'.bin[i]
  {
    forall i | 0 <= i < |s'.bin| ensures o !in s'.bin[i] {
      assert BinRegistered(s.bin[i], s'.bin[i], limits.binSize, height, added, dropped, i);
    }
  }

  lemma NotAdded(s: Fees, height: u64, added: set<Tx>, o: Tx)
    requires forall x | x in added :: Addable(s, height, x)
    requires o in s.mined
    ensures o !in added
  {
    assert !Addable(s, height, o);
  }

  lemma PushedApart(s: Fees, s': Fees, limits: Limits, hash: Hash, height: u64, added: set<Tx>, dropped: seq<Tx>, j: nat, k: nat, o: Tx)
    requires Valid(s, limits) && Registered(s, s', limits, hash, height, added, dropped)
    requires j < k < |s'.dropped| && o in s'.dropped[j].transactions
    ensures o !in s'.dropped[k].transactions
  {
    var shift := if |s.dropped| == limits.maxRollback && limits.maxRollback > 0 then 1 else 0;
    assert s'.dropped[j] == s.dropped[j + shift];
    assert o in s.dropped[j + shift].transactions;
    if limits.maxRollback > 0 && k == |s'.dropped| - 1 {
      assert s'.dropped[k].transactions == dropped;
      assert forall i | 0 <= i < |s.bin| :: o !in s.bin[i];
    } else {
      assert s'.dropped[k] == s.dropped[k + shift];
    }
  }

  lemma RegisteredDroppedOk(s: Fees, s': Fees, limits: Limits, hash: Hash, height: u64, added: set<Tx>, dropped: seq<Tx>)
    requires Valid(s, limits) && Registered(s, s', limits, hash, height, added, dropped)
    ensures DroppedOk(s', limits) && DroppedApart(s')
  {
    forall j | 0 <= j < |s'.dropped|
      ensures NoRepeats(s'.dropped[j].transactions)
      ensures forall o | o in s'.dropped[j].transactions ::
        && o in s'.mined && SlotIn(s'.mined, o) < estimateFeeDepth && s'.mined[o] + (|s'.dropped| - 1 - j) < s'.lastKnownHeight
        && forall i | 0 <= i < |s'.bin| :: o !in s'.bin[i]
    {
      PushedEntries(s, s', limits, hash, height, added, dropped, j);
    }
    forall j, k, o | 0 <= j < k < |s'.dropped| && o in s'.dropped[j].transactions ensures o !in s'.dropped[k].transactions {
      PushedApart(s, s', limits, hash, height, added, dropped, j, k, o);
    }
  }

  lemma RegisteredMarksOk(s: Fees, s': Fees, limits: Limits, hash: Hash, height: u64, added: set<Tx>, dropped: seq<Tx>)
    requires Valid(s, limits) && Registered(s, s', limits, hash, height, added, dropped)
    ensures MarksOk(s')
  {
    forall o | o in s'.mined ensures o.hash in s'.observed && s'.observed[o.hash] == o && s'.mined[o] != UnminedHeight {
      if o in added { assert Addable(s, height, o); }
    }
  }

  lemma RegisteredKeepsValid(s: Fees, s': Fees, limits: Limits, hash: Hash, height: u64, added: set<Tx>, dropped: seq<Tx>)
    requires Valid(s, limits) && Registered(s, s', limits, hash, height, added, dropped)
    ensures Valid(s', limits)
  {
    PartialBinsOk(s, s', limits, height, added, dropped);
    RegisteredDroppedOk(s, s', limits, hash, height, added, dropped);
    RegisteredMarksOk(s, s', limits, hash, height, added, dropped);
  }

  /** A block that fails half-way leaves a valid estimator, too: the stack and the observations are untouched. */
  lemma FailedKeepsValid(s: Fees, s': Fees, limits: Limits, height: u64, added: set<Tx>, dropped: seq<Tx>)
    requires Valid(s, limits) && Partial(s, s', limits, height, added, dropped)
    requires s'.dropped == s.dropped && s'.observed == s.observed
    ensures Valid(s', limits)
  {
    PartialBinsOk(s, s', limits, height, added, dropped);
    forall j, o | 0 <= j < |s'.dropped| && o in s'.dropped[j].transactions
      ensures o in s'.mined && SlotIn(s'.mined, o) < estimateFeeDepth
      ensures s'.mined[o] + (|s'.dropped| - 1 - j) < s'.lastKnownHeight
      ensures forall i | 0 <= i < |s'.bin| :: o !in s'.bin[i]
    {
      NotAdded(s, height, added, o);
      NowhereElse(s, s', limits, height, added, dropped, o);
    }
    forall o | o in s'.mined ensures o.hash in s'.observed && s'.observed[o.hash] == o && s'.mined[o] != UnminedHeight {
      if o in added { assert Addable(s, height, o); }
    }
  }

  // ---------- Undo after register ----------

  /** Equal up to the order within bins, the cache, forgotten observations and the depth of the stack. */
  ghost predicate Same(a: Fees, b: Fees)
  {
    && a.lastKnownHeight == b.lastKnownHeight && a.numBlocksRegistered == b.numBlocksRegistered
    && a.mined == b.mined && |a.bin| == |b.bin|
    && forall i | 0 <= i < |a.bin| :: SameMembers(a.bin[i], b.bin[i])
  }

  lemma RegisteredHasRoom(s: Fees, s': Fees, limits: Limits, hash: Hash, height: u64, added: set<Tx>, dropped: seq<Tx>)
    requires Valid(s, limits) && Registered(s, s', limits, hash, height, added, dropped) && limits.maxRollback > 0
    ensures s'.dropped != [] && LastDropped(s') == dropped && CanUndo(s')
  {
    var d := RegisteredBlock(hash, dropped);
    assert s'.dropped[|s'.dropped| - 1] == d;
    forall o | o in dropped ensures Mark(s.mined, o) == Mark(s'.mined, o) {
      assert o in s.bin[SlotIn(s.mined, o)];
      NotAdded(s, height, added, o);
    }
    RoomKept(s.bin, s.mined, s'.bin, limits.binSize, height, added, dropped);
  }

  lemma RoomKept(bins: seq<seq<Tx>>, mined: map<Tx, u64>, bins': seq<seq<Tx>>, binSize: nat, height: u64, added: set<Tx>, dropped: seq<Tx>)
    requires BinsRegistered(bins, mined, bins', binSize, height, added, dropped)
    requires forall o | o in dropped :: Mark(mined, o) == Mark(MarkAll(mined, added, height), o)
    ensures Room(bins', MarkAll(mined, added, height), height, dropped)
  {
    forall i | 0 <= i < |bins'|
      ensures |Of(dropped, MarkAll(mined, added, height), i)| <= CountAt(bins'[i], MarkAll(mined, added, height), height)
    {
      OfSameMarks(dropped, mined, MarkAll(mined, added, height), i);
    }
  }

  lemma UndoneMarks(s: Fees, s': Fees, limits: Limits, hash: Hash, height: u64, added: set<Tx>, dropped: seq<Tx>)
    requires Valid(s, limits) && Registered(s, s', limits, hash, height, added, dropped)
    ensures Unmark(s'.mined, s'.bin, height) == s.mined
  {
    forall o ensures (o in s'.mined && !(s'.mined[o] == height && InSomeBin(s'.bin, o))) <==> o in s.mined {
      if o in added {
        assert Addable(s, height, o);
        var i := Slot(height, o);
        assert BinRegistered(s.bin[i], s'.bin[i], limits.binSize, height, added, dropped, i);
        assert o in s'.bin[i];
      } else if o in s.mined && InSomeBin(s'.bin, o) {
        var i :| 0 <= i < |s'.bin| && o in s'.bin[i];
        assert BinRegistered(s.bin[i], s'.bin[i], limits.binSize, height, added, dropped, i);
        assert o in s.bin[i];
      }
    }
  }

  /** Undoing a registered block restores every bin as a multiset, every mined mark, the height and the block count. */
  lemma UndoRestores(s: Fees, s': Fees, limits: Limits, hash: Hash, height: u64, added: set<Tx>, dropped: seq<Tx>)
    requires Valid(s, limits) && Registered(s, s', limits, hash, height, added, dropped)
    requires limits.maxRollback > 0 && s.lastKnownHeight != UnminedHeight
    ensures s'.dropped != [] && CanUndo(s') && Same(Undone(s'), s)
    ensures forall i | 0 <= i < |s.bin| :: multiset(Undone(s').bin[i]) == multiset(s.bin[i])
  {
    var u := Undone(s');
    RegisteredKeepsValid(s, s', limits, hash, height, added, dropped);
    RegisteredHasRoom(s, s', limits, hash, height, added, dropped);
    UndoneMarks(s, s', limits, hash, height, added, dropped);
    UndoneBins(s', limits);
    forall i | 0 <= i < |s.bin| ensures SameMembers(u.bin[i], s.bin[i]) {
      UndoneBin(s, s', limits, hash, height, added, dropped, i);
    }
    forall i | 0 <= i < |s.bin| ensures multiset(u.bin[i]) == multiset(s.bin[i]) {
      SameMultiset(u.bin[i], s.bin[i]);
    }
  }

  lemma UndoneBin(s: Fees, s': Fees, limits: Limits, hash: Hash, height: u64, added: set<Tx>, dropped: seq<Tx>, i: nat)
    requires Valid(s, limits) && Registered(s, s', limits, hash, height, added, dropped)
    requires s'.dropped != [] && LastDropped(s') == dropped && BinsUndone(s', dropped, Undone(s')) && i < |s.bin|
    requires s.lastKnownHeight != UnminedHeight
    ensures SameMembers(Undone(s').bin[i], s.bin[i])
  {
    var u := Undone(s');
    assert BinRegistered(s.bin[i], s'.bin[i], limits.binSize, height, added, dropped, i);
    assert BinUndone(s'.bin[i], s'.mined, height, dropped, i, u.bin[i]);
    MarksBehind(s, s', limits, hash, height, added, dropped, i);
    BinBack(s.bin[i], s'.bin[i], u.bin[i], s'.mined, limits.binSize, height, added, dropped, i);
  }

  lemma BinBack(bin: seq<Tx>, bin': seq<Tx>, back: seq<Tx>, mined: map<Tx, u64>, binSize: nat, height: u64, added: set<Tx>, dropped: seq<Tx>, i: nat)
    requires BinRegistered(bin, bin', binSize, height, added, dropped, i)
    requires BinUndone(bin', mined, height, dropped, i, back) && NoRepeats(bin)
    requires forall o | o in bin :: Mark(mined, o) != height && SlotIn(mined, o) == i
    requires forall o | o in added :: Mark(mined, o) == height
    requires forall o | o in dropped && SlotIn(mined, o) == i :: o in bin
    ensures SameMembers(back, bin)
  {
  }

  lemma MarksBehind(s: Fees, s': Fees, limits: Limits, hash: Hash, height: u64, added: set<Tx>, dropped: seq<Tx>, i: nat)
    requires Valid(s, limits) && Registered(s, s', limits, hash, height, added, dropped)
    requires i < |s.bin| && s.lastKnownHeight != UnminedHeight
    ensures forall o | o in s.bin[i] :: Mark(s'.mined, o) != height && SlotIn(s'.mined, o) == i
    ensures forall o | o in added :: Mark(s'.mined, o) == height
    ensures forall o | o in dropped && SlotIn(s'.mined, o) == i :: o in s.bin[i]
  {
    forall o | o in s.bin[i] ensures Mark(s'.mined, o) == Mark(s.mined, o) < height && SlotIn(s'.mined, o) == i {
      OldMark(s, s', limits, height, added, dropped, o);
    }
    forall o | o in dropped && SlotIn(s'.mined, o) == i ensures o in s.bin[i] {
      assert o in s.bin[SlotIn(s.mined, o)];
      OldMark(s, s', limits, height, added, dropped, o);
    }
  }

  lemma OldMark(s: Fees, s': Fees, limits: Limits, height: u64, added: set<Tx>, dropped: seq<Tx>, o: Tx)
    requires Partial(s, s', limits, height, added, dropped) && o in s.mined
    ensures Mark(s'.mined, o) == Mark(s.mined, o) && SlotIn(s'.mined, o) == SlotIn(s.mined, o)
  {
    NotAdded(s, height, added, o);
  }

  // ---------- What is forgotten ----------

  /** An observation stays exactly when its transaction is mined or was seen fewer than 25 blocks ago. */
  lemma KeptExactly(s: Fees, s': Fees, limits: Limits, hash: Hash, height: u64, added: set<Tx>, dropped: seq<Tx>, h: Hash)
    requires Registered(s, s', limits, hash, height, added, dropped) && h in s.observed
    ensures s.observed[h].observed <= height ==>
      (h in s'.observed <==> s.observed[h] in s'.mined || height < s.observed[h].observed + 25)
    ensures height < s.observed[h].observed < TWO64 - 25 ==> (h in s'.observed <==> s.observed[h] in s'.mined)
    ensures h in s'.observed ==> s'.observed[h] == s.observed[h]
  {
  }

  lemma NothingNewObserved(s: Fees, s': Fees, limits: Limits, hash: Hash, height: u64, added: set<Tx>, dropped: seq<Tx>, h: Hash)
    requires Registered(s, s', limits, hash, height, added, dropped) && h !in s.observed
    ensures h !in s'.observed
  {
  }

  /** A transaction stands in the bin that says how long it waited: in bin `i` it was mined i + 1 blocks after it was seen. */
  lemma BinSaysWaiting(s: Fees, limits: Limits, i: nat, o: Tx)
    requires Valid(s, limits) && i < |s.bin| && o in s.bin[i]
    ensures o in s.mined && s.mined[o] <= s.lastKnownHeight
    ensures o.observed < s.mined[o] ==> s.mined[o] == o.observed + i + 1
  {
  }
}
