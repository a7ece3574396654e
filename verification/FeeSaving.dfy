/** The operations that save and restore a fee estimator. */
module FeeSaving {
  import opened Codec
  import opened Lists
  import opened FeeBins
  import opened FeeStorage
  import Estimator = FeeEstimator

  // ---------- The order of the saved transactions ----------

  /** Insertion by `rank`, the place of a hash among all hashes ordered by their text. */
  function InsertTx(ots: seq<Tx>, o: Tx, rank: Hash -> nat): seq<Tx>
  {
    if ots == [] then [o]
    else if rank(o.hash) < rank(ots[0].hash) then [o] + ots
    else [ots[0]] + InsertTx(ots[1..], o, rank)
  }

  function SortTxs(ots: seq<Tx>, rank: Hash -> nat): seq<Tx>
  {
    if ots == [] then [] else InsertTx(SortTxs(ots[1..], rank), ots[0], rank)
  }

  ghost predicate Ranked(ots: seq<Tx>, rank: Hash -> nat)
  {
    forall i, j | 0 <= i < j < |ots| :: rank(ots[i].hash) <= rank(ots[j].hash)
  }

  lemma {:induction false} InsertAdds(ots: seq<Tx>, o: Tx, rank: Hash -> nat)
    ensures multiset(InsertTx(ots, o, rank)) == multiset(ots) + multiset{o}
  {
    if ots != [] {
      assert ots == [ots[0]] + ots[1..];
      if rank(o.hash) >= rank(ots[0].hash) { InsertAdds(ots[1..], o, rank); }
    }
  }

  lemma {:induction false} InsertRanks(ots: seq<Tx>, o: Tx, rank: Hash -> nat)
    requires Ranked(ots, rank)
    ensures Ranked(InsertTx(ots, o, rank), rank)
  {
    if ots != [] && rank(o.hash) >= rank(ots[0].hash) {
      var rest := ots[1..];
      assert forall i | 0 <= i < |rest| :: rest[i] == ots[i + 1];
      InsertRanks(rest, o, rank);
      InsertAdds(rest, o, rank);
      var r := InsertTx(rest, o, rank);
      forall i | 0 <= i < |r| ensures rank(ots[0].hash) <= rank(r[i].hash) {
        assert r[i] in multiset(r);
      }
    }
  }

  lemma {:induction false} SortRanks(ots: seq<Tx>, rank: Hash -> nat)
    ensures Ranked(SortTxs(ots, rank), rank) && multiset(SortTxs(ots, rank)) == multiset(ots)
  {
    if ots != [] {
      assert ots == [ots[0]] + ots[1..];
      SortRanks(ots[1..], rank);
      InsertRanks(SortTxs(ots[1..], rank), ots[0], rank);
      InsertAdds(SortTxs(ots[1..], rank), ots[0], rank);
    }
  }

  lemma SortLists(observed: map<Hash, Tx>, ots: seq<Tx>, rank: Hash -> nat)
    requires Listing(observed, ots)
    ensures Listing(observed, SortTxs(ots, rank))
  {
    SortRanks(ots, rank);
    var sorted := SortTxs(ots, rank);
    assert |multiset(sorted)| == |sorted| && |multiset(ots)| == |ots|;
    assert forall o :: o in sorted <==> o in multiset(sorted);
    assert forall o :: o in ots <==> o in multiset(ots);
    SameMultisetDistinct(ots, sorted);
  }

  lemma SameMultisetDistinct(a: seq<Tx>, b: seq<Tx>)
    requires NoRepeats(a) && multiset(a) == multiset(b)
    ensures NoRepeats(b)
  {
    forall i, j | 0 <= i < j < |b| ensures b[i] != b[j] {
      if b[i] == b[j] {
        CountedTwice(b, i, j);
        CountedOnce(a, b[i]);
        assert false;
      }
    }
  }

  /** Ranging over the map in another order does not change what is saved, as different hashes have different ranks. */
  lemma {:induction false} OneOrder(a: seq<Tx>, b: seq<Tx>, rank: Hash -> nat)
    requires Ranked(a, rank) && Ranked(b, rank) && multiset(a) == multiset(b)
    requires Distinguished(a, rank)
    ensures a == b
    decreases |a|
  {
    SameLength(a, b);
    if a != [] {
      SameFirst(a, b, rank);
      BehindFirst(a);
      BehindFirst(b);
      TailRanked(a, rank);
      TailRanked(b, rank);
      OneOrder(a[1..], b[1..], rank);
    }
  }

  /** Different transactions have hashes of different rank. */
  ghost predicate Distinguished(a: seq<Tx>, rank: Hash -> nat)
  {
    forall x, y | x in a && y in a && rank(x.hash) == rank(y.hash) :: x == y
  }

  lemma SameLength(a: seq<Tx>, b: seq<Tx>)
    requires multiset(a) == multiset(b)
    ensures |a| == |b|
  {
    assert |a| == |multiset(a)| == |multiset(b)| == |b|;
  }

  lemma TailRanked(a: seq<Tx>, rank: Hash -> nat)
    requires Ranked(a, rank) && a != []
    ensures Ranked(a[1..], rank) && (Distinguished(a, rank) ==> Distinguished(a[1..], rank))
  {
    var rest := a[1..];
    assert forall i | 0 <= i < |rest| :: rest[i] == a[i + 1];
    assert forall x | x in rest :: x in a;
  }

  lemma SameFirst(a: seq<Tx>, b: seq<Tx>, rank: Hash -> nat)
    requires Ranked(a, rank) && Ranked(b, rank) && multiset(a) == multiset(b) && Distinguished(a, rank)
    requires a != [] && b != []
    ensures a[0] == b[0]
  {
    assert b[0] in multiset(a) && a[0] in multiset(b);
    assert b[0] in a && a[0] in b;
    LeastFirst(a, b[0], rank);
    LeastFirst(b, a[0], rank);
  }

  lemma LeastFirst(a: seq<Tx>, o: Tx, rank: Hash -> nat)
    requires Ranked(a, rank) && a != [] && o in a
    ensures rank(a[0].hash) <= rank(o.hash)
  {
    var i :| 0 <= i < |a| && a[i] == o;
    if i > 0 { assert rank(a[0].hash) <= rank(a[i].hash); }
  }

  lemma BehindFirst(a: seq<Tx>)
    requires a != []
    ensures multiset(a[1..]) == multiset(a) - multiset{a[0]} && a == [a[0]] + a[1..]
  {
    assert a == [a[0]] + a[1..];
  }

  lemma SavedInOneOrder(observed: map<Hash, Tx>, a: seq<Tx>, b: seq<Tx>, rank: Hash -> nat)
    requires Listing(observed, a) && Listing(observed, b)
    requires forall h, g | h in observed && g in observed && rank(h) == rank(g) :: h == g
    ensures SortTxs(a, rank) == SortTxs(b, rank)
  {
    SortRanks(a, rank);
    SortRanks(b, rank);
    ListingsAgree(observed, a, b);
    SortLists(observed, a, rank);
    ListingDistinguished(observed, SortTxs(a, rank), rank);
    OneOrder(SortTxs(a, rank), SortTxs(b, rank), rank);
  }

  lemma ListingDistinguished(observed: map<Hash, Tx>, a: seq<Tx>, rank: Hash -> nat)
    requires Listing(observed, a)
    requires forall h, g | h in observed && g in observed && rank(h) == rank(g) :: h == g
    ensures Distinguished(a, rank)
  {
    forall x, y | x in a && y in a && rank(x.hash) == rank(y.hash) ensures x == y {
      assert observed[x.hash] == x && observed[y.hash] == y;
    }
  }

  lemma ListingsAgree(observed: map<Hash, Tx>, a: seq<Tx>, b: seq<Tx>)
    requires Listing(observed, a) && Listing(observed, b)
    ensures multiset(a) == multiset(b)
  {
    forall o ensures multiset(a)[o] == multiset(b)[o] {
      CountedOnce(a, o);
      CountedOnce(b, o);
      SameElements(observed, a, b, o);
      assert o in multiset(a) <==> o in a;
      assert o in multiset(b) <==> o in b;
    }
  }

  lemma SameElements(observed: map<Hash, Tx>, a: seq<Tx>, b: seq<Tx>, o: Tx)
    requires Listing(observed, a) && Listing(observed, b)
    ensures o in a <==> o in b
  {
    if o in a { assert observed[o.hash] in b; }
    if o in b { assert observed[o.hash] in a; }
  }

  // ---------- Save ----------

  method Save(ef: Estimator.FeeEstimator, rank: Hash -> nat) returns (w: seq<byte>, ghost ots: seq<Tx>)
    requires Valid(ef.State(), ef.Params())
    ensures Listing(ef.observed, ots) && Ranked(ots, rank)
    ensures w == Saved(ef.State(), ef.Params(), ots)
    ensures Fits(ef.State()) ==> Restore(w) == Restored(ef.Params(), ef.State().(cached := Nothing))
  {
    w := U32(estimateFeeSaveVersion);
    w := w + (U32(ef.maxRollback) + (U32(ef.binSize) + (U32(ef.maxReplacements) + (U32(ef.minRegisteredBlocks)
      + (U64(ef.lastKnownHeight) + U32(ef.numBlocksRegistered))))));
    assert w == U32(estimateFeeSaveVersion) + Head(ef.State(), ef.Params());
    var list := ListObserved(ef);
    SortRanks(list, rank);
    SortLists(ef.observed, list, rank);
    list := SortTxs(list, rank);
    ots := list;
    var count := U32(|ef.observed| % TWO32);
    var txs := WriteMany(TxBytes, SavedTxs(list, ef.mined));
    var bins := WriteMany(ListBytes(list), ef.bin);
    var depth := U32(|ef.dropped| % TWO32);
    var dropped := WriteMany(BlockBytes(list), ef.dropped);
    SixParts(U32(estimateFeeSaveVersion), Head(ef.State(), ef.Params()), count, txs, bins, depth, dropped);
    w := w + count + txs + bins + depth + dropped;
    if Fits(ef.State()) { RestoreUndoesSave(ef.State(), ef.Params(), ots); }
  }

  lemma SixParts(v: seq<byte>, h: seq<byte>, a: seq<byte>, b: seq<byte>, c: seq<byte>, d: seq<byte>, e: seq<byte>)
    ensures v + h + a + b + c + d + e == v + (h + (a + (b + (c + (d + e)))))
  {
    Regroup(v, h, a);
    Regroup(v, h + a, b);
    Regroup(v, h + a + b, c);
    Regroup(v, h + a + b + c, d);
    Regroup(v, h + a + b + c + d, e);
  }

  method ListObserved(ef: Estimator.FeeEstimator) returns (list: seq<Tx>)
    requires MarksOk(ef.State())
    ensures Listing(ef.observed, list)
  {
    list := [];
    var todo := ef.observed.Keys;
    while todo != {}
      invariant todo <= ef.observed.Keys && |list| + |todo| == |ef.observed.Keys|
      invariant NoRepeats(list)
      invariant forall o | o in list :: o.hash in ef.observed.Keys - todo && ef.observed[o.hash] == o
      invariant forall h | h in ef.observed.Keys - todo :: ef.observed[h] in list
    {
      var h :| h in todo;
      list := list + [ef.observed[h]];
      todo := todo - {h};
    }
  }

  /** Appends the bytes of one item after the other. */
  method WriteMany<T(!new)>(write: T -> seq<byte>, items: seq<T>) returns (w: seq<byte>)
    ensures w == Many(write, items)
  {
    w := [];
    assert items[0..] == items;
    for i := 0 to |items|
      invariant w + Many(write, items[i..]) == Many(write, items)
    {
      assert items[i..][0] == items[i] && items[i..][1..] == items[i + 1..];
      Regroup(w, write(items[i]), Many(write, items[i + 1..]));
      w := w + write(items[i]);
    }
  }

  // ---------- Restore ----------

  /** Reads items until one does not make sense. */
  method ReadItems<T(!new)>(read: seq<byte> -> Read<Option<T>>, data: seq<byte>, n: nat)
    returns (items: Option<seq<T>>, r: seq<byte>)
    ensures items == ReadMany(read, data, n).value
    ensures items.Some? ==> r == ReadMany(read, data, n).rest
  {
    r := data;
    var got := [];
    PrependNothing(ReadMany(read, data, n).value);
    for i := 0 to n
      invariant ReadMany(read, data, n).value == Prepend(got, ReadMany(read, r, n - i).value)
      invariant ReadMany(read, data, n).rest == ReadMany(read, r, n - i).rest
    {
      var first := read(r);
      if first.value.None? { return None, r; }
      ghost var more := ReadMany(read, first.rest, n - i - 1).value;
      PrependOne(got, first.value.value, more);
      r := first.rest;
      got := got + [first.value.value];
    }
    PrependEmpty(got);
    items := Some(got);
  }

  ghost function Prepend<T>(got: seq<T>, more: Option<seq<T>>): Option<seq<T>>
  {
    if more.Some? then Some(got + more.value) else None
  }

  lemma PrependNothing<T>(more: Option<seq<T>>)
    ensures Prepend([], more) == more
  {
    if more.Some? { assert [] + more.value == more.value; }
  }

  lemma PrependEmpty<T>(got: seq<T>)
    ensures Prepend(got, Some([])) == Some(got)
  {
    assert got + [] == got;
  }

  lemma PrependOne<T>(got: seq<T>, x: T, more: Option<seq<T>>)
    ensures Prepend(got, if more.Some? then Some([x] + more.value) else None) == Prepend(got + [x], more)
  {
    if more.Some? { assert got + ([x] + more.value) == got + [x] + more.value; }
  }

  method RestoreFeeEstimator(data: seq<byte>) returns (r: Restoration)
    ensures r == Restore(data)
  {
    if |data| < 4 { return NoVersion; }
    var version := ReadU32(data);
    if version.value != estimateFeeSaveVersion { return WrongVersion; }
    var head := ReadHead(version.rest);
    var numObserved := ReadU32(head.rest);
    var txs, rest := ReadItems(ReadTx, numObserved.rest, numObserved.value);
    if txs.None? { return WrongReference; }
    var bins;
    bins, rest := ReadItems(ReadList(txs.value), rest, estimateFeeDepth);
    if bins.None? { return WrongReference; }
    var numDropped := ReadU32(rest);
    var dropped;
    dropped, rest := ReadItems(ReadBlock(txs.value), numDropped.rest, numDropped.value);
    if dropped.None? { return NilReference; }
    r := Rebuilt(head.value, txs.value, bins.value, dropped.value);
  }
}
