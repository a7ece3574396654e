/** Saving the fee estimator to bytes and restoring it. */
module FeeStorage {
  import opened Codec
  import opened Lists
  import opened FeeBins

  const estimateFeeSaveVersion := 1

  // ---------- Writing ----------

  datatype SavedTx = SavedTx(o: Tx, mark: u64)

  function TxBytes(saved: SavedTx): seq<byte>
  {
    saved.o.hash + (U64(saved.o.feeRate) + (U64(saved.o.observed) + U64(saved.mark)))
  }

  function SavedTxs(ots: seq<Tx>, mined: map<Tx, u64>): seq<SavedTx>
  {
    seq(|ots|, i requires 0 <= i < |ots| => SavedTx(ots[i], Mark(mined, ots[i])))
  }

  /** The place of a transaction in the saved list; a transaction that is not there is saved as number zero. */
  function IndexOf(ots: seq<Tx>, o: Tx): nat
  {
    if o in ots then FirstOf(ots, o) else 0
  }

  function FirstOf(ots: seq<Tx>, o: Tx): (i: nat)
    requires o in ots
    ensures i < |ots| && ots[i] == o
  {
    if ots[0] == o then 0 else 1 + FirstOf(ots[1..], o)
  }

  function RefBytes(ots: seq<Tx>): Tx -> seq<byte>
  {
    o => U32(IndexOf(ots, o) % TWO32)
  }

  function ListBytes(ots: seq<Tx>): seq<Tx> -> seq<byte>
  {
    list => U32(|list| % TWO32) + Many(RefBytes(ots), list)
  }

  function BlockBytes(ots: seq<Tx>): RegisteredBlock -> seq<byte>
  {
    (rb: RegisteredBlock) => rb.hash + ListBytes(ots)(rb.transactions)
  }

  function Head(s: Fees, limits: Limits): seq<byte>
  {
    U32(limits.maxRollback) + (U32(limits.binSize) + (U32(limits.maxReplacements) + (U32(limits.minRegisteredBlocks)
    + (U64(s.lastKnownHeight) + U32(s.numBlocksRegistered)))))
  }

  /** The bytes of an estimator whose observed transactions are listed in the order `ots`. */
  function Saved(s: Fees, limits: Limits, ots: seq<Tx>): seq<byte>
  {
    U32(estimateFeeSaveVersion) + Body(s, limits, ots)
  }

  function Body(s: Fees, limits: Limits, ots: seq<Tx>): seq<byte>
  {
    Head(s, limits) + (U32(|s.observed| % TWO32) + (Many(TxBytes, SavedTxs(ots, s.mined))
    + (Many(ListBytes(ots), s.bin) + (U32(|s.dropped| % TWO32) + Many(BlockBytes(ots), s.dropped)))))
  }

  // ---------- Reading ----------

  function ReadHash(r: seq<byte>): Read<Hash>
  {
    if |r| < 32 then
      var zero: Hash := seq(32, _ => 0);
      Read(zero, [])
    else
      var hash: Hash := r[..32];
      Read(hash, r[32..])
  }

  function ReadTx(r: seq<byte>): Read<Option<SavedTx>>
  {
    var hash := ReadHash(r);
    var feeRate := ReadU64(hash.rest);
    var observed := ReadU64(feeRate.rest);
    var mark := ReadU64(observed.rest);
    Read(Some(SavedTx(Tx(hash.value, feeRate.value, observed.value), mark.value)), mark.rest)
  }

  function Referred(txs: seq<SavedTx>, index: u32): Option<Tx>
  {
    if index < |txs| then Some(txs[index].o) else None
  }

  function ReadRef(txs: seq<SavedTx>): seq<byte> -> Read<Option<Tx>>
  {
    r =>
      var index := ReadU32(r);
      Read(Referred(txs, index.value), index.rest)
  }

  function ReadList(txs: seq<SavedTx>): seq<byte> -> Read<Option<seq<Tx>>>
  {
    r =>
      var count := ReadU32(r);
      ReadMany(ReadRef(txs), count.rest, count.value)
  }

  function ReadBlock(txs: seq<SavedTx>): seq<byte> -> Read<Option<RegisteredBlock>>
  {
    r =>
      var hash := ReadHash(r);
      var list := ReadList(txs)(hash.rest);
      Read(if list.value.Some? then Some(RegisteredBlock(hash.value, list.value.value)) else None, list.rest)
  }

  datatype Header = Header(limits: Limits, lastKnownHeight: u64, numBlocksRegistered: u32)

  function ReadHead(r: seq<byte>): Read<Header>
  {
    var maxRollback := ReadU32(r);
    var binSize := ReadU32(maxRollback.rest);
    var maxReplacements := ReadU32(binSize.rest);
    var minRegisteredBlocks := ReadU32(maxReplacements.rest);
    var lastKnownHeight := ReadU64(minRegisteredBlocks.rest);
    var numBlocksRegistered := ReadU32(lastKnownHeight.rest);
    Read(Header(Limits(maxRollback.value, binSize.value, maxReplacements.value, minRegisteredBlocks.value),
      lastKnownHeight.value, numBlocksRegistered.value), numBlocksRegistered.rest)
  }

  /** The observed map, built by inserting the transactions one after the other. */
  function Collect(txs: seq<SavedTx>): map<Hash, Tx>
  {
    if txs == [] then map[]
    else
      var last := |txs| - 1;
      Collect(txs[..last])[txs[last].o.hash := txs[last].o]
  }

  function CollectMarks(txs: seq<SavedTx>): map<Tx, u64>
  {
    if txs == [] then map[]
    else
      var last := |txs| - 1;
      var before := CollectMarks(txs[..last]);
      if txs[last].mark == UnminedHeight then before - {txs[last].o} else before[txs[last].o := txs[last].mark]
  }

  /** `NilReference`: a dropped list points to no transaction; the source stores a nil pointer there. */
  datatype Restoration = Restored(limits: Limits, s: Fees) | NoVersion | WrongVersion | WrongReference | NilReference

  function Rebuilt(head: Header, txs: seq<SavedTx>, bins: seq<seq<Tx>>, dropped: seq<RegisteredBlock>): Restoration
  {
    Restored(head.limits, Fees(head.lastKnownHeight, head.numBlocksRegistered, Collect(txs), CollectMarks(txs), bins, Nothing, dropped))
  }

  function Restore(data: seq<byte>): Restoration
  {
    if |data| < 4 then NoVersion
    else
      var version := ReadU32(data);
      if version.value != estimateFeeSaveVersion then WrongVersion else RestoreBody(version.rest)
  }

  function RestoreBody(r: seq<byte>): Restoration
  {
    var head := ReadHead(r);
    var count := ReadU32(head.rest);
    var txs := ReadMany(ReadTx, count.rest, count.value);
    if txs.value.None? then WrongReference
    else
      var bins := ReadMany(ReadList(txs.value.value), txs.rest, estimateFeeDepth);
      if bins.value.None? then WrongReference
      else
        var depth := ReadU32(bins.rest);
        var dropped := ReadMany(ReadBlock(txs.value.value), depth.rest, depth.value);
        if dropped.value.None? then NilReference
        else Rebuilt(head.value, txs.value.value, bins.value.value, dropped.value.value)
  }

  // ---------- Reading undoes writing, part by part ----------

  lemma HashRead(h: Hash, rest: seq<byte>)
    ensures ReadHash(h + rest) == Read(h, rest)
  {
    assert (h + rest)[..32] == h && (h + rest)[32..] == rest;
  }

  lemma TxParts(r: seq<byte>, a: seq<byte>, b: seq<byte>, c: seq<byte>, rest: seq<byte>, saved: SavedTx)
    requires ReadHash(r) == Read(saved.o.hash, a) && ReadU64(a) == Read(saved.o.feeRate, b)
    requires ReadU64(b) == Read(saved.o.observed, c) && ReadU64(c) == Read(saved.mark, rest)
    ensures ReadTx(r) == Read(Some(saved), rest)
  {
  }

  lemma TxRead(saved: SavedTx, rest: seq<byte>)
    ensures ReadTx(TxBytes(saved) + rest) == Read(Some(saved), rest)
  {
    var h, f, o, m := saved.o.hash, U64(saved.o.feeRate), U64(saved.o.observed), U64(saved.mark);
    Regroup(h, f + (o + m), rest);
    Regroup(f, o + m, rest);
    Regroup(o, m, rest);
    HashRead(saved.o.hash, f + (o + (m + rest)));
    U64Read(saved.o.feeRate, o + (m + rest));
    U64Read(saved.o.observed, m + rest);
    U64Read(saved.mark, rest);
    TxParts(h + (f + (o + (m + rest))), f + (o + (m + rest)), o + (m + rest), m + rest, rest, saved);
  }

  lemma IndexFinds(ots: seq<Tx>, mined: map<Tx, u64>, o: Tx)
    requires |ots| < TWO32 && o in ots
    ensures Referred(SavedTxs(ots, mined), IndexOf(ots, o) % TWO32) == Some(o)
  {
  }

  lemma RefRead(ots: seq<Tx>, mined: map<Tx, u64>, o: Tx, rest: seq<byte>)
    requires |ots| < TWO32 && o in ots
    ensures ReadRef(SavedTxs(ots, mined))(RefBytes(ots)(o) + rest) == Read(Some(o), rest)
  {
    IndexFinds(ots, mined, o);
    U32Read(IndexOf(ots, o) % TWO32, rest);
  }

  ghost predicate Listable(list: seq<Tx>, ots: seq<Tx>)
  {
    |list| < TWO32 && forall o | o in list :: o in ots
  }

  lemma RefsRead(ots: seq<Tx>, mined: map<Tx, u64>, list: seq<Tx>, rest: seq<byte>)
    requires |ots| < TWO32 && Listable(list, ots)
    ensures ReadMany(ReadRef(SavedTxs(ots, mined)), Many(RefBytes(ots), list) + rest, |list|) == Read(Some(list), rest)
  {
    forall o, more | o in list ensures ReadRef(SavedTxs(ots, mined))(RefBytes(ots)(o) + more) == Read(Some(o), more) {
      RefRead(ots, mined, o, more);
    }
    ManyRead(RefBytes(ots), ReadRef(SavedTxs(ots, mined)), list, rest);
  }

  lemma CountedRead(n: nat, r: seq<byte>)
    requires n < TWO32
    ensures ReadU32(U32(n % TWO32) + r) == Read(n, r)
  {
    U32Read(n % TWO32, r);
    Unchanged(n);
  }

  lemma Unchanged(n: nat)
    requires n < TWO32
    ensures n % TWO32 == n
  {
  }

  lemma ListBytesAre(ots: seq<Tx>, list: seq<Tx>, rest: seq<byte>)
    ensures ListBytes(ots)(list) + rest == U32(|list| % TWO32) + (Many(RefBytes(ots), list) + rest)
  {
    Regroup(U32(|list| % TWO32), Many(RefBytes(ots), list), rest);
  }

  lemma ListRead(ots: seq<Tx>, mined: map<Tx, u64>, list: seq<Tx>, rest: seq<byte>)
    requires |ots| < TWO32 && Listable(list, ots)
    ensures ReadList(SavedTxs(ots, mined))(ListBytes(ots)(list) + rest) == Read(Some(list), rest)
  {
    var tail := Many(RefBytes(ots), list) + rest;
    ListBytesAre(ots, list, rest);
    CountedRead(|list|, tail);
    RefsRead(ots, mined, list, rest);
    ListParts(ListBytes(ots)(list) + rest, tail, |list|, SavedTxs(ots, mined));
  }

  lemma ListParts(r: seq<byte>, a: seq<byte>, n: u32, txs: seq<SavedTx>)
    requires ReadU32(r) == Read(n, a)
    ensures ReadList(txs)(r) == ReadMany(ReadRef(txs), a, n)
  {
  }

  lemma BlockRead(ots: seq<Tx>, mined: map<Tx, u64>, rb: RegisteredBlock, rest: seq<byte>)
    requires |ots| < TWO32 && Listable(rb.transactions, ots)
    ensures ReadBlock(SavedTxs(ots, mined))(BlockBytes(ots)(rb) + rest) == Read(Some(rb), rest)
  {
    var list := ListBytes(ots)(rb.transactions);
    Regroup(rb.hash, list, rest);
    HashRead(rb.hash, list + rest);
    ListRead(ots, mined, rb.transactions, rest);
  }

  lemma HeadParts(r: seq<byte>, a: seq<byte>, b: seq<byte>, c: seq<byte>, d: seq<byte>, e: seq<byte>, rest: seq<byte>, head: Header)
    requires ReadU32(r) == Read(head.limits.maxRollback, a) && ReadU32(a) == Read(head.limits.binSize, b)
    requires ReadU32(b) == Read(head.limits.maxReplacements, c) && ReadU32(c) == Read(head.limits.minRegisteredBlocks, d)
    requires ReadU64(d) == Read(head.lastKnownHeight, e) && ReadU32(e) == Read(head.numBlocksRegistered, rest)
    ensures ReadHead(r) == Read(head, rest)
  {
  }

  lemma HeadRead(s: Fees, limits: Limits, rest: seq<byte>)
    ensures ReadHead(Head(s, limits) + rest) == Read(Header(limits, s.lastKnownHeight, s.numBlocksRegistered), rest)
  {
    var e := U32(s.numBlocksRegistered) + rest;
    var d := U64(s.lastKnownHeight) + e;
    var c := U32(limits.minRegisteredBlocks) + d;
    var b := U32(limits.maxReplacements) + c;
    var a := U32(limits.binSize) + b;
    assert Head(s, limits) + rest == U32(limits.maxRollback) + a;
    U32Read(limits.maxRollback, a);
    U32Read(limits.binSize, b);
    U32Read(limits.maxReplacements, c);
    U32Read(limits.minRegisteredBlocks, d);
    U64Read(s.lastKnownHeight, e);
    U32Read(s.numBlocksRegistered, rest);
    HeadParts(U32(limits.maxRollback) + a, a, b, c, d, e, rest, Header(limits, s.lastKnownHeight, s.numBlocksRegistered));
  }

  // ---------- Round trip ----------

  /** `ots` lists the observed transactions, each once. */
  ghost predicate Listing(observed: map<Hash, Tx>, ots: seq<Tx>)
  {
    && NoRepeats(ots) && |ots| == |observed|
    && (forall o | o in ots :: o.hash in observed && observed[o.hash] == o)
    && (forall h | h in observed :: observed[h].hash == h && observed[h] in ots)
  }

  lemma LastSaved(ots: seq<Tx>, mined: map<Tx, u64>)
    requires ots != []
    ensures var last := |ots| - 1;
      && SavedTxs(ots, mined)[..last] == SavedTxs(ots[..last], mined)
      && SavedTxs(ots, mined)[last] == SavedTx(ots[last], Mark(mined, ots[last]))
      && ots == ots[..last] + [ots[last]]
  {
  }

  lemma {:induction false} CollectHolds(ots: seq<Tx>, mined: map<Tx, u64>)
    requires forall i, j | 0 <= i < j < |ots| :: ots[i].hash != ots[j].hash
    ensures forall h :: h in Collect(SavedTxs(ots, mined)) <==> exists i | 0 <= i < |ots| :: ots[i].hash == h
    ensures forall i | 0 <= i < |ots| :: ots[i].hash in Collect(SavedTxs(ots, mined)) && Collect(SavedTxs(ots, mined))[ots[i].hash] == ots[i]
  {
    if ots != [] {
      LastSaved(ots, mined);
      CollectHolds(ots[..|ots| - 1], mined);
    }
  }

  /** Of entries with one hash the last one counts. */
  lemma {:induction false} CollectIsLast(txs: seq<SavedTx>, i: nat)
    requires i < |txs| && forall j | i < j < |txs| :: txs[j].o.hash != txs[i].o.hash
    ensures txs[i].o.hash in Collect(txs) && Collect(txs)[txs[i].o.hash] == txs[i].o
    decreases |txs|
  {
    var front := txs[..|txs| - 1];
    if i < |front| {
      assert forall j | i < j < |front| :: front[j].o.hash != front[i].o.hash by {
        forall j | i < j < |front| ensures front[j].o.hash != front[i].o.hash { assert front[j] == txs[j]; }
      }
      CollectIsLast(front, i);
    }
  }

  lemma {:induction false} CollectMarksHolds(ots: seq<Tx>, mined: map<Tx, u64>)
    requires NoRepeats(ots) && forall o | o in mined :: mined[o] != UnminedHeight
    ensures var m := CollectMarks(SavedTxs(ots, mined));
      && (forall o :: o in m <==> o in ots && o in mined)
      && (forall o | o in m :: m[o] == mined[o])
  {
    if ots != [] {
      LastSaved(ots, mined);
      CollectMarksHolds(ots[..|ots| - 1], mined);
    }
  }

  lemma CollectsObserved(observed: map<Hash, Tx>, ots: seq<Tx>, mined: map<Tx, u64>)
    requires Listing(observed, ots)
    ensures Collect(SavedTxs(ots, mined)) == observed
  {
    forall i, j | 0 <= i < j < |ots| ensures ots[i].hash != ots[j].hash {
      assert ots[i] in ots && ots[j] in ots;
    }
    CollectHolds(ots, mined);
    var m := Collect(SavedTxs(ots, mined));
    forall h | h in observed ensures h in m && m[h] == observed[h] {
      var i :| 0 <= i < |ots| && ots[i] == observed[h];
    }
    forall h | h in m ensures h in observed {
      var i :| 0 <= i < |ots| && ots[i].hash == h;
      assert ots[i] in ots;
    }
  }

  lemma CollectsMarks(s: Fees, ots: seq<Tx>)
    requires MarksOk(s) && Listing(s.observed, ots)
    ensures CollectMarks(SavedTxs(ots, s.mined)) == s.mined
  {
    CollectMarksHolds(ots, s.mined);
    forall o | o in s.mined ensures o in ots { assert s.observed[o.hash] == o; }
  }

  ghost predicate Fits(s: Fees)
  {
    && |s.observed| < TWO32 && |s.dropped| < TWO32
    && (forall i | 0 <= i < |s.bin| :: |s.bin[i]| < TWO32)
    && (forall j | 0 <= j < |s.dropped| :: |s.dropped[j].transactions| < TWO32)
  }

  lemma AllListable(s: Fees, limits: Limits, ots: seq<Tx>)
    requires Valid(s, limits) && Listing(s.observed, ots) && Fits(s)
    ensures forall list | list in s.bin :: Listable(list, ots)
    ensures forall rb | rb in s.dropped :: Listable(rb.transactions, ots)
  {
    forall o | o in s.mined ensures o in ots { assert s.observed[o.hash] == o; }
    forall rb | rb in s.dropped ensures Listable(rb.transactions, ots) {
      var j :| 0 <= j < |s.dropped| && s.dropped[j] == rb;
    }
  }

  lemma TxsRead(txs: seq<SavedTx>, rest: seq<byte>)
    ensures ReadMany(ReadTx, Many(TxBytes, txs) + rest, |txs|) == Read(Some(txs), rest)
  {
    forall saved, more | saved in txs ensures ReadTx(TxBytes(saved) + more) == Read(Some(saved), more) {
      TxRead(saved, more);
    }
    ManyRead(TxBytes, ReadTx, txs, rest);
  }

  lemma BinsRead(ots: seq<Tx>, mined: map<Tx, u64>, bins: seq<seq<Tx>>, rest: seq<byte>)
    requires |ots| < TWO32 && forall list | list in bins :: Listable(list, ots)
    ensures ReadMany(ReadList(SavedTxs(ots, mined)), Many(ListBytes(ots), bins) + rest, |bins|) == Read(Some(bins), rest)
  {
    forall list, more | list in bins
      ensures ReadList(SavedTxs(ots, mined))(ListBytes(ots)(list) + more) == Read(Some(list), more)
    {
      ListRead(ots, mined, list, more);
    }
    ManyRead(ListBytes(ots), ReadList(SavedTxs(ots, mined)), bins, rest);
  }

  lemma DroppedRead(ots: seq<Tx>, mined: map<Tx, u64>, dropped: seq<RegisteredBlock>, rest: seq<byte>)
    requires |ots| < TWO32 && forall rb | rb in dropped :: Listable(rb.transactions, ots)
    ensures ReadMany(ReadBlock(SavedTxs(ots, mined)), Many(BlockBytes(ots), dropped) + rest, |dropped|) == Read(Some(dropped), rest)
  {
    forall rb, more | rb in dropped
      ensures ReadBlock(SavedTxs(ots, mined))(BlockBytes(ots)(rb) + more) == Read(Some(rb), more)
    {
      BlockRead(ots, mined, rb, more);
    }
    ManyRead(BlockBytes(ots), ReadBlock(SavedTxs(ots, mined)), dropped, rest);
  }

  lemma BodyParts(r: seq<byte>, a: seq<byte>, b: seq<byte>, c: seq<byte>, d: seq<byte>, e: seq<byte>, head: Header, n: u32, k: u32,
                  txs: seq<SavedTx>, bins: seq<seq<Tx>>, dropped: seq<RegisteredBlock>)
    requires ReadHead(r) == Read(head, a) && ReadU32(a) == Read(n, b) && ReadMany(ReadTx, b, n) == Read(Some(txs), c)
    requires ReadMany(ReadList(txs), c, estimateFeeDepth) == Read(Some(bins), d)
    requires ReadU32(d) == Read(k, e) && ReadMany(ReadBlock(txs), e, k).value == Some(dropped)
    ensures RestoreBody(r) == Rebuilt(head, txs, bins, dropped)
  {
  }

  lemma VersionPart(body: seq<byte>)
    ensures Restore(U32(estimateFeeSaveVersion) + body) == RestoreBody(body)
  {
    U32Read(estimateFeeSaveVersion, body);
  }

  /** Restoring what was saved gives the same estimator: parameters, heights, observed transactions with their marks, bins and
      undo stack, with every bin and dropped entry again the observed transaction itself. Only the cache is empty. */
  lemma RestoreUndoesSave(s: Fees, limits: Limits, ots: seq<Tx>)
    requires Valid(s, limits) && Listing(s.observed, ots) && Fits(s)
    ensures Restore(Saved(s, limits, ots)) == Restored(limits, s.(cached := Nothing))
  {
    AllListable(s, limits, ots);
    CollectsObserved(s.observed, ots, s.mined);
    CollectsMarks(s, ots);
    BodyRead(s, limits, ots);
    VersionPart(Body(s, limits, ots));
  }

  lemma BodyRead(s: Fees, limits: Limits, ots: seq<Tx>)
    requires Fits(s) && |ots| == |s.observed| && |s.bin| == estimateFeeDepth
    requires forall list | list in s.bin :: Listable(list, ots)
    requires forall rb | rb in s.dropped :: Listable(rb.transactions, ots)
    ensures RestoreBody(Body(s, limits, ots))
      == Rebuilt(Header(limits, s.lastKnownHeight, s.numBlocksRegistered), SavedTxs(ots, s.mined), s.bin, s.dropped)
  {
    var txs := SavedTxs(ots, s.mined);
    var e := Many(BlockBytes(ots), s.dropped);
    var d := U32(|s.dropped| % TWO32) + e;
    var c := Many(ListBytes(ots), s.bin) + d;
    var b := Many(TxBytes, txs) + c;
    var a := U32(|s.observed| % TWO32) + b;
    HeadRead(s, limits, a);
    TableRead(|s.observed|, txs, c);
    BinsRead(ots, s.mined, s.bin, d);
    StackRead(ots, s.mined, s.dropped);
    BodyParts(Head(s, limits) + a, a, b, c, d, e, Header(limits, s.lastKnownHeight, s.numBlocksRegistered), |s.observed|,
      |s.dropped|, txs, s.bin, s.dropped);
  }

  /** The section of the observed transactions. */
  lemma TableRead(n: nat, txs: seq<SavedTx>, rest: seq<byte>)
    requires n == |txs| < TWO32
    ensures ReadU32(U32(n % TWO32) + (Many(TxBytes, txs) + rest)) == Read(n, Many(TxBytes, txs) + rest)
    ensures ReadMany(ReadTx, Many(TxBytes, txs) + rest, n) == Read(Some(txs), rest)
  {
    CountedRead(n, Many(TxBytes, txs) + rest);
    TxsRead(txs, rest);
  }

  /** The section of the undo stack, which ends the body. */
  lemma StackRead(ots: seq<Tx>, mined: map<Tx, u64>, dropped: seq<RegisteredBlock>)
    requires |ots| < TWO32 && |dropped| < TWO32 && forall rb | rb in dropped :: Listable(rb.transactions, ots)
    ensures ReadU32(U32(|dropped| % TWO32) + Many(BlockBytes(ots), dropped)) == Read(|dropped|, Many(BlockBytes(ots), dropped))
    ensures ReadMany(ReadBlock(SavedTxs(ots, mined)), Many(BlockBytes(ots), dropped), |dropped|) == Read(Some(dropped), [])
  {
    CountedRead(|dropped|, Many(BlockBytes(ots), dropped));
    DroppedReadLast(ots, mined, dropped);
  }

  lemma DroppedReadLast(ots: seq<Tx>, mined: map<Tx, u64>, dropped: seq<RegisteredBlock>)
    requires |ots| < TWO32 && forall rb | rb in dropped :: Listable(rb.transactions, ots)
    ensures ReadMany(ReadBlock(SavedTxs(ots, mined)), Many(BlockBytes(ots), dropped), |dropped|) == Read(Some(dropped), [])
  {
    var bytes := Many(BlockBytes(ots), dropped);
    assert bytes + [] == bytes;
    DroppedRead(ots, mined, dropped, []);
  }

  // ---------- What is refused ----------

  /** Nothing is restored without the version's four bytes. */
  lemma VersionExactly(data: seq<byte>)
    ensures Restore(data) == NoVersion <==> |data| < 4
    ensures Restore(data) == WrongVersion <==> |data| >= 4 && data[..4] != [0, 0, 0, 1]
  {
    VersionBytes();
    if |data| >= 4 { FourBytesAre(data, estimateFeeSaveVersion); }
  }

  /** A number or a hash that the input is too short for reads as zero and uses up what is there. */
  lemma TruncatedIsZero(r: seq<byte>)
    ensures |r| < 4 ==> ReadU32(r).value == 0 && ReadU32(r).rest == []
    ensures |r| < 8 ==> ReadU64(r).value == 0 && ReadU64(r).rest == []
    ensures |r| < 32 ==> (forall i | 0 <= i < 32 :: ReadHash(r).value[i] == 0) && ReadHash(r).rest == []
  {
  }

  /** The `i`-th reference in a list; past the end of the input it is zero. */
  function RefAt(r: seq<byte>, i: nat): nat
  {
    if 4 * i + 4 <= |r| then Value(r[4 * i..4 * i + 4]) else 0
  }

  ghost predicate BadRef(r: seq<byte>, n: nat, size: nat)
  {
    exists i: nat :: i < n && RefAt(r, i) >= size
  }

  ghost predicate Refers(list: seq<Tx>, txs: seq<SavedTx>, r: seq<byte>, n: nat)
  {
    |list| == n && forall i: nat | i < n :: RefAt(r, i) < |txs| && list[i] == txs[RefAt(r, i)].o
  }

  ghost predicate ReadAs(list: Option<seq<Tx>>, txs: seq<SavedTx>, r: seq<byte>, n: nat)
  {
    (list.None? <==> BadRef(r, n, |txs|)) && (list.Some? ==> Refers(list.value, txs, r, n))
  }

  /** A list of references is read exactly when all of them are below the number of transactions, and then it has what they name. */
  lemma {:induction false} RefsExactly(txs: seq<SavedTx>, r: seq<byte>, n: nat)
    ensures ReadAs(ReadMany(ReadRef(txs), r, n).value, txs, r, n)
    decreases n
  {
    if n > 0 {
      var rest := ReadU32(r).rest;
      RefsExactly(txs, rest, n - 1);
      OneMoreRef(txs, r, n);
      OneMoreRead(ReadMany(ReadRef(txs), rest, n - 1).value, txs, r, rest, n);
    }
  }

  lemma OneMoreRead(others: Option<seq<Tx>>, txs: seq<SavedTx>, r: seq<byte>, rest: seq<byte>, n: nat)
    requires n > 0 && rest == ReadU32(r).rest && ReadAs(others, txs, rest, n - 1)
    ensures ReadAs(if others.Some? && RefAt(r, 0) < |txs| then Some([txs[RefAt(r, 0)].o] + others.value) else None, txs, r, n)
  {
    LaterRefs(r, rest);
    BadRefSteps(r, rest, n, |txs|);
    if others.Some? && RefAt(r, 0) < |txs| { RefersSteps(others.value, txs, r, rest, n - 1); }
  }

  lemma OneMoreRef(txs: seq<SavedTx>, r: seq<byte>, n: nat)
    requires n > 0
    ensures var list, others := ReadMany(ReadRef(txs), r, n).value, ReadMany(ReadRef(txs), ReadU32(r).rest, n - 1).value;
      list == if others.Some? && RefAt(r, 0) < |txs| then Some([txs[RefAt(r, 0)].o] + others.value) else None
  {
    FirstRef(r);
  }

  lemma RefersSteps(others: seq<Tx>, txs: seq<SavedTx>, r: seq<byte>, rest: seq<byte>, m: nat)
    requires Refers(others, txs, rest, m) && RefAt(r, 0) < |txs| && forall i: nat :: RefAt(r, i + 1) == RefAt(rest, i)
    ensures Refers([txs[RefAt(r, 0)].o] + others, txs, r, m + 1)
  {
    var list := [txs[RefAt(r, 0)].o] + others;
    forall i: nat | i < m + 1 ensures RefAt(r, i) < |txs| && list[i] == txs[RefAt(r, i)].o {
      if i > 0 {
        var j: nat := i - 1;
        assert RefAt(r, j + 1) == RefAt(rest, j) && list[i] == others[j];
      }
    }
  }

  lemma BadRefSteps(r: seq<byte>, rest: seq<byte>, n: nat, size: nat)
    requires n > 0 && forall i: nat :: RefAt(r, i + 1) == RefAt(rest, i)
    ensures BadRef(r, n, size) <==> RefAt(r, 0) >= size || BadRef(rest, n - 1, size)
  {
    if BadRef(r, n, size) {
      var i: nat :| i < n && RefAt(r, i) >= size;
      if i > 0 {
        var j: nat := i - 1;
        assert RefAt(r, j + 1) == RefAt(rest, j);
      }
    }
    if BadRef(rest, n - 1, size) {
      var i: nat :| i < n - 1 && RefAt(rest, i) >= size;
      assert RefAt(r, i + 1) >= size;
    }
  }

  lemma FirstRef(r: seq<byte>)
    ensures ReadU32(r).value == RefAt(r, 0)
  {
  }

  lemma LaterRefs(r: seq<byte>, rest: seq<byte>)
    requires rest == ReadU32(r).rest
    ensures forall i: nat :: RefAt(r, i + 1) == RefAt(rest, i)
  {
    forall i: nat ensures RefAt(r, i + 1) == RefAt(rest, i) { LaterRef(r, i); }
  }

  lemma LaterRef(r: seq<byte>, i: nat)
    ensures RefAt(r, i + 1) == RefAt(ReadU32(r).rest, i)
  {
    if 4 * i + 8 <= |r| { assert r[4 * (i + 1)..4 * (i + 1) + 4] == r[4..][4 * i..4 * i + 4]; }
  }

  /** A list of one reference. */
  lemma OneRef(txs: seq<SavedTx>, one: u32, k: u32, rest: seq<byte>)
    requires one == 1
    ensures ReadList(txs)(U32(one) + (U32(k) + rest)).value.None? <==> k >= |txs|
  {
    U32Read(one, U32(k) + rest);
    U32Read(k, rest);
    ListParts(U32(one) + (U32(k) + rest), U32(k) + rest, one, txs);
    RefsExactly(txs, U32(k) + rest, one);
    FirstRef(U32(k) + rest);
  }

  lemma OneRefDropped(txs: seq<SavedTx>, one: u32, k: u32, hash: Hash, rest: seq<byte>)
    requires one == 1
    ensures ReadBlock(txs)(hash + (U32(one) + (U32(k) + rest))).value.None? <==> k >= |txs|
  {
    HashRead(hash, U32(one) + (U32(k) + rest));
    OneRef(txs, one, k, rest);
  }

  lemma FirstSpoils<T(!new)>(read: seq<byte> -> Read<Option<T>>, r: seq<byte>, n: nat)
    requires n > 0 && read(r).value.None?
    ensures ReadMany(read, r, n).value.None?
  {
  }

  lemma BadBin(r: seq<byte>, a: seq<byte>, b: seq<byte>, c: seq<byte>, head: Header, n: u32, txs: seq<SavedTx>)
    requires ReadHead(r) == Read(head, a) && ReadU32(a) == Read(n, b) && ReadMany(ReadTx, b, n) == Read(Some(txs), c)
    requires ReadMany(ReadList(txs), c, estimateFeeDepth).value.None?
    ensures RestoreBody(r) == WrongReference
  {
  }

  lemma BadStack(r: seq<byte>, a: seq<byte>, b: seq<byte>, c: seq<byte>, d: seq<byte>, e: seq<byte>, head: Header, n: u32,
                 txs: seq<SavedTx>, bins: seq<seq<Tx>>)
    requires ReadHead(r) == Read(head, a) && ReadU32(a) == Read(n, b) && ReadMany(ReadTx, b, n) == Read(Some(txs), c)
    requires ReadMany(ReadList(txs), c, estimateFeeDepth) == Read(Some(bins), d)
    requires ReadU32(d) == Read(1, e) && ReadBlock(txs)(e).value.None?
    ensures RestoreBody(r) == NilReference
  {
  }

  /** Behind sections as they are saved, a bin that refers to a transaction which is not there spoils the file. */
  lemma BadBinIsWrong(s: Fees, limits: Limits, ots: seq<Tx>, one: u32, k: u32, rest: seq<byte>)
    requires |s.observed| < TWO32 && |ots| == |s.observed| && one == 1 && k >= |ots|
    ensures RestoreBody(Head(s, limits)
      + (U32(|s.observed| % TWO32) + (Many(TxBytes, SavedTxs(ots, s.mined)) + (U32(one) + (U32(k) + rest))))) == WrongReference
  {
    var txs := SavedTxs(ots, s.mined);
    var c := U32(one) + (U32(k) + rest);
    var b := Many(TxBytes, txs) + c;
    var a := U32(|s.observed| % TWO32) + b;
    HeadRead(s, limits, a);
    TableRead(|s.observed|, txs, c);
    OneRef(txs, one, k, rest);
    FirstSpoils(ReadList(txs), c, estimateFeeDepth);
    BadBin(Head(s, limits) + a, a, b, c, Header(limits, s.lastKnownHeight, s.numBlocksRegistered), |s.observed|, txs);
  }

  /** A dropped list that does so leaves a nil pointer. */
  lemma BadStackIsNil(s: Fees, limits: Limits, ots: seq<Tx>, one: u32, k: u32, hash: Hash, rest: seq<byte>)
    requires |s.observed| < TWO32 && |ots| == |s.observed| && |s.bin| == estimateFeeDepth && one == 1 && k >= |ots|
    requires forall list | list in s.bin :: Listable(list, ots)
    ensures RestoreBody(Head(s, limits) + (U32(|s.observed| % TWO32) + (Many(TxBytes, SavedTxs(ots, s.mined))
      + (Many(ListBytes(ots), s.bin) + (U32(one) + (hash + (U32(one) + (U32(k) + rest)))))))) == NilReference
  {
    var txs := SavedTxs(ots, s.mined);
    OneRefDropped(txs, one, k, hash, rest);
    BehindBins(s, limits, ots, one, hash + (U32(one) + (U32(k) + rest)));
  }

  lemma BehindBins(s: Fees, limits: Limits, ots: seq<Tx>, one: u32, e: seq<byte>)
    requires |s.observed| < TWO32 && |ots| == |s.observed| && |s.bin| == estimateFeeDepth && one == 1
    requires forall list | list in s.bin :: Listable(list, ots)
    requires ReadBlock(SavedTxs(ots, s.mined))(e).value.None?
    ensures RestoreBody(Head(s, limits) + (U32(|s.observed| % TWO32) + (Many(TxBytes, SavedTxs(ots, s.mined))
      + (Many(ListBytes(ots), s.bin) + (U32(one) + e))))) == NilReference
  {
    var txs := SavedTxs(ots, s.mined);
    var d := U32(one) + e;
    var c := Many(ListBytes(ots), s.bin) + d;
    var b := Many(TxBytes, txs) + c;
    var a := U32(|s.observed| % TWO32) + b;
    HeadRead(s, limits, a);
    TableRead(|s.observed|, txs, c);
    BinsRead(ots, s.mined, s.bin, d);
    U32Read(one, e);
    BadStack(Head(s, limits) + a, a, b, c, d, e, Header(limits, s.lastKnownHeight, s.numBlocksRegistered), |s.observed|, txs, s.bin);
  }

  // ---------- The saved form, place by place ----------

  ghost predicate BytesAt(data: seq<byte>, from: nat, part: seq<byte>)
  {
    from + |part| <= |data| && data[from..from + |part|] == part
  }

  /** A version, four parameters, a height and two numbers, in this order from the start. */
  ghost predicate HeaderAt(data: seq<byte>, v: seq<byte>, a: seq<byte>, b: seq<byte>, c: seq<byte>, d: seq<byte>, e: seq<byte>,
    f: seq<byte>, n: seq<byte>)
  {
    && BytesAt(data, 0, v) && BytesAt(data, 4, a) && BytesAt(data, 8, b) && BytesAt(data, 12, c) && BytesAt(data, 16, d)
    && BytesAt(data, 20, e) && BytesAt(data, 28, f) && BytesAt(data, 32, n)
  }

  /** Where the version, the parameters, the height, the block count and the number of observed transactions stand. */
  lemma HeaderLayout(s: Fees, limits: Limits, ots: seq<Tx>)
    ensures HeaderAt(Saved(s, limits, ots), [0, 0, 0, 1],
      BigEndian(limits.maxRollback, 4), BigEndian(limits.binSize, 4), BigEndian(limits.maxReplacements, 4),
      BigEndian(limits.minRegisteredBlocks, 4), BigEndian(s.lastKnownHeight, 8), BigEndian(s.numBlocksRegistered, 4),
      BigEndian(|s.observed| % TWO32, 4))
  {
    VersionBytes();
    Places(Head(s, limits), s.lastKnownHeight, s.numBlocksRegistered, limits, |s.observed| % TWO32,
      Many(TxBytes, SavedTxs(ots, s.mined))
        + (Many(ListBytes(ots), s.bin) + (U32(|s.dropped| % TWO32) + Many(BlockBytes(ots), s.dropped))));
  }

  lemma VersionBytes()
    ensures U32(estimateFeeSaveVersion) == [0, 0, 0, 1]
  {
    FourBytes(1);
  }

  lemma Places(head: seq<byte>, height: u64, blocks: u32, limits: Limits, n: u32, later: seq<byte>)
    requires head == U32(limits.maxRollback) + (U32(limits.binSize) + (U32(limits.maxReplacements)
      + (U32(limits.minRegisteredBlocks) + (U64(height) + U32(blocks)))))
    ensures HeaderAt(U32(estimateFeeSaveVersion) + (head + (U32(n) + later)), U32(estimateFeeSaveVersion),
      BigEndian(limits.maxRollback, 4), BigEndian(limits.binSize, 4), BigEndian(limits.maxReplacements, 4),
      BigEndian(limits.minRegisteredBlocks, 4), BigEndian(height, 8), BigEndian(blocks, 4), BigEndian(n, 4))
  {
    EightPlaces(U32(estimateFeeSaveVersion), U32(limits.maxRollback), U32(limits.binSize), U32(limits.maxReplacements),
      U32(limits.minRegisteredBlocks), U64(height), U32(blocks), U32(n), later);
  }

  lemma EightPlaces(v: seq<byte>, a: seq<byte>, b: seq<byte>, c: seq<byte>, d: seq<byte>, e: seq<byte>, f: seq<byte>, n: seq<byte>,
    later: seq<byte>)
    requires |v| == |a| == |b| == |c| == |d| == |f| == |n| == 4 && |e| == 8
    ensures HeaderAt(v + ((a + (b + (c + (d + (e + f))))) + (n + later)), v, a, b, c, d, e, f, n)
  {
    var head := a + (b + (c + (d + (e + f))));
    SixPlaces(a, b, c, d, e, f);
    InHead(v, head, n + later, 0, a);
    InHead(v, head, n + later, 4, b);
    InHead(v, head, n + later, 8, c);
    InHead(v, head, n + later, 12, d);
    InHead(v, head, n + later, 16, e);
    InHead(v, head, n + later, 24, f);
    AtEnds(v, head, n, later);
  }

  lemma SixPlaces(a: seq<byte>, b: seq<byte>, c: seq<byte>, d: seq<byte>, e: seq<byte>, f: seq<byte>)
    requires |a| == |b| == |c| == |d| == |f| == 4 && |e| == 8
    ensures var all := a + (b + (c + (d + (e + f))));
      && |all| == 28
      && BytesAt(all, 0, a) && BytesAt(all, 4, b) && BytesAt(all, 8, c) && BytesAt(all, 12, d) && BytesAt(all, 16, e) && BytesAt(all, 24, f)
  {
  }

  lemma InHead(v: seq<byte>, head: seq<byte>, rest: seq<byte>, from: nat, part: seq<byte>)
    requires |v| == 4 && BytesAt(head, from, part)
    ensures BytesAt(v + (head + rest), 4 + from, part)
  {
    assert (v + (head + rest))[4 + from..4 + from + |part|] == head[from..from + |part|];
  }

  lemma AtEnds(v: seq<byte>, head: seq<byte>, n: seq<byte>, later: seq<byte>)
    ensures BytesAt(v + (head + (n + later)), 0, v) && BytesAt(v + (head + (n + later)), |v| + |head|, n)
  {
  }
}
