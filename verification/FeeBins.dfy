/** The state of the fee estimator: bins of mined transactions by their waiting time, and a stack that undoes registered blocks. */
module FeeBins {
  import opened Codec
  import opened Lists

  const estimateFeeDepth := 25
  const estimateFeeBinSize := 100
  const estimateFeeMaxReplacements := 10
  const UnminedHeight: u64 := 0x7fffffff

  type Hash = s: seq<byte> | |s| == 32 witness seq(32, _ => 0)

  /** Unsigned 64-bit subtraction. */
  function Minus(a: u64, b: int): u64
  {
    (a - b) % TWO64
  }

  /** An observed transaction without its mined mark: the mark is the only part that ever changes. */
  datatype Tx = Tx(hash: Hash, feeRate: u64, observed: u64)

  datatype RegisteredBlock = RegisteredBlock(hash: Hash, transactions: seq<Tx>)

  datatype Cache = Nothing | Estimated(rates: seq<u64>)

  datatype Limits = Limits(maxRollback: u32, binSize: u32, maxReplacements: u32, minRegisteredBlocks: u32)

  /** `mined` holds the transactions whose mark is a height; every other transaction is marked `UnminedHeight`. */
  datatype Fees = Fees(
    lastKnownHeight: u64,
    numBlocksRegistered: u32,
    observed: map<Hash, Tx>,
    mined: map<Tx, u64>,
    bin: seq<seq<Tx>>,
    cached: Cache,
    dropped: seq<RegisteredBlock>)

  function Mark(mined: map<Tx, u64>, o: Tx): u64
  {
    if o in mined then mined[o] else UnminedHeight
  }

  /** The bin of a transaction mined at `height`, when it is below `estimateFeeDepth`. */
  function Slot(height: u64, o: Tx): u64
  {
    Minus(height, o.observed + 1)
  }

  function SlotIn(mined: map<Tx, u64>, o: Tx): u64
  {
    Slot(Mark(mined, o), o)
  }

  /** The transactions of a list that belong to bin `i`, in order. */
  function Of(txs: seq<Tx>, mined: map<Tx, u64>, i: nat): seq<Tx>
  {
    if txs == [] then []
    else (if SlotIn(mined, txs[0]) == i then [txs[0]] else []) + Of(txs[1..], mined, i)
  }

  function CountAt(txs: seq<Tx>, mined: map<Tx, u64>, height: u64): nat
  {
    if txs == [] then 0 else (if Mark(mined, txs[0]) == height then 1 else 0) + CountAt(txs[1..], mined, height)
  }

  // ---------- Estimates ----------

  function InsertRate(rates: seq<u64>, x: u64): seq<u64>
  {
    if rates == [] then [x]
    else if rates[0] < x then [x] + rates
    else [rates[0]] + InsertRate(rates[1..], x)
  }

  /** Descending order; a list of numbers has only one. */
  function SortRates(rates: seq<u64>): seq<u64>
  {
    if rates == [] then [] else InsertRate(SortRates(rates[1..]), rates[0])
  }

  function Rates(txs: seq<Tx>): seq<u64>
  {
    seq(|txs|, i requires 0 <= i < |txs| => txs[i].feeRate)
  }

  function AllOf(bins: seq<seq<Tx>>): seq<Tx>
  {
    if bins == [] then [] else bins[0] + AllOf(bins[1..])
  }

  /** The number of transactions in the first `n` bins. */
  function Before(bins: seq<seq<Tx>>, n: nat): nat
    requires n <= |bins|
  {
    if n == 0 then 0 else Before(bins, n - 1) + |bins[n - 1]|
  }

  function FeeIndex(bins: seq<seq<Tx>>, confirmations: nat): nat
    requires 0 < confirmations <= |bins|
  {
    var min := Before(bins, confirmations - 1);
    var max := min + |bins[confirmations - 1]| - 1;
    (min + if max < min then min else max) / 2
  }

  function EstimateFrom(sorted: seq<u64>, bins: seq<seq<Tx>>, confirmations: nat): u64
    requires 0 < confirmations <= |bins|
  {
    if sorted == [] then 0
    else
      var index := FeeIndex(bins, confirmations);
      sorted[if index >= |sorted| then |sorted| - 1 else index]
  }

  function Estimates(bins: seq<seq<Tx>>): seq<u64>
  {
    var sorted := SortRates(Rates(AllOf(bins)));
    seq(|bins|, i requires 0 <= i < |bins| => EstimateFrom(sorted, bins, i + 1))
  }

  datatype FeeResult = Fee(rate: u64) | TooFewBlocks | ZeroBlocks | TooManyBlocks

  function Answer(s: Fees, limits: Limits, numBlocks: u64): FeeResult
    requires |s.bin| == estimateFeeDepth
  {
    if s.numBlocksRegistered < limits.minRegisteredBlocks then TooFewBlocks
    else if numBlocks == 0 then ZeroBlocks
    else if numBlocks > estimateFeeDepth then TooManyBlocks
    else Fee(Estimates(s.bin)[numBlocks - 1])
  }

  // ---------- Invariant ----------

  ghost predicate BinsOk(s: Fees, limits: Limits)
  {
    && |s.bin| == estimateFeeDepth
    && (forall i | 0 <= i < |s.bin| :: NoRepeats(s.bin[i]) && |s.bin[i]| <= limits.binSize)
    && (forall i, o | 0 <= i < |s.bin| && o in s.bin[i] ::
      o in s.mined && SlotIn(s.mined, o) == i && s.mined[o] <= s.lastKnownHeight)
  }

  ghost predicate DroppedOk(s: Fees, limits: Limits)
  {
    && |s.dropped| <= limits.maxRollback && |s.dropped| <= s.lastKnownHeight
    && (forall j | 0 <= j < |s.dropped| :: NoRepeats(s.dropped[j].transactions))
    && (forall j, o | 0 <= j < |s.dropped| && o in s.dropped[j].transactions ::
      && o in s.mined && SlotIn(s.mined, o) < estimateFeeDepth
      && s.mined[o] + (|s.dropped| - 1 - j) < s.lastKnownHeight)
  }

  /** A dropped transaction is in no bin and in no other dropped list. */
  ghost predicate DroppedApart(s: Fees)
  {
    && (forall i, j, o | 0 <= i < |s.bin| && 0 <= j < |s.dropped| && o in s.dropped[j].transactions :: o !in s.bin[i])
    && (forall j, k, o | 0 <= j < k < |s.dropped| && o in s.dropped[j].transactions :: o !in s.dropped[k].transactions)
  }

  ghost predicate MarksOk(s: Fees)
  {
    && (forall h | h in s.observed :: s.observed[h].hash == h)
    && (forall o | o in s.mined :: o.hash in s.observed && s.observed[o.hash] == o && s.mined[o] != UnminedHeight)
  }

  ghost predicate CacheOk(s: Fees)
  {
    s.cached.Estimated? ==> s.cached.rates == Estimates(s.bin)
  }

  ghost predicate FreshOk(s: Fees)
  {
    && s.lastKnownHeight <= UnminedHeight
    && (s.lastKnownHeight == UnminedHeight ==> s.dropped == [] && forall i | 0 <= i < |s.bin| :: s.bin[i] == [])
  }

  ghost predicate Valid(s: Fees, limits: Limits)
  {
    && BinsOk(s, limits) && DroppedOk(s, limits) && DroppedApart(s) && MarksOk(s) && CacheOk(s) && FreshOk(s)
    && limits.maxReplacements < limits.binSize
  }

  // ---------- Undoing the last registered block ----------

  /** One bin after an undo: its newest entries, those mined at `height`, give way to the dropped ones and then vanish. */
  function Refill(bin: seq<Tx>, mined: map<Tx, u64>, height: u64, dropped: seq<Tx>): seq<Tx>
  {
    if bin == [] then []
    else if Mark(mined, bin[0]) != height then [bin[0]] + Refill(bin[1..], mined, height, dropped)
    else if dropped == [] then Refill(bin[1..], mined, height, [])
    else [dropped[0]] + Refill(bin[1..], mined, height, dropped[1..])
  }

  function RefillAll(bins: seq<seq<Tx>>, mined: map<Tx, u64>, height: u64, dropped: seq<Tx>): seq<seq<Tx>>
  {
    seq(|bins|, i requires 0 <= i < |bins| => Refill(bins[i], mined, height, Of(dropped, mined, i)))
  }

  ghost predicate InSomeBin(bins: seq<seq<Tx>>, o: Tx)
  {
    exists i | 0 <= i < |bins| :: o in bins[i]
  }

  ghost function Unmark(mined: map<Tx, u64>, bins: seq<seq<Tx>>, height: u64): map<Tx, u64>
  {
    map o | o in mined && !(mined[o] == height && InSomeBin(bins, o)) :: mined[o]
  }

  /** Every dropped transaction finds an entry of the undone block to replace. */
  ghost predicate Room(bins: seq<seq<Tx>>, mined: map<Tx, u64>, height: u64, dropped: seq<Tx>)
  {
    forall i | 0 <= i < |bins| :: |Of(dropped, mined, i)| <= CountAt(bins[i], mined, height)
  }

  function LastDropped(s: Fees): seq<Tx>
    requires s.dropped != []
  {
    s.dropped[|s.dropped| - 1].transactions
  }

  /** Without room the undo panics. */
  ghost predicate CanUndo(s: Fees)
  {
    s.dropped == [] || Room(s.bin, s.mined, s.lastKnownHeight, LastDropped(s))
  }

  ghost function Undone(s: Fees): Fees
  {
    if s.dropped == [] then s.(cached := Nothing)
    else
      Fees(
        Minus(s.lastKnownHeight, 1),
        (s.numBlocksRegistered - 1) % TWO32,
        s.observed,
        Unmark(s.mined, s.bin, s.lastKnownHeight),
        RefillAll(s.bin, s.mined, s.lastKnownHeight, LastDropped(s)),
        Nothing,
        s.dropped[..|s.dropped| - 1])
  }
}
