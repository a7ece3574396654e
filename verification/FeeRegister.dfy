/** How far the registering of a block has come: each transaction is put into its bin, replacing an old entry when it is full. */
module FeeRegister {
  import opened Codec
  import opened Lists
  import opened FeeBins
  import opened FeeHistory

  /** The first |b| - c - 1 entries are from earlier blocks; `c` entries are from this one. */
  ghost predicate NewestBehind(b: seq<Tx>, mined: map<Tx, u64>, height: u64, c: nat)
  {
    && c == CountAt(b, mined, height)
    && forall k | 0 <= k < |b| - c - 1 :: Mark(mined, b[k]) != height
  }

  /** Bins `cur` after some transactions of the block, `added`, were placed and `dropped` had to leave. */
  ghost predicate Filling(cur: seq<seq<Tx>>, counts: seq<nat>, bins: seq<seq<Tx>>, mined: map<Tx, u64>, binSize: nat, height: u64,
                          added: set<Tx>, dropped: seq<Tx>)
  {
    && |counts| == |cur| && BinsRegistered(bins, mined, cur, binSize, height, added, dropped)
    && forall i | 0 <= i < |cur| :: NewestBehind(cur[i], MarkAll(mined, added, height), height, counts[i])
  }

  /** What is known of the bins before the block. */
  ghost predicate Earlier(bins: seq<seq<Tx>>, mined: map<Tx, u64>, binSize: nat, height: u64)
  {
    && |bins| == estimateFeeDepth
    && (forall i | 0 <= i < |bins| :: NoRepeats(bins[i]) && |bins[i]| <= binSize)
    && (forall i, o | 0 <= i < |bins| && o in bins[i] :: o in mined && SlotIn(mined, o) == i && mined[o] < height)
  }

  lemma ValidIsEarlier(s: Fees, limits: Limits, height: u64)
    requires Valid(s, limits) && (s.lastKnownHeight == UnminedHeight || height == s.lastKnownHeight + 1)
    ensures Earlier(s.bin, s.mined, limits.binSize, height)
  {
  }

  lemma FillingStarts(bins: seq<seq<Tx>>, mined: map<Tx, u64>, binSize: nat, height: u64, counts: seq<nat>)
    requires Earlier(bins, mined, binSize, height)
    requires |counts| == |bins| && forall i | 0 <= i < |counts| :: counts[i] == 0
    ensures Filling(bins, counts, bins, mined, binSize, height, {}, [])
  {
    assert MarkAll(mined, {}, height) == mined;
    forall i | 0 <= i < |bins| ensures NewestBehind(bins[i], mined, height, counts[i]) {
      forall o | o in bins[i] ensures Mark(mined, o) < height {}
      NoneNewer(bins[i], mined, height);
      assert forall k | 0 <= k < |bins[i]| :: bins[i][k] in bins[i];
    }
    assert forall i | 0 <= i < |bins| :: BinRegistered(bins[i], bins[i], binSize, height, {}, [], i);
  }

  lemma {:induction false} OfAppend(txs: seq<Tx>, v: Tx, mined: map<Tx, u64>, i: nat)
    ensures Of(txs + [v], mined, i) == Of(txs, mined, i) + if SlotIn(mined, v) == i then [v] else []
  {
    if txs == [] {
      assert txs + [v] == [v];
    } else {
      assert (txs + [v])[1..] == txs[1..] + [v];
      OfAppend(txs[1..], v, mined, i);
    }
  }

  // ---------- One bin ----------

  lemma {:induction false} CountUnmarked(b: seq<Tx>, m: map<Tx, u64>, m': map<Tx, u64>, height: u64)
    requires forall o | o in b :: Mark(m, o) == Mark(m', o)
    ensures CountAt(b, m, height) == CountAt(b, m', height)
  {
    if b != [] { CountUnmarked(b[1..], m, m', height); }
  }

  lemma {:induction false} CountConcat(a: seq<Tx>, b: seq<Tx>, mined: map<Tx, u64>, height: u64)
    ensures CountAt(a + b, mined, height) == CountAt(a, mined, height) + CountAt(b, mined, height)
  {
    if a == [] {
      assert a + b == b;
    } else {
      assert (a + b)[1..] == a[1..] + b;
      CountConcat(a[1..], b, mined, height);
    }
  }

  lemma CountUpdated(b: seq<Tx>, k: nat, o: Tx, mined: map<Tx, u64>, height: u64)
    requires k < |b|
    ensures CountAt(b[k := o], mined, height)
      == CountAt(b, mined, height) + CountAt([o], mined, height) - CountAt([b[k]], mined, height)
  {
    var pre, post := b[..k], b[k + 1..];
    assert b == pre + ([b[k]] + post) && b[k := o] == pre + ([o] + post);
    CountConcat(pre, [b[k]] + post, mined, height);
    CountConcat([b[k]], post, mined, height);
    CountConcat(pre, [o] + post, mined, height);
    CountConcat([o], post, mined, height);
  }

  lemma AppendedBehind(b: seq<Tx>, mined: map<Tx, u64>, height: u64, c: nat, o: Tx)
    requires NewestBehind(b, mined, height, c) && Mark(mined, o) == height
    ensures NewestBehind(b + [o], mined, height, c + 1)
  {
    CountConcat(b, [o], mined, height);
  }

  /** The dropped entry gives its place to the last old one, whose place the new entry takes. */
  function Replaced(b: seq<Tx>, l: nat, drop: nat, o: Tx): seq<Tx>
    requires drop < l <= |b|
  {
    b[drop := b[l - 1]][l - 1 := o]
  }

  lemma ReplacedBehind(b: seq<Tx>, mined: map<Tx, u64>, height: u64, c: nat, l: nat, drop: nat, o: Tx)
    requires NewestBehind(b, mined, height, c) && Mark(mined, o) == height
    requires l == |b| - (c + 1) && drop < l
    ensures NewestBehind(Replaced(b, l, drop, o), mined, height, c + 1)
    ensures Mark(mined, b[drop]) != height
  {
    var moved := b[drop := b[l - 1]];
    CountUpdated(b, drop, b[l - 1], mined, height);
    CountUpdated(moved, l - 1, o, mined, height);
  }

  lemma ReplacedMembers(b: seq<Tx>, l: nat, drop: nat, o: Tx)
    requires NoRepeats(b) && o !in b && drop < l <= |b|
    ensures var r := Replaced(b, l, drop, o);
      && NoRepeats(r) && |r| == |b|
      && forall x :: x in r <==> x == o || (x in b && x != b[drop])
  {
    var r := Replaced(b, l, drop, o);
    forall x | x in b && x != b[drop] ensures x in r {
      var k :| 0 <= k < |b| && b[k] == x;
      if k == l - 1 { assert r[drop] == x; } else { assert r[k] == x; }
    }
    assert r[l - 1] == o;
    forall k | 0 <= k < |r| ensures r[k] == o || (r[k] in b && r[k] != b[drop]) {}
  }

  lemma AppendedMembers(b: seq<Tx>, o: Tx)
    requires NoRepeats(b) && o !in b
    ensures NoRepeats(b + [o]) && forall x :: x in b + [o] <==> x == o || x in b
  {
  }

  // ---------- One transaction ----------

  lemma NewcomerIsNew(cur: seq<seq<Tx>>, bins: seq<seq<Tx>>, mined: map<Tx, u64>, binSize: nat, height: u64,
                      added: set<Tx>, dropped: seq<Tx>, o: Tx)
    requires Earlier(bins, mined, binSize, height) && BinsRegistered(bins, mined, cur, binSize, height, added, dropped)
    requires o !in mined && o !in added
    ensures o !in dropped && forall i | 0 <= i < |cur| :: o !in cur[i]
  {
    forall i | 0 <= i < |cur| ensures o !in cur[i] {
      assert BinRegistered(bins[i], cur[i], binSize, height, added, dropped, i);
      assert forall x | x in bins[i] :: x in mined;
    }
    forall x | x in dropped ensures x != o { assert x in bins[SlotIn(mined, x)]; }
  }

  lemma MarksGrow(mined: map<Tx, u64>, added: set<Tx>, height: u64, o: Tx, x: Tx)
    requires x != o
    ensures Mark(MarkAll(mined, added + {o}, height), x) == Mark(MarkAll(mined, added, height), x)
  {
  }

  lemma OtherBin(b: seq<Tx>, mined: map<Tx, u64>, added: set<Tx>, height: u64, o: Tx, c: nat)
    requires o !in b && NewestBehind(b, MarkAll(mined, added, height), height, c)
    ensures NewestBehind(b, MarkAll(mined, added + {o}, height), height, c)
  {
    forall x | x in b ensures Mark(MarkAll(mined, added, height), x) == Mark(MarkAll(mined, added + {o}, height), x) {
      MarksGrow(mined, added, height, o, x);
    }
    CountUnmarked(b, MarkAll(mined, added, height), MarkAll(mined, added + {o}, height), height);
    assert forall k | 0 <= k < |b| :: b[k] in b;
  }

  lemma BinsAppended(cur: seq<seq<Tx>>, counts: seq<nat>, bins: seq<seq<Tx>>, mined: map<Tx, u64>, binSize: nat, height: u64,
                     added: set<Tx>, dropped: seq<Tx>, o: Tx)
    requires Earlier(bins, mined, binSize, height) && Filling(cur, counts, bins, mined, binSize, height, added, dropped)
    requires o !in mined && o !in added && Slot(height, o) < |cur| && |cur[Slot(height, o)]| < binSize
    ensures var i := Slot(height, o);
      Filling(cur[i := cur[i] + [o]], counts[i := counts[i] + 1], bins, mined, binSize, height, added + {o}, dropped)
  {
    var i := Slot(height, o);
    var cur', counts' := cur[i := cur[i] + [o]], counts[i := counts[i] + 1];
    NewcomerIsNew(cur, bins, mined, binSize, height, added, dropped, o);
    forall j | 0 <= j < |cur'|
      ensures NewestBehind(cur'[j], MarkAll(mined, added + {o}, height), height, counts'[j])
      ensures BinRegistered(bins[j], cur'[j], binSize, height, added + {o}, dropped, j)
      ensures |Of(dropped, mined, j)| <= CountAt(cur'[j], MarkAll(mined, added + {o}, height), height)
    {
      assert BinRegistered(bins[j], cur[j], binSize, height, added, dropped, j);
      assert NewestBehind(cur[j], MarkAll(mined, added, height), height, counts[j]);
      OtherBin(cur[j], mined, added, height, o, counts[j]);
      if j == i {
        AppendedBehind(cur[i], MarkAll(mined, added + {o}, height), height, counts[i], o);
        AppendedMembers(cur[i], o);
      }
    }
  }

  lemma VictimIsOld(cur: seq<seq<Tx>>, counts: seq<nat>, bins: seq<seq<Tx>>, mined: map<Tx, u64>, binSize: nat, height: u64,
                    added: set<Tx>, dropped: seq<Tx>, i: nat, v: Tx)
    requires Earlier(bins, mined, binSize, height) && Filling(cur, counts, bins, mined, binSize, height, added, dropped)
    requires i < |cur| && v in cur[i] && Mark(MarkAll(mined, added, height), v) != height
    ensures v in bins[i] && v !in dropped && v !in added && SlotIn(mined, v) == i
  {
    assert BinRegistered(bins[i], cur[i], binSize, height, added, dropped, i);
    assert v !in added;
  }

  lemma BinsReplaced(cur: seq<seq<Tx>>, counts: seq<nat>, bins: seq<seq<Tx>>, mined: map<Tx, u64>, binSize: nat, height: u64,
                     added: set<Tx>, dropped: seq<Tx>, o: Tx, l: nat, drop: nat)
    requires Earlier(bins, mined, binSize, height) && Filling(cur, counts, bins, mined, binSize, height, added, dropped)
    requires o !in mined && o !in added && Slot(height, o) < |cur|
    requires l == |cur[Slot(height, o)]| - (counts[Slot(height, o)] + 1) && drop < l
    ensures var i := Slot(height, o);
      Filling(cur[i := Replaced(cur[i], l, drop, o)], counts[i := counts[i] + 1], bins, mined, binSize, height, added + {o},
        dropped + [cur[i][drop]])
  {
    var i := Slot(height, o);
    var v := cur[i][drop];
    var cur', counts' := cur[i := Replaced(cur[i], l, drop, o)], counts[i := counts[i] + 1];
    assert NewestBehind(cur[i], MarkAll(mined, added, height), height, counts[i]);
    VictimIsOld(cur, counts, bins, mined, binSize, height, added, dropped, i, v);
    AppendedMembers(dropped, v);
    forall j | 0 <= j < |cur'| ensures BinDone(cur', counts', bins, mined, binSize, height, added + {o}, dropped + [v], j) {
      BinAfterReplacing(cur, counts, bins, mined, binSize, height, added, dropped, o, l, drop, j);
      RoomAfterReplacing(mined, height, added, dropped, o, v, cur[j], counts[j], cur'[j], counts'[j], j);
    }
    FillingFrom(cur', counts', bins, mined, binSize, height, added + {o}, dropped + [v]);
  }

  ghost predicate BinDone(cur: seq<seq<Tx>>, counts: seq<nat>, bins: seq<seq<Tx>>, mined: map<Tx, u64>, binSize: nat, height: u64,
                          added: set<Tx>, dropped: seq<Tx>, j: nat)
    requires j < |cur| && j < |counts| && j < |bins|
  {
    && NewestBehind(cur[j], MarkAll(mined, added, height), height, counts[j])
    && BinRegistered(bins[j], cur[j], binSize, height, added, dropped, j)
    && |Of(dropped, mined, j)| <= CountAt(cur[j], MarkAll(mined, added, height), height)
  }

  lemma FillingFrom(cur: seq<seq<Tx>>, counts: seq<nat>, bins: seq<seq<Tx>>, mined: map<Tx, u64>, binSize: nat, height: u64,
                    added: set<Tx>, dropped: seq<Tx>)
    requires |cur| == |counts| == |bins| == estimateFeeDepth && NoRepeats(dropped)
    requires forall o | o in dropped :: SlotIn(mined, o) < |bins| && o in bins[SlotIn(mined, o)]
    requires forall j | 0 <= j < |cur| :: BinDone(cur, counts, bins, mined, binSize, height, added, dropped, j)
    ensures Filling(cur, counts, bins, mined, binSize, height, added, dropped)
  {
    forall j | 0 <= j < |cur|
      ensures NewestBehind(cur[j], MarkAll(mined, added, height), height, counts[j])
      ensures BinRegistered(bins[j], cur[j], binSize, height, added, dropped, j)
      ensures |Of(dropped, mined, j)| <= CountAt(cur[j], MarkAll(mined, added, height), height)
    {
      assert BinDone(cur, counts, bins, mined, binSize, height, added, dropped, j);
    }
  }

  lemma RoomAfterReplacing(mined: map<Tx, u64>, height: u64, added: set<Tx>, dropped: seq<Tx>, o: Tx, v: Tx,
                           b: seq<Tx>, c: nat, b': seq<Tx>, c': nat, j: nat)
    requires |Of(dropped, mined, j)| <= CountAt(b, MarkAll(mined, added, height), height)
    requires NewestBehind(b, MarkAll(mined, added, height), height, c)
    requires NewestBehind(b', MarkAll(mined, added + {o}, height), height, c')
    requires c' == if SlotIn(mined, v) == j then c + 1 else c
    ensures |Of(dropped + [v], mined, j)| <= CountAt(b', MarkAll(mined, added + {o}, height), height)
  {
    OfAppend(dropped, v, mined, j);
  }

  lemma BinAfterReplacing(cur: seq<seq<Tx>>, counts: seq<nat>, bins: seq<seq<Tx>>, mined: map<Tx, u64>, binSize: nat, height: u64,
                          added: set<Tx>, dropped: seq<Tx>, o: Tx, l: nat, drop: nat, j: nat)
    requires Earlier(bins, mined, binSize, height) && Filling(cur, counts, bins, mined, binSize, height, added, dropped)
    requires o !in mined && o !in added && Slot(height, o) < |cur| && j < |cur|
    requires l == |cur[Slot(height, o)]| - (counts[Slot(height, o)] + 1) && drop < l
    ensures var i := Slot(height, o);
      var b := if j == i then Replaced(cur[i], l, drop, o) else cur[j];
      && BinRegistered(bins[j], b, binSize, height, added + {o}, dropped + [cur[i][drop]], j)
      && NewestBehind(b, MarkAll(mined, added + {o}, height), height, if j == i then counts[j] + 1 else counts[j])
  {
    var i := Slot(height, o);
    var v := cur[i][drop];
    NewcomerIsNew(cur, bins, mined, binSize, height, added, dropped, o);
    assert NewestBehind(cur[i], MarkAll(mined, added, height), height, counts[i]);
    VictimIsOld(cur, counts, bins, mined, binSize, height, added, dropped, i, v);
    assert BinRegistered(bins[j], cur[j], binSize, height, added, dropped, j);
    assert NewestBehind(cur[j], MarkAll(mined, added, height), height, counts[j]);
    OtherBin(cur[j], mined, added, height, o, counts[j]);
    if j == i {
      ReplacedMembers(cur[i], l, drop, o);
      ReplacedBehind(cur[i], MarkAll(mined, added + {o}, height), height, counts[i], l, drop, o);
    } else {
      assert v !in bins[j];
    }
  }
}
