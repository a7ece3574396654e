/** How far an undo has come, for the loops that carry it out. */
module FeeUndo {
  import opened Codec
  import opened Lists
  import opened FeeBins

  /** Bin `b`, which was `b0`, is done up to `c`: what stands there and what refilling the rest will give is the whole. */
  ghost predicate Progress(b: seq<Tx>, b0: seq<Tx>, c: nat, mined: map<Tx, u64>, height: u64, rest: seq<Tx>, all: seq<Tx>)
  {
    && c <= |b| == |b0| && b[c..] == b0[c..]
    && b[..c] + Refill(b0[c..], mined, height, rest) == Refill(b0, mined, height, all)
    && CountAt(b0[c..], mined, height) - |rest| == CountAt(b0, mined, height) - |all|
  }

  lemma ProgressStarts(b: seq<Tx>, mined: map<Tx, u64>, height: u64, all: seq<Tx>)
    ensures Progress(b, b, 0, mined, height, all, all)
  {
    assert b[0..] == b;
  }

  lemma ProgressPasses(b: seq<Tx>, b0: seq<Tx>, c: nat, mined: map<Tx, u64>, height: u64, rest: seq<Tx>, all: seq<Tx>)
    requires Progress(b, b0, c, mined, height, rest, all) && c < |b| && Mark(mined, b0[c]) != height
    ensures Progress(b, b0, c + 1, mined, height, rest, all)
  {
    assert b0[c..][1..] == b0[c + 1..] && b[c..][0] == b0[c..][0];
    assert b[..c + 1] == b[..c] + [b[c]];
    assert b[..c] + ([b[c]] + Refill(b0[c + 1..], mined, height, rest)) == b[..c + 1] + Refill(b0[c + 1..], mined, height, rest);
    assert b[c + 1..] == b[c..][1..];
  }

  lemma ProgressReplaces(b: seq<Tx>, b0: seq<Tx>, c: nat, mined: map<Tx, u64>, height: u64, rest: seq<Tx>, all: seq<Tx>)
    requires Progress(b, b0, c, mined, height, rest, all) && c < |b| && Mark(mined, b0[c]) == height && rest != []
    ensures Progress(b[c := rest[0]], b0, c + 1, mined, height, rest[1..], all)
  {
    var b' := b[c := rest[0]];
    assert b0[c..][1..] == b0[c + 1..];
    assert b'[..c + 1] == b[..c] + [rest[0]];
    var tail := Refill(b0[c + 1..], mined, height, rest[1..]);
    assert b[..c] + ([rest[0]] + tail) == b'[..c + 1] + tail;
    assert b'[c + 1..] == b[c..][1..];
  }

  ghost predicate AllProgress(bin: seq<seq<Tx>>, bins: seq<seq<Tx>>, counters: seq<nat>, mined: map<Tx, u64>, height: u64, rest: seq<Tx>, all: seq<Tx>)
  {
    && |bin| == |counters| == |bins|
    && forall i | 0 <= i < |bin| :: Progress(bin[i], bins[i], counters[i], mined, height, Of(rest, mined, i), Of(all, mined, i))
  }

  lemma AllProgressStart(bins: seq<seq<Tx>>, counters: seq<nat>, mined: map<Tx, u64>, height: u64, all: seq<Tx>)
    requires |counters| == |bins| && forall i | 0 <= i < |bins| :: counters[i] == 0
    ensures AllProgress(bins, bins, counters, mined, height, all, all)
  {
    forall i | 0 <= i < |bins|
      ensures Progress(bins[i], bins[i], counters[i], mined, height, Of(all, mined, i), Of(all, mined, i))
    {
      ProgressStarts(bins[i], mined, height, Of(all, mined, i));
    }
  }

  lemma AllProgressSteps(bin: seq<seq<Tx>>, bin': seq<seq<Tx>>, bins: seq<seq<Tx>>, counters: seq<nat>, counters': seq<nat>,
                         mined: map<Tx, u64>, height: u64, rest: seq<Tx>, all: seq<Tx>, i: nat)
    requires rest != [] && i < |bin| && SlotIn(mined, rest[0]) == i
    requires AllProgress(bin, bins, counters, mined, height, rest, all)
    requires |bin'| == |bin| && bin' == bin[i := bin'[i]] && |counters'| == |counters| && counters' == counters[i := counters'[i]]
    requires Progress(bin'[i], bins[i], counters'[i], mined, height, Of(rest[1..], mined, i), Of(all, mined, i))
    ensures AllProgress(bin', bins, counters', mined, height, rest[1..], all)
  {
    forall j | 0 <= j < |bin'|
      ensures Progress(bin'[j], bins[j], counters'[j], mined, height, Of(rest[1..], mined, j), Of(all, mined, j))
    {
      if j != i {
        assert bin'[j] == bin[j] && counters'[j] == counters[j];
        assert Of(rest, mined, j) == Of(rest[1..], mined, j);
      }
    }
  }

  lemma AllProgressEnds(bin: seq<seq<Tx>>, bins: seq<seq<Tx>>, counters: seq<nat>, mined: map<Tx, u64>, height: u64, all: seq<Tx>)
    requires AllProgress(bin, bins, counters, mined, height, [], all)
    ensures Room(bins, mined, height, all)
  {
    forall i | 0 <= i < |bins| ensures |Of(all, mined, i)| <= CountAt(bins[i], mined, height) {
      assert Progress(bin[i], bins[i], counters[i], mined, height, [], Of(all, mined, i));
    }
  }

  lemma NoRoomIn(bins: seq<seq<Tx>>, mined: map<Tx, u64>, height: u64, all: seq<Tx>, i: nat)
    requires i < |bins| && |Of(all, mined, i)| > CountAt(bins[i], mined, height)
    ensures !Room(bins, mined, height, all)
  {
  }

  /** Bin `b`, once `b0`, with `j` entries settled; what follows them is the part of `b0` from `c` on. */
  ghost predicate Settling(b: seq<Tx>, j: nat, b0: seq<Tx>, c: nat, mined: map<Tx, u64>, height: u64, all: seq<Tx>)
  {
    && j <= |b| && c <= |b0| && b[j..] == b0[c..]
    && b[..j] + Refill(b0[c..], mined, height, []) == Refill(b0, mined, height, all)
  }

  lemma SettlingKeeps(b: seq<Tx>, j: nat, b0: seq<Tx>, c: nat, mined: map<Tx, u64>, height: u64, all: seq<Tx>)
    requires Settling(b, j, b0, c, mined, height, all) && j < |b| && Mark(mined, b[j]) != height
    ensures Settling(b, j + 1, b0, c + 1, mined, height, all)
  {
    assert b0[c..][0] == b[j..][0] && b0[c..][1..] == b0[c + 1..] && b[j..][1..] == b[j + 1..];
    assert b[..j + 1] == b[..j] + [b[j]];
    var tail := Refill(b0[c + 1..], mined, height, []);
    assert b[..j] + ([b[j]] + tail) == b[..j + 1] + tail;
  }

  lemma SettlingRemoves(b: seq<Tx>, j: nat, b0: seq<Tx>, c: nat, mined: map<Tx, u64>, height: u64, all: seq<Tx>)
    requires Settling(b, j, b0, c, mined, height, all) && j < |b| && Mark(mined, b[j]) == height
    ensures Settling(b[..j] + b[j + 1..], j, b0, c + 1, mined, height, all)
  {
    assert b0[c..][0] == b[j..][0] && b0[c..][1..] == b0[c + 1..] && b[j..][1..] == b[j + 1..];
    var b' := b[..j] + b[j + 1..];
    assert b'[..j] == b[..j] && b'[j..] == b[j + 1..];
  }

  lemma SettlingEnds(b: seq<Tx>, b0: seq<Tx>, c: nat, mined: map<Tx, u64>, height: u64, all: seq<Tx>)
    requires Settling(b, |b|, b0, c, mined, height, all)
    ensures c == |b0| && b == Refill(b0, mined, height, all)
  {
    assert |b[|b|..]| == 0 && |b0[c..]| == |b0| - c;
    assert b[..|b|] == b && b0[c..] == [];
  }

  ghost predicate Settled(bin: seq<seq<Tx>>, bins: seq<seq<Tx>>, counters: seq<nat>, mined: map<Tx, u64>, height: u64, all: seq<Tx>, n: nat)
  {
    && |bin| == |counters| == |bins| && n <= |bin|
    && (forall i | 0 <= i < n :: counters[i] == |bins[i]| && bin[i] == Refill(bins[i], mined, height, Of(all, mined, i)))
    && (forall i | n <= i < |bin| :: Progress(bin[i], bins[i], counters[i], mined, height, [], Of(all, mined, i)))
  }

  /** The marks that an undo has taken back: those of the newest entries in the parts it has passed. */
  ghost predicate Passed(bins: seq<seq<Tx>>, counters: seq<nat>, o: Tx)
  {
    exists i | 0 <= i < |bins| && i < |counters| && counters[i] <= |bins[i]| :: o in bins[i][..counters[i]]
  }

  ghost predicate Cleared(m: map<Tx, u64>, mined: map<Tx, u64>, bins: seq<seq<Tx>>, counters: seq<nat>, height: u64)
  {
    && |bins| == |counters|
    && (forall i | 0 <= i < |bins| :: counters[i] <= |bins[i]|)
    && (forall o :: o in m <==> o in mined && !(mined[o] == height && Passed(bins, counters, o)))
    && (forall o | o in m :: m[o] == mined[o])
  }

  /** What the undo needs to know of the bins. */
  ghost predicate Placed(bins: seq<seq<Tx>>, mined: map<Tx, u64>)
  {
    && (forall i | 0 <= i < |bins| :: NoRepeats(bins[i]))
    && (forall i, o | 0 <= i < |bins| && o in bins[i] :: o in mined && mined[o] != UnminedHeight && SlotIn(mined, o) == i)
  }

  lemma NotYetPassed(bins: seq<seq<Tx>>, counters: seq<nat>, mined: map<Tx, u64>, i: nat)
    requires Placed(bins, mined) && |bins| == |counters| && i < |bins| && counters[i] < |bins[i]|
    ensures !Passed(bins, counters, bins[i][counters[i]])
  {
    var o := bins[i][counters[i]];
    forall j | 0 <= j < |bins| && counters[j] <= |bins[j]| ensures o !in bins[j][..counters[j]] {
      assert o in bins[i] && SlotIn(mined, o) == i;
      assert o in bins[j] ==> SlotIn(mined, o) == j;
    }
  }

  lemma PassedMore(bins: seq<seq<Tx>>, counters: seq<nat>, i: nat, o: Tx)
    requires |bins| == |counters| && i < |bins| && counters[i] < |bins[i]|
    requires forall j | 0 <= j < |bins| :: counters[j] <= |bins[j]|
    ensures Passed(bins, counters[i := counters[i] + 1], o) <==> Passed(bins, counters, o) || o == bins[i][counters[i]]
  {
    var c := counters[i];
    var counters' := counters[i := c + 1];
    assert bins[i][..c + 1] == bins[i][..c] + [bins[i][c]];
    forall j | 0 <= j < |bins| && j != i ensures counters'[j] == counters[j] {}
    if Passed(bins, counters, o) {
      var j :| 0 <= j < |bins| && o in bins[j][..counters[j]];
      assert o in bins[j][..counters'[j]];
    }
    if o == bins[i][c] { assert o in bins[i][..counters'[i]]; }
  }

  lemma ClearedPasses(m: map<Tx, u64>, mined: map<Tx, u64>, bins: seq<seq<Tx>>, counters: seq<nat>, height: u64, i: nat)
    requires Cleared(m, mined, bins, counters, height) && Placed(bins, mined) && height != UnminedHeight
    requires i < |bins| && counters[i] < |bins[i]|
    ensures Mark(m, bins[i][counters[i]]) == Mark(mined, bins[i][counters[i]])
    ensures Mark(mined, bins[i][counters[i]]) != height ==> Cleared(m, mined, bins, counters[i := counters[i] + 1], height)
    ensures Mark(mined, bins[i][counters[i]]) == height ==>
      Cleared(m - {bins[i][counters[i]]}, mined, bins, counters[i := counters[i] + 1], height)
  {
    var prev := bins[i][counters[i]];
    NotYetPassed(bins, counters, mined, i);
    assert prev in bins[i];
    forall o ensures Passed(bins, counters[i := counters[i] + 1], o) <==> Passed(bins, counters, o) || o == prev {
      PassedMore(bins, counters, i, o);
    }
  }

  lemma ClearedAll(m: map<Tx, u64>, mined: map<Tx, u64>, bins: seq<seq<Tx>>, counters: seq<nat>, height: u64)
    requires Cleared(m, mined, bins, counters, height) && forall i | 0 <= i < |bins| :: counters[i] == |bins[i]|
    ensures m == Unmark(mined, bins, height)
  {
    forall o ensures Passed(bins, counters, o) <==> InSomeBin(bins, o) {
      if InSomeBin(bins, o) {
        var i :| 0 <= i < |bins| && o in bins[i];
        assert bins[i][..counters[i]] == bins[i];
        assert o in bins[i][..counters[i]];
      }
    }
  }

  lemma MarkKept(m: map<Tx, u64>, mined: map<Tx, u64>, bins: seq<seq<Tx>>, counters: seq<nat>, height: u64, o: Tx)
    requires Cleared(m, mined, bins, counters, height) && o in mined && mined[o] != height
    ensures Mark(m, o) == Mark(mined, o)
  {
  }

  /** The state of the eviction from bin `i`. */
  ghost predicate Evicting(b: seq<Tx>, j: nat, m: map<Tx, u64>, i: nat, c: nat, counters: seq<nat>, bins: seq<seq<Tx>>,
                           mined: map<Tx, u64>, height: u64, all: seq<Tx>)
  {
    && i < |bins| == |counters|
    && Settling(b, j, bins[i], c, mined, height, all)
    && Cleared(m, mined, bins, counters[i := c], height)
  }

  lemma EvictingStep(b: seq<Tx>, j: nat, m: map<Tx, u64>, i: nat, c: nat, counters: seq<nat>, bins: seq<seq<Tx>>,
                     mined: map<Tx, u64>, height: u64, all: seq<Tx>)
    requires Placed(bins, mined) && height != UnminedHeight
    requires Evicting(b, j, m, i, c, counters, bins, mined, height, all) && j < |b|
    ensures Mark(m, b[j]) == height ==>
      Evicting(b[..j] + b[j + 1..], j, m - {b[j]}, i, c + 1, counters, bins, mined, height, all)
    ensures Mark(m, b[j]) != height ==> Evicting(b, j + 1, m, i, c + 1, counters, bins, mined, height, all)
  {
    assert b[j] == b[j..][0] == bins[i][c..][0];
    ClearedPasses(m, mined, bins, counters[i := c], height, i);
    assert counters[i := c][i := c + 1] == counters[i := c + 1];
    if Mark(m, b[j]) == height {
      SettlingRemoves(b, j, bins[i], c, mined, height, all);
    } else {
      SettlingKeeps(b, j, bins[i], c, mined, height, all);
    }
  }

  /** The state of the search through bin `i` for the next entry to replace. */
  ghost predicate Searching(b: seq<Tx>, m: map<Tx, u64>, i: nat, c: nat, counters: seq<nat>, bins: seq<seq<Tx>>,
                            mined: map<Tx, u64>, height: u64, rest: seq<Tx>, all: seq<Tx>)
  {
    && i < |bins| == |counters|
    && Progress(b, bins[i], c, mined, height, rest, all)
    && Cleared(m, mined, bins, counters[i := c], height)
  }

  lemma SearchingStep(b: seq<Tx>, m: map<Tx, u64>, i: nat, c: nat, counters: seq<nat>, bins: seq<seq<Tx>>,
                      mined: map<Tx, u64>, height: u64, rest: seq<Tx>, all: seq<Tx>)
    requires Placed(bins, mined) && height != UnminedHeight && rest != []
    requires Searching(b, m, i, c, counters, bins, mined, height, rest, all) && c < |b|
    ensures Mark(m, b[c]) == height ==>
      Searching(b[c := rest[0]], m - {b[c]}, i, c + 1, counters, bins, mined, height, rest[1..], all)
    ensures Mark(m, b[c]) != height ==> Searching(b, m, i, c + 1, counters, bins, mined, height, rest, all)
  {
    assert b[c] == b[c..][0] == bins[i][c..][0];
    ClearedPasses(m, mined, bins, counters[i := c], height, i);
    assert counters[i := c][i := c + 1] == counters[i := c + 1];
    if Mark(m, b[c]) == height {
      ProgressReplaces(b, bins[i], c, mined, height, rest, all);
    } else {
      ProgressPasses(b, bins[i], c, mined, height, rest, all);
    }
  }

  lemma SearchFailed(b: seq<Tx>, m: map<Tx, u64>, i: nat, counters: seq<nat>, bins: seq<seq<Tx>>,
                     mined: map<Tx, u64>, height: u64, rest: seq<Tx>, all: seq<Tx>)
    requires Searching(b, m, i, |b|, counters, bins, mined, height, rest, all) && rest != []
    ensures |all| > CountAt(bins[i], mined, height)
  {
    assert bins[i][|b|..] == [];
  }
}
