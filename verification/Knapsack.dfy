/** Choosing as many coins as possible within a target: a table filled row by row, and the choice read back from it. */
module Knapsack {

  /** Entry (i, w) of the table: the first i coins, within w. */
  function Table(values: seq<nat>, i: nat, w: nat): nat
    requires i <= |values|
    decreases i
  {
    if i == 0 || w == 0 then 0
    else if values[i - 1] <= w then
      var with, without := 1 + Table(values, i - 1, w - values[i - 1]), Table(values, i - 1, w);
      if with > without then with else without
    else Table(values, i - 1, w)
  }

  function Chosen(choices: seq<bool>): nat
  {
    if choices == [] then 0 else Chosen(choices[..|choices| - 1]) + if choices[|choices| - 1] then 1 else 0
  }

  function Total(values: seq<nat>, choices: seq<bool>): nat
    requires |choices| <= |values|
  {
    if choices == [] then 0
    else Total(values, choices[..|choices| - 1]) + if choices[|choices| - 1] then values[|choices| - 1] else 0
  }

  method Max(a: nat, b: nat) returns (m: nat)
    ensures m == if a > b then a else b
  {
    if a > b { m := a; } else { m := b; }
  }

  method FillTable(values: seq<nat>, target: nat) returns (K: array2<nat>)
    ensures fresh(K) && K.Length0 == |values| + 1 && K.Length1 == target + 1
    ensures forall i, w | 0 <= i <= |values| && 0 <= w <= target :: K[i, w] == Table(values, i, w)
  {
    K := new nat[|values| + 1, target + 1]((_, _) => 0);
    for i := 0 to |values| + 1
      invariant forall j, w | 0 <= j < i && 0 <= w <= target :: K[j, w] == Table(values, j, w)
    {
      FillRow(K, values, target, i);
    }
  }

  method FillRow(K: array2<nat>, values: seq<nat>, target: nat, i: nat)
    requires K.Length0 == |values| + 1 && K.Length1 == target + 1 && i <= |values|
    requires forall j, w | 0 <= j < i && 0 <= w <= target :: K[j, w] == Table(values, j, w)
    modifies K
    ensures forall j, w | 0 <= j <= |values| && j != i && 0 <= w <= target :: K[j, w] == old(K[j, w])
    ensures forall w | 0 <= w <= target :: K[i, w] == Table(values, i, w)
  {
    for w := 0 to target + 1
      invariant forall j, x | 0 <= j <= |values| && j != i && 0 <= x <= target :: K[j, x] == old(K[j, x])
      invariant forall x | 0 <= x < w :: K[i, x] == Table(values, i, x)
    {
      if i == 0 || w == 0 {
        K[i, w] := 0;
      } else if values[i - 1] <= w {
        var m := Max(1 + K[i - 1, w - values[i - 1]], K[i - 1, w]);
        K[i, w] := m;
      } else {
        K[i, w] := K[i - 1, w];
      }
    }
  }

  /** What the read-back chooses of the first i coins within w: a coin is left out when the table does as well without it. */
  function Choice(values: seq<nat>, i: nat, w: nat): (choices: seq<bool>)
    requires i <= |values|
    ensures |choices| == i
    decreases i
  {
    if i == 0 then []
    else if Table(values, i, w) == Table(values, i - 1, w) then Choice(values, i - 1, w) + [false]
    else TableStep(values, i, w); Choice(values, i - 1, w - values[i - 1]) + [true]
  }

  lemma TableStep(values: seq<nat>, i: nat, w: nat)
    requires 0 < i <= |values|
    ensures Table(values, i, w) != Table(values, i - 1, w) ==>
      values[i - 1] <= w && Table(values, i, w) == 1 + Table(values, i - 1, w - values[i - 1])
  {
  }

  method Choose(values: seq<nat>, target: nat) returns (choices: seq<bool>)
    ensures choices == Choice(values, |values|, target)
  {
    var n := |values|;
    var K := FillTable(values, target);
    var targetResult := K[n, target];
    var w := target;
    var i := n;
    choices := seq(n, _ => false);
    while i > 0 && targetResult > 0
      invariant 0 <= i <= n && |choices| == n && 0 <= w <= target
      invariant Holds(K, values, target) && targetResult == Table(values, i, w)
      invariant forall k | 0 <= k < i :: !choices[k]
      invariant Choice(values, n, target) == Choice(values, i, w) + choices[i..]
    {
      TableStep(values, i, w);
      if targetResult == K[i - 1, w] {
        choices := choices[i - 1 := false];
      } else {
        choices := choices[i - 1 := true];
        targetResult := targetResult - 1;
        w := w - values[i - 1];
      }
      i := i - 1;
    }
    NothingLeft(values, i, w);
  }

  ghost predicate Holds(K: array2<nat>, values: seq<nat>, target: nat)
    reads K
  {
    && K.Length0 == |values| + 1 && K.Length1 == target + 1
    && forall j, x | 0 <= j <= |values| && 0 <= x <= target :: K[j, x] == Table(values, j, x)
  }

  lemma {:induction false} NothingLeft(values: seq<nat>, i: nat, w: nat)
    requires i <= |values| && Table(values, i, w) == 0
    ensures forall k | 0 <= k < i :: !Choice(values, i, w)[k]
    decreases i
  {
    if i > 0 {
      TableStep(values, i, w);
      NothingLeft(values, i - 1, w);
    }
  }

  /** What is chosen stays within the target and reaches the number in the table's last entry. */
  lemma ChoiceReaches(values: seq<nat>, i: nat, w: nat)
    requires i <= |values|
    ensures Total(values, Choice(values, i, w)) <= w
    ensures Chosen(Choice(values, i, w)) == Table(values, i, w)
  {
    var choices := ReadBack(values, i, w);
  }

  lemma {:induction false} ReadBack(values: seq<nat>, i: nat, w: nat) returns (choices: seq<bool>)
    requires i <= |values|
    ensures choices == Choice(values, i, w) && |choices| == i
    ensures Total(values, choices) <= w && Chosen(choices) == Table(values, i, w)
    decreases i
  {
    if i == 0 {
      choices := [];
    } else {
      TableStep(values, i, w);
      ChoiceSteps(values, i, w);
      var leave := Table(values, i, w) == Table(values, i - 1, w);
      var left: nat := if leave then w else w - values[i - 1];
      var before := ReadBack(values, i - 1, left);
      OneMoreChoice(values, before, !leave);
      choices := before + [!leave];
    }
  }

  lemma ChoiceSteps(values: seq<nat>, i: nat, w: nat)
    requires 0 < i <= |values|
    ensures Table(values, i, w) == Table(values, i - 1, w) ==> Choice(values, i, w) == Choice(values, i - 1, w) + [false]
    ensures Table(values, i, w) != Table(values, i - 1, w) ==>
      values[i - 1] <= w && Choice(values, i, w) == Choice(values, i - 1, w - values[i - 1]) + [true]
  {
    TableStep(values, i, w);
  }

  lemma OneMoreChoice(values: seq<nat>, before: seq<bool>, chosen: bool)
    requires |before| < |values|
    ensures Total(values, before + [chosen]) == Total(values, before) + if chosen then values[|before|] else 0
    ensures Chosen(before + [chosen]) == Chosen(before) + if chosen then 1 else 0
  {
    assert (before + [chosen])[..|before|] == before;
  }

  // ---------- Optimality ----------

  /** For positive values, no choice within the target has more coins than the table says. */
  lemma {:induction false} TableIsOptimal(values: seq<nat>, choices: seq<bool>, w: nat)
    requires |choices| <= |values| && Total(values, choices) <= w
    requires forall i | 0 <= i < |values| :: values[i] > 0
    ensures Chosen(choices) <= Table(values, |choices|, w)
    decreases |choices|
  {
    if choices != [] {
      var i := |choices|;
      var before := choices[..i - 1];
      if choices[i - 1] {
        TableIsOptimal(values, before, w - values[i - 1]);
      } else {
        TableIsOptimal(values, before, w);
      }
      if w == 0 { NothingForNothing(values, choices); }
    }
  }

  lemma {:induction false} NothingForNothing(values: seq<nat>, choices: seq<bool>)
    requires |choices| <= |values| && Total(values, choices) == 0
    requires forall i | 0 <= i < |values| :: values[i] > 0
    ensures Chosen(choices) == 0
  {
    if choices != [] { NothingForNothing(values, choices[..|choices| - 1]); }
  }

  /** No choice within the target has more coins. */
  ghost predicate Optimal(values: seq<nat>, target: nat, choices: seq<bool>)
    requires |choices| == |values|
  {
    && Total(values, choices) <= target
    && forall other: seq<bool> | |other| == |values| && Total(values, other) <= target :: Chosen(other) <= Chosen(choices)
  }

  method Knapsack(values: seq<nat>, target: nat) returns (choices: seq<bool>)
    ensures choices == Choice(values, |values|, target)
    ensures |choices| == |values| && Total(values, choices) <= target
    ensures (forall i | 0 <= i < |values| :: values[i] > 0) ==> Optimal(values, target, choices)
  {
    choices := Choose(values, target);
    ChoiceReaches(values, |values|, target);
    if forall i | 0 <= i < |values| :: values[i] > 0 { PositiveIsOptimal(values, target); }
  }

  lemma PositiveIsOptimal(values: seq<nat>, target: nat)
    requires forall i | 0 <= i < |values| :: values[i] > 0
    ensures Optimal(values, target, Choice(values, |values|, target))
  {
    ChoiceReaches(values, |values|, target);
    forall other: seq<bool> | |other| == |values| && Total(values, other) <= target
      ensures Chosen(other) <= Chosen(Choice(values, |values|, target))
    {
      TableIsOptimal(values, other, target);
    }
  }

  /** The choice is optimal for every target if and only if every coin has a value: within 0, a coin without value would fit and is
      not chosen. */
  lemma OptimalForPositive(values: seq<nat>)
    ensures (forall target: nat :: Optimal(values, target, Choice(values, |values|, target))) <==>
      forall i | 0 <= i < |values| :: values[i] > 0
    ensures Optimal(values, 0, Choice(values, |values|, 0)) <==> forall i | 0 <= i < |values| :: values[i] > 0
  {
    if forall i | 0 <= i < |values| :: values[i] > 0 {
      forall target: nat ensures Optimal(values, target, Choice(values, |values|, target)) {
        PositiveIsOptimal(values, target);
      }
    } else {
      var p :| 0 <= p < |values| && values[p] == 0;
      WorthlessIsMissed(values, p);
    }
  }

  lemma WorthlessIsMissed(values: seq<nat>, p: nat)
    requires p < |values| && values[p] == 0
    ensures !Optimal(values, 0, Choice(values, |values|, 0))
  {
    ChoiceReaches(values, |values|, 0);
    var only := seq(|values|, k => k == p);
    OnlyOne(values, only, p);
    assert Chosen(only) > Chosen(Choice(values, |values|, 0));
  }

  lemma {:induction false} OnlyOne(values: seq<nat>, only: seq<bool>, p: nat)
    requires |only| <= |values| && p < |values| && values[p] == 0
    requires forall k | 0 <= k < |only| :: only[k] <==> k == p
    ensures Total(values, only) == 0 && Chosen(only) == if p < |only| then 1 else 0
  {
    if only != [] { OnlyOne(values, only[..|only| - 1], p); }
  }

  /** Within a larger target, too: of coins worth 0 and 5, only the second is chosen within 5. */
  lemma WorthlessCoinMissed()
    ensures var choices := Choice([0, 5], 2, 5);
      Chosen(choices) == 1 && Total([0, 5], [true, true]) <= 5 && Chosen([true, true]) == 2
      && !Optimal([0, 5], 5, choices)
  {
    assert [true, true][..1] == [true] && [true][..0] == [];
    assert Table([0, 5], 1, 0) == 0 && Table([0, 5], 0, 5) == 0;
    assert Table([0, 5], 1, 5) == 1;
    ChoiceReaches([0, 5], 2, 5);
  }
}
