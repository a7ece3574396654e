/** Facts about sequences that several components share. */
module Lists {

  ghost predicate NoRepeats<T>(items: seq<T>)
  {
    forall i, j | 0 <= i < j < |items| :: items[i] != items[j]
  }

  /** Reading a missing key of a Go map of slices yields the empty slice. */
  function At<T>(lists: map<nat, seq<T>>, key: nat): seq<T>
  {
    if key in lists then lists[key] else []
  }

  /** Reading a missing key of a Go map of numbers yields zero. */
  function NumberAt(numbers: map<nat, nat>, key: nat): nat
  {
    if key in numbers then numbers[key] else 0
  }

  ghost function Members<T>(items: seq<T>): set<T>
  {
    set x | x in items
  }

  lemma {:induction false} DistinctLength<T>(items: seq<T>)
    requires NoRepeats(items)
    ensures |Members(items)| == |items|
  {
    if items != [] {
      var last := |items| - 1;
      DistinctLength(items[..last]);
      assert Members(items) == Members(items[..last]) + {items[last]};
    }
  }

  function Without<T>(items: seq<T>, p: nat): seq<T>
    requires p < |items|
  {
    items[..p] + items[p + 1..]
  }

  lemma WithoutMembers<T>(items: seq<T>, p: nat)
    requires NoRepeats(items) && p < |items|
    ensures NoRepeats(Without(items, p))
    ensures forall x :: x in Without(items, p) <==> x in items && x != items[p]
  {
    forall x | x in items && x != items[p] ensures x in Without(items, p) {
      var i :| 0 <= i < |items| && items[i] == x;
      if i < p { assert Without(items, p)[i] == x; } else { assert Without(items, p)[i - 1] == x; }
    }
  }

  lemma {:induction false} CountedOnce<T>(items: seq<T>, x: T)
    requires NoRepeats(items)
    ensures multiset(items)[x] == if x in items then 1 else 0
  {
    if items != [] {
      var last := |items| - 1;
      CountedOnce(items[..last], x);
      assert items == items[..last] + [items[last]];
      assert items[last] !in items[..last];
    }
  }

  lemma CountedTwice<T>(items: seq<T>, i: nat, j: nat)
    requires i < j < |items| && items[i] == items[j]
    ensures multiset(items)[items[i]] >= 2
  {
    assert items == items[..j] + [items[j]] + items[j + 1..];
    assert items[..j][i] == items[i];
    assert items[i] in multiset(items[..j]);
  }

  /** `order` lists the keys of the map once each, as ranging over a Go map does, in whatever order. */
  ghost predicate Ranges<T>(order: seq<nat>, m: map<nat, T>)
  {
    NoRepeats(order) && forall k :: k in order <==> k in m
  }

  lemma Regroup<T>(a: seq<T>, b: seq<T>, c: seq<T>)
    ensures a + (b + c) == a + b + c
  {
  }

  /** The items of a list that satisfy a condition, in order. */
  function Those<T>(items: seq<T>, keep: T -> bool): seq<T>
  {
    if items == [] then [] else (if keep(items[0]) then [items[0]] else []) + Those(items[1..], keep)
  }

  lemma {:induction false} ThoseJoin<T>(a: seq<T>, b: seq<T>, keep: T -> bool)
    ensures Those(a + b, keep) == Those(a, keep) + Those(b, keep)
  {
    if a == [] {
      assert a + b == b;
    } else {
      assert (a + b)[1..] == a[1..] + b;
      ThoseJoin(a[1..], b, keep);
      Regroup(if keep(a[0]) then [a[0]] else [], Those(a[1..], keep), Those(b, keep));
    }
  }

  lemma ThoseOneMore<T>(items: seq<T>, last: T, keep: T -> bool)
    ensures Those(items + [last], keep) == Those(items, keep) + if keep(last) then [last] else []
  {
    ThoseJoin(items, [last], keep);
    assert [last][1..] == [];
  }
}
