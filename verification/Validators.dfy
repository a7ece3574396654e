/** Committee rotation on plain key lists: `SwapValidator` and `RemoveValidator`. The lists are Go slices that
    the source re-slices and reassigns, so they are sequences here. */
module Validators {
  import opened Lists

  datatype SwapResult =
    | SwapPanic
    | Swapped(pending: seq<string>, current: seq<string>, outgoing: seq<string>, incoming: seq<string>, ok: bool)

  function Min(a: int, b: int): int { if a < b then a else b }

  /** The number of validators that leave `pending`. */
  function Moved(pending: seq<string>, offset: int): int { Min(offset, |pending|) }

  /** The free places of a committee. */
  function Room(current: seq<string>, maxCommittee: int): nat
  {
    if |current| < maxCommittee then maxCommittee - |current| else 0
  }

  /** What `SwapValidator` returns, in one closed form. */
  function Swap(pending: seq<string>, current: seq<string>, maxCommittee: int, offset: int): SwapResult
  {
    var moved := Moved(pending, offset);
    if maxCommittee < 0 || offset < 0 then SwapPanic
    else if offset == 0 then Swapped([], pending, current, [], false)
    else if moved == 0 || moved > maxCommittee then Swapped(pending, current, [], [], false)
    else SwapMoved(pending, current, maxCommittee, moved)
  }

  /** Free places are filled first; each further key takes the place of the member who has been there longest. */
  function SwapMoved(pending: seq<string>, current: seq<string>, maxCommittee: nat, moved: nat): SwapResult
    requires 0 < moved <= |pending| && moved <= maxCommittee
  {
    var room := Room(current, maxCommittee);
    if moved <= room then Swapped(pending[moved..], current + pending[..moved], [], pending[..moved], true)
    else if |current| > maxCommittee then SwapPanic
    else
      var all := current + pending[..moved];
      Swapped(pending[moved..], all[moved - room..], all[..moved - room], pending[room..moved], true)
  }

  /** Filling the free places first and then exchanging the rest is one cut of the joined lists. */
  lemma FilledThenSwapped(pending: seq<string>, current: seq<string>, maxCommittee: int, moved: nat)
    requires moved <= |pending| && Room(current, maxCommittee) <= moved
    requires moved - Room(current, maxCommittee) <= |current| + Room(current, maxCommittee)
    ensures var room := Room(current, maxCommittee);
      var filled, all, left := current + pending[..room], current + pending[..moved], moved - room;
      && filled[..left] == all[..left]
      && filled[left..] + pending[room..][..left] == all[left..]
      && pending[room..][..left] == pending[room..moved]
      && pending[room..][left..] == pending[moved..]
  {
  }

  method SwapValidator(pendingValidators: seq<string>, currentValidators: seq<string>, maxCommittee: int, offset: int)
    returns (r: SwapResult)
    ensures r == Swap(pendingValidators, currentValidators, maxCommittee, offset)
  {
    var pending, current, offset := pendingValidators, currentValidators, offset;
    if maxCommittee < 0 || offset < 0 { return SwapPanic; }
    if offset == 0 { return Swapped([], pending, current, [], false); }
    if offset > |pending| { offset := |pending|; }
    if offset == 0 { return Swapped(pending, current, [], [], false); }
    if offset > maxCommittee { return Swapped(pending, current, [], [], false); }
    r := FillAndExchange(pending, current, maxCommittee, offset);
  }

  method FillAndExchange(pendingValidators: seq<string>, currentValidators: seq<string>, maxCommittee: nat, moved: nat)
    returns (r: SwapResult)
    requires 0 < moved <= |pendingValidators| && moved <= maxCommittee
    ensures r == SwapMoved(pendingValidators, currentValidators, maxCommittee, moved)
  {
    var pending, current, offset := pendingValidators, currentValidators, moved;
    if |current| < maxCommittee {
      var diff := maxCommittee - |current|;
      if diff >= offset {
        var incoming := pending[..offset];
        current := current + incoming;
        pending := pending[offset..];
        return Swapped(pending, current, [], incoming, true);
      }
      offset := offset - diff;
      // The source fills a fresh variable here, so these keys never reach the incoming list it returns.
      var shadowed := pending[..diff];
      pending := pending[diff..];
      current := current + shadowed;
    }
    FilledThenSwapped(pendingValidators, currentValidators, maxCommittee, moved);
    NothingFilled(pendingValidators, currentValidators);
    r := Exchange(pending, current, maxCommittee, offset);
  }

  lemma NothingFilled(pending: seq<string>, current: seq<string>)
    ensures current + pending[..0] == current && pending[0..] == pending
  {
  }

  /** A full committee gives up its first members for the first pending keys. */
  method Exchange(pendingValidators: seq<string>, currentValidators: seq<string>, maxCommittee: nat, offset: nat)
    returns (r: SwapResult)
    requires offset <= |pendingValidators| && offset <= |currentValidators|
    ensures r == if |currentValidators| > maxCommittee then SwapPanic
      else Swapped(pendingValidators[offset..], currentValidators[offset..] + pendingValidators[..offset],
        currentValidators[..offset], pendingValidators[..offset], true)
  {
    var pending, current := pendingValidators, currentValidators;
    var outgoing := current[..offset];
    current := current[offset..];
    var incoming := pending[..offset];
    current := current + pending[..offset];
    pending := pending[offset..];
    if |current| > maxCommittee { return SwapPanic; }
    r := Swapped(pending, current, outgoing, incoming, true);
  }

  /** The two lists work as one queue: whoever leaves the committee, the committee and the pending list are, in
      this order, what the committee and the pending list were. No key is lost, repeated or reordered. */
  lemma SwapIsAQueue(pending: seq<string>, current: seq<string>, maxCommittee: int, offset: int)
    requires var r := Swap(pending, current, maxCommittee, offset); r.Swapped? && r.ok
    ensures var r := Swap(pending, current, maxCommittee, offset);
      && r.outgoing + r.current + r.pending == current + pending
      && |r.pending| == |pending| - Moved(pending, offset)
      && |r.current| == Min(maxCommittee, |current| + Moved(pending, offset))
  {
    var moved := Moved(pending, offset);
    var r := Swap(pending, current, maxCommittee, offset);
    assert pending[..moved] + pending[moved..] == pending;
    assert r.outgoing + r.current == current + pending[..moved];
    assert r.outgoing + r.current + r.pending == current + (pending[..moved] + pending[moved..]);
  }

  /** The incoming list reports exactly the keys that entered the committee if and only if the committee was
      full before the call or has room for all of them. */
  lemma IncomingIsComplete(pending: seq<string>, current: seq<string>, maxCommittee: int, offset: int)
    requires var r := Swap(pending, current, maxCommittee, offset); r.Swapped? && r.ok
    ensures Swap(pending, current, maxCommittee, offset).incoming == pending[..Moved(pending, offset)]
      <==> |current| == maxCommittee || |current| + Moved(pending, offset) <= maxCommittee
  {
    var moved := Moved(pending, offset);
    var room := Room(current, maxCommittee);
    if room < moved {
      assert |pending[room..moved]| == moved - room;
      assert |pending[..moved]| == moved;
    }
  }

  datatype RemoveResult =
    | RemovePanic
    | Removed(left: seq<string>, ok: bool)

  /** The loop of `RemoveValidator` from `index` on. The source compares with `validators[index]` after having
      already cut `index` keys off the front. */
  function RemoveFrom(validators: seq<string>, removed: seq<string>, index: nat): RemoveResult
    requires index <= |removed|
    decreases |removed| - index
  {
    if index == |removed| then Removed(validators, true)
    else if index >= |validators| then RemovePanic
    else if validators[index] == removed[index] then RemoveFrom(validators[1..], removed, index + 1)
    else Removed(validators, false)
  }

  function Remove(validators: seq<string>, removed: seq<string>): RemoveResult
  {
    if |removed| > |validators| then Removed(validators, false) else RemoveFrom(validators, removed, 0)
  }

  method RemoveValidator(validators: seq<string>, removedValidators: seq<string>) returns (r: RemoveResult)
    ensures r == Remove(validators, removedValidators)
  {
    if |removedValidators| > |validators| { return Removed(validators, false); }
    var rest := validators;
    for index := 0 to |removedValidators|
      invariant Remove(validators, removedValidators) == RemoveFrom(rest, removedValidators, index)
    {
      if index >= |rest| { return RemovePanic; }
      if rest[index] == removedValidators[index] {
        rest := rest[1..];
      } else {
        return Removed(rest, false);
      }
    }
    r := Removed(rest, true);
  }

  lemma RemoveHead(validators: seq<string>, key: string)
    requires validators != [] && validators[0] == key
    ensures Remove(validators, [key]) == Removed(validators[1..], true)
  {
    assert RemoveFrom(validators, [key], 0) == RemoveFrom(validators[1..], [key], 1);
  }

  /** Removed key `i` stands twice as far from `index` as the loop's start: each earlier step moved the list and
      the index. */
  ghost predicate MatchAt(validators: seq<string>, removed: seq<string>, index: nat, i: nat)
    requires index <= i < |removed|
  {
    2 * i - index < |validators| && validators[2 * i - index] == removed[i]
  }

  ghost predicate AtEvenPositions(validators: seq<string>, removed: seq<string>, index: nat)
  {
    forall i | index <= i < |removed| :: MatchAt(validators, removed, index, i)
  }

  lemma {:induction false} RemoveFromSucceeds(validators: seq<string>, removed: seq<string>, index: nat)
    requires index <= |removed|
    ensures var r := RemoveFrom(validators, removed, index);
      && (r.Removed? && r.ok <==> AtEvenPositions(validators, removed, index))
      && (r.Removed? && r.ok ==> |removed| - index <= |validators| && r.left == validators[|removed| - index..])
    decreases |removed| - index
  {
    if index == |removed| {
    } else if index >= |validators| || validators[index] != removed[index] {
      assert !MatchAt(validators, removed, index, index);
    } else {
      var tail, next := validators[1..], index + 1;
      RemoveFromSucceeds(tail, removed, next);
      assert MatchAt(validators, removed, index, index);
      forall i | next <= i < |removed|
        ensures MatchAt(validators, removed, index, i) <==> MatchAt(tail, removed, next, i)
      {
      }
      if AtEvenPositions(tail, removed, next) {
        forall i | index <= i < |removed| ensures MatchAt(validators, removed, index, i) {
          if i > index { assert MatchAt(tail, removed, next, i); }
        }
      }
      if AtEvenPositions(validators, removed, index) {
        forall i | next <= i < |removed| ensures MatchAt(tail, removed, next, i) {
          assert MatchAt(validators, removed, index, i);
        }
      }
    }
  }

  /** Its documentation promises to cut a removed list that stands at the front of the validators. That holds
      of a list of different validators if and only if at most one validator is removed. */
  lemma RemoveCutsPrefix(validators: seq<string>, removed: seq<string>)
    requires removed <= validators
    requires NoRepeats(validators)
    ensures Remove(validators, removed) == Removed(validators[|removed|..], true) <==> |removed| <= 1
  {
    RemoveFromSucceeds(validators, removed, 0);
    if |removed| >= 2 {
      assert removed[1] == validators[1];
      assert !MatchAt(validators, removed, 0, 1);
    } else if |removed| == 1 {
      assert removed[0] == validators[0];
    }
  }

  // ---------- Refusals ----------

  /** For every input: when a swap panics, when it is refused, and what a refused one returns. With an offset of zero the lists
      come back in other places, as the source returns them. */
  lemma SwapExactly(pending: seq<string>, current: seq<string>, maxCommittee: int, offset: int)
    ensures var r := Swap(pending, current, maxCommittee, offset);
      var moved := if offset < |pending| then offset else |pending|;
      && (r == SwapPanic <==> maxCommittee < 0 || offset < 0 || (0 < moved <= maxCommittee < |current|))
      && (r.Swapped? && r.ok <==> 0 < moved <= maxCommittee && |current| <= maxCommittee)
      && (r.Swapped? && !r.ok ==>
        r == if offset == 0 then Swapped([], pending, current, [], false) else Swapped(pending, current, [], [], false))
  {
  }

  /** All keys before `i` match, and key `i` is looked for behind the end. */
  ghost predicate RunsOff(validators: seq<string>, removed: seq<string>, index: nat, i: nat)
  {
    && index <= i < |removed| && 2 * i - index >= |validators|
    && forall j | index <= j < i :: MatchAt(validators, removed, index, j)
  }

  lemma {:induction false} RemovePanicsExactly(validators: seq<string>, removed: seq<string>, index: nat)
    requires index <= |removed|
    ensures RemoveFrom(validators, removed, index) == RemovePanic <==> exists i: nat :: RunsOff(validators, removed, index, i)
    decreases |removed| - index
  {
    if index < |removed| && index >= |validators| {
      assert RunsOff(validators, removed, index, index);
    } else if index < |removed| && validators[index] == removed[index] {
      RemovePanicsExactly(validators[1..], removed, index + 1);
      forall i: nat ensures RunsOff(validators, removed, index, i) <==> RunsOff(validators[1..], removed, index + 1, i) {
        RunsOffLater(validators, removed, index, i);
      }
      if RemoveFrom(validators, removed, index) == RemovePanic {
        var i: nat :| RunsOff(validators[1..], removed, index + 1, i);
        assert RunsOff(validators, removed, index, i);
      }
      if i: nat :| RunsOff(validators, removed, index, i) {
        assert RunsOff(validators[1..], removed, index + 1, i);
      }
    } else if index < |removed| {
      assert !MatchAt(validators, removed, index, index);
    }
  }

  lemma RunsOffLater(validators: seq<string>, removed: seq<string>, index: nat, i: nat)
    requires index < |removed| && index < |validators| && validators[index] == removed[index]
    ensures RunsOff(validators, removed, index, i) <==> RunsOff(validators[1..], removed, index + 1, i)
  {
    var tail, next := validators[1..], index + 1;
    assert MatchAt(validators, removed, index, index);
    forall j | next <= j < |removed| ensures MatchAt(validators, removed, index, j) <==> MatchAt(tail, removed, next, j) {}
  }
}
