/** The beacon's record of which heights of one shard carry outputs for another: a linked list of heights for every
    ordered pair of shards, kept in one table. */
module NextHeights {
  import opened Blocks
  import opened Lists

  /** A key of the table: a height of `fromShard`, seen by `toShard`. */
  datatype Link = Link(fromShard: nat, toShard: nat, height: nat)

  datatype Table = Table(next: map<Link, nat>, last: map<nat, map<nat, nat>>)

  datatype Fetched = Found(height: nat) | Missing

  function Fetch(next: map<Link, nat>, fromShard: nat, toShard: nat, height: nat): Fetched
  {
    var link := Link(fromShard, toShard, height);
    if link in next then Found(next[link]) else Missing
  }

  function LastHeight(last: map<nat, map<nat, nat>>, fromShard: nat, toShard: nat): nat
  {
    if fromShard in last then NumberAt(last[fromShard], toShard) else 0
  }

  // ---------- Chains of heights ----------

  ghost predicate Ascending(heights: seq<nat>)
  {
    && (forall i | 0 <= i < |heights| :: 0 < heights[i])
    && (forall i, j | 0 <= i < j < |heights| :: heights[i] < heights[j])
  }

  function Last(heights: seq<nat>): nat
  {
    if heights == [] then 0 else heights[|heights| - 1]
  }

  /** Zero stands for the place before the first height. */
  ghost predicate OnChain(heights: seq<nat>, h: nat)
  {
    h == 0 || h in heights
  }

  /** The first height of the chain above `h`, or zero when there is none. */
  ghost function After(heights: seq<nat>, h: nat): nat
  {
    if heights == [] then 0 else if heights[0] > h then heights[0] else After(heights[1..], h)
  }

  lemma {:induction false} AfterIsLeast(heights: seq<nat>, h: nat)
    requires Ascending(heights)
    ensures After(heights, h) == 0 ==> forall x | x in heights :: x <= h
    ensures After(heights, h) != 0 ==> After(heights, h) in heights && h < After(heights, h)
    ensures After(heights, h) != 0 ==> forall x | x in heights :: h < x ==> After(heights, h) <= x
  {
    if heights != [] {
      assert heights == [heights[0]] + heights[1..];
      if heights[0] <= h { AfterIsLeast(heights[1..], h); }
    }
  }

  lemma {:induction false} AfterExtended(heights: seq<nat>, more: seq<nat>, h: nat)
    ensures After(heights + more, h) == if After(heights, h) != 0 then After(heights, h) else After(more, h)
    requires forall i | 0 <= i < |heights| :: 0 < heights[i]
  {
    if heights == [] {
      assert heights + more == more;
    } else {
      assert (heights + more)[1..] == heights[1..] + more;
      if heights[0] <= h { AfterExtended(heights[1..], more, h); }
    }
  }

  /** The table holds exactly the linked list 0 -> first -> ... -> last -> 0 for one pair, and nothing when no height
      was ever confirmed for it. */
  ghost predicate Records(next: map<Link, nat>, fromShard: nat, toShard: nat, heights: seq<nat>)
  {
    forall h: nat ::
      && (Link(fromShard, toShard, h) in next <==> (heights != [] && OnChain(heights, h)))
      && (Link(fromShard, toShard, h) in next ==> next[Link(fromShard, toShard, h)] == After(heights, h))
  }

  // ---------- Storing ----------

  /** One (block, target) pair: link the last height to this one, and close the list behind it. */
  function StoreOne(tb: Table, fromShard: nat, toShard: nat, height: nat): Table
  {
    if fromShard == toShard then tb
    else
      var row := if fromShard in tb.last then tb.last[fromShard] else map[];
      var lastHeight := NumberAt(row, toShard);
      Table(
        tb.next[Link(fromShard, toShard, lastHeight) := height][Link(fromShard, toShard, height) := 0],
        tb.last[fromShard := row[toShard := height]])
  }

  function StoreTargets(tb: Table, fromShard: nat, targets: seq<nat>, height: nat): Table
    decreases |targets|
  {
    if targets == [] then tb
    else StoreTargets(StoreOne(tb, fromShard, targets[0], height), fromShard, targets[1..], height)
  }

  function StoreEntries(tb: Table, fromShard: nat, entries: seq<ShardEntry>): Table
    decreases |entries|
  {
    if entries == [] then tb
    else StoreEntries(StoreTargets(tb, fromShard, entries[0].crossShard, entries[0].height), fromShard, entries[1..])
  }

  // ---------- What the table means ----------

  /** The heights of `fromShard` whose list of targets names `toShard`, in order. */
  function HeightsFor(entries: seq<ShardEntry>, fromShard: nat, toShard: nat): seq<nat>
  {
    if entries == [] then []
    else
      (if toShard != fromShard && toShard in entries[0].crossShard then [entries[0].height] else [])
      + HeightsFor(entries[1..], fromShard, toShard)
  }

  /** Shard blocks reach the beacon in order of height. */
  ghost predicate InOrder(entries: seq<ShardEntry>)
  {
    && (forall i | 0 <= i < |entries| :: 0 < entries[i].height)
    && (forall i, j | 0 <= i < j < |entries| :: entries[i].height < entries[j].height)
  }

  /** Some entry of height `h` has `toShard` among its targets. */
  ghost predicate Names(entries: seq<ShardEntry>, h: nat, toShard: nat)
  {
    exists i | 0 <= i < |entries| :: entries[i].height == h && toShard in entries[i].crossShard
  }

  lemma HeightsAreEntries(entries: seq<ShardEntry>, fromShard: nat, toShard: nat)
    requires InOrder(entries)
    ensures Ascending(HeightsFor(entries, fromShard, toShard))
    ensures forall h :: h in HeightsFor(entries, fromShard, toShard) <==> toShard != fromShard && Names(entries, h, toShard)
  {
    HeightsMembers(entries, fromShard, toShard);
    HeightsAscend(entries, fromShard, toShard, 0);
  }

  lemma {:induction false} HeightsMembers(entries: seq<ShardEntry>, fromShard: nat, toShard: nat)
    ensures forall h :: h in HeightsFor(entries, fromShard, toShard) <==> toShard != fromShard && Names(entries, h, toShard)
  {
    if entries != [] {
      var rest := entries[1..];
      HeightsMembers(rest, fromShard, toShard);
      forall h: nat ensures Names(entries, h, toShard) <==>
          (entries[0].height == h && toShard in entries[0].crossShard) || Names(rest, h, toShard)
      {
        EntryFirstOrLater(entries, h, toShard);
      }
    }
  }

  lemma EntryFirstOrLater(entries: seq<ShardEntry>, h: nat, toShard: nat)
    requires entries != []
    ensures Names(entries, h, toShard) <==>
      (entries[0].height == h && toShard in entries[0].crossShard) || Names(entries[1..], h, toShard)
  {
    var rest := entries[1..];
    if i :| 0 <= i < |entries| && entries[i].height == h && toShard in entries[i].crossShard {
      if i > 0 { assert rest[i - 1] == entries[i]; }
    }
    if i :| 0 <= i < |rest| && rest[i].height == h && toShard in rest[i].crossShard {
      assert entries[i + 1] == rest[i];
    }
  }

  lemma {:induction false} HeightsAscend(entries: seq<ShardEntry>, fromShard: nat, toShard: nat, below: nat)
    requires InOrder(entries) && Beyond(entries, below)
    ensures Ascending(HeightsFor(entries, fromShard, toShard))
    ensures forall i | 0 <= i < |HeightsFor(entries, fromShard, toShard)| :: below < HeightsFor(entries, fromShard, toShard)[i]
  {
    if entries != [] {
      var rest := entries[1..];
      assert forall i | 0 <= i < |rest| :: rest[i] == entries[i + 1];
      HeightsAscend(rest, fromShard, toShard, entries[0].height);
    }
  }

  lemma {:induction false} HeightsAppend(a: seq<ShardEntry>, b: seq<ShardEntry>, fromShard: nat, toShard: nat)
    ensures HeightsFor(a + b, fromShard, toShard) == HeightsFor(a, fromShard, toShard) + HeightsFor(b, fromShard, toShard)
  {
    if a == [] {
      assert a + b == b;
    } else {
      assert (a + b)[1..] == a[1..] + b && (a + b)[0] == a[0];
      HeightsAppend(a[1..], b, fromShard, toShard);
      var head := if toShard != fromShard && toShard in a[0].crossShard then [a[0].height] else [];
      assert HeightsFor(a, fromShard, toShard) == head + HeightsFor(a[1..], fromShard, toShard);
      Regroup(head, HeightsFor(a[1..], fromShard, toShard), HeightsFor(b, fromShard, toShard));
    }
  }

  /** The table and the last-height map agree with the heights confirmed for one pair. */
  ghost predicate Follows(tb: Table, fromShard: nat, toShard: nat, heights: seq<nat>)
  {
    && Records(tb.next, fromShard, toShard, heights)
    && LastHeight(tb.last, fromShard, toShard) == Last(heights)
  }

  lemma LinkAppended(next: map<Link, nat>, f: nat, t: nat, heights: seq<nat>, height: nat)
    requires Ascending(heights) && Last(heights) < height
    requires Records(next, f, t, heights)
    ensures Ascending(heights + [height])
    ensures Records(next[Link(f, t, Last(heights)) := height][Link(f, t, height) := 0], f, t, heights + [height])
  {
    var next' := next[Link(f, t, Last(heights)) := height][Link(f, t, height) := 0];
    forall h: nat
      ensures Link(f, t, h) in next' <==> OnChain(heights + [height], h)
      ensures Link(f, t, h) in next' ==> next'[Link(f, t, h)] == After(heights + [height], h)
    {
      AfterExtended(heights, [height], h);
      AfterIsLeast(heights, h);
      if h == Last(heights) { assert heights != [] ==> heights[|heights| - 1] in heights; }
    }
  }

  lemma LinkRepeated(next: map<Link, nat>, f: nat, t: nat, heights: seq<nat>)
    requires Ascending(heights) && heights != []
    requires Records(next, f, t, heights)
    ensures Records(next[Link(f, t, Last(heights)) := Last(heights)][Link(f, t, Last(heights)) := 0], f, t, heights)
  {
    AfterIsLeast(heights, Last(heights));
    assert Last(heights) in heights;
  }

  /** Naming the same target twice leaves the list as naming it once does. */
  lemma StoreOneFollows(tb: Table, f: nat, t: nat, heights: seq<nat>, height: nat)
    requires f != t && Ascending(heights) && Follows(tb, f, t, heights)
    requires Last(heights) < height || (heights != [] && Last(heights) == height)
    ensures Last(heights) < height ==> Follows(StoreOne(tb, f, t, height), f, t, heights + [height])
    ensures Last(heights) == height ==> Follows(StoreOne(tb, f, t, height), f, t, heights)
  {
    if Last(heights) < height {
      LinkAppended(tb.next, f, t, heights, height);
    } else {
      LinkRepeated(tb.next, f, t, heights);
    }
  }

  lemma StoreOneElsewhere(tb: Table, f: nat, t: nat, height: nat, f': nat, t': nat, heights: seq<nat>)
    requires f' != f || t' != t || f == t
    requires Follows(tb, f', t', heights)
    ensures Follows(StoreOne(tb, f, t, height), f', t', heights)
  {
  }

  /** Making an empty row first makes no difference. */
  lemma SameRow(last: map<nat, map<nat, nat>>, f: nat, t: nat, height: nat)
    ensures var made := if f in last then last else last[f := map[]];
      made[f := made[f][t := height]] == last[f := (if f in last then last[f] else map[])[t := height]]
  {
  }

  lemma {:induction false} StoreTargetsFollows(tb: Table, f: nat, targets: seq<nat>, height: nat, f': nat, t: nat, heights: seq<nat>)
    requires Ascending(heights) && Follows(tb, f', t, heights)
    requires Last(heights) < height || (heights != [] && Last(heights) == height)
    ensures Follows(StoreTargets(tb, f, targets, height), f', t,
      if f' == f && t != f && t in targets && Last(heights) < height then heights + [height] else heights)
    decreases |targets|
  {
    if targets != [] {
      var tb' := StoreOne(tb, f, targets[0], height);
      if f' == f && t != f && t == targets[0] {
        StoreOneFollows(tb, f, t, heights, height);
        var heights' := if Last(heights) < height then heights + [height] else heights;
        StoreTargetsFollows(tb', f, targets[1..], height, f', t, heights');
      } else {
        StoreOneElsewhere(tb, f, targets[0], height, f', t, heights);
        StoreTargetsFollows(tb', f, targets[1..], height, f', t, heights);
      }
    }
  }

  ghost predicate Beyond(entries: seq<ShardEntry>, h: nat)
  {
    forall i | 0 <= i < |entries| :: h < entries[i].height
  }

  lemma {:induction false} StoreEntriesFollows(tb: Table, f: nat, entries: seq<ShardEntry>, t: nat, heights: seq<nat>)
    requires Ascending(heights) && Follows(tb, f, t, heights)
    requires InOrder(entries) && Beyond(entries, Last(heights))
    ensures Follows(StoreEntries(tb, f, entries), f, t, heights + HeightsFor(entries, f, t))
    decreases |entries|
  {
    if entries == [] {
      assert heights + HeightsFor(entries, f, t) == heights;
    } else {
      var entry, rest := entries[0], entries[1..];
      assert forall i | 0 <= i < |rest| :: rest[i] == entries[i + 1];
      var tb' := StoreTargets(tb, f, entry.crossShard, entry.height);
      StoreTargetsFollows(tb, f, entry.crossShard, entry.height, f, t, heights);
      var here := if t != f && t in entry.crossShard then [entry.height] else [];
      OneHeightBehind(heights, entry.height);
      assert heights + [] == heights;
      StoreEntriesFollows(tb', f, rest, t, heights + here);
      Regroup(heights, here, HeightsFor(rest, f, t));
    }
  }

  lemma OneHeightBehind(heights: seq<nat>, h: nat)
    requires Ascending(heights) && Last(heights) < h
    ensures Ascending(heights + [h]) && Last(heights + [h]) == h
  {
  }

  lemma {:induction false} StoreTargetsElsewhere(tb: Table, f: nat, targets: seq<nat>, height: nat, f': nat, t': nat, heights: seq<nat>)
    requires f' != f && Follows(tb, f', t', heights)
    ensures Follows(StoreTargets(tb, f, targets, height), f', t', heights)
    decreases |targets|
  {
    if targets != [] {
      StoreOneElsewhere(tb, f, targets[0], height, f', t', heights);
      StoreTargetsElsewhere(StoreOne(tb, f, targets[0], height), f, targets[1..], height, f', t', heights);
    }
  }

  lemma {:induction false} StoreEntriesElsewhere(tb: Table, f: nat, entries: seq<ShardEntry>, f': nat, t': nat, heights: seq<nat>)
    requires f' != f && Follows(tb, f', t', heights)
    ensures Follows(StoreEntries(tb, f, entries), f', t', heights)
    decreases |entries|
  {
    if entries != [] {
      var tb' := StoreTargets(tb, f, entries[0].crossShard, entries[0].height);
      StoreTargetsElsewhere(tb, f, entries[0].crossShard, entries[0].height, f', t', heights);
      StoreEntriesElsewhere(tb', f, entries[1..], f', t', heights);
    }
  }

  // ---------- All pairs at once ----------

  /** For every pair, the table is the list of the heights that the accepted shard blocks confirm for it. */
  ghost predicate Exact(tb: Table, accepted: map<nat, seq<ShardEntry>>)
  {
    forall f: nat, t: nat :: Follows(tb, f, t, HeightsFor(At(accepted, f), f, t))
  }

  ghost predicate AllInOrder(accepted: map<nat, seq<ShardEntry>>)
  {
    forall f | f in accepted :: InOrder(accepted[f])
  }

  function Accept(accepted: map<nat, seq<ShardEntry>>, f: nat, entries: seq<ShardEntry>): map<nat, seq<ShardEntry>>
  {
    accepted[f := At(accepted, f) + entries]
  }

  lemma LastIsBelow(a: seq<ShardEntry>, b: seq<ShardEntry>, f: nat, t: nat)
    requires InOrder(a + b)
    ensures InOrder(a) && InOrder(b) && Ascending(HeightsFor(a, f, t)) && Beyond(b, Last(HeightsFor(a, f, t)))
  {
    assert forall i | 0 <= i < |a| :: (a + b)[i] == a[i];
    assert forall i | 0 <= i < |b| :: (a + b)[|a| + i] == b[i];
    HeightsAreEntries(a, f, t);
    var heights := HeightsFor(a, f, t);
    if heights != [] {
      assert Last(heights) in heights;
      var i :| 0 <= i < |a| && a[i].height == Last(heights) && t in a[i].crossShard;
      forall j | 0 <= j < |b| ensures Last(heights) < b[j].height {
        var later := |a| + j;
        assert (a + b)[i].height < (a + b)[later].height;
      }
    }
  }

  /** Confirming further blocks of one shard, in order, keeps every pair's list exact. */
  lemma StoreKeepsExact(tb: Table, accepted: map<nat, seq<ShardEntry>>, f: nat, entries: seq<ShardEntry>)
    requires Exact(tb, accepted) && InOrder(At(accepted, f) + entries)
    ensures Exact(StoreEntries(tb, f, entries), Accept(accepted, f, entries))
  {
    var tb' := StoreEntries(tb, f, entries);
    var accepted' := Accept(accepted, f, entries);
    forall f': nat, t: nat ensures Follows(tb', f', t, HeightsFor(At(accepted', f'), f', t)) {
      if f' == f {
        LastIsBelow(At(accepted, f), entries, f, t);
        HeightsAppend(At(accepted, f), entries, f, t);
        StoreEntriesFollows(tb, f, entries, t, HeightsFor(At(accepted, f), f, t));
      } else {
        StoreEntriesElsewhere(tb, f, entries, f', t, HeightsFor(At(accepted, f'), f', t));
      }
    }
  }

  /** Follow the stored links from `h`, at most `steps` of them. */
  function Walk(next: map<Link, nat>, f: nat, t: nat, h: nat, steps: nat): seq<nat>
    decreases steps
  {
    if steps == 0 then []
    else
      match Fetch(next, f, t, h)
      case Missing => []
      case Found(n) => if n == 0 then [] else [n] + Walk(next, f, t, n, steps - 1)
  }

  lemma {:induction false} AfterAt(heights: seq<nat>, k: nat)
    requires Ascending(heights) && k <= |heights|
    ensures After(heights, if k == 0 then 0 else heights[k - 1]) == if k < |heights| then heights[k] else 0
  {
    var h := if k == 0 then 0 else heights[k - 1];
    AfterIsLeast(heights, h);
    if k < |heights| {
      assert heights[k] in heights;
      var i :| 0 <= i < |heights| && heights[i] == After(heights, h);
    } else {
      assert forall i | 0 <= i < |heights| :: heights[i] <= h;
    }
  }

  lemma {:induction false} WalkListsFrom(next: map<Link, nat>, f: nat, t: nat, heights: seq<nat>, k: nat, steps: nat)
    requires Ascending(heights) && Records(next, f, t, heights) && k <= |heights| && steps >= |heights| - k
    ensures Walk(next, f, t, if k == 0 then 0 else heights[k - 1], steps) == heights[k..]
    decreases steps
  {
    var h := if k == 0 then 0 else heights[k - 1];
    AfterAt(heights, k);
    if k < |heights| {
      assert OnChain(heights, h);
      WalkListsFrom(next, f, t, heights, k + 1, steps - 1);
      assert heights[k..] == [heights[k]] + heights[k + 1..];
    }
  }

  /** After any sequence of in-order confirmations, following the links from 0 lists exactly the confirmed heights, in
      order, and stops by itself at the recorded last height. */
  lemma WalkListsConfirmed(tb: Table, accepted: map<nat, seq<ShardEntry>>, f: nat, t: nat, steps: nat)
    requires Exact(tb, accepted) && AllInOrder(accepted)
    requires steps >= |HeightsFor(At(accepted, f), f, t)|
    ensures Walk(tb.next, f, t, 0, steps) == HeightsFor(At(accepted, f), f, t)
    ensures LastHeight(tb.last, f, t) == Last(Walk(tb.next, f, t, 0, steps))
    ensures Fetch(tb.next, f, t, LastHeight(tb.last, f, t)) ==
      if HeightsFor(At(accepted, f), f, t) == [] then Missing else Found(0)
  {
    var heights := HeightsFor(At(accepted, f), f, t);
    HeightsAreEntries(At(accepted, f), f, t);
    assert Follows(tb, f, t, heights);
    WalkListsFrom(tb.next, f, t, heights, 0, steps);
    AfterAt(heights, |heights|);
    if heights != [] { assert Last(heights) in heights; }
  }

  // ---------- The beacon's side ----------

  class NextHeightStore {
    var next: map<Link, nat>
    var lastCrossShardState: map<nat, map<nat, nat>>

    function State(): Table
      reads this
    {
      Table(next, lastCrossShardState)
    }

    constructor ()
      ensures State() == Table(map[], map[]) && Exact(State(), map[])
    {
      next, lastCrossShardState := map[], map[];
    }

    method StoreCrossShardNextHeight(fromShard: nat, toShard: nat, curHeight: nat, nextHeight: nat)
      modifies this`next
      ensures next == old(next)[Link(fromShard, toShard, curHeight) := nextHeight]
    {
      next := next[Link(fromShard, toShard, curHeight) := nextHeight];
    }

    method FetchCrossShardNextHeight(fromShard: nat, toShard: nat, curHeight: nat) returns (r: Fetched)
      ensures r == Fetch(next, fromShard, toShard, curHeight)
    {
      var key := Link(fromShard, toShard, curHeight);
      if key in next { r := Found(next[key]); } else { r := Missing; }
    }

    /** The blocks of one shard, as one beacon block confirms them. */
    method ConfirmShard(fromShard: nat, shardBlocks: seq<ShardEntry>)
      modifies this
      ensures State() == StoreEntries(old(State()), fromShard, shardBlocks)
    {
      assert shardBlocks[0..] == shardBlocks;
      for b := 0 to |shardBlocks|
        invariant StoreEntries(State(), fromShard, shardBlocks[b..]) == StoreEntries(old(State()), fromShard, shardBlocks)
      {
        assert shardBlocks[b..][1..] == shardBlocks[b + 1..];
        ConfirmBlock(fromShard, shardBlocks[b]);
      }
    }

    method ConfirmBlock(fromShard: nat, shardBlock: ShardEntry)
      modifies this
      ensures State() == StoreTargets(old(State()), fromShard, shardBlock.crossShard, shardBlock.height)
    {
      var targets := shardBlock.crossShard;
      assert targets[0..] == targets;
      for i := 0 to |targets|
        invariant StoreTargets(State(), fromShard, targets[i..], shardBlock.height)
          == StoreTargets(old(State()), fromShard, targets, shardBlock.height)
      {
        assert targets[i..][1..] == targets[i + 1..];
        var toShard := targets[i];
        ghost var before := State();
        if fromShard == toShard { continue; }
        if fromShard !in lastCrossShardState {
          lastCrossShardState := lastCrossShardState[fromShard := map[]];
        }
        var lastHeight := NumberAt(lastCrossShardState[fromShard], toShard);
        var waitHeight := shardBlock.height;
        StoreCrossShardNextHeight(fromShard, toShard, lastHeight, waitHeight);
        StoreCrossShardNextHeight(fromShard, toShard, waitHeight, 0);
        lastCrossShardState := lastCrossShardState[fromShard := lastCrossShardState[fromShard][toShard := waitHeight]];
        SameRow(before.last, fromShard, toShard, waitHeight);
      }
    }

    /** All shards of one beacon block, in whatever order their workers get the lock: the lists come out the same. */
    method InsertBeaconBlock(shardState: map<nat, seq<ShardEntry>>, ghost accepted: map<nat, seq<ShardEntry>>)
      returns (ghost accepted': map<nat, seq<ShardEntry>>)
      requires Exact(State(), accepted)
      requires forall f | f in shardState :: InOrder(At(accepted, f) + shardState[f])
      modifies this
      ensures forall f: nat :: At(accepted', f) == At(accepted, f) + At(shardState, f)
      ensures Exact(State(), accepted')
    {
      accepted' := accepted;
      var todo := shardState.Keys;
      while todo != {}
        invariant todo <= shardState.Keys
        invariant Exact(State(), accepted')
        invariant forall f: nat | f in todo :: At(accepted', f) == At(accepted, f)
        invariant forall f: nat | f !in todo :: At(accepted', f) == At(accepted, f) + At(shardState, f)
      {
        var fromShard :| fromShard in todo;
        StoreKeepsExact(State(), accepted', fromShard, shardState[fromShard]);
        ConfirmShard(fromShard, shardState[fromShard]);
        accepted' := Accept(accepted', fromShard, shardState[fromShard]);
        todo := todo - {fromShard};
      }
    }
  }
}
