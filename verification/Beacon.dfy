/** The beacon's best state: how a beacon block moves candidates through the waiting lists, the pending lists and the
    committees. */
module Beacon {
  import opened Blocks
  import opened Lists
  import opened Text
  import opened Validators

  const EPOCH := 10
  const RANDOM_TIME := 5
  const OFFSET := 1

  /** Network parameters. `hash` is the digest of a candidate key followed by a random number, read as one number. */
  datatype Config = Config(
    beaconCommitteeSize: nat,
    shardCommitteeSize: nat,
    activeShards: nat,
    hash: (string, int) -> nat)
  {
    ghost predicate Valid() { beaconCommitteeSize > 0 && shardCommitteeSize > 0 && activeShards > 0 }
  }

  datatype BeaconState = BeaconState(
    beaconHeight: nat,
    isGetRandomNumber: bool,
    currentRandomNumber: int,
    beaconCommittee: seq<string>,
    beaconPendingValidator: seq<string>,
    shardCommittee: map<nat, seq<string>>,
    shardPendingValidator: map<nat, seq<string>>,
    shardWaitingForCurrentRandom: seq<string>,
    shardWaitingForNextRandom: seq<string>,
    beaconWaitingForCurrentRandom: seq<string>,
    beaconWaitingForNextRandom: seq<string>,
    bestShardHeight: map<nat, nat>)

  /** The state together with the local variables of the instruction loop. */
  datatype Work = Work(
    st: BeaconState,
    newBeaconCandidate: seq<string>,
    newShardCandidate: seq<string>,
    randomFlag: bool,
    status: Status)

  // ---------- Assigning and shuffling candidates ----------

  /** The shard of a candidate: the last byte of its digest, reduced to the active shards. */
  function CandidateShard(cfg: Config, candidate: string, rand: int): (shardID: nat)
    requires cfg.activeShards > 0
    ensures shardID < cfg.activeShards
  {
    cfg.hash(candidate, rand) % 256 % cfg.activeShards
  }

  /** The candidates of one shard, in their order. */
  function CandidatesOf(cfg: Config, candidates: seq<string>, rand: int, shardID: nat): seq<string>
    requires cfg.activeShards > 0
  {
    if candidates == [] then []
    else
      var rest := CandidatesOf(cfg, candidates[1..], rand, shardID);
      if CandidateShard(cfg, candidates[0], rand) == shardID then [candidates[0]] + rest else rest
  }

  function Assigned(cfg: Config, lists: map<nat, seq<string>>, candidates: seq<string>, rand: int): map<nat, seq<string>>
    requires cfg.activeShards > 0
    decreases |candidates|
  {
    if candidates == [] then lists
    else
      var shardID := CandidateShard(cfg, candidates[0], rand);
      Assigned(cfg, lists[shardID := At(lists, shardID) + [candidates[0]]], candidates[1..], rand)
  }

  method AssignValidatorShard(cfg: Config, currentCandidates: map<nat, seq<string>>, shardCandidates: seq<string>, rand: int)
    returns (lists: map<nat, seq<string>>)
    requires cfg.activeShards > 0
    ensures lists == Assigned(cfg, currentCandidates, shardCandidates, rand)
  {
    lists := currentCandidates;
    for i := 0 to |shardCandidates|
      invariant Assigned(cfg, currentCandidates, shardCandidates, rand) == Assigned(cfg, lists, shardCandidates[i..], rand)
    {
      var shardID := CandidateShard(cfg, shardCandidates[i], rand);
      assert shardCandidates[i..][1..] == shardCandidates[i + 1..];
      lists := lists[shardID := At(lists, shardID) + [shardCandidates[i]]];
    }
  }

  /** Every shard receives exactly its own candidates, in order, behind what it had. */
  lemma {:induction false} AssignedAt(cfg: Config, lists: map<nat, seq<string>>, candidates: seq<string>, rand: int, shardID: nat)
    requires cfg.activeShards > 0
    ensures At(Assigned(cfg, lists, candidates, rand), shardID) == At(lists, shardID) + CandidatesOf(cfg, candidates, rand, shardID)
    decreases |candidates|
  {
    if candidates != [] {
      var s := CandidateShard(cfg, candidates[0], rand);
      AssignedAt(cfg, lists[s := At(lists, s) + [candidates[0]]], candidates[1..], rand, shardID);
      if s == shardID {
        assert At(lists, s) + [candidates[0]] + CandidatesOf(cfg, candidates[1..], rand, shardID)
            == At(lists, s) + ([candidates[0]] + CandidatesOf(cfg, candidates[1..], rand, shardID));
      }
    }
  }

  /** The candidates whose digest has, in its last byte modulo the number of active shards, the given shard. */
  function DealtTo(cfg: Config, rand: int, shardID: nat): string -> bool
    requires cfg.activeShards > 0
  {
    (key: string) => cfg.hash(key, rand) % 256 % cfg.activeShards == shardID
  }

  /** What a shard newly receives is what the digests decide. */
  lemma {:induction false} DealtByDigest(cfg: Config, lists: map<nat, seq<string>>, candidates: seq<string>, rand: int, shardID: nat)
    requires cfg.activeShards > 0
    ensures At(Assigned(cfg, lists, candidates, rand), shardID) == At(lists, shardID) + Those(candidates, DealtTo(cfg, rand, shardID))
  {
    AssignedAt(cfg, lists, candidates, rand, shardID);
    CandidatesByDigest(cfg, candidates, rand, shardID);
  }

  lemma {:induction false} CandidatesByDigest(cfg: Config, candidates: seq<string>, rand: int, shardID: nat)
    requires cfg.activeShards > 0
    ensures CandidatesOf(cfg, candidates, rand, shardID) == Those(candidates, DealtTo(cfg, rand, shardID))
  {
    if candidates != [] { CandidatesByDigest(cfg, candidates[1..], rand, shardID); }
  }

  /** The map the shuffle builds, from digest to candidate. */
  function ByDigest(cfg: Config, candidates: seq<string>, rand: int): map<nat, string>
  {
    if candidates == [] then map[]
    else
      var last := |candidates| - 1;
      ByDigest(cfg, candidates[..last], rand)[cfg.hash(candidates[last], rand) := candidates[last]]
  }

  ghost predicate DistinctDigests(cfg: Config, candidates: seq<string>, rand: int)
  {
    forall i, j | 0 <= i < j < |candidates| :: cfg.hash(candidates[i], rand) != cfg.hash(candidates[j], rand)
  }

  function Picked(order: seq<nat>, digests: map<nat, string>): (picked: seq<string>)
    requires forall i | 0 <= i < |order| :: order[i] in digests
    ensures |picked| == |order|
  {
    seq(|order|, i requires 0 <= i < |order| => digests[order[i]])
  }

  ghost predicate IsShuffle(cfg: Config, candidates: seq<string>, rand: int, order: seq<nat>, shuffled: seq<string>)
  {
    Ranges(order, ByDigest(cfg, candidates, rand)) && shuffled == Picked(order, ByDigest(cfg, candidates, rand))
  }

  method ShuffleCandidate(cfg: Config, candidates: seq<string>, rand: int)
    returns (sortedCandidate: seq<string>, ghost order: seq<nat>)
    ensures IsShuffle(cfg, candidates, rand, order, sortedCandidate)
  {
    var m: map<nat, string> := map[];
    for i := 0 to |candidates|
      invariant m == ByDigest(cfg, candidates[..i], rand)
    {
      assert candidates[..i + 1][..i] == candidates[..i];
      m := m[cfg.hash(candidates[i], rand) := candidates[i]];
    }
    assert candidates[..|candidates|] == candidates;
    sortedCandidate, order := [], [];
    var left := m.Keys;
    while left != {}
      invariant left <= m.Keys
      invariant NoRepeats(order)
      invariant forall k :: k in order <==> k in m && k !in left
      invariant sortedCandidate == Picked(order, m)
      decreases |left|
    {
      var k :| k in left;
      left := left - {k};
      sortedCandidate, order := sortedCandidate + [m[k]], order + [k];
    }
  }

  lemma {:induction false} ByDigestKeys(cfg: Config, candidates: seq<string>, rand: int)
    ensures forall k :: k in ByDigest(cfg, candidates, rand) <==> exists i :: 0 <= i < |candidates| && cfg.hash(candidates[i], rand) == k
  {
    if candidates != [] {
      var last := |candidates| - 1;
      var front := candidates[..last];
      ByDigestKeys(cfg, front, rand);
      assert forall i | 0 <= i < last :: front[i] == candidates[i];
    }
  }

  lemma {:induction false} ByDigestSize(cfg: Config, candidates: seq<string>, rand: int)
    ensures |ByDigest(cfg, candidates, rand)| <= |candidates|
    ensures |ByDigest(cfg, candidates, rand)| == |candidates| <==> DistinctDigests(cfg, candidates, rand)
  {
    if candidates != [] {
      var last := |candidates| - 1;
      var front := candidates[..last];
      ByDigestSize(cfg, front, rand);
      var before, k := ByDigest(cfg, front, rand), cfg.hash(candidates[last], rand);
      assert before[k := candidates[last]].Keys == before.Keys + {k};
      assert |before[k := candidates[last]].Keys| == |before[k := candidates[last]]| && |before.Keys| == |before|;
      DistinctWithOneMore(cfg, candidates, rand);
    }
  }

  lemma DistinctWithOneMore(cfg: Config, candidates: seq<string>, rand: int)
    requires candidates != []
    ensures var last := |candidates| - 1;
      DistinctDigests(cfg, candidates, rand) <==>
        (DistinctDigests(cfg, candidates[..last], rand) && cfg.hash(candidates[last], rand) !in ByDigest(cfg, candidates[..last], rand))
  {
    var last := |candidates| - 1;
    var front := candidates[..last];
    ByDigestKeys(cfg, front, rand);
    assert forall i | 0 <= i < last :: front[i] == candidates[i];
    if cfg.hash(candidates[last], rand) in ByDigest(cfg, front, rand) {
      var i :| 0 <= i < |front| && cfg.hash(front[i], rand) == cfg.hash(candidates[last], rand);
      assert cfg.hash(candidates[i], rand) == cfg.hash(candidates[last], rand);
    }
  }

  /** Shuffling returns the same candidates in some order if and only if no two of them share a digest; when two do,
      the map keeps only the later one. */
  lemma ShuffleKeepsCandidates(cfg: Config, candidates: seq<string>, rand: int, order: seq<nat>, shuffled: seq<string>)
    requires IsShuffle(cfg, candidates, rand, order, shuffled)
    ensures multiset(shuffled) == multiset(candidates) <==> DistinctDigests(cfg, candidates, rand)
    ensures multiset(shuffled) <= multiset(candidates)
  {
    var digests := ByDigest(cfg, candidates, rand);
    ByDigestSize(cfg, candidates, rand);
    DistinctLength(order);
    assert Members(order) == digests.Keys;
    assert |digests.Keys| == |digests|;
    assert |shuffled| == |digests|;
    assert |multiset(shuffled)| == |shuffled| && |multiset(candidates)| == |candidates|;
    if DistinctDigests(cfg, candidates, rand) {
      ShufflePermutes(cfg, candidates, rand, order);
    }
    PickedOnce(cfg, candidates, rand, order);
  }

  lemma {:induction false} DigestOfEntry(cfg: Config, candidates: seq<string>, rand: int, k: nat)
    requires k in ByDigest(cfg, candidates, rand)
    ensures var entry := ByDigest(cfg, candidates, rand)[k]; entry in candidates && cfg.hash(entry, rand) == k
  {
    var last := |candidates| - 1;
    assert candidates == candidates[..last] + [candidates[last]];
    if k != cfg.hash(candidates[last], rand) { DigestOfEntry(cfg, candidates[..last], rand, k); }
  }

  /** Nothing is picked twice, and nothing but candidates. */
  lemma PickedOnce(cfg: Config, candidates: seq<string>, rand: int, order: seq<nat>)
    requires Ranges(order, ByDigest(cfg, candidates, rand))
    ensures multiset(Picked(order, ByDigest(cfg, candidates, rand))) <= multiset(candidates)
  {
    var picked := Picked(order, ByDigest(cfg, candidates, rand));
    forall i | 0 <= i < |order| ensures picked[i] in candidates && cfg.hash(picked[i], rand) == order[i] {
      DigestOfEntry(cfg, candidates, rand, order[i]);
    }
    assert NoRepeats(picked);
    forall key ensures multiset(picked)[key] <= multiset(candidates)[key] {
      CountedOnce(picked, key);
    }
  }

  lemma {:induction false} ShufflePermutes(cfg: Config, candidates: seq<string>, rand: int, order: seq<nat>)
    requires DistinctDigests(cfg, candidates, rand)
    requires Ranges(order, ByDigest(cfg, candidates, rand))
    ensures multiset(Picked(order, ByDigest(cfg, candidates, rand))) == multiset(candidates)
    decreases |candidates|
  {
    if candidates == [] {
      NothingToPick(order);
    } else {
      var last := |candidates| - 1;
      var front := candidates[..last];
      var less := TakeLastOut(cfg, front, candidates[last], candidates, rand, order);
      ShufflePermutes(cfg, front, rand, less);
      assert candidates == front + [candidates[last]];
    }
  }

  /** The order without the last candidate's digest. */
  lemma TakeLastOut(cfg: Config, front: seq<string>, last: string, candidates: seq<string>, rand: int, order: seq<nat>)
    returns (less: seq<nat>)
    requires candidates != [] && front == candidates[..|candidates| - 1] && last == candidates[|candidates| - 1]
    requires DistinctDigests(cfg, candidates, rand) && Ranges(order, ByDigest(cfg, candidates, rand))
    ensures DistinctDigests(cfg, front, rand) && Ranges(less, ByDigest(cfg, front, rand))
    ensures multiset(Picked(order, ByDigest(cfg, candidates, rand))) == multiset(Picked(less, ByDigest(cfg, front, rand))) + multiset{last}
  {
    var k, before := cfg.hash(last, rand), ByDigest(cfg, front, rand);
    FrontDigests(cfg, candidates, rand);
    assert ByDigest(cfg, candidates, rand) == before[k := last];
    var p := PlaceOf(order, before[k := last], k);
    RangesWithout(order, p, before, last);
    less := Without(order, p);
    PickedWithout(order, p, before, last);
  }

  lemma NothingToPick(order: seq<nat>)
    requires Ranges<string>(order, map[])
    ensures order == []
  {
    DistinctLength(order);
    assert Members(order) == {};
  }

  lemma PlaceOf(order: seq<nat>, digests: map<nat, string>, k: nat) returns (p: nat)
    requires Ranges(order, digests) && k in digests
    ensures p < |order| && order[p] == k && NoRepeats(order)
    ensures forall i | 0 <= i < |order| :: order[i] in digests
  {
    assert k in order;
    p :| 0 <= p < |order| && order[p] == k;
    assert forall i | 0 <= i < |order| :: order[i] in order;
  }

  lemma RangesWithout(order: seq<nat>, p: nat, before: map<nat, string>, value: string)
    requires p < |order| && order[p] !in before && Ranges(order, before[order[p] := value])
    ensures Ranges(Without(order, p), before)
  {
    WithoutMembers(order, p);
  }

  lemma FrontDigests(cfg: Config, candidates: seq<string>, rand: int)
    requires candidates != [] && DistinctDigests(cfg, candidates, rand)
    ensures var last := |candidates| - 1;
      DistinctDigests(cfg, candidates[..last], rand)
      && cfg.hash(candidates[last], rand) !in ByDigest(cfg, candidates[..last], rand)
  {
    var last := |candidates| - 1;
    var front := candidates[..last];
    ByDigestKeys(cfg, front, rand);
    assert forall i | 0 <= i < last :: front[i] == candidates[i];
  }

  lemma PickedWithout(order: seq<nat>, p: nat, before: map<nat, string>, value: string)
    requires p < |order| && NoRepeats(order) && order[p] !in before
    requires forall i | 0 <= i < |order| && i != p :: order[i] in before
    ensures forall i | 0 <= i < |Without(order, p)| :: Without(order, p)[i] in before
    ensures multiset(Picked(order, before[order[p] := value])) == multiset(Picked(Without(order, p), before)) + multiset{value}
  {
    var picked := Picked(order, before[order[p] := value]);
    var rest := Without(order, p);
    assert Picked(rest, before) == picked[..p] + picked[p + 1..];
    assert picked[p] == value;
    MiddleOut(picked, p);
  }

  lemma MiddleOut(items: seq<string>, p: nat)
    requires p < |items|
    ensures multiset(items) == multiset(items[..p] + items[p + 1..]) + multiset{items[p]}
  {
    assert items == items[..p] + [items[p]] + items[p + 1..];
  }

  // ---------- One instruction ----------

  /** The incoming keys of a shard swap leave the shard's pending list and join its committee. */
  function SwapIn(w: Work, shardID: nat, incoming: string): Work
  {
    if incoming == "" then w
    else
      match Remove(At(w.st.shardPendingValidator, shardID), Split(incoming))
      case RemovePanic => w.(status := Panicked)
      case Removed(left, ok) =>
        var st := w.st.(shardPendingValidator := w.st.shardPendingValidator[shardID := left]);
        if !ok then w.(st := st, status := Errored)
        else w.(st := st.(shardCommittee := st.shardCommittee[shardID := At(st.shardCommittee, shardID) + Split(incoming)]))
  }

  /** The outgoing keys of a shard swap leave the shard's committee. */
  function SwapOut(w: Work, shardID: nat, outgoing: string): Work
  {
    if outgoing == "" then w
    else
      match Remove(At(w.st.shardCommittee, shardID), Split(outgoing))
      case RemovePanic => w.(status := Panicked)
      case Removed(left, ok) =>
        w.(st := w.st.(shardCommittee := w.st.shardCommittee[shardID := left]), status := if ok then Running else Errored)
  }

  function BeaconIn(w: Work, incoming: string): Work
  {
    if incoming == "" then w
    else
      match Remove(w.st.beaconPendingValidator, Split(incoming))
      case RemovePanic => w.(status := Panicked)
      case Removed(left, ok) =>
        var st := w.st.(beaconPendingValidator := left);
        if !ok then w.(st := st, status := Errored)
        else w.(st := st.(beaconCommittee := st.beaconCommittee + Split(incoming)))
  }

  function BeaconOut(w: Work, outgoing: string): Work
  {
    if outgoing == "" then w
    else
      match Remove(w.st.beaconCommittee, Split(outgoing))
      case RemovePanic => w.(status := Panicked)
      case Removed(left, ok) =>
        w.(st := w.st.(beaconCommittee := left), status := if ok then Running else Errored)
  }

  function ProcessOne(w: Work, l: Instruction): Work
    requires w.status == Running
  {
    match l
    case SwapShard(incoming, outgoing, shardID) =>
      var taken := SwapIn(w, shardID, incoming);
      if taken.status == Running then SwapOut(taken, shardID, outgoing) else taken
    case SwapBeacon(incoming, outgoing) =>
      var taken := BeaconIn(w, incoming);
      if taken.status == Running then BeaconOut(taken, outgoing) else taken
    case Random(number) => w.(st := w.st.(currentRandomNumber := number), randomFlag := true)
    case Stake(keys, ToBeacon) => w.(newBeaconCandidate := w.newBeaconCandidate + Split(keys))
    case Stake(keys, ToShard) => w.(newShardCandidate := w.newShardCandidate + Split(keys))
    case Assign(_, _) => w
    case Other => w
  }

  /** The instruction loop; it stops at the first instruction that fails. */
  function ProcessAll(w: Work, ls: seq<Instruction>): Work
    decreases |ls|
  {
    if ls == [] || w.status != Running then w else ProcessAll(ProcessOne(w, ls[0]), ls[1..])
  }

  // ---------- Which swaps a beacon lets through ----------

  /** The keys named come off the front of the list, as far as cutting works. */
  ghost predicate Cuts(keys: seq<string>, list: seq<string>)
  {
    |keys| <= |list| && AtEvenPositions(list, keys, 0)
  }

  /** What a swap leaves of a pending list and a committee. An empty text names nobody. */
  function PendingLeft(pending: seq<string>, incoming: string): seq<string>
  {
    if incoming == "" || |Split(incoming)| > |pending| then pending else pending[|Split(incoming)|..]
  }

  function Enlarged(committee: seq<string>, incoming: string): seq<string>
  {
    committee + if incoming == "" then [] else Split(incoming)
  }

  function CommitteeLeft(committee: seq<string>, incoming: string, outgoing: string): seq<string>
  {
    var all := Enlarged(committee, incoming);
    if outgoing == "" || |Split(outgoing)| > |all| then all else all[|Split(outgoing)|..]
  }

  ghost predicate SwapFits(pending: seq<string>, committee: seq<string>, incoming: string, outgoing: string)
  {
    && (incoming != "" ==> Cuts(Split(incoming), pending))
    && (outgoing != "" ==> Cuts(Split(outgoing), Enlarged(committee, incoming)))
  }

  lemma CutsExactly(list: seq<string>, keys: seq<string>)
    ensures Cuts(keys, list) <==> Remove(list, keys).Removed? && Remove(list, keys).ok
    ensures Cuts(keys, list) ==> Remove(list, keys).left == list[|keys|..]
  {
    RemoveFromSucceeds(list, keys, 0);
  }

  lemma InRunsExactly(w: Work, s: nat, incoming: string)
    requires w.status == Running
    ensures var pending, w' := At(w.st.shardPendingValidator, s), SwapIn(w, s, incoming);
      && (w'.status == Running <==> (incoming != "" ==> Cuts(Split(incoming), pending)))
      && (w'.status == Running ==>
        && At(w'.st.shardPendingValidator, s) == PendingLeft(pending, incoming)
        && At(w'.st.shardCommittee, s) == Enlarged(At(w.st.shardCommittee, s), incoming))
  {
    CutsExactly(At(w.st.shardPendingValidator, s), Split(incoming));
    assert At(w.st.shardCommittee, s) + [] == At(w.st.shardCommittee, s);
  }

  lemma OutRunsExactly(w: Work, s: nat, outgoing: string)
    requires w.status == Running
    ensures var committee, w' := At(w.st.shardCommittee, s), SwapOut(w, s, outgoing);
      && (w'.status == Running <==> (outgoing != "" ==> Cuts(Split(outgoing), committee)))
      && (w'.status == Running ==>
        && At(w'.st.shardPendingValidator, s) == At(w.st.shardPendingValidator, s)
        && At(w'.st.shardCommittee, s) == CommitteeLeft(committee, "", outgoing))
  {
    CutsExactly(At(w.st.shardCommittee, s), Split(outgoing));
    assert At(w.st.shardCommittee, s) + [] == At(w.st.shardCommittee, s);
  }

  lemma InTouchesOneShard(w: Work, s: nat, incoming: string)
    ensures OnlyListsOf(w, SwapIn(w, s, incoming), s)
  {
  }

  lemma OutTouchesOneShard(w: Work, s: nat, outgoing: string)
    ensures OnlyListsOf(w, SwapOut(w, s, outgoing), s)
  {
  }

  /** Nothing but the lists of one shard, and the status, may differ. */
  ghost predicate OnlyListsOf(w: Work, w': Work, s: nat)
  {
    && w' == w.(
      st := w.st.(shardPendingValidator := w'.st.shardPendingValidator, shardCommittee := w'.st.shardCommittee), status := w'.status)
    && forall t: nat | t != s ::
      && At(w'.st.shardPendingValidator, t) == At(w.st.shardPendingValidator, t)
      && At(w'.st.shardCommittee, t) == At(w.st.shardCommittee, t)
  }

  /** A swap instruction runs exactly when both of its texts can be cut off: the incoming keys off the pending list, the outgoing
      ones off the committee that the incoming keys have joined. It touches no other list. */
  lemma SwapsRunExactly(w: Work, l: Instruction)
    requires w.status == Running && l.SwapShard?
    ensures var pending, committee := At(w.st.shardPendingValidator, l.shardID), At(w.st.shardCommittee, l.shardID);
      var w' := ProcessOne(w, l);
      && (w'.status == Running <==> SwapFits(pending, committee, l.incoming, l.outgoing))
      && (w'.status == Running ==>
        && At(w'.st.shardPendingValidator, l.shardID) == PendingLeft(pending, l.incoming)
        && At(w'.st.shardCommittee, l.shardID) == CommitteeLeft(committee, l.incoming, l.outgoing))
      && OnlyListsOf(w, w', l.shardID)
  {
    InRunsExactly(w, l.shardID, l.incoming);
    var taken := SwapIn(w, l.shardID, l.incoming);
    InTouchesOneShard(w, l.shardID, l.incoming);
    OutTouchesOneShard(taken, l.shardID, l.outgoing);
    if taken.status == Running {
      OutRunsExactly(taken, l.shardID, l.outgoing);
      var all := Enlarged(At(w.st.shardCommittee, l.shardID), l.incoming);
      assert Enlarged(all, "") == all;
    }
  }

  lemma BeaconSwapsRunExactly(w: Work, l: Instruction)
    requires w.status == Running && l.SwapBeacon?
    ensures var pending, committee, w' := w.st.beaconPendingValidator, w.st.beaconCommittee, ProcessOne(w, l);
      && (w'.status == Running <==> SwapFits(pending, committee, l.incoming, l.outgoing))
      && (w'.status == Running ==> w' == w.(st := w.st.(
        beaconPendingValidator := PendingLeft(pending, l.incoming),
        beaconCommittee := CommitteeLeft(committee, l.incoming, l.outgoing))))
  {
    var pending, committee := w.st.beaconPendingValidator, w.st.beaconCommittee;
    CutsExactly(pending, Split(l.incoming));
    CutsExactly(Enlarged(committee, l.incoming), Split(l.outgoing));
    assert committee + [] == committee;
  }

  // ---------- The rest of the update ----------

  function BestHeights(shardState: map<nat, seq<ShardEntry>>): map<nat, nat>
    requires forall s | s in shardState :: shardState[s] != []
  {
    map s | s in shardState :: shardState[s][|shardState[s]| - 1].height
  }

  function Started(st: BeaconState, block: BeaconBlock): Work
  {
    var begun := st.(beaconHeight := block.height);
    if exists s | s in block.shardState :: block.shardState[s] == [] then Work(begun, [], [], false, Panicked)
    else Work(begun.(bestShardHeight := st.bestShardHeight + BestHeights(block.shardState)), [], [], false, Running)
  }

  /** The genesis block deals the staked shard keys out to the committees, shard by shard. */
  function Dealt(cfg: Config, committees: map<nat, seq<string>>, keys: seq<string>, shards: nat): map<nat, seq<string>>
    requires shards * cfg.shardCommitteeSize <= |keys|
  {
    if shards == 0 then committees
    else
      var before := Dealt(cfg, committees, keys, shards - 1);
      before[shards - 1 := At(before, shards - 1)
        + keys[(shards - 1) * cfg.shardCommitteeSize..shards * cfg.shardCommitteeSize]]
  }

  function Gathered(cfg: Config, w: Work): Work
  {
    if w.st.beaconHeight == 1 then
      if |w.newBeaconCandidate| < cfg.beaconCommitteeSize
         || |w.newShardCandidate| < cfg.activeShards * cfg.shardCommitteeSize then w.(status := Panicked)
      else w.(st := w.st.(
        beaconCommittee := w.newBeaconCandidate[..cfg.beaconCommitteeSize],
        shardCommittee := Dealt(cfg, w.st.shardCommittee, w.newShardCandidate, cfg.activeShards)))
    else w.(st := w.st.(
      beaconWaitingForNextRandom := w.st.beaconWaitingForNextRandom + w.newBeaconCandidate,
      shardWaitingForNextRandom := w.st.shardWaitingForNextRandom + w.newShardCandidate))
  }

  function Snapshot(st: BeaconState): BeaconState
  {
    if st.beaconHeight % EPOCH != RANDOM_TIME then st
    else st.(
      shardWaitingForCurrentRandom := st.shardWaitingForNextRandom,
      beaconWaitingForCurrentRandom := st.beaconWaitingForNextRandom,
      shardWaitingForNextRandom := [],
      beaconWaitingForNextRandom := [])
  }

  /** The order in which the shuffle's map is ranged over is the one free choice of an update. */
  ghost function Shuffled(cfg: Config, candidates: seq<string>, rand: int, order: seq<nat>): seq<string>
  {
    var digests := ByDigest(cfg, candidates, rand);
    if Ranges(order, digests) then Picked(order, digests) else []
  }

  ghost function Randomized(cfg: Config, st: BeaconState, order: seq<nat>): BeaconState
    requires cfg.activeShards > 0
  {
    st.(
      isGetRandomNumber := true,
      shardPendingValidator :=
        Assigned(cfg, st.shardPendingValidator, st.shardWaitingForCurrentRandom, st.currentRandomNumber),
      shardWaitingForCurrentRandom := [],
      beaconPendingValidator := st.beaconPendingValidator
        + Shuffled(cfg, st.beaconWaitingForCurrentRandom, st.currentRandomNumber, order),
      beaconWaitingForCurrentRandom := [])
  }

  ghost function Timed(cfg: Config, st: BeaconState, randomFlag: bool, order: seq<nat>): BeaconState
    requires cfg.activeShards > 0
  {
    var phase := st.beaconHeight % EPOCH;
    if phase == 1 && st.beaconHeight != 1 then st.(isGetRandomNumber := false)
    else if phase < RANDOM_TIME then st
    else if randomFlag then Randomized(cfg, Snapshot(st), order)
    else Snapshot(st)
  }

  /** The whole update as a function of the block and of the shuffle's order. */
  ghost function Updated(cfg: Config, st: BeaconState, block: BeaconBlock, order: seq<nat>): Work
    requires cfg.activeShards > 0
  {
    var processed := ProcessAll(Started(st, block), block.instructions);
    if processed.status != Running then processed
    else
      var gathered := Gathered(cfg, processed);
      if gathered.status != Running then gathered
      else gathered.(st := Timed(cfg, gathered.st, gathered.randomFlag, order))
  }

  // ---------- When an update fails ----------

  /** The keys that the stake instructions name for one target, in order. */
  function Requested(ls: seq<Instruction>, target: Target): seq<string>
  {
    if ls == [] then [] else (if ls[0].Stake? && ls[0].target == target then Split(ls[0].keys) else []) + Requested(ls[1..], target)
  }

  lemma RequestedOne(l: Instruction, target: Target)
    ensures Requested([l], target) == if l.Stake? && l.target == target then Split(l.keys) else []
  {
    assert [l][1..] == [];
  }

  lemma ShardSwapGathersNothing(w: Work, l: Instruction)
    requires w.status == Running && l.SwapShard?
    ensures var w' := ProcessOne(w, l);
      && w'.newBeaconCandidate == w.newBeaconCandidate && w'.newShardCandidate == w.newShardCandidate
      && w'.st.beaconHeight == w.st.beaconHeight
  {
    var taken := SwapIn(w, l.shardID, l.incoming);
    InTouchesOneShard(w, l.shardID, l.incoming);
    OutTouchesOneShard(taken, l.shardID, l.outgoing);
  }

  lemma BeaconSwapGathersNothing(w: Work, l: Instruction)
    requires w.status == Running && l.SwapBeacon?
    ensures var w' := ProcessOne(w, l);
      && w'.newBeaconCandidate == w.newBeaconCandidate && w'.newShardCandidate == w.newShardCandidate
      && w'.st.beaconHeight == w.st.beaconHeight
  {
  }

  lemma OneGathered(w: Work, l: Instruction)
    requires w.status == Running
    ensures var w' := ProcessOne(w, l);
      && w'.newBeaconCandidate == w.newBeaconCandidate + Requested([l], ToBeacon)
      && w'.newShardCandidate == w.newShardCandidate + Requested([l], ToShard)
      && w'.st.beaconHeight == w.st.beaconHeight
  {
    RequestedOne(l, ToBeacon);
    RequestedOne(l, ToShard);
    assert w.newBeaconCandidate + [] == w.newBeaconCandidate && w.newShardCandidate + [] == w.newShardCandidate;
    if l.SwapShard? { ShardSwapGathersNothing(w, l); } else if l.SwapBeacon? { BeaconSwapGathersNothing(w, l); }
  }

  /** Processing collects the keys of all stake instructions. */
  lemma {:induction false} StakesGathered(w: Work, ls: seq<Instruction>)
    requires w.status == Running && ProcessAll(w, ls).status == Running
    ensures var w' := ProcessAll(w, ls);
      && w'.newBeaconCandidate == w.newBeaconCandidate + Requested(ls, ToBeacon)
      && w'.newShardCandidate == w.newShardCandidate + Requested(ls, ToShard)
      && w'.st.beaconHeight == w.st.beaconHeight
    decreases |ls|
  {
    if ls == [] {
      assert w.newBeaconCandidate + [] == w.newBeaconCandidate && w.newShardCandidate + [] == w.newShardCandidate;
    } else {
      var one := ProcessOne(w, ls[0]);
      OneGathered(w, ls[0]);
      StakesGathered(one, ls[1..]);
      RequestedFirst(ls, ToBeacon);
      RequestedFirst(ls, ToShard);
      Regroup(w.newBeaconCandidate, Requested([ls[0]], ToBeacon), Requested(ls[1..], ToBeacon));
      Regroup(w.newShardCandidate, Requested([ls[0]], ToShard), Requested(ls[1..], ToShard));
    }
  }

  lemma RequestedFirst(ls: seq<Instruction>, target: Target)
    requires ls != []
    ensures Requested(ls, target) == Requested([ls[0]], target) + Requested(ls[1..], target)
  {
    assert [ls[0]][1..] == [];
  }

  ghost predicate EmptyState(block: BeaconBlock)
  {
    exists s | s in block.shardState :: block.shardState[s] == []
  }

  /** A block that lists a shard without blocks panics. Otherwise, once its instructions are processed, the update panics exactly
      when it is the genesis block and names too few keys for the committees. */
  lemma UpdateFails(cfg: Config, st: BeaconState, block: BeaconBlock, order: seq<nat>)
    requires cfg.activeShards > 0
    ensures EmptyState(block) ==> Updated(cfg, st, block, order).status == Panicked
    ensures ProcessAll(Started(st, block), block.instructions).status == Running ==>
      Updated(cfg, st, block, order).status ==
        if block.height == 1 && (|Requested(block.instructions, ToBeacon)| < cfg.beaconCommitteeSize
          || |Requested(block.instructions, ToShard)| < cfg.activeShards * cfg.shardCommitteeSize) then Panicked else Running
  {
    var w := Started(st, block);
    if ProcessAll(w, block.instructions).status == Running { StakesGathered(w, block.instructions); }
  }

  /** `order` is one the source can take: when the update shuffles, it lists the shuffle's digests once each. */
  ghost predicate PossibleOrder(cfg: Config, st: BeaconState, block: BeaconBlock, order: seq<nat>)
    requires cfg.activeShards > 0
  {
    var processed := ProcessAll(Started(st, block), block.instructions);
    var gathered := Gathered(cfg, processed);
    processed.status == Running && gathered.status == Running && gathered.randomFlag && gathered.st.beaconHeight % EPOCH >= RANDOM_TIME ==>
      Ranges(order, ByDigest(cfg, Snapshot(gathered.st).beaconWaitingForCurrentRandom, gathered.st.currentRandomNumber))
  }

  class BestStateBeacon {
    const cfg: Config
    var beaconHeight: nat
    var isGetRandomNumber: bool
    var currentRandomNumber: int
    var beaconCommittee: seq<string>
    var beaconPendingValidator: seq<string>
    var shardCommittee: map<nat, seq<string>>
    var shardPendingValidator: map<nat, seq<string>>
    var shardWaitingForCurrentRandom: seq<string>
    var shardWaitingForNextRandom: seq<string>
    var beaconWaitingForCurrentRandom: seq<string>
    var beaconWaitingForNextRandom: seq<string>
    var bestShardHeight: map<nat, nat>

    function State(): BeaconState
      reads this
    {
      BeaconState(beaconHeight, isGetRandomNumber, currentRandomNumber, beaconCommittee, beaconPendingValidator,
        shardCommittee, shardPendingValidator, shardWaitingForCurrentRandom, shardWaitingForNextRandom,
        beaconWaitingForCurrentRandom, beaconWaitingForNextRandom, bestShardHeight)
    }

    constructor (cfg: Config)
      ensures this.cfg == cfg
      ensures State() == BeaconState(0, false, -1, [], [], map[], map[], [], [], [], [], map[])
    {
      this.cfg := cfg;
      beaconHeight, isGetRandomNumber, currentRandomNumber := 0, false, -1;
      beaconCommittee, beaconPendingValidator := [], [];
      shardCommittee, shardPendingValidator := map[], map[];
      shardWaitingForCurrentRandom, shardWaitingForNextRandom := [], [];
      beaconWaitingForCurrentRandom, beaconWaitingForNextRandom := [], [];
      bestShardHeight := map[];
    }

    method SwapShardMembers(shardID: nat, incoming: string, outgoing: string) returns (status: Status)
      modifies this`shardPendingValidator, this`shardCommittee
      ensures forall b, s, f :: var w := ProcessOne(Work(old(State()), b, s, f, Running), SwapShard(incoming, outgoing, shardID));
        w.status == status && (status != Panicked ==> w.st == State())
        && w.newBeaconCandidate == b && w.newShardCandidate == s && w.randomFlag == f
    {
      if incoming != "" {
        var inPubkeys := Split(incoming);
        var r := RemoveValidator(At(shardPendingValidator, shardID), inPubkeys);
        if r.RemovePanic? { return Panicked; }
        shardPendingValidator := shardPendingValidator[shardID := r.left];
        if !r.ok { return Errored; }
        shardCommittee := shardCommittee[shardID := At(shardCommittee, shardID) + inPubkeys];
      }
      if outgoing != "" {
        var r := RemoveValidator(At(shardCommittee, shardID), Split(outgoing));
        if r.RemovePanic? { return Panicked; }
        shardCommittee := shardCommittee[shardID := r.left];
        if !r.ok { return Errored; }
      }
      status := Running;
    }

    method SwapBeaconMembers(incoming: string, outgoing: string) returns (status: Status)
      modifies this`beaconPendingValidator, this`beaconCommittee
      ensures forall b, s, f :: var w := ProcessOne(Work(old(State()), b, s, f, Running), SwapBeacon(incoming, outgoing));
        w.status == status && (status != Panicked ==> w.st == State())
        && w.newBeaconCandidate == b && w.newShardCandidate == s && w.randomFlag == f
    {
      if incoming != "" {
        var inPubkeys := Split(incoming);
        var r := RemoveValidator(beaconPendingValidator, inPubkeys);
        if r.RemovePanic? { return Panicked; }
        beaconPendingValidator := r.left;
        if !r.ok { return Errored; }
        beaconCommittee := beaconCommittee + inPubkeys;
      }
      if outgoing != "" {
        var r := RemoveValidator(beaconCommittee, Split(outgoing));
        if r.RemovePanic? { return Panicked; }
        beaconCommittee := r.left;
        if !r.ok { return Errored; }
      }
      status := Running;
    }

    method Update(newBlock: BeaconBlock) returns (status: Status, ghost order: seq<nat>)
      requires cfg.activeShards > 0
      modifies this
      ensures PossibleOrder(cfg, old(State()), newBlock, order)
      ensures var w := Updated(cfg, old(State()), newBlock, order);
        status == w.status && (status != Panicked ==> State() == w.st)
    {
      order := [];
      beaconHeight := newBlock.height;
      if exists s | s in newBlock.shardState :: newBlock.shardState[s] == [] { return Panicked, order; }
      bestShardHeight := bestShardHeight + BestHeights(newBlock.shardState);
      var newBeaconCandidate, newShardCandidate;
      var randomFlag;
      ghost var started := Started(old(State()), newBlock);
      assert started == Work(State(), [], [], false, Running);
      status, newBeaconCandidate, newShardCandidate, randomFlag := ProcessInstructions(newBlock.instructions);
      ghost var processed := ProcessAll(started, newBlock.instructions);
      if status != Running { return status, order; }
      assert processed == Work(State(), newBeaconCandidate, newShardCandidate, randomFlag, Running);
      status := GatherCandidates(newBeaconCandidate, newShardCandidate, randomFlag);
      ghost var gathered := Gathered(cfg, processed);
      if status != Running { return status, order; }
      assert gathered.st == State() && gathered.randomFlag == randomFlag;
      order := ActOnPhase(randomFlag);
    }

    method ProcessInstructions(instructions: seq<Instruction>)
      returns (status: Status, newBeacon: seq<string>, newShard: seq<string>, randomFlag: bool)
      modifies this
      ensures var w := ProcessAll(Work(old(State()), [], [], false, Running), instructions);
        status == w.status && (status != Panicked ==> w == Work(State(), newBeacon, newShard, randomFlag, status))
    {
      status, newBeacon, newShard, randomFlag := Running, [], [], false;
      ghost var all := ProcessAll(Work(old(State()), [], [], false, Running), instructions);
      assert instructions[0..] == instructions;
      for i := 0 to |instructions|
        invariant status == Running
        invariant all == ProcessAll(Work(State(), newBeacon, newShard, randomFlag, Running), instructions[i..])
      {
        assert instructions[i..][1..] == instructions[i + 1..];
        status, newBeacon, newShard, randomFlag := ProcessInstruction(instructions[i], newBeacon, newShard, randomFlag);
        if status != Running { return; }
      }
    }

    method ProcessInstruction(l: Instruction, newBeaconCandidate: seq<string>, newShardCandidate: seq<string>, flag: bool)
      returns (status: Status, newBeacon: seq<string>, newShard: seq<string>, randomFlag: bool)
      modifies this
      ensures var w := ProcessOne(Work(old(State()), newBeaconCandidate, newShardCandidate, flag, Running), l);
        status == w.status && (status != Panicked ==> w == Work(State(), newBeacon, newShard, randomFlag, status))
    {
      status, newBeacon, newShard, randomFlag := Running, newBeaconCandidate, newShardCandidate, flag;
      match l {
        case SwapShard(incoming, outgoing, shardID) => status := SwapShardMembers(shardID, incoming, outgoing);
        case SwapBeacon(incoming, outgoing) => status := SwapBeaconMembers(incoming, outgoing);
        case Random(number) =>
          currentRandomNumber := number;
          randomFlag := true;
        case Stake(keys, ToBeacon) => newBeacon := newBeacon + Split(keys);
        case Stake(keys, ToShard) => newShard := newShard + Split(keys);
        case Assign(_, _) =>
        case Other =>
      }
    }

    method DealCommittees(newShardCandidate: seq<string>)
      requires cfg.activeShards * cfg.shardCommitteeSize <= |newShardCandidate|
      modifies this`shardCommittee
      ensures shardCommittee == Dealt(cfg, old(shardCommittee), newShardCandidate, cfg.activeShards)
    {
      var size := cfg.shardCommitteeSize;
      for shardID := 0 to cfg.activeShards
        invariant shardID * size <= |newShardCandidate|
        invariant shardCommittee == Dealt(cfg, old(shardCommittee), newShardCandidate, shardID)
      {
        MulMonotone(shardID + 1, cfg.activeShards, size);
        MulMonotone(shardID, shardID + 1, size);
        shardCommittee := shardCommittee[shardID := At(shardCommittee, shardID)
          + newShardCandidate[shardID * size..(shardID + 1) * size]];
      }
    }

    method GatherCandidates(newBeaconCandidate: seq<string>, newShardCandidate: seq<string>, randomFlag: bool)
      returns (status: Status)
      modifies this`beaconCommittee, this`shardCommittee, this`beaconWaitingForNextRandom, this`shardWaitingForNextRandom
      ensures var w := Gathered(cfg, Work(old(State()), newBeaconCandidate, newShardCandidate, randomFlag, Running));
        status == w.status && (status != Panicked ==> State() == w.st)
    {
      if beaconHeight == 1 {
        if |newBeaconCandidate| < cfg.beaconCommitteeSize { return Panicked; }
        beaconCommittee := newBeaconCandidate[..cfg.beaconCommitteeSize];
        if |newShardCandidate| < cfg.activeShards * cfg.shardCommitteeSize { return Panicked; }
        DealCommittees(newShardCandidate);
      } else {
        beaconWaitingForNextRandom := beaconWaitingForNextRandom + newBeaconCandidate;
        shardWaitingForNextRandom := shardWaitingForNextRandom + newShardCandidate;
      }
      status := Running;
    }

    method ActOnPhase(randomFlag: bool) returns (ghost order: seq<nat>)
      requires cfg.activeShards > 0
      modifies this
      ensures State() == Timed(cfg, old(State()), randomFlag, order)
      ensures randomFlag && old(beaconHeight) % EPOCH >= RANDOM_TIME ==>
        Ranges(order, ByDigest(cfg, Snapshot(old(State())).beaconWaitingForCurrentRandom, old(currentRandomNumber)))
    {
      order := [];
      if beaconHeight % EPOCH == 1 && beaconHeight != 1 {
        isGetRandomNumber := false;
      } else if beaconHeight % EPOCH < RANDOM_TIME {
      } else {
        TakeSnapshot();
        if randomFlag { order := ActOnRandom(); }
      }
    }

    method TakeSnapshot()
      modifies this
      ensures State() == Snapshot(old(State()))
    {
      if beaconHeight % EPOCH == RANDOM_TIME {
        shardWaitingForCurrentRandom := shardWaitingForNextRandom;
        beaconWaitingForCurrentRandom := beaconWaitingForNextRandom;
        shardWaitingForNextRandom := [];
        beaconWaitingForNextRandom := [];
      }
    }

    method ActOnRandom() returns (ghost order: seq<nat>)
      requires cfg.activeShards > 0
      modifies this
      ensures State() == Randomized(cfg, old(State()), order)
      ensures Ranges(order, ByDigest(cfg, old(beaconWaitingForCurrentRandom), old(currentRandomNumber)))
    {
      isGetRandomNumber := true;
      shardPendingValidator := AssignValidatorShard(cfg, shardPendingValidator, shardWaitingForCurrentRandom, currentRandomNumber);
      shardWaitingForCurrentRandom := [];
      var newBeaconPendingValidator;
      newBeaconPendingValidator, order := ShuffleCandidate(cfg, beaconWaitingForCurrentRandom, currentRandomNumber);
      beaconWaitingForCurrentRandom := [];
      beaconPendingValidator := beaconPendingValidator + newBeaconPendingValidator;
    }
  }

  lemma MulMonotone(a: nat, b: nat, c: nat)
    requires a <= b
    ensures a * c <= b * c
  {
  }
}
