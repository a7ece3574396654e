/** How a beacon producer fills a block: filtering stakers and generating the swap, stake, random and assign
    instructions. */
module BeaconProducer {
  import opened Blocks
  import opened Lists
  import opened Text
  import opened Validators
  import opened Beacon

  /** Shard numbers are bytes. */
  const SHARD_IDS := 256

  function Excluding(stakers: seq<string>, known: set<string>): seq<string>
  {
    if stakers == [] then []
    else
      var rest := Excluding(stakers[1..], known);
      if stakers[0] in known then rest else [stakers[0]] + rest
  }

  lemma {:induction false} ExcludingAppend(stakers: seq<string>, key: string, known: set<string>)
    ensures Excluding(stakers + [key], known) == Excluding(stakers, known) + if key in known then [] else [key]
  {
    if stakers == [] {
      assert [key][1..] == [];
    } else {
      ExcludingAppend(stakers[1..], key, known);
      assert (stakers + [key])[1..] == stakers[1..] + [key];
    }
  }

  lemma {:induction false} ExcludingTwice(stakers: seq<string>, known: set<string>, more: set<string>)
    ensures Excluding(Excluding(stakers, known), more) == Excluding(stakers, known + more)
  {
    if stakers != [] {
      ExcludingTwice(stakers[1..], known, more);
      var rest := Excluding(stakers[1..], known);
      assert ([stakers[0]] + rest)[1..] == rest;
    }
  }

  method GetValidStaker(committees: seq<string>, stakers: seq<string>) returns (validStaker: seq<string>)
    ensures validStaker == Excluding(stakers, Members(committees))
  {
    validStaker := [];
    for i := 0 to |stakers|
      invariant validStaker == Excluding(stakers[..i], Members(committees))
    {
      var flag := false;
      for j := 0 to |committees|
        invariant !flag
        invariant stakers[i] !in committees[..j]
      {
        if stakers[i] == committees[j] {
          flag := true;
          break;
        }
      }
      ExcludingAppend(stakers[..i], stakers[i], Members(committees));
      assert stakers[..i + 1] == stakers[..i] + [stakers[i]];
      if !flag {
        assert committees[..|committees|] == committees;
        validStaker := validStaker + [stakers[i]];
      }
    }
    assert stakers[..|stakers|] == stakers;
  }

  ghost function InLists(lists: map<nat, seq<string>>, ids: set<nat>): set<string>
  {
    set id, key | id in ids && id in lists && key in lists[id] :: key
  }

  /** Every key the beacon's best state lists anywhere. */
  ghost function Everyone(st: BeaconState): set<string>
  {
    InLists(st.shardCommittee, st.shardCommittee.Keys)
      + InLists(st.shardPendingValidator, st.shardPendingValidator.Keys)
      + Members(st.beaconCommittee) + Members(st.beaconPendingValidator)
      + Members(st.beaconWaitingForCurrentRandom) + Members(st.beaconWaitingForNextRandom)
      + Members(st.shardWaitingForCurrentRandom) + Members(st.shardWaitingForNextRandom)
  }

  method ExcludeLists(lists: map<nat, seq<string>>, stakers: seq<string>) returns (valid: seq<string>)
    ensures valid == Excluding(stakers, InLists(lists, lists.Keys))
  {
    valid := stakers;
    var left := lists.Keys;
    ghost var seen: set<nat> := {};
    ExcludingNobody(stakers);
    assert InLists(lists, {}) == {};
    while left != {}
      invariant seen == lists.Keys - left && left <= lists.Keys
      invariant valid == Excluding(stakers, InLists(lists, seen))
      decreases |left|
    {
      var id :| id in left;
      valid := GetValidStaker(lists[id], valid);
      ExcludingTwice(stakers, InLists(lists, seen), Members(lists[id]));
      assert InLists(lists, seen + {id}) == InLists(lists, seen) + Members(lists[id]);
      left, seen := left - {id}, seen + {id};
    }
    assert seen == lists.Keys;
  }

  lemma {:induction false} ExcludingNobody(stakers: seq<string>)
    ensures Excluding(stakers, {}) == stakers
  {
    if stakers != [] { ExcludingNobody(stakers[1..]); }
  }

  /** A staker passes exactly when the state does not list it anywhere yet. */
  method GetValidStakers(st: BeaconState, stakers: seq<string>) returns (tempStaker: seq<string>)
    ensures tempStaker == Excluding(stakers, Everyone(st))
  {
    tempStaker := ExcludeLists(st.shardCommittee, stakers);
    ghost var all := InLists(st.shardCommittee, st.shardCommittee.Keys);
    tempStaker := ExcludeLists(st.shardPendingValidator, tempStaker);
    ExcludingTwice(stakers, all, InLists(st.shardPendingValidator, st.shardPendingValidator.Keys));
    all := all + InLists(st.shardPendingValidator, st.shardPendingValidator.Keys);
    tempStaker, all := ExcludeOne(stakers, all, st.beaconCommittee, tempStaker);
    tempStaker, all := ExcludeOne(stakers, all, st.beaconPendingValidator, tempStaker);
    tempStaker, all := ExcludeOne(stakers, all, st.beaconWaitingForCurrentRandom, tempStaker);
    tempStaker, all := ExcludeOne(stakers, all, st.beaconWaitingForNextRandom, tempStaker);
    tempStaker, all := ExcludeOne(stakers, all, st.shardWaitingForCurrentRandom, tempStaker);
    tempStaker, all := ExcludeOne(stakers, all, st.shardWaitingForNextRandom, tempStaker);
    tempStaker, all := ExcludeOne(stakers, all, st.shardWaitingForNextRandom, tempStaker);
    assert all == Everyone(st);
  }

  method ExcludeOne(ghost stakers: seq<string>, ghost known: set<string>, list: seq<string>, left: seq<string>)
    returns (tempStaker: seq<string>, ghost all: set<string>)
    requires left == Excluding(stakers, known)
    ensures tempStaker == Excluding(stakers, all) && all == known + Members(list)
  {
    ExcludingTwice(stakers, known, Members(list));
    tempStaker := GetValidStaker(list, left);
    all := known + Members(list);
  }

  // ---------- Instructions ----------

  function SwapsUpTo(swap: map<nat, seq<Instruction>>, n: nat): seq<Instruction>
  {
    if n == 0 then [] else SwapsUpTo(swap, n - 1) + At(swap, n - 1)
  }

  /** The beacon's own swap: nothing when `SwapValidator` moves nobody. */
  function BeaconSwap(cfg: Config, st: BeaconState): seq<Instruction>
  {
    match Swap(st.beaconPendingValidator, st.beaconCommittee, cfg.beaconCommitteeSize, OFFSET)
    case SwapPanic => []
    case Swapped(_, _, outgoing, incoming, _) =>
      if |outgoing| > 0 || |incoming| > 0 then [SwapBeacon(Join(incoming), Join(outgoing))] else []
  }

  function AssignInstructions(dealt: map<nat, seq<string>>, order: seq<nat>): (ls: seq<Instruction>)
    ensures |ls| == |order|
  {
    seq(|order|, i requires 0 <= i < |order| => Assign(Join(At(dealt, order[i])), order[i]))
  }

  function NeedsRandom(st: BeaconState, height: nat): bool
  {
    height % EPOCH > RANDOM_TIME && !st.isGetRandomNumber
  }

  /** The generated instructions. `order` is the order in which the map of dealt candidates is ranged over. */
  function Generated(cfg: Config, st: BeaconState, height: nat, stakers: seq<Instruction>,
                     swap: map<nat, seq<Instruction>>, rand: int, order: seq<nat>): seq<Instruction>
    requires cfg.activeShards > 0
  {
    SwapsUpTo(swap, SHARD_IDS)
      + (if height % EPOCH == 0 then BeaconSwap(cfg, st) else [])
      + stakers
      + (if NeedsRandom(st, height) then
           [Random(rand)] + AssignInstructions(Assigned(cfg, map[], st.shardWaitingForCurrentRandom, rand), order)
         else [])
  }

  /** `stability` stands for the instructions that are put in front; the ones modelled here follow them. */
  method GenerateInstruction(cfg: Config, st: BeaconState, height: nat, stability: seq<Instruction>, stakers: seq<Instruction>,
                             swap: map<nat, seq<Instruction>>, rand: int)
    returns (panicked: bool, instructions: seq<Instruction>, ghost order: seq<nat>)
    requires cfg.activeShards > 0
    ensures panicked == (height % EPOCH == 0
      && Swap(st.beaconPendingValidator, st.beaconCommittee, cfg.beaconCommitteeSize, OFFSET) == SwapPanic)
    ensures !panicked ==> instructions == stability + Generated(cfg, st, height, stakers, swap, rand, order)
    ensures !panicked && NeedsRandom(st, height) ==>
      Ranges(order, Assigned(cfg, map[], st.shardWaitingForCurrentRandom, rand))
  {
    panicked, order := false, [];
    var swaps := GatherSwaps(swap);
    var own: seq<Instruction>, drawn: seq<Instruction> := [], [];
    instructions := stability + swaps;
    if height % EPOCH == 0 {
      panicked, own := SwapBeaconCommittee(cfg, st);
      if panicked { return true, [], []; }
      instructions := instructions + own;
    }
    instructions := instructions + stakers;
    if height % EPOCH > RANDOM_TIME && !st.isGetRandomNumber {
      drawn, order := DrawRandom(cfg, st, rand);
      instructions := instructions + drawn;
    }
    InFront(stability, swaps, own, stakers, drawn);
  }

  lemma InFront(a: seq<Instruction>, b: seq<Instruction>, c: seq<Instruction>, d: seq<Instruction>, e: seq<Instruction>)
    ensures a + (b + c + d + e) == a + b + c + d + e
    ensures c == [] ==> a + b + c + d + e == a + b + d + e
    ensures e == [] ==> a + b + c + d + e == a + b + c + d
    ensures c == [] && e == [] ==> a + b + c + d + e == a + b + d
  {
  }

  method GatherSwaps(swap: map<nat, seq<Instruction>>) returns (swaps: seq<Instruction>)
    ensures swaps == SwapsUpTo(swap, SHARD_IDS)
  {
    swaps := [];
    for shardID := 0 to SHARD_IDS
      invariant swaps == SwapsUpTo(swap, shardID)
    {
      if shardID in swap { swaps := swaps + swap[shardID]; }
    }
  }

  /** The beacon's own swap: with a pending key and a place for it, the first one joins; the first member leaves for it only if the
      committee is full. */
  lemma BeaconSwapExactly(cfg: Config, st: BeaconState)
    ensures BeaconSwap(cfg, st) ==
      if st.beaconPendingValidator == [] || cfg.beaconCommitteeSize == 0 || |st.beaconCommittee| > cfg.beaconCommitteeSize then []
      else [SwapBeacon(st.beaconPendingValidator[0],
        if |st.beaconCommittee| == cfg.beaconCommitteeSize then st.beaconCommittee[0] else "")]
  {
    var pending, current := st.beaconPendingValidator, st.beaconCommittee;
    if pending != [] {
      assert pending[..1] == [pending[0]] && pending[0..1] == [pending[0]];
      if current != [] { assert (current + pending[..1])[..1] == [current[0]]; }
    }
  }

  method SwapBeaconCommittee(cfg: Config, st: BeaconState) returns (panicked: bool, own: seq<Instruction>)
    ensures panicked == (Swap(st.beaconPendingValidator, st.beaconCommittee, cfg.beaconCommitteeSize, OFFSET) == SwapPanic)
    ensures !panicked ==> own == BeaconSwap(cfg, st)
  {
    var r := SwapValidator(st.beaconPendingValidator, st.beaconCommittee, cfg.beaconCommitteeSize, OFFSET);
    if r.SwapPanic? { return true, []; }
    panicked, own := false, [];
    if |r.outgoing| > 0 || |r.incoming| > 0 { own := [SwapBeacon(Join(r.incoming), Join(r.outgoing))]; }
  }

  method DrawRandom(cfg: Config, st: BeaconState, rand: int) returns (drawn: seq<Instruction>, ghost order: seq<nat>)
    requires cfg.activeShards > 0
    ensures drawn == [Random(rand)] + AssignInstructions(Assigned(cfg, map[], st.shardWaitingForCurrentRandom, rand), order)
    ensures Ranges(order, Assigned(cfg, map[], st.shardWaitingForCurrentRandom, rand))
  {
    var dealt := AssignValidatorShard(cfg, map[], st.shardWaitingForCurrentRandom, rand);
    var assigns;
    assigns, order := AssignAll(dealt);
    drawn := [Random(rand)] + assigns;
  }

  method AssignAll(dealt: map<nat, seq<string>>) returns (assigns: seq<Instruction>, ghost order: seq<nat>)
    ensures Ranges(order, dealt)
    ensures assigns == AssignInstructions(dealt, order)
  {
    assigns, order := [], [];
    var left := dealt.Keys;
    while left != {}
      invariant left <= dealt.Keys
      invariant NoRepeats(order)
      invariant forall k :: k in order <==> k in dealt && k !in left
      invariant assigns == AssignInstructions(dealt, order)
      decreases |left|
    {
      var shardID :| shardID in left;
      assigns := assigns + [Assign(Join(dealt[shardID]), shardID)];
      left, order := left - {shardID}, order + [shardID];
    }
  }
}
