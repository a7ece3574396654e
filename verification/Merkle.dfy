/** Merkle trees kept in a linear array, level after level, and the paths that prove one leaf. */
module Merkle {

  import opened Codec

  /** Nothing is assumed of the bytes of a hash; the hash of two branches is a parameter. */
  datatype Hash = Hash(bytes: seq<byte>)

  // ---------- Powers of two ----------

  function Pow2(k: nat): nat
  {
    if k == 0 then 1 else 2 * Pow2(k - 1)
  }

  /** Bitwise conjunction. */
  function And(a: nat, b: nat): nat
    decreases a, b
  {
    if a == 0 || b == 0 then 0
    else 2 * And(a / 2, b / 2) + (if a % 2 == 1 && b % 2 == 1 then 1 else 0)
  }

  /** The whole part of the binary logarithm. */
  function Log2(n: nat): nat
    requires n > 0
  {
    if n == 1 then 0 else 1 + Log2(n / 2)
  }

  function NextPowerOfTwo(n: nat): nat
    requires n > 0
  {
    if And(n, n - 1) == 0 then n else Pow2(Log2(n) + 1)
  }

  lemma {:induction false} AndSelf(n: nat)
    ensures And(n, n) == n
  {
    if n > 0 { AndSelf(n / 2); }
  }

  lemma {:induction false} LogBounds(n: nat)
    requires n > 0
    ensures Pow2(Log2(n)) <= n < Pow2(Log2(n) + 1)
  {
    if n > 1 {
      LogBounds(n / 2);
      assert Pow2(Log2(n)) == 2 * Pow2(Log2(n / 2));
      assert Pow2(Log2(n) + 1) == 2 * Pow2(Log2(n / 2) + 1);
    }
  }

  /** The bit test singles out the powers of two. */
  lemma {:induction false} BitTest(n: nat)
    requires n > 0
    ensures And(n, n - 1) == 0 <==> n == Pow2(Log2(n))
  {
    if n > 1 {
      if n % 2 == 1 {
        assert (n - 1) / 2 == n / 2;
        AndSelf(n / 2);
        assert n != 2 * Pow2(Log2(n / 2));
      } else {
        assert (n - 1) / 2 == n / 2 - 1;
        BitTest(n / 2);
      }
    }
  }

  lemma {:induction false} PowGrows(j: nat, k: nat)
    requires j < k
    ensures 2 * Pow2(j) <= Pow2(k) && Pow2(j) < Pow2(k)
  {
    if j + 1 < k { PowGrows(j, k - 1); }
    PowPositive(j);
  }

  lemma {:induction false} PowPositive(k: nat)
    ensures Pow2(k) > 0
  {
    if k > 0 { PowPositive(k - 1); }
  }

  lemma PowAboveOne(k: nat)
    ensures if k == 0 then Pow2(k) == 1 else Pow2(k) >= 2 && Pow2(k) == 2 * Pow2(k - 1)
  {
    PowPositive(k);
  }

  /** The exponent of the next power of two. */
  function Height(n: nat): nat
    requires n > 0
  {
    if And(n, n - 1) == 0 then Log2(n) else Log2(n) + 1
  }

  /** `NextPowerOfTwo` is the least power of two that is not below its argument. */
  lemma NextPowerIsLeast(n: nat, k: nat)
    requires n > 0
    ensures NextPowerOfTwo(n) == Pow2(Height(n)) && n <= NextPowerOfTwo(n)
    ensures n <= Pow2(k) ==> NextPowerOfTwo(n) <= Pow2(k)
  {
    BitTest(n);
    LogBounds(n);
    if n <= Pow2(k) && k < Height(n) {
      if k < Log2(n) { PowGrows(k, Log2(n)); }
    } else if Height(n) < k {
      PowGrows(Height(n), k);
    }
  }

  // ---------- The tree, level by level ----------

  /** Node `i` of level `j`: level 0 are the leaves, and every node joins two of the level below. */
  function NodeAt<T>(leaf: nat -> T, join: (T, T) -> T, j: nat, i: nat): T
    decreases j
  {
    if j == 0 then leaf(i) else join(NodeAt(leaf, join, j - 1, 2 * i), NodeAt(leaf, join, j - 1, 2 * i + 1))
  }

  /** The tree as one thinks of it: two halves under a node, over 2^j leaves from `start` on. */
  function Halves<T>(leaf: nat -> T, join: (T, T) -> T, start: nat, j: nat): T
    decreases j
  {
    if j == 0 then leaf(start)
    else join(Halves(leaf, join, start, j - 1), Halves(leaf, join, start + Pow2(j - 1), j - 1))
  }

  lemma Doubled(i: nat, j: nat)
    requires j > 0
    ensures i * Pow2(j) == (2 * i) * Pow2(j - 1)
    ensures i * Pow2(j) + Pow2(j - 1) == (2 * i + 1) * Pow2(j - 1)
  {
    assert Pow2(j) == 2 * Pow2(j - 1);
    assert (2 * i) * Pow2(j - 1) == i * (2 * Pow2(j - 1));
    assert (2 * i + 1) * Pow2(j - 1) == (2 * i) * Pow2(j - 1) + Pow2(j - 1);
  }

  /** Both ways of reading the tree agree. */
  lemma {:induction false} NodeIsHalves<T>(leaf: nat -> T, join: (T, T) -> T, j: nat, i: nat)
    ensures NodeAt(leaf, join, j, i) == Halves(leaf, join, i * Pow2(j), j)
    decreases j
  {
    if j > 0 {
      Doubled(i, j);
      NodeIsHalves(leaf, join, j - 1, 2 * i);
      NodeIsHalves(leaf, join, j - 1, 2 * i + 1);
    }
  }

  /** Where level `j` of a tree of height `k` starts in the array. */
  function Offset(k: nat, j: nat): nat
    requires j <= k
    decreases j
  {
    if j == 0 then 0 else Offset(k, j - 1) + Pow2(k - (j - 1))
  }

  lemma {:induction false} OffsetIs(k: nat, j: nat)
    requires j <= k
    ensures Offset(k, j) + 2 * Pow2(k - j) == 2 * Pow2(k)
    ensures Pow2(k - j) > 0
    decreases j
  {
    PowPositive(k - j);
    if j > 0 {
      OffsetIs(k, j - 1);
      assert Pow2(k - (j - 1)) == 2 * Pow2(k - j);
    }
  }

  /** The array holds the whole tree, level after level. */
  ghost predicate Stores<T(!new)>(a: seq<T>, leaf: nat -> T, join: (T, T) -> T, k: nat)
  {
    && |a| == 2 * Pow2(k) - 1
    && forall j: nat, i: nat | j <= k && i < Pow2(k - j) :: StoredAt(a, leaf, join, k, j, i)
  }

  ghost predicate StoredAt<T(!new)>(a: seq<T>, leaf: nat -> T, join: (T, T) -> T, k: nat, j: nat, i: nat)
    requires j <= k
  {
    Offset(k, j) + i < |a| && a[Offset(k, j) + i] == NodeAt(leaf, join, j, i)
  }

  /** Leaves in front, and every later entry joining the pair that stands half as far on. */
  ghost predicate ParentRule<T(!new)>(a: seq<T>, leaf: nat -> T, join: (T, T) -> T, k: nat)
  {
    && |a| == 2 * Pow2(k) - 1
    && (forall i: nat | i < Pow2(k) && i < |a| :: a[i] == leaf(i))
    && (forall q: nat | q < Pow2(k) - 1 :: a[Pow2(k) + q] == join(a[2 * q], a[2 * q + 1]))
  }

  lemma {:induction false} RuleGivesNode<T(!new)>(a: seq<T>, leaf: nat -> T, join: (T, T) -> T, k: nat, j: nat, i: nat)
    requires ParentRule(a, leaf, join, k) && j <= k && i < Pow2(k - j)
    ensures StoredAt(a, leaf, join, k, j, i)
    decreases j
  {
    OffsetIs(k, j);
    if j > 0 {
      OffsetIs(k, j - 1);
      assert Pow2(k - (j - 1)) == 2 * Pow2(k - j);
      RuleGivesNode(a, leaf, join, k, j - 1, 2 * i);
      RuleGivesNode(a, leaf, join, k, j - 1, 2 * i + 1);
      var q := Offset(k, j) + i - Pow2(k);
      assert 2 * q == Offset(k, j - 1) + 2 * i;
      assert a[Pow2(k) + q] == join(a[2 * q], a[2 * q + 1]);
    }
  }

  lemma RuleStores<T(!new)>(a: seq<T>, leaf: nat -> T, join: (T, T) -> T, k: nat)
    requires ParentRule(a, leaf, join, k)
    ensures Stores(a, leaf, join, k)
  {
    forall j: nat, i: nat | j <= k && i < Pow2(k - j)
      ensures StoredAt(a, leaf, join, k, j, i)
    {
      RuleGivesNode(a, leaf, join, k, j, i);
    }
  }

  /** The last entry of the array is the root of the recursive tree over all leaves. */
  lemma StoresRoot<T(!new)>(a: seq<T>, leaf: nat -> T, join: (T, T) -> T, k: nat)
    requires Stores(a, leaf, join, k)
    ensures |a| > 0 && a[|a| - 1] == NodeAt(leaf, join, k, 0) == Halves(leaf, join, 0, k)
  {
    OffsetIs(k, k);
    assert Pow2(0) == 1;
    assert StoredAt(a, leaf, join, k, k, 0);
    NodeIsHalves(leaf, join, k, 0);
  }

  // ---------- Building ----------

  /** The rule for missing nodes: no left child, no parent; no right child, the left one twice. */
  function JoinNil(node: (Hash, Hash) -> Hash): (Option<Hash>, Option<Hash>) -> Option<Hash>
  {
    (l: Option<Hash>, r: Option<Hash>) =>
      if l.None? then None else if r.None? then Some(node(l.value, l.value)) else Some(node(l.value, r.value))
  }

  /** The leaves, followed by `pad` for ever. */
  function Leaves<T>(leaves: seq<T>, pad: T): nat -> T
  {
    (i: nat) => if i < |leaves| then leaves[i] else pad
  }

  function SomeLeaves(leaves: seq<Hash>, pad: Option<Hash>): nat -> Option<Hash>
  {
    (i: nat) => if i < |leaves| then Some(leaves[i]) else pad
  }

  method FillParents(merkles: array<Option<Hash>>, nextPoT: nat, node: (Hash, Hash) -> Hash, ghost leaf: nat -> Option<Hash>, ghost k: nat)
    requires nextPoT == Pow2(k) && merkles.Length == 2 * nextPoT - 1
    requires forall i: nat | i < nextPoT :: merkles[i] == leaf(i)
    modifies merkles
    ensures Stores(merkles[..], leaf, JoinNil(node), k)
  {
    PowPositive(k);
    var offset, i := nextPoT, 0;
    while i < merkles.Length - 1
      invariant i % 2 == 0 && 0 <= i <= merkles.Length - 1 && offset == nextPoT + i / 2
      invariant forall p: nat | p < nextPoT :: merkles[p] == leaf(p)
      invariant forall q: nat | q < i / 2 :: merkles[nextPoT + q] == JoinNil(node)(merkles[2 * q], merkles[2 * q + 1])
    {
      if merkles[i] == None {
        merkles[offset] := None;
      } else if merkles[i + 1] == None {
        merkles[offset] := Some(node(merkles[i].value, merkles[i].value));
      } else {
        merkles[offset] := Some(node(merkles[i].value, merkles[i + 1].value));
      }
      offset := offset + 1;
      i := i + 2;
    }
    RuleStores(merkles[..], leaf, JoinNil(node), k);
  }

  /** An empty list gives an empty array; otherwise the array is the tree over the leaves, padded with missing ones. */
  method BuildMerkleTreeStore(transactions: seq<Hash>, node: (Hash, Hash) -> Hash) returns (merkles: array<Option<Hash>>)
    ensures fresh(merkles)
    ensures transactions == [] ==> merkles.Length == 0
    ensures transactions != [] ==> Stores(merkles[..], SomeLeaves(transactions, None), JoinNil(node), Height(|transactions|))
  {
    if |transactions| == 0 { return new Option<Hash>[0]; }
    var nextPoT := NextPowerOfTwo(|transactions|);
    NextPowerIsLeast(|transactions|, 0);
    PowPositive(Height(|transactions|));
    merkles := new Option<Hash>[nextPoT * 2 - 1](_ => None);
    for i := 0 to |transactions|
      invariant forall j | 0 <= j < i :: merkles[j] == Some(transactions[j])
      invariant forall j | i <= j < merkles.Length :: merkles[j] == None
    {
      merkles[i] := Some(transactions[i]);
    }
    FillParents(merkles, nextPoT, node, SomeLeaves(transactions, None), Height(|transactions|));
  }

  /** `zero` is the hash that the empty string decodes to. A list longer than the array is cut. */
  method BuildMerkleTreeOfHashes(shardsHash: seq<Hash>, length: nat, zero: Hash, node: (Hash, Hash) -> Hash)
    returns (merkles: array<Option<Hash>>)
    requires length > 0
    ensures fresh(merkles)
    ensures Stores(merkles[..], SomeLeaves(shardsHash, Some(zero)), JoinNil(node), Height(length))
  {
    var nextPoT := NextPowerOfTwo(length);
    NextPowerIsLeast(length, 0);
    PowPositive(Height(length));
    merkles := new Option<Hash>[nextPoT * 2 - 1](_ => Some(zero));
    var n := if |shardsHash| < merkles.Length then |shardsHash| else merkles.Length;
    for i := 0 to n
      invariant forall j | 0 <= j < i :: merkles[j] == Some(shardsHash[j])
      invariant forall j | i <= j < merkles.Length :: merkles[j] == Some(zero)
    {
      merkles[i] := Some(shardsHash[i]);
    }
    FillParents(merkles, nextPoT, node, SomeLeaves(shardsHash, Some(zero)), Height(length));
  }

  /** One level up: pairs are joined, and a last node without a partner is joined with itself. */
  function PairUp(level: seq<Hash>, node: (Hash, Hash) -> Hash): (up: seq<Hash>)
    ensures |up| == (|level| + 1) / 2
    ensures forall i | 0 <= i < |up| :: up[i] == node(level[2 * i], level[if 2 * i + 1 < |level| then 2 * i + 1 else 2 * i])
    decreases |level|
  {
    if level == [] then []
    else if |level| == 1 then [node(level[0], level[0])]
    else
      var rest := PairUp(level[2..], node);
      [node(level[0], level[1])] + rest
  }

  function LevelsUp(leaves: seq<Hash>, node: (Hash, Hash) -> Hash, j: nat): seq<Hash>
  {
    if j == 0 then leaves else PairUp(LevelsUp(leaves, node, j - 1), node)
  }

  function AtOrNone(level: seq<Hash>, i: nat): Option<Hash>
  {
    if i < |level| then Some(level[i]) else None
  }

  lemma JoinedPair(level: seq<Hash>, node: (Hash, Hash) -> Hash, i: nat)
    ensures JoinNil(node)(AtOrNone(level, 2 * i), AtOrNone(level, 2 * i + 1)) == AtOrNone(PairUp(level, node), i)
  {
  }

  /** The rule for missing nodes amounts to doubling the last node of every odd level. */
  lemma {:induction false} LastIsDoubled(leaves: seq<Hash>, node: (Hash, Hash) -> Hash, j: nat, i: nat)
    ensures NodeAt(SomeLeaves(leaves, None), JoinNil(node), j, i) == AtOrNone(LevelsUp(leaves, node, j), i)
    decreases j
  {
    if j == 0 {
      assert NodeAt(SomeLeaves(leaves, None), JoinNil(node), 0, i) == SomeLeaves(leaves, None)(i);
    } else {
      var below: nat, left: nat, right: nat := j - 1, 2 * i, 2 * i + 1;
      LastIsDoubled(leaves, node, below, left);
      LastIsDoubled(leaves, node, below, right);
      NodeJoins(SomeLeaves(leaves, None), JoinNil(node), j, i);
      OneLevelUp(LevelsUp(leaves, node, below), leaves, node, j, i,
        NodeAt(SomeLeaves(leaves, None), JoinNil(node), below, left), NodeAt(SomeLeaves(leaves, None), JoinNil(node), below, right));
    }
  }

  lemma OneLevelUp(level: seq<Hash>, leaves: seq<Hash>, node: (Hash, Hash) -> Hash, j: nat, i: nat, l: Option<Hash>, r: Option<Hash>)
    requires j > 0 && level == LevelsUp(leaves, node, j - 1) && l == AtOrNone(level, 2 * i) && r == AtOrNone(level, 2 * i + 1)
    ensures JoinNil(node)(l, r) == AtOrNone(LevelsUp(leaves, node, j), i)
  {
    JoinedPair(level, node, i);
  }

  lemma NodeJoins<T>(leaf: nat -> T, join: (T, T) -> T, j: nat, i: nat)
    requires j > 0
    ensures NodeAt(leaf, join, j, i) == join(NodeAt(leaf, join, j - 1, 2 * i), NodeAt(leaf, join, j - 1, 2 * i + 1))
  {
  }

  /** Where no leaf is missing, the rule for missing nodes never applies. */
  lemma {:induction false} NothingMissing(leaves: seq<Hash>, zero: Hash, node: (Hash, Hash) -> Hash, j: nat, i: nat)
    ensures NodeAt(SomeLeaves(leaves, Some(zero)), JoinNil(node), j, i) == Some(NodeAt(Leaves(leaves, zero), node, j, i))
    decreases j
  {
    if j > 0 {
      NothingMissing(leaves, zero, node, j - 1, 2 * i);
      NothingMissing(leaves, zero, node, j - 1, 2 * i + 1);
    }
  }

  /** Every place of the array belongs to one level. */
  lemma {:induction false} LevelOf(k: nat, p: nat) returns (j: nat, i: nat)
    requires p < 2 * Pow2(k) - 1
    ensures j <= k && i < Pow2(k - j) && Offset(k, j) + i == p
  {
    j := 0;
    OffsetIs(k, 0);
    while p >= Offset(k, j) + Pow2(k - j)
      invariant j <= k && Offset(k, j) <= p
      decreases k - j
    {
      OffsetIs(k, j);
      PowAboveOne(k - j);
      j := j + 1;
    }
    i := p - Offset(k, j);
  }

  method BuildMerkleTreeOfHashes2(shardsHashes: seq<Hash>, length: nat, zero: Hash, node: (Hash, Hash) -> Hash)
    returns (data: seq<Hash>)
    requires length > 0
    ensures Stores(data, Leaves(shardsHashes, zero), node, Height(length))
  {
    var merkles := BuildMerkleTreeOfHashes(shardsHashes, length, zero, node);
    data := [];
    ghost var a := merkles[..];
    for p := 0 to merkles.Length
      invariant merkles[..] == a
      invariant |data| == p && forall q | 0 <= q < p :: merkles[q] == Some(data[q])
    {
      PlaceFilled(a, shardsHashes, zero, node, Height(length), p);
      data := data + [merkles[p].value];
    }
    StoresValues(a, data, shardsHashes, zero, node, Height(length));
  }

  lemma PlaceFilled(a: seq<Option<Hash>>, leaves: seq<Hash>, zero: Hash, node: (Hash, Hash) -> Hash, k: nat, p: nat)
    requires Stores(a, SomeLeaves(leaves, Some(zero)), JoinNil(node), k) && p < |a|
    ensures a[p].Some?
  {
    var j, i := LevelOf(k, p);
    NothingMissing(leaves, zero, node, j, i);
    assert StoredAt(a, SomeLeaves(leaves, Some(zero)), JoinNil(node), k, j, i);
  }

  lemma StoresValues(a: seq<Option<Hash>>, data: seq<Hash>, leaves: seq<Hash>, zero: Hash, node: (Hash, Hash) -> Hash, k: nat)
    requires Stores(a, SomeLeaves(leaves, Some(zero)), JoinNil(node), k)
    requires |data| == |a| && forall q | 0 <= q < |a| :: a[q] == Some(data[q])
    ensures Stores(data, Leaves(leaves, zero), node, k)
  {
    forall j: nat, i: nat | j <= k && i < Pow2(k - j)
      ensures StoredAt(data, Leaves(leaves, zero), node, k, j, i)
    {
      NothingMissing(leaves, zero, node, j, i);
      assert StoredAt(a, SomeLeaves(leaves, Some(zero)), JoinNil(node), k, j, i);
    }
  }

  // ---------- Paths ----------

  function Neighbour(i: nat): nat
  {
    if i % 2 == 0 then i + 1 else i - 1
  }

  /** The neighbours on the way from node `i` of level `j` up to the root. */
  function Path(leaf: nat -> Hash, node: (Hash, Hash) -> Hash, k: nat, j: nat, i: nat): seq<Hash>
    requires j <= k
    decreases k - j
  {
    if j == k then [] else [NodeAt(leaf, node, j, Neighbour(i))] + Path(leaf, node, k, j + 1, i / 2)
  }

  function Climb(leaf: Hash, path: seq<Hash>, i: nat, node: (Hash, Hash) -> Hash): Hash
    decreases |path|
  {
    if path == [] then leaf
    else Climb(if i % 2 == 0 then node(leaf, path[0]) else node(path[0], leaf), path[1..], i / 2, node)
  }

  method GetMerklePathForCrossShard(length: nat, merkleTree: seq<Hash>, shardID: nat, ghost leaf: nat -> Hash, node: (Hash, Hash) -> Hash)
    returns (path: seq<Hash>, root: Hash)
    requires length > 0 && Stores(merkleTree, leaf, node, Height(length)) && shardID < NextPowerOfTwo(length)
    ensures path == Path(leaf, node, Height(length), 0, shardID)
    ensures root == NodeAt(leaf, node, Height(length), 0)
  {
    var nextPoT := NextPowerOfTwo(length);
    NextPowerIsLeast(length, 0);
    ghost var k := Height(length);
    var cursor, lastCursor, i, time := 0, 0, shardID, 0;
    path := [];
    OffsetIs(k, 0);
    while cursor < |merkleTree| - 2
      invariant 0 <= i && 0 <= time && Walking(k, time, cursor, lastCursor, i)
      invariant path + Path(leaf, node, k, time, i) == Path(leaf, node, k, 0, shardID)
      decreases k - time
    {
      WalksOn(k, time, cursor, lastCursor, i);
      var neighbour := ReadNeighbour(merkleTree, cursor, i, leaf, node, k, time);
      PathUnfolds(leaf, node, k, time, i, path);
      path := path + [neighbour];
      cursor, lastCursor := NextStep(cursor, lastCursor, time, nextPoT);
      i, time := i / 2, time + 1;
    }
    AtRoot(k, time);
    root := ReadRoot(merkleTree, leaf, node, k);
  }

  method ReadRoot(merkleTree: seq<Hash>, ghost leaf: nat -> Hash, ghost node: (Hash, Hash) -> Hash, ghost k: nat) returns (root: Hash)
    requires Stores(merkleTree, leaf, node, k)
    ensures root == NodeAt(leaf, node, k, 0)
  {
    StoresRoot(merkleTree, leaf, node, k);
    root := merkleTree[|merkleTree| - 1];
  }

  method ReadNeighbour(merkleTree: seq<Hash>, cursor: int, i: nat, ghost leaf: nat -> Hash, ghost node: (Hash, Hash) -> Hash, ghost k: nat, ghost j: nat)
    returns (h: Hash)
    requires Stores(merkleTree, leaf, node, k) && j < k && i < Pow2(k - j) && cursor == Offset(k, j)
    ensures h == NodeAt(leaf, node, j, Neighbour(i))
  {
    NeighbourStored(merkleTree, leaf, node, k, j, i);
    h := merkleTree[if i % 2 == 0 then cursor + i + 1 else cursor + i - 1];
  }

  method NextStep(cursor: int, lastCursor: int, time: int, nextPoT: nat) returns (cursor': int, lastCursor': int)
    ensures cursor' == if time == 0 then cursor + nextPoT else cursor + (cursor - lastCursor) / 2
    ensures lastCursor' == if time == 0 then lastCursor else cursor
  {
    cursor', lastCursor' := cursor, lastCursor;
    if time == 0 {
      cursor' := cursor' + nextPoT;
    } else {
      var tmp := cursor';
      cursor' := cursor' + (cursor' - lastCursor') / 2;
      lastCursor' := tmp;
    }
  }

  /** The walk stands at node `i` of level `time`. */
  ghost predicate Walking(k: nat, time: nat, cursor: int, lastCursor: int, i: nat)
  {
    && time <= k && cursor == Offset(k, time) && i < Pow2(k - time)
    && lastCursor == if time == 0 then 0 else Offset(k, time - 1)
  }

  lemma WalksOn(k: nat, time: nat, cursor: int, lastCursor: int, i: nat)
    requires Walking(k, time, cursor, lastCursor, i) && cursor < 2 * Pow2(k) - 3
    ensures time < k
    ensures Walking(k, time + 1, if time == 0 then cursor + Pow2(k) else cursor + (cursor - lastCursor) / 2,
      if time == 0 then lastCursor else cursor, i / 2)
  {
    NotAtRoot(k, time);
    NextCursor(k, time);
    PowAboveOne(k - time);
  }

  lemma PathUnfolds(leaf: nat -> Hash, node: (Hash, Hash) -> Hash, k: nat, j: nat, i: nat, path: seq<Hash>)
    requires j < k
    ensures path + Path(leaf, node, k, j, i) == path + [NodeAt(leaf, node, j, Neighbour(i))] + Path(leaf, node, k, j + 1, i / 2)
  {
  }

  lemma NeighbourStored(a: seq<Hash>, leaf: nat -> Hash, node: (Hash, Hash) -> Hash, k: nat, j: nat, i: nat)
    requires Stores(a, leaf, node, k) && j < k && i < Pow2(k - j)
    ensures Offset(k, j) + Neighbour(i) < |a| && a[Offset(k, j) + Neighbour(i)] == NodeAt(leaf, node, j, Neighbour(i))
    ensures i / 2 < Pow2(k - (j + 1))
  {
    PowAboveOne(k - j);
    assert StoredAt(a, leaf, node, k, j, Neighbour(i));
  }

  lemma NextCursor(k: nat, j: nat)
    requires j < k
    ensures Offset(k, 0) == 0 && Offset(k, j + 1) == if j == 0 then Pow2(k) else Offset(k, j) + (Offset(k, j) - Offset(k, j - 1)) / 2
  {
    if j > 0 { assert Pow2(k - (j - 1)) == 2 * Pow2(k - j); }
  }

  lemma NotAtRoot(k: nat, j: nat)
    requires j <= k && Offset(k, j) < 2 * Pow2(k) - 3
    ensures j < k
  {
    OffsetIs(k, j);
    PowAboveOne(k - j);
  }

  lemma AtRoot(k: nat, j: nat)
    requires j <= k && Offset(k, j) >= 2 * Pow2(k) - 3
    ensures j == k
  {
    OffsetIs(k, j);
    PowAboveOne(k - j);
  }

  method VerifyMerkleRootFromMerklePath(leaf: Hash, merklePath: seq<Hash>, merkleRoot: Hash, receiverShardID: nat, node: (Hash, Hash) -> Hash)
    returns (ok: bool)
    ensures ok <==> Climb(leaf, merklePath, receiverShardID, node) == merkleRoot
  {
    var i := receiverShardID;
    var finalHash: Hash := leaf;
    assert merklePath[0..] == merklePath;
    for j := 0 to |merklePath|
      invariant i >= 0
      invariant Climb(finalHash, merklePath[j..], i, node) == Climb(leaf, merklePath, receiverShardID, node)
    {
      assert merklePath[j..][1..] == merklePath[j + 1..];
      finalHash := if i % 2 == 0 then node(finalHash, merklePath[j]) else node(merklePath[j], finalHash);
      i := i / 2;
    }
    ok := merkleRoot == finalHash;
  }

  /** The path from a node is as long as the levels above it, and climbing it ends in the root. */
  lemma {:induction false} PathVerifies(leaf: nat -> Hash, node: (Hash, Hash) -> Hash, k: nat, j: nat, i: nat)
    requires j <= k && i < Pow2(k - j)
    ensures |Path(leaf, node, k, j, i)| == k - j
    ensures Climb(NodeAt(leaf, node, j, i), Path(leaf, node, k, j, i), i, node) == NodeAt(leaf, node, k, 0)
    decreases k - j
  {
    if j < k {
      PathVerifies(leaf, node, k, j + 1, i / 2);
      var path := Path(leaf, node, k, j, i);
      assert path[1..] == Path(leaf, node, k, j + 1, i / 2);
    } else {
      assert Pow2(0) == 1;
    }
  }

  lemma ParentOf(leaf: nat -> Hash, node: (Hash, Hash) -> Hash, j: nat, i: nat)
    ensures var me, other := NodeAt(leaf, node, j, i), NodeAt(leaf, node, j, Neighbour(i));
      NodeAt(leaf, node, j + 1, i / 2) == if i % 2 == 0 then node(me, other) else node(other, me)
  {
  }

  /** The pair that is hashed on the way up, in the order in which it is hashed. */
  function PairAt(me: Hash, other: Hash, i: nat): (Hash, Hash)
  {
    if i % 2 == 0 then (me, other) else (other, me)
  }

  /** On no level do the pair that the verifier hashes and the tree's own pair differ and yet have one hash. */
  ghost predicate NoCollisionOnTheWay(leaf: nat -> Hash, node: (Hash, Hash) -> Hash, j: nat, i: nat, x: Hash, path: seq<Hash>)
    decreases |path|
  {
    path == [] ||
      (var climbed, own := PairAt(x, path[0], i), PairAt(NodeAt(leaf, node, j, i), NodeAt(leaf, node, j, Neighbour(i)), i);
      && (node(climbed.0, climbed.1) == node(own.0, own.1) ==> climbed == own)
      && NoCollisionOnTheWay(leaf, node, j + 1, i / 2, node(climbed.0, climbed.1), path[1..]))
  }

  /** A path of the right length that ends in the root proves the node it starts from, and is its path, unless two different
      pairs on the way have one hash. */
  lemma {:induction false} PathProvesNode(leaf: nat -> Hash, node: (Hash, Hash) -> Hash, k: nat, j: nat, i: nat, x: Hash, path: seq<Hash>)
    requires j <= k && i < Pow2(k - j) && |path| == k - j && NoCollisionOnTheWay(leaf, node, j, i, x, path)
    requires Climb(x, path, i, node) == NodeAt(leaf, node, k, 0)
    ensures x == NodeAt(leaf, node, j, i) && path == Path(leaf, node, k, j, i)
    decreases k - j
  {
    PowAboveOne(k - j);
    if j < k {
      var climbed := PairAt(x, path[0], i);
      PathProvesNode(leaf, node, k, j + 1, i / 2, node(climbed.0, climbed.1), path[1..]);
      ParentOf(leaf, node, j, i);
      assert path == [path[0]] + path[1..];
    }
  }

  /** So the verifier accepts a leaf with a full-length path exactly when both are the tree's own. */
  lemma AcceptsOnlyOwnLeaf(leaf: nat -> Hash, node: (Hash, Hash) -> Hash, k: nat, i: nat, x: Hash, path: seq<Hash>)
    requires i < Pow2(k) && |path| == k && NoCollisionOnTheWay(leaf, node, 0, i, x, path)
    ensures Climb(x, path, i, node) == NodeAt(leaf, node, k, 0) <==> x == leaf(i) && path == Path(leaf, node, k, 0, i)
  {
    PathVerifies(leaf, node, k, 0, i);
    if Climb(x, path, i, node) == NodeAt(leaf, node, k, 0) { PathProvesNode(leaf, node, k, 0, i, x, path); }
  }

  /** A pair hash without any collision has none on the way. */
  lemma {:induction false} InjectiveHasNoCollision(leaf: nat -> Hash, node: (Hash, Hash) -> Hash, j: nat, i: nat, x: Hash, path: seq<Hash>)
    requires forall a, b, c, d :: node(a, b) == node(c, d) ==> a == c && b == d
    ensures NoCollisionOnTheWay(leaf, node, j, i, x, path)
    decreases |path|
  {
    if path != [] {
      var climbed := PairAt(x, path[0], i);
      InjectiveHasNoCollision(leaf, node, j + 1, i / 2, node(climbed.0, climbed.1), path[1..]);
    }
  }
}
