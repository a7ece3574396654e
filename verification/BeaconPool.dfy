/** The pool of beacon blocks that are ahead of the best chain: a linked run that is ready to be inserted, and others that wait. */
module BeaconPool {
  import opened Lists

  const MAX_VALID_BEACON_BLK_IN_POOL := 10000
  const MAX_PENDING_BEACON_BLK_IN_POOL := 10000
  const BEACON_CACHE_SIZE := 2000
  const TWO64 := 0x1_0000_0000_0000_0000

  type Hash = nat

  /** The parts of a block's header that the pool looks at; `hash` is the hash of the whole header. */
  datatype Block = Block(height: nat, hash: Hash, prevBlockHash: Hash)

  datatype Config = Config(maxValidBlock: nat, maxPendingBlock: nat, cacheSize: nat)

  /** `cache` lists hashes, the most recently used first. */
  datatype Pool = Pool(
    validPool: seq<Block>,
    pendingPool: map<nat, Block>,
    conflictedPool: map<Hash, Block>,
    latestValidHeight: nat,
    cache: seq<Hash>)

  datatype Verdict = Fine | OldBlock | DuplicateBlock | MaxPoolSize

  // ---------- The cache of least recently used hashes ----------

  function WithoutHash(cache: seq<Hash>, hash: Hash): seq<Hash>
  {
    if cache == [] then []
    else if cache[0] == hash then cache[1..]
    else [cache[0]] + WithoutHash(cache[1..], hash)
  }

  /** Looking a hash up makes it the most recent one. */
  function Touched(cache: seq<Hash>, hash: Hash): seq<Hash>
  {
    if hash in cache then [hash] + WithoutHash(cache, hash) else cache
  }

  function Cached(cache: seq<Hash>, hash: Hash, size: nat): seq<Hash>
  {
    if hash in cache then Touched(cache, hash)
    else if |cache| >= size && |cache| > 0 then [hash] + cache[..|cache| - 1]
    else [hash] + cache
  }

  lemma {:induction false} WithoutHashMembers(cache: seq<Hash>, hash: Hash)
    requires NoRepeats(cache)
    ensures NoRepeats(WithoutHash(cache, hash))
    ensures forall h :: h in WithoutHash(cache, hash) <==> h in cache && h != hash
    ensures |WithoutHash(cache, hash)| == |cache| - if hash in cache then 1 else 0
  {
    if cache != [] {
      var rest := cache[1..];
      assert forall i | 0 <= i < |rest| :: rest[i] == cache[i + 1];
      assert cache == [cache[0]] + rest;
      WithoutHashMembers(rest, hash);
      var w := WithoutHash(rest, hash);
      assert cache[0] !in rest;
      assert forall i | 0 <= i < |w| :: w[i] in w;
    }
  }

  /** The cache never repeats a hash and never outgrows its size; a hash put in is in. */
  lemma CacheStaysSmall(cache: seq<Hash>, hash: Hash, size: nat)
    requires NoRepeats(cache) && |cache| <= size && size > 0
    ensures NoRepeats(Touched(cache, hash)) && |Touched(cache, hash)| <= size
    ensures NoRepeats(Cached(cache, hash, size)) && |Cached(cache, hash, size)| <= size && hash in Cached(cache, hash, size)
    ensures forall h :: h in Touched(cache, hash) <==> h in cache
  {
    WithoutHashMembers(cache, hash);
  }

  /** The cache lists its hashes from the most to the least recently used: looking one up puts it in front, and a new one displaces
      the last when there is no room. */
  lemma MostRecentFirst(cache: seq<Hash>, hash: Hash, size: nat)
    requires NoRepeats(cache) && |cache| <= size && size > 0
    ensures var others := Those(cache, Other(hash));
      && Touched(cache, hash) == (if hash in cache then [hash] + others else cache)
      && Cached(cache, hash, size) == [hash] + if |others| < size then others else others[..size - 1]
  {
    WithoutIsThose(cache, hash);
    if hash !in cache { WithoutMissing(cache, hash); }
    WithoutHashMembers(cache, hash);
  }

  function Other(hash: Hash): Hash -> bool
  {
    h => h != hash
  }

  lemma {:induction false} WithoutIsThose(cache: seq<Hash>, hash: Hash)
    requires NoRepeats(cache)
    ensures WithoutHash(cache, hash) == Those(cache, Other(hash))
  {
    if cache != [] {
      var rest := cache[1..];
      assert forall i | 0 <= i < |rest| :: rest[i] == cache[i + 1];
      WithoutIsThose(rest, hash);
      if cache[0] == hash { WithoutMissing(rest, hash); }
    }
  }

  lemma {:induction false} WithoutMissing(cache: seq<Hash>, hash: Hash)
    requires hash !in cache
    ensures WithoutHash(cache, hash) == cache
  {
    if cache != [] { WithoutMissing(cache[1..], hash); }
  }

  // ---------- One block ----------

  /** The verdict on a block, and the pool with a late block noted as conflicting and the cache looked up. */
  function Validated(p: Pool, block: Block, isPending: bool, cfg: Config): (Pool, Verdict)
  {
    var p := p.(cache := Touched(p.cache, block.hash));
    if block.hash in p.cache then (p, OldBlock)
    else if block.height <= p.latestValidHeight then
      (if p.latestValidHeight - block.height > 2 then p.(conflictedPool := p.conflictedPool[block.hash := block]) else p, OldBlock)
    else if !isPending && block.height in p.pendingPool then (p, DuplicateBlock)
    else if !isPending && |p.pendingPool| >= cfg.maxPendingBlock then (p, MaxPoolSize)
    else if p.latestValidHeight + 1 == block.height
      && |p.validPool| >= cfg.maxValidBlock && |p.pendingPool| >= cfg.maxPendingBlock then (p, MaxPoolSize)
    else (p, Fine)
  }

  function Pending(p: Pool, block: Block): Pool
  {
    p.(pendingPool := p.pendingPool[block.height := block])
  }

  /** A block becomes valid only when the block after it is already there and names it as its predecessor. */
  function Inserted(p: Pool, block: Block, cfg: Config): (Pool, bool)
  {
    if block.height == p.latestValidHeight + 1 then
      if |p.validPool| < cfg.maxValidBlock then
        if block.height + 1 in p.pendingPool then
          if p.pendingPool[block.height + 1].prevBlockHash == block.hash then
            (p.(validPool := p.validPool + [block], latestValidHeight := block.height), true)
          else (p.(cache := Cached(p.cache, block.hash, cfg.cacheSize)), false)
        else (Pending(p, block), false)
      else if |p.pendingPool| < cfg.maxPendingBlock then (Pending(p, block), false)
      else (p, false)
    else (Pending(p, block), false)
  }

  // ---------- Promotion ----------

  function Promoted(p: Pool, cfg: Config): Pool
    decreases |p.pendingPool|
  {
    var next := p.latestValidHeight + 1;
    if next !in p.pendingPool then p
    else
      var block := p.pendingPool[next];
      var (checked, verdict) := Validated(p, block, true, cfg);
      if verdict != Fine then checked
      else
        var (q, success) := Inserted(checked, block, cfg);
        if !success then q
        else
          SmallerWithout(q.pendingPool, next);
          Promoted(q.(pendingPool := q.pendingPool - {next}), cfg)
  }

  lemma SmallerWithout(m: map<nat, Block>, key: nat)
    ensures |m - {key}| <= |m| && (key in m ==> |m - {key}| == |m| - 1)
  {
    assert (m - {key}).Keys == m.Keys - {key};
    assert |(m - {key}).Keys| == |m - {key}| && |m.Keys| == |m|;
  }

  function Added(p: Pool, block: Block, cfg: Config): (Pool, Verdict)
  {
    var (checked, verdict) := Validated(p, block, false, cfg);
    if verdict != Fine then (checked, verdict) else (Promoted(Inserted(checked, block, cfg).0, cfg), Fine)
  }

  // ---------- The best chain moves on ----------

  function StateSet(p: Pool, height: nat): Pool
  {
    if p.latestValidHeight < height then p.(latestValidHeight := height) else p
  }

  function DropUpTo(blocks: seq<Block>, height: nat): seq<Block>
  {
    if blocks != [] && blocks[0].height <= height then DropUpTo(blocks[1..], height) else blocks
  }

  /** `best` is the height of the best beacon state, read when nothing valid is left. */
  function Removed(p: Pool, height: nat, best: nat): Pool
  {
    var rest := DropUpTo(p.validPool, height);
    p.(validPool := rest, latestValidHeight := if rest != [] then rest[|rest| - 1].height else best)
  }

  /** Unsigned subtraction: for a height below 2 every conflicting block goes. */
  function TwoBelow(height: nat): nat
  {
    (height - 2) % TWO64
  }

  function Cleaned(p: Pool, height: nat): Pool
  {
    p.(
      pendingPool := map h | h in p.pendingPool && h > height :: p.pendingPool[h],
      conflictedPool := map h | h in p.conflictedPool && p.conflictedPool[h].height >= TwoBelow(height) :: p.conflictedPool[h])
  }

  // ---------- Invariant ----------

  /** The valid blocks are exactly the heights from `best + 1` on, each naming the one before it, up to the latest valid height. */
  ghost predicate Linked(blocks: seq<Block>, best: nat, latest: nat)
  {
    && latest == best + |blocks|
    && (forall i | 0 <= i < |blocks| :: blocks[i].height == best + 1 + i)
    && (forall i | 0 < i < |blocks| :: blocks[i].prevBlockHash == blocks[i - 1].hash)
  }

  /** The block behind the valid ones waits in the pending pool and names the last of them. */
  ghost predicate Anchored(p: Pool)
  {
    p.validPool != [] ==>
      && p.latestValidHeight + 1 in p.pendingPool
      && p.pendingPool[p.latestValidHeight + 1].prevBlockHash == p.validPool[|p.validPool| - 1].hash
  }

  ghost predicate Bounded(p: Pool, cfg: Config)
  {
    && |p.validPool| <= cfg.maxValidBlock && |p.pendingPool| <= cfg.maxPendingBlock
    && NoRepeats(p.cache) && |p.cache| <= cfg.cacheSize && cfg.cacheSize > 0
    && forall h | h in p.pendingPool :: p.pendingPool[h].height == h
  }

  ghost predicate Inv(p: Pool, best: nat, cfg: Config)
  {
    Linked(p.validPool, best, p.latestValidHeight) && Anchored(p) && Bounded(p, cfg)
  }

  lemma ValidatedKeeps(p: Pool, block: Block, isPending: bool, best: nat, cfg: Config)
    requires Inv(p, best, cfg)
    ensures var (q, verdict) := Validated(p, block, isPending, cfg);
      && Inv(q, best, cfg) && q.pendingPool == p.pendingPool && q.latestValidHeight == p.latestValidHeight && q.validPool == p.validPool
      && (verdict == Fine ==> block.height > p.latestValidHeight)
      && (verdict == Fine && !isPending ==> block.height !in p.pendingPool && |p.pendingPool| < cfg.maxPendingBlock)
  {
    CacheStaysSmall(p.cache, block.hash, cfg.cacheSize);
  }

  lemma PendingKeeps(p: Pool, block: Block, best: nat, cfg: Config)
    requires Inv(p, best, cfg)
    requires block.height !in p.pendingPool || p.pendingPool[block.height] == block
    requires block.height in p.pendingPool || |p.pendingPool| < cfg.maxPendingBlock
    ensures Inv(Pending(p, block), best, cfg)
  {
    var m := p.pendingPool[block.height := block];
    OneMoreEntry(p.pendingPool, block.height, block);
    if block.height in p.pendingPool { assert m == p.pendingPool; }
  }

  lemma OneMoreEntry(m: map<nat, Block>, key: nat, block: Block)
    ensures |m[key := block]| == |m| + if key in m then 0 else 1
  {
    assert m[key := block].Keys == m.Keys + {key};
    assert |m[key := block].Keys| == |m[key := block]| && |m.Keys| == |m|;
  }

  lemma LinkedGrows(blocks: seq<Block>, block: Block, best: nat, latest: nat)
    requires Linked(blocks, best, latest) && block.height == latest + 1
    requires blocks != [] ==> block.prevBlockHash == blocks[|blocks| - 1].hash
    ensures Linked(blocks + [block], best, latest + 1)
  {
  }

  /** Inserting a block that is new, or that is the pending one of its height. */
  lemma InsertedKeeps(p: Pool, block: Block, best: nat, cfg: Config)
    requires Inv(p, best, cfg) && block.height > p.latestValidHeight
    requires block.height !in p.pendingPool || p.pendingPool[block.height] == block
    requires block.height in p.pendingPool || |p.pendingPool| < cfg.maxPendingBlock
    ensures var (q, success) := Inserted(p, block, cfg);
      && Inv(q, best, cfg)
      && (success ==> q.pendingPool == p.pendingPool && q.latestValidHeight == p.latestValidHeight + 1 == block.height)
  {
    var (q, success) := Inserted(p, block, cfg);
    if success {
      LinkedGrows(p.validPool, block, best, p.latestValidHeight);
    } else {
      CacheStaysSmall(p.cache, block.hash, cfg.cacheSize);
      PendingKeeps(p, block, best, cfg);
    }
  }

  /** The next block waits and can become valid. */
  ghost predicate Goes(p: Pool, cfg: Config)
  {
    var next := p.latestValidHeight + 1;
    && next in p.pendingPool && Validated(p, p.pendingPool[next], true, cfg).1 == Fine
    && Inserted(Validated(p, p.pendingPool[next], true, cfg).0, p.pendingPool[next], cfg).1
  }

  /** The pool with the next block moved from the pending to the valid ones. */
  ghost function After(p: Pool, cfg: Config): Pool
    requires Goes(p, cfg)
  {
    var next := p.latestValidHeight + 1;
    var q := Inserted(Validated(p, p.pendingPool[next], true, cfg).0, p.pendingPool[next], cfg).0;
    q.(pendingPool := q.pendingPool - {next})
  }

  lemma PromotedFollows(p: Pool, cfg: Config)
    requires Goes(p, cfg)
    ensures Promoted(p, cfg) == Promoted(After(p, cfg), cfg)
  {
  }

  /** `r` has the next block moved over. */
  ghost predicate MovedNext(p: Pool, r: Pool)
  {
    var next := p.latestValidHeight + 1;
    && next in p.pendingPool && |r.pendingPool| < |p.pendingPool|
    && r.validPool == p.validPool + [p.pendingPool[next]] && r.pendingPool == p.pendingPool - {next}
  }

  lemma AfterKeeps(p: Pool, best: nat, cfg: Config)
    requires Inv(p, best, cfg) && Goes(p, cfg)
    ensures Inv(After(p, cfg), best, cfg) && MovedNext(p, After(p, cfg))
  {
    var next := p.latestValidHeight + 1;
    var block := p.pendingPool[next];
    ValidatedKeeps(p, block, true, best, cfg);
    var checked := Validated(p, block, true, cfg).0;
    InsertedKeeps(checked, block, best, cfg);
    InsertedMoves(checked, block, cfg);
    MovesOver(p, Inserted(checked, block, cfg).0, best, cfg);
  }

  lemma InsertedMoves(p: Pool, block: Block, cfg: Config)
    requires Inserted(p, block, cfg).1
    ensures Inserted(p, block, cfg).0.validPool == p.validPool + [block]
  {
  }

  lemma MovesOver(p: Pool, q: Pool, best: nat, cfg: Config)
    requires Inv(q, best, cfg) && q.latestValidHeight == p.latestValidHeight + 1 && q.latestValidHeight in p.pendingPool
    requires q.pendingPool == p.pendingPool && q.validPool == p.validPool + [p.pendingPool[q.latestValidHeight]]
    ensures var r := q.(pendingPool := q.pendingPool - {q.latestValidHeight}); Inv(r, best, cfg) && MovedNext(p, r)
  {
    SmallerWithout(q.pendingPool, q.latestValidHeight);
    TakenOut(q, best, cfg);
  }

  /** Where promotion stops it leaves both pools as they are, and it stops only where it must. */
  lemma StopsKeeps(p: Pool, best: nat, cfg: Config)
    requires Inv(p, best, cfg) && !Goes(p, cfg)
    ensures var q := Promoted(p, cfg); q.validPool == p.validPool && q.pendingPool == p.pendingPool
    ensures Inv(Promoted(p, cfg), best, cfg) && Exhausted(Promoted(p, cfg), cfg)
  {
    var next := p.latestValidHeight + 1;
    if next in p.pendingPool {
      var block := p.pendingPool[next];
      ValidatedKeeps(p, block, true, best, cfg);
      var (checked, verdict) := Validated(p, block, true, cfg);
      CacheStaysSmall(p.cache, block.hash, cfg.cacheSize);
      if verdict == Fine {
        InsertedKeeps(checked, block, best, cfg);
        StopsExhausted(checked, block, cfg);
      }
    }
  }

  /** Promotion keeps the invariant, takes nothing out of the valid pool, and stops only where it must. */
  lemma {:induction false} PromotedKeeps(p: Pool, best: nat, cfg: Config)
    requires Inv(p, best, cfg)
    ensures Inv(Promoted(p, cfg), best, cfg)
    ensures p.validPool <= Promoted(p, cfg).validPool
    ensures Exhausted(Promoted(p, cfg), cfg)
    decreases |p.pendingPool|
  {
    if Goes(p, cfg) {
      AfterKeeps(p, best, cfg);
      PromotedKeeps(After(p, cfg), best, cfg);
      PromotedFollows(p, cfg);
    } else {
      StopsKeeps(p, best, cfg);
    }
  }

  lemma TakenOut(q: Pool, best: nat, cfg: Config)
    requires Inv(q, best, cfg)
    ensures Inv(q.(pendingPool := q.pendingPool - {q.latestValidHeight}), best, cfg)
  {
    SmallerWithout(q.pendingPool, q.latestValidHeight);
  }

  lemma StopsExhausted(p: Pool, block: Block, cfg: Config)
    requires block.height == p.latestValidHeight + 1 && block.height in p.pendingPool && p.pendingPool[block.height] == block
    requires !Inserted(p, block, cfg).1 && NoRepeats(p.cache) && |p.cache| <= cfg.cacheSize && cfg.cacheSize > 0
    ensures Exhausted(Inserted(p, block, cfg).0, cfg) && p.validPool == Inserted(p, block, cfg).0.validPool
      && p.pendingPool == Inserted(p, block, cfg).0.pendingPool
  {
    CacheStaysSmall(p.cache, block.hash, cfg.cacheSize);
  }

  /** Nothing more can be promoted: the next block is missing, known to be on a fork, without a successor that names it, or
      there is no room. */
  ghost predicate Exhausted(p: Pool, cfg: Config)
  {
    var next := p.latestValidHeight + 1;
    next in p.pendingPool ==>
      || p.pendingPool[next].hash in p.cache
      || |p.validPool| >= cfg.maxValidBlock
      || next + 1 !in p.pendingPool
      || p.pendingPool[next + 1].prevBlockHash != p.pendingPool[next].hash
  }

  lemma AddedKeeps(p: Pool, block: Block, best: nat, cfg: Config)
    requires Inv(p, best, cfg)
    ensures var (q, verdict) := Added(p, block, cfg);
      Inv(q, best, cfg) && p.validPool <= q.validPool && (verdict == Fine ==> Exhausted(q, cfg))
  {
    ValidatedKeeps(p, block, false, best, cfg);
    var (checked, verdict) := Validated(p, block, false, cfg);
    if verdict == Fine {
      InsertedKeeps(checked, block, best, cfg);
      PromotedKeeps(Inserted(checked, block, cfg).0, best, cfg);
    }
  }

  // ---------- Which blocks are taken in, and where they go ----------

  /** A new block is judged fine exactly when its hash is not cached, it is ahead of the valid ones, none waits at its height, and
      there is room to wait. */
  lemma FineExactly(p: Pool, block: Block, cfg: Config)
    ensures Validated(p, block, false, cfg).1 == Fine <==>
      (block.hash !in p.cache && p.latestValidHeight < block.height && block.height !in p.pendingPool
        && |p.pendingPool| < cfg.maxPendingBlock)
  {
  }

  /** The reason for a refusal. */
  lemma RefusedExactly(p: Pool, block: Block, cfg: Config)
    ensures var v := Validated(p, block, false, cfg).1;
      && (v == OldBlock <==> block.hash in p.cache || block.height <= p.latestValidHeight)
      && (v == DuplicateBlock <==> block.hash !in p.cache && p.latestValidHeight < block.height && block.height in p.pendingPool)
      && (v == MaxPoolSize <==> (block.hash !in p.cache && p.latestValidHeight < block.height && block.height !in p.pendingPool
        && |p.pendingPool| >= cfg.maxPendingBlock))
  {
  }

  /** A block more than two below the valid ones is noted as conflicting, and nothing else is. */
  lemma ConflictsNoted(p: Pool, block: Block, isPending: bool, cfg: Config)
    ensures Validated(p, block, isPending, cfg).0.conflictedPool ==
      if block.hash !in p.cache && block.height + 2 < p.latestValidHeight then p.conflictedPool[block.hash := block]
      else p.conflictedPool
  {
    assert NoRepeats([block.hash]);
  }

  ghost predicate Holds(p: Pool, block: Block)
  {
    block in p.validPool || (block.height in p.pendingPool && p.pendingPool[block.height] == block)
  }

  /** The block behind it is there and names another one as its predecessor: the new block is on a fork. */
  ghost predicate OnFork(p: Pool, block: Block)
  {
    block.height + 1 in p.pendingPool && p.pendingPool[block.height + 1].prevBlockHash != block.hash
  }

  /** Promotion moves blocks and neither loses nor invents one. */
  lemma {:induction false} PromotionMoves(p: Pool, cfg: Config, best: nat, b: Block)
    requires Inv(p, best, cfg)
    ensures Holds(Promoted(p, cfg), b) <==> Holds(p, b)
    decreases |p.pendingPool|
  {
    if Goes(p, cfg) {
      var r := After(p, cfg);
      AfterKeeps(p, best, cfg);
      assert p.pendingPool[p.latestValidHeight + 1].height == p.latestValidHeight + 1;
      PromotionMoves(r, cfg, best, b);
      MovedOver(p, r, p.pendingPool[p.latestValidHeight + 1], b);
      PromotedFollows(p, cfg);
    } else {
      StopsKeeps(p, best, cfg);
    }
  }

  lemma MovedOver(p: Pool, r: Pool, block: Block, b: Block)
    requires block.height in p.pendingPool && p.pendingPool[block.height] == block
    requires r.validPool == p.validPool + [block] && r.pendingPool == p.pendingPool - {block.height}
    ensures Holds(r, b) <==> Holds(p, b)
  {
  }

  /** A block judged fine is afterwards in the valid or the pending pool, unless it is the next one and on a fork: then it is
      dropped and its hash kept. Every other block stays where the pools had it, or moves from pending to valid. */
  lemma FineIsHeld(p: Pool, block: Block, best: nat, cfg: Config)
    requires Inv(p, best, cfg) && Added(p, block, cfg).1 == Fine && |p.validPool| < cfg.maxValidBlock
    ensures var q := Added(p, block, cfg).0;
      var dropped := block.height == p.latestValidHeight + 1 && OnFork(p, block);
      && (Holds(q, block) <==> !dropped || block in p.validPool)
      && forall b | b != block :: Holds(q, b) <==> Holds(p, b)
  {
    ValidatedKeeps(p, block, false, best, cfg);
    var (checked, verdict) := Validated(p, block, false, cfg);
    InsertedKeeps(checked, block, best, cfg);
    var q := Inserted(checked, block, cfg).0;
    forall b ensures Holds(Added(p, block, cfg).0, b) <==> Holds(q, b) { PromotionMoves(q, cfg, best, b); }
  }

  /** A block that is dropped for being on a fork changes nothing else, and its hash refuses every block that has it from then on. */
  lemma ForkIsRemembered(p: Pool, block: Block, best: nat, cfg: Config, again: Block)
    requires Inv(p, best, cfg) && Added(p, block, cfg).1 == Fine && |p.validPool| < cfg.maxValidBlock
    requires block.height == p.latestValidHeight + 1 && OnFork(p, block)
    ensures var q := Added(p, block, cfg).0;
      q == p.(cache := q.cache) && block.hash in q.cache && (again.hash == block.hash ==> Added(q, again, cfg).1 == OldBlock)
  {
    CacheStaysSmall(p.cache, block.hash, cfg.cacheSize);
  }

  /** With a full valid pool the next block waits, too. */
  lemma FineIsHeldWhenFull(p: Pool, block: Block, best: nat, cfg: Config)
    requires Inv(p, best, cfg) && Added(p, block, cfg).1 == Fine && |p.validPool| >= cfg.maxValidBlock
    ensures Holds(Added(p, block, cfg).0, block) && forall b | b != block :: Holds(Added(p, block, cfg).0, b) <==> Holds(p, b)
  {
    ValidatedKeeps(p, block, false, best, cfg);
    var (checked, verdict) := Validated(p, block, false, cfg);
    InsertedKeeps(checked, block, best, cfg);
    var q := Inserted(checked, block, cfg).0;
    forall b ensures Holds(Added(p, block, cfg).0, b) <==> Holds(q, b) { PromotionMoves(q, cfg, best, b); }
  }

  /** Removing keeps exactly the valid blocks above the height, in order. */
  lemma {:induction false} RemovedExactly(blocks: seq<Block>, best: nat, latest: nat, height: nat)
    requires Linked(blocks, best, latest)
    ensures DropUpTo(blocks, height) == Those(blocks, (b: Block) => b.height > height)
    decreases |blocks|
  {
    if blocks != [] {
      var rest := blocks[1..];
      assert forall i | 0 <= i < |rest| :: rest[i] == blocks[i + 1];
      RemovedExactly(rest, best + 1, latest, height);
      if blocks[0].height > height { assert DropUpTo(rest, height) == rest; }
    }
  }

  /** Cleaning keeps the waiting blocks above the height and, once it is 2, the conflicting ones at most two below it. */
  lemma CleanedExactly(p: Pool, height: nat)
    requires height < TWO64
    ensures var q := Cleaned(p, height);
      && (forall h :: h in q.pendingPool <==> h in p.pendingPool && height < h)
      && (forall h | h in q.pendingPool :: q.pendingPool[h] == p.pendingPool[h])
      && (height >= 2 ==> forall k :: k in q.conflictedPool <==> k in p.conflictedPool && height <= p.conflictedPool[k].height + 2)
      && (height < 2 ==> forall k | k in q.conflictedPool :: p.conflictedPool[k].height >= TWO64 - 2)
      && (forall k | k in q.conflictedPool :: q.conflictedPool[k] == p.conflictedPool[k])
      && q.validPool == p.validPool && q.latestValidHeight == p.latestValidHeight
  {
  }

  lemma {:induction false} DropUpToLinked(blocks: seq<Block>, best: nat, latest: nat, height: nat)
    requires Linked(blocks, best, latest) && best <= height
    ensures Linked(DropUpTo(blocks, height), if height <= latest then height else latest, latest)
    ensures height >= latest ==> DropUpTo(blocks, height) == []
    ensures DropUpTo(blocks, height) != [] ==>
      blocks != [] && DropUpTo(blocks, height)[|DropUpTo(blocks, height)| - 1] == blocks[|blocks| - 1]
    decreases |blocks|
  {
    if blocks != [] && blocks[0].height <= height {
      var rest := blocks[1..];
      assert forall i | 0 <= i < |rest| :: rest[i] == blocks[i + 1];
      DropUpToLinked(rest, best + 1, latest, height);
    }
  }

  /** Moving to a higher best height, as one step: the state is set and the old blocks are removed. */
  lemma AdvanceKeeps(p: Pool, best: nat, best': nat, cfg: Config)
    requires Inv(p, best, cfg) && best <= best'
    ensures Inv(Removed(StateSet(p, best'), best', best'), best', cfg)
  {
    DropUpToLinked(p.validPool, best, p.latestValidHeight, best');
  }

  /** Removing alone moves on, too, and setting the state to a height the pool is past changes nothing. */
  lemma RemovedKeeps(p: Pool, best: nat, best': nat, cfg: Config)
    requires Inv(p, best, cfg) && best <= best'
    ensures Inv(Removed(p, best', best'), best', cfg)
    ensures best' <= p.latestValidHeight ==> StateSet(p, best') == p
  {
    DropUpToLinked(p.validPool, best, p.latestValidHeight, best');
  }

  lemma CleanedKeeps(p: Pool, best: nat, cfg: Config)
    requires Inv(p, best, cfg)
    ensures Inv(Cleaned(p, best), best, cfg)
  {
    var m := Cleaned(p, best).pendingPool;
    FewerEntries(m, p.pendingPool);
  }

  lemma FewerEntries(m: map<nat, Block>, n: map<nat, Block>)
    requires m.Keys <= n.Keys
    ensures |m| <= |n|
  {
    FewerKeys(m.Keys, n.Keys);
    assert |m.Keys| == |m| && |n.Keys| == |n|;
  }

  lemma {:induction false} FewerKeys(a: set<nat>, b: set<nat>)
    requires a <= b
    ensures |a| <= |b|
  {
    assert b == a + (b - a);
  }

  // ---------- Runs ----------

  datatype Op = AddBlock(block: Block) | Promote | Advance(best: nat) | RemoveOld | Clean

  datatype World = World(pool: Pool, best: nat)

  function Step(w: World, op: Op, cfg: Config): World
  {
    match op
    case AddBlock(block) => w.(pool := Added(w.pool, block, cfg).0)
    case Promote => w.(pool := Promoted(w.pool, cfg))
    case Advance(best) => if best < w.best then w else World(Removed(StateSet(w.pool, best), best, best), best)
    case RemoveOld => w.(pool := Removed(w.pool, w.best, w.best))
    case Clean => w.(pool := Cleaned(w.pool, w.best))
  }

  function Run(w: World, ops: seq<Op>, cfg: Config): World
    decreases |ops|
  {
    if ops == [] then w else Run(Step(w, ops[0], cfg), ops[1..], cfg)
  }

  lemma StepKeeps(w: World, op: Op, cfg: Config)
    requires Inv(w.pool, w.best, cfg)
    ensures var w' := Step(w, op, cfg); Inv(w'.pool, w'.best, cfg) && w.best <= w'.best
  {
    match op
    case AddBlock(block) => AddedKeeps(w.pool, block, w.best, cfg);
    case Promote => PromotedKeeps(w.pool, w.best, cfg);
    case Advance(best) => if best >= w.best { AdvanceKeeps(w.pool, w.best, best, cfg); }
    case RemoveOld => DropUpToLinked(w.pool.validPool, w.best, w.pool.latestValidHeight, w.best);
    case Clean => CleanedKeeps(w.pool, w.best, cfg);
  }

  /** In every reachable state the valid pool is the hash-linked run right behind the best block, anchored in the pending pool. */
  lemma {:induction false} RunKeeps(w: World, ops: seq<Op>, cfg: Config)
    requires Inv(w.pool, w.best, cfg)
    ensures var w' := Run(w, ops, cfg); Inv(w'.pool, w'.best, cfg) && w.best <= w'.best
    decreases |ops|
  {
    if ops != [] {
      StepKeeps(w, ops[0], cfg);
      RunKeeps(Step(w, ops[0], cfg), ops[1..], cfg);
    }
  }

  // ---------- The pool ----------

  class BeaconPool {
    var validPool: seq<Block>
    var pendingPool: map<nat, Block>
    var conflictedPool: map<Hash, Block>
    var latestValidHeight: nat
    var cache: seq<Hash>
    const config: Config

    function State(): Pool
      reads this
    {
      Pool(validPool, pendingPool, conflictedPool, latestValidHeight, cache)
    }

    constructor ()
      ensures State() == Pool([], map[], map[], 1, [])
      ensures config == Config(MAX_VALID_BEACON_BLK_IN_POOL, MAX_PENDING_BEACON_BLK_IN_POOL, BEACON_CACHE_SIZE)
      ensures Inv(State(), 1, config)
    {
      config := Config(MAX_VALID_BEACON_BLK_IN_POOL, MAX_PENDING_BEACON_BLK_IN_POOL, BEACON_CACHE_SIZE);
      validPool, pendingPool, conflictedPool, latestValidHeight, cache := [], map[], map[], 1, [];
    }

    method SetBeaconState(latestBeaconHeight: nat)
      modifies this`latestValidHeight
      ensures State() == StateSet(old(State()), latestBeaconHeight)
    {
      if latestValidHeight < latestBeaconHeight { latestValidHeight := latestBeaconHeight; }
    }

    method ValidateBeaconBlock(block: Block, isPending: bool) returns (r: Verdict)
      modifies this`cache, this`conflictedPool
      ensures (State(), r) == Validated(old(State()), block, isPending, config)
    {
      cache := Touched(cache, block.hash);
      CacheKeepsMembers(old(cache), block.hash);
      if block.hash in cache { return OldBlock; }
      if block.height <= latestValidHeight {
        if latestValidHeight - block.height > 2 {
          conflictedPool := conflictedPool[block.hash := block];
        }
        return OldBlock;
      }
      if !isPending {
        if block.height in pendingPool { return DuplicateBlock; }
        if block.height > latestValidHeight {
          if |pendingPool| >= config.maxPendingBlock { return MaxPoolSize; }
        }
      }
      if latestValidHeight + 1 == block.height {
        if |validPool| >= config.maxValidBlock && |pendingPool| >= config.maxPendingBlock { return MaxPoolSize; }
      }
      r := Fine;
    }

    lemma CacheKeepsMembers(c: seq<Hash>, hash: Hash)
      ensures hash in Touched(c, hash) <==> hash in c
    {
    }

    method InsertNewBeaconBlockToPool(block: Block) returns (success: bool)
      modifies this`validPool, this`pendingPool, this`latestValidHeight, this`cache
      ensures (State(), success) == Inserted(old(State()), block, config)
    {
      if block.height == latestValidHeight + 1 {
        if |validPool| < config.maxValidBlock {
          var nextHeight := block.height + 1;
          if nextHeight in pendingPool {
            if pendingPool[nextHeight].prevBlockHash == block.hash {
              validPool := validPool + [block];
              latestValidHeight := validPool[|validPool| - 1].height;
              return true;
            } else {
              cache := Cached(cache, block.hash, config.cacheSize);
            }
          } else {
            pendingPool := pendingPool[block.height := block];
          }
        } else if |pendingPool| < config.maxPendingBlock {
          pendingPool := pendingPool[block.height := block];
          return false;
        }
      } else {
        pendingPool := pendingPool[block.height := block];
        return false;
      }
      return false;
    }

    method PromotePendingPool()
      modifies this
      ensures State() == Promoted(old(State()), config)
    {
      while true
        invariant Promoted(State(), config) == Promoted(old(State()), config)
        decreases |pendingPool|
      {
        var nextHeight := latestValidHeight + 1;
        if nextHeight !in pendingPool { break; }
        var block := pendingPool[nextHeight];
        var verdict := ValidateBeaconBlock(block, true);
        if verdict != Fine { break; }
        var isSuccess := InsertNewBeaconBlockToPool(block);
        if !isSuccess { break; }
        SmallerWithout(pendingPool, nextHeight);
        pendingPool := pendingPool - {nextHeight};
      }
    }

    method AddBeaconBlock(block: Block) returns (r: Verdict)
      modifies this
      ensures (State(), r) == Added(old(State()), block, config)
    {
      r := ValidateBeaconBlock(block, false);
      if r != Fine { return; }
      var success := InsertNewBeaconBlockToPool(block);
      PromotePendingPool();
    }

    method RemoveBlock(latestBlockHeight: nat, best: nat)
      modifies this`validPool, this`latestValidHeight
      ensures State() == Removed(old(State()), latestBlockHeight, best)
    {
      var index := 0;
      while index < |validPool| && validPool[index].height <= latestBlockHeight
        invariant index <= |validPool| && validPool == old(validPool)
        invariant DropUpTo(validPool[index..], latestBlockHeight) == DropUpTo(validPool, latestBlockHeight)
      {
        assert validPool[index..][1..] == validPool[index + 1..];
        index := index + 1;
      }
      validPool := validPool[index..];
      latestValidHeight := if |validPool| > 0 then validPool[|validPool| - 1].height else best;
    }

    method CleanOldBlock(latestBlockHeight: nat)
      modifies this`pendingPool, this`conflictedPool
      ensures State() == Cleaned(old(State()), latestBlockHeight)
    {
      var toBeRemovedHeight := set h | h in pendingPool && h <= latestBlockHeight;
      var toBeRemovedHash := set h | h in conflictedPool && conflictedPool[h].height < TwoBelow(latestBlockHeight);
      pendingPool := pendingPool - toBeRemovedHeight;
      conflictedPool := conflictedPool - toBeRemovedHash;
    }
  }
}
