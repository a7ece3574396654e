/** What a shard block sends to another shard, and the Merkle root in its header that binds it. */
module CrossShardContent {
  import opened Codec
  import opened Lists
  import opened Merkle

  const MAX_SHARD_NUMBER := 2

  /** A coin for the shard that the last byte of its public key names. */
  datatype Coin = Coin(lastByte: byte, bytes: seq<byte>)

  datatype Vout = Vout(lastByte: byte, content: nat)

  /** `info` stands for name, symbol, mintability and amount. */
  datatype Token = Token(propertyID: nat, info: nat, vouts: seq<Vout>)

  datatype PrivacyToken = PrivacyToken(propertyID: nat, info: nat, coins: seq<Coin>)

  datatype Kind = Normal | Reward | ReturnStaking | CustomToken | CustomTokenPrivacy

  /** `proof` and `tokenProof` are the output coins of the proofs that are there. */
  datatype Tx = Tx(kind: Kind, proof: Option<seq<Coin>>, token: Token, privacy: PrivacyToken, tokenProof: Option<seq<Coin>>)

  /** The hash function, and the hashes of token entries. */
  datatype Hashing = Hashing(hash: seq<byte> -> Hash, token: Token -> Hash, privacy: PrivacyToken -> Hash)

  function ShardOf(lastByte: byte): nat
  {
    lastByte as nat % MAX_SHARD_NUMBER
  }

  // ---------- Grouping ----------

  function CoinsTo(coins: seq<Coin>, s: nat): seq<Coin>
  {
    if coins == [] then []
    else
      var last := |coins| - 1;
      CoinsTo(coins[..last], s) + if ShardOf(coins[last].lastByte) == s then [coins[last]] else []
  }

  function Outputs(proof: Option<seq<Coin>>): seq<Coin>
  {
    match proof
    case None => []
    case Some(coins) => coins
  }

  /** The coins for shard `s`. The header's hash leaves out what return-staking transactions send. */
  function Coins(txs: seq<Tx>, s: nat, forHash: bool): seq<Coin>
  {
    if txs == [] then []
    else
      var last := |txs| - 1;
      Coins(txs[..last], s, forHash)
      + if forHash && txs[last].kind == ReturnStaking then [] else CoinsTo(Outputs(txs[last].proof), s)
  }

  function AddVout(m: map<nat, Token>, token: Token, vout: Vout): map<nat, Token>
  {
    var sofar := if token.propertyID in m then m[token.propertyID] else token.(vouts := []);
    m[token.propertyID := sofar.(vouts := sofar.vouts + [vout])]
  }

  function AddVouts(m: map<nat, Token>, token: Token, vouts: seq<Vout>, s: nat): map<nat, Token>
  {
    if vouts == [] then m
    else
      var last := |vouts| - 1;
      var before := AddVouts(m, token, vouts[..last], s);
      if ShardOf(vouts[last].lastByte) == s then AddVout(before, token, vouts[last]) else before
  }

  /** The token outputs for shard `s`, one entry for a token; its name and amount are those of the first transaction. */
  function Tokens(txs: seq<Tx>, s: nat): map<nat, Token>
  {
    if txs == [] then map[]
    else
      var last := |txs| - 1;
      var before := Tokens(txs[..last], s);
      if txs[last].kind == CustomToken then AddVouts(before, txs[last].token, txs[last].token.vouts, s) else before
  }

  function AddCoin(m: map<nat, PrivacyToken>, token: PrivacyToken, coin: Coin): map<nat, PrivacyToken>
  {
    var sofar := if token.propertyID in m then m[token.propertyID] else token.(coins := []);
    m[token.propertyID := sofar.(coins := sofar.coins + [coin])]
  }

  function AddCoins(m: map<nat, PrivacyToken>, token: PrivacyToken, coins: seq<Coin>, s: nat): map<nat, PrivacyToken>
  {
    if coins == [] then m
    else
      var last := |coins| - 1;
      var before := AddCoins(m, token, coins[..last], s);
      if ShardOf(coins[last].lastByte) == s then AddCoin(before, token, coins[last]) else before
  }

  function Privacy(txs: seq<Tx>, s: nat): map<nat, PrivacyToken>
  {
    if txs == [] then map[]
    else
      var last := |txs| - 1;
      var before := Privacy(txs[..last], s);
      if txs[last].kind == CustomTokenPrivacy then AddCoins(before, txs[last].privacy, Outputs(txs[last].tokenProof), s) else before
  }

  // ---------- What the groups hold ----------

  /** Whom an output is for: the last byte of the receiver's key decides. */
  function CoinFor(s: nat): Coin -> bool
  {
    (c: Coin) => c.lastByte as nat % MAX_SHARD_NUMBER == s
  }

  function VoutFor(s: nat): Vout -> bool
  {
    (v: Vout) => v.lastByte as nat % MAX_SHARD_NUMBER == s
  }

  /** What each transaction has of something, one after the other. */
  function Flat<T>(txs: seq<Tx>, of: Tx -> seq<T>): seq<T>
  {
    if txs == [] then [] else of(txs[0]) + Flat(txs[1..], of)
  }

  lemma {:induction false} FlatOneMore<T>(txs: seq<Tx>, last: Tx, of: Tx -> seq<T>)
    ensures Flat(txs + [last], of) == Flat(txs, of) + of(last)
  {
    if txs == [] {
      assert [] + [last] == [last] && [last][1..] == [];
      assert Flat([last], of) == of(last) + [] == [] + of(last);
    } else {
      assert (txs + [last])[1..] == txs[1..] + [last] && (txs + [last])[0] == txs[0];
      FlatOneMore(txs[1..], last, of);
      Regroup(of(txs[0]), Flat(txs[1..], of), of(last));
    }
  }

  /** The output coins of a transaction; the header's hash leaves out those of a return-staking one. */
  function SentCoins(forHash: bool): Tx -> seq<Coin>
  {
    (tx: Tx) => if tx.proof.None? || (forHash && tx.kind == ReturnStaking) then [] else tx.proof.value
  }

  function TokenOutputs(p: nat): Tx -> seq<Vout>
  {
    (tx: Tx) => if tx.kind == CustomToken && tx.token.propertyID == p then tx.token.vouts else []
  }

  function PrivacyOutputs(p: nat): Tx -> seq<Coin>
  {
    (tx: Tx) => if tx.kind == CustomTokenPrivacy && tx.privacy.propertyID == p && tx.tokenProof.Some? then tx.tokenProof.value else []
  }

  lemma ThoseOfFlat<T>(txs: seq<Tx>, last: Tx, of: Tx -> seq<T>, keep: T -> bool)
    ensures Those(Flat(txs + [last], of), keep) == Those(Flat(txs, of), keep) + Those(of(last), keep)
  {
    FlatOneMore(txs, last, of);
    ThoseJoin(Flat(txs, of), of(last), keep);
  }

  lemma {:induction false} CoinsToAre(coins: seq<Coin>, s: nat)
    ensures CoinsTo(coins, s) == Those(coins, CoinFor(s))
  {
    if coins != [] {
      var last := |coins| - 1;
      CoinsToAre(coins[..last], s);
      ThoseOneMore(coins[..last], coins[last], CoinFor(s));
      assert coins == coins[..last] + [coins[last]];
    }
  }

  /** The coins for a shard are exactly those of all outputs that are for it, in order. */
  lemma {:induction false} CoinsAre(txs: seq<Tx>, s: nat, forHash: bool)
    ensures Coins(txs, s, forHash) == Those(Flat(txs, SentCoins(forHash)), CoinFor(s))
  {
    if txs != [] {
      var last := |txs| - 1;
      CoinsAre(txs[..last], s, forHash);
      assert txs == txs[..last] + [txs[last]];
      ThoseOfFlat(txs[..last], txs[last], SentCoins(forHash), CoinFor(s));
      CoinsToAre(Outputs(txs[last].proof), s);
    }
  }

  /** The outputs that a map of entries holds of one token; none when it has no entry. */
  function VoutsIn(m: map<nat, Token>, p: nat): seq<Vout>
  {
    if p in m then m[p].vouts else []
  }

  function CoinsIn(m: map<nat, PrivacyToken>, p: nat): seq<Coin>
  {
    if p in m then m[p].coins else []
  }

  /** Entries with outputs, each of its own token. */
  ghost predicate Entered(m: map<nat, Token>)
  {
    forall p | p in m :: m[p].propertyID == p && m[p].vouts != []
  }

  ghost predicate PrivacyEntered(m: map<nat, PrivacyToken>)
  {
    forall p | p in m :: m[p].propertyID == p && m[p].coins != []
  }

  lemma {:induction false} VoutsAdded(m: map<nat, Token>, token: Token, vouts: seq<Vout>, s: nat, p: nat)
    requires Entered(m)
    ensures Entered(AddVouts(m, token, vouts, s))
    ensures VoutsIn(AddVouts(m, token, vouts, s), p) ==
      VoutsIn(m, p) + if p == token.propertyID then Those(vouts, VoutFor(s)) else []
  {
    if vouts != [] {
      var last := |vouts| - 1;
      var before := AddVouts(m, token, vouts[..last], s);
      VoutsAdded(m, token, vouts[..last], s, p);
      VoutAdded(before, token, vouts[last], p);
      ThoseOneMore(vouts[..last], vouts[last], VoutFor(s));
      assert vouts == vouts[..last] + [vouts[last]];
    }
  }

  lemma VoutAdded(m: map<nat, Token>, token: Token, vout: Vout, p: nat)
    requires Entered(m)
    ensures Entered(AddVout(m, token, vout))
    ensures VoutsIn(AddVout(m, token, vout), p) == VoutsIn(m, p) + if p == token.propertyID then [vout] else []
  {
  }

  lemma {:induction false} CoinsAdded(m: map<nat, PrivacyToken>, token: PrivacyToken, coins: seq<Coin>, s: nat, p: nat)
    requires PrivacyEntered(m)
    ensures PrivacyEntered(AddCoins(m, token, coins, s))
    ensures CoinsIn(AddCoins(m, token, coins, s), p) ==
      CoinsIn(m, p) + if p == token.propertyID then Those(coins, CoinFor(s)) else []
  {
    if coins != [] {
      var last := |coins| - 1;
      var before := AddCoins(m, token, coins[..last], s);
      CoinsAdded(m, token, coins[..last], s, p);
      CoinAdded(before, token, coins[last], p);
      ThoseOneMore(coins[..last], coins[last], CoinFor(s));
      assert coins == coins[..last] + [coins[last]];
    }
  }

  lemma CoinAdded(m: map<nat, PrivacyToken>, token: PrivacyToken, coin: Coin, p: nat)
    requires PrivacyEntered(m)
    ensures PrivacyEntered(AddCoin(m, token, coin))
    ensures CoinsIn(AddCoin(m, token, coin), p) == CoinsIn(m, p) + if p == token.propertyID then [coin] else []
  {
  }

  /** A token has an entry exactly when one of its outputs is for the shard; the entry holds all of these, in order. */
  lemma {:induction false} TokensAre(txs: seq<Tx>, s: nat, p: nat)
    ensures Entered(Tokens(txs, s)) && VoutsIn(Tokens(txs, s), p) == Those(Flat(txs, TokenOutputs(p)), VoutFor(s))
    ensures p in Tokens(txs, s) <==> Those(Flat(txs, TokenOutputs(p)), VoutFor(s)) != []
  {
    if txs != [] {
      var last := |txs| - 1;
      var tx := txs[last];
      TokensAre(txs[..last], s, p);
      assert txs == txs[..last] + [tx];
      ThoseOfFlat(txs[..last], tx, TokenOutputs(p), VoutFor(s));
      if tx.kind == CustomToken { VoutsAdded(Tokens(txs[..last], s), tx.token, tx.token.vouts, s, p); }
    }
  }

  lemma {:induction false} PrivacyAre(txs: seq<Tx>, s: nat, p: nat)
    ensures PrivacyEntered(Privacy(txs, s)) && CoinsIn(Privacy(txs, s), p) == Those(Flat(txs, PrivacyOutputs(p)), CoinFor(s))
    ensures p in Privacy(txs, s) <==> Those(Flat(txs, PrivacyOutputs(p)), CoinFor(s)) != []
  {
    if txs != [] {
      var last := |txs| - 1;
      var tx := txs[last];
      PrivacyAre(txs[..last], s, p);
      assert txs == txs[..last] + [tx];
      ThoseOfFlat(txs[..last], tx, PrivacyOutputs(p), CoinFor(s));
      if tx.kind == CustomTokenPrivacy { CoinsAdded(Privacy(txs[..last], s), tx.privacy, Outputs(tx.tokenProof), s, p); }
    }
  }

  /** The first transaction with an output of the token for the shard. */
  ghost predicate FirstFor(txs: seq<Tx>, s: nat, p: nat, i: nat)
  {
    && i < |txs| && Those(TokenOutputs(p)(txs[i]), VoutFor(s)) != []
    && forall j | 0 <= j < i :: Those(TokenOutputs(p)(txs[j]), VoutFor(s)) == []
  }

  ghost predicate FirstPrivacyFor(txs: seq<Tx>, s: nat, p: nat, i: nat)
  {
    && i < |txs| && Those(PrivacyOutputs(p)(txs[i]), CoinFor(s)) != []
    && forall j | 0 <= j < i :: Those(PrivacyOutputs(p)(txs[j]), CoinFor(s)) == []
  }

  lemma {:induction false} InfoAdded(m: map<nat, Token>, token: Token, vouts: seq<Vout>, s: nat, p: nat)
    ensures p in m ==> p in AddVouts(m, token, vouts, s)
    ensures p in AddVouts(m, token, vouts, s) ==>
      AddVouts(m, token, vouts, s)[p].info == (if p in m then m[p].info else token.info) && (p in m || p == token.propertyID)
  {
    if vouts != [] { InfoAdded(m, token, vouts[..|vouts| - 1], s, p); }
  }

  lemma {:induction false} PrivacyInfoAdded(m: map<nat, PrivacyToken>, token: PrivacyToken, coins: seq<Coin>, s: nat, p: nat)
    ensures p in m ==> p in AddCoins(m, token, coins, s)
    ensures p in AddCoins(m, token, coins, s) ==>
      AddCoins(m, token, coins, s)[p].info == (if p in m then m[p].info else token.info) && (p in m || p == token.propertyID)
  {
    if coins != [] { PrivacyInfoAdded(m, token, coins[..|coins| - 1], s, p); }
  }

  /** An entry's name and amount are those of the first transaction with an output of the token for the shard. */
  lemma {:induction false} InfoIsOfFirst(txs: seq<Tx>, s: nat, p: nat) returns (i: nat)
    requires p in Tokens(txs, s)
    ensures FirstFor(txs, s, p, i) && Tokens(txs, s)[p].info == txs[i].token.info
    decreases |txs|
  {
    var last := |txs| - 1;
    var before, tx := txs[..last], txs[last];
    assert txs == before + [tx];
    if tx.kind == CustomToken { InfoAdded(Tokens(before, s), tx.token, tx.token.vouts, s, p); }
    if p in Tokens(before, s) {
      i := InfoIsOfFirst(before, s, p);
    } else {
      i := last;
      TokensAre(before, s, p);
      TokensAre(txs, s, p);
      ThoseOfFlat(before, tx, TokenOutputs(p), VoutFor(s));
      forall j | 0 <= j < i ensures Those(TokenOutputs(p)(txs[j]), VoutFor(s)) == [] {
        PartOfFlat(before, j, TokenOutputs(p), VoutFor(s));
      }
    }
  }

  lemma {:induction false} PrivacyInfoIsOfFirst(txs: seq<Tx>, s: nat, p: nat) returns (i: nat)
    requires p in Privacy(txs, s)
    ensures FirstPrivacyFor(txs, s, p, i) && Privacy(txs, s)[p].info == txs[i].privacy.info
    decreases |txs|
  {
    var last := |txs| - 1;
    var before, tx := txs[..last], txs[last];
    assert txs == before + [tx];
    if tx.kind == CustomTokenPrivacy { PrivacyInfoAdded(Privacy(before, s), tx.privacy, Outputs(tx.tokenProof), s, p); }
    if p in Privacy(before, s) {
      i := PrivacyInfoIsOfFirst(before, s, p);
    } else {
      i := last;
      PrivacyAre(before, s, p);
      PrivacyAre(txs, s, p);
      ThoseOfFlat(before, tx, PrivacyOutputs(p), CoinFor(s));
      forall j | 0 <= j < i ensures Those(PrivacyOutputs(p)(txs[j]), CoinFor(s)) == [] {
        PartOfFlat(before, j, PrivacyOutputs(p), CoinFor(s));
      }
    }
  }

  lemma {:induction false} PartOfFlat<T>(txs: seq<Tx>, j: nat, of: Tx -> seq<T>, keep: T -> bool)
    requires j < |txs| && Those(Flat(txs, of), keep) == []
    ensures Those(of(txs[j]), keep) == []
  {
    ThoseJoin(of(txs[0]), Flat(txs[1..], of), keep);
    if j > 0 { PartOfFlat(txs[1..], j - 1, of, keep); }
  }

  // ---------- Lists from maps ----------

  lemma {:induction false} HasLeast(keys: set<nat>)
    requires keys != {}
    ensures exists k :: k in keys && forall j | j in keys :: k <= j
  {
    var x :| x in keys;
    var rest := keys - {x};
    assert keys == rest + {x};
    if rest == {} {
      assert forall j | j in keys :: x <= j;
    } else {
      HasLeast(rest);
      var y :| y in rest && forall j | j in rest :: y <= j;
      LeastWithOneMore(rest, x, y);
    }
  }

  lemma LeastWithOneMore(rest: set<nat>, x: nat, y: nat)
    requires y in rest && forall j | j in rest :: y <= j
    ensures exists k :: k in rest + {x} && forall j | j in rest + {x} :: k <= j
  {
    var least := if x <= y then x else y;
    assert least in rest + {x} && forall j | j in rest + {x} :: least <= j;
  }

  function Least(keys: set<nat>): (k: nat)
    requires keys != {}
    ensures k in keys && forall j | j in keys :: k <= j
  {
    HasLeast(keys);
    var k :| k in keys && forall j | j in keys :: k <= j;
    k
  }

  function Ascending(keys: set<nat>): seq<nat>
  {
    if keys == {} then [] else [Least(keys)] + Ascending(keys - {Least(keys)})
  }

  /** The values of a map in the order of their property IDs. */
  function ListOf<V>(m: map<nat, V>): seq<V>
  {
    AscendingMembers(m.Keys);
    var ids := Ascending(m.Keys);
    seq(|ids|, i requires 0 <= i < |ids| => m[ids[i]])
  }

  /** The list has exactly the entries of the map, in ascending order of their property IDs. */
  lemma TokensInOrder(txs: seq<Tx>, s: nat)
    ensures var m, list := Tokens(txs, s), ListOf(Tokens(txs, s));
      && (forall i, j | 0 <= i < j < |list| :: list[i].propertyID < list[j].propertyID)
      && (forall t :: t in list <==> t.propertyID in m && m[t.propertyID] == t)
  {
    var m := Tokens(txs, s);
    TokensAre(txs, s, 0);
    EachOnce(m);
    forall t: Token | t.propertyID in m && m[t.propertyID] == t ensures t in ListOf(m) { HasEntry(m, t.propertyID); }
  }

  lemma PrivacyInOrder(txs: seq<Tx>, s: nat)
    ensures var m, list := Privacy(txs, s), ListOf(Privacy(txs, s));
      && (forall i, j | 0 <= i < j < |list| :: list[i].propertyID < list[j].propertyID)
      && (forall t :: t in list <==> t.propertyID in m && m[t.propertyID] == t)
  {
    var m := Privacy(txs, s);
    PrivacyAre(txs, s, 0);
    EachOnce(m);
    forall t: PrivacyToken | t.propertyID in m && m[t.propertyID] == t ensures t in ListOf(m) { HasEntry(m, t.propertyID); }
  }

  lemma EachOnce<V>(m: map<nat, V>)
    ensures var ids := Ascending(m.Keys);
      StrictlyAscending(ids) && |ListOf(m)| == |ids| && forall i | 0 <= i < |ids| :: ids[i] in m && ListOf(m)[i] == m[ids[i]]
  {
    AscendingMembers(m.Keys);
  }

  lemma HasEntry<V>(m: map<nat, V>, k: nat)
    requires k in m
    ensures m[k] in ListOf(m)
  {
    EachOnce(m);
    AscendingMembers(m.Keys);
    var ids := Ascending(m.Keys);
    var i :| 0 <= i < |ids| && ids[i] == k;
    assert ListOf(m)[i] == m[k];
  }

  ghost predicate StrictlyAscending(ids: seq<nat>)
  {
    forall i, j | 0 <= i < j < |ids| :: ids[i] < ids[j]
  }

  lemma {:induction false} AscendingMembers(keys: set<nat>)
    ensures StrictlyAscending(Ascending(keys))
    ensures forall k :: k in Ascending(keys) <==> k in keys
    ensures forall i | 0 <= i < |Ascending(keys)| :: Ascending(keys)[i] in keys
  {
    if keys != {} {
      var k := Least(keys);
      AscendingMembers(keys - {k});
      LeastInFront(k, Ascending(keys - {k}));
      assert keys == (keys - {k}) + {k};
    }
  }

  lemma LeastInFront(k: nat, rest: seq<nat>)
    requires StrictlyAscending(rest) && forall i | 0 <= i < |rest| :: k < rest[i]
    ensures StrictlyAscending([k] + rest) && forall x :: x in [k] + rest <==> x == k || x in rest
  {
  }

  lemma {:induction false} OneAscendingList(a: seq<nat>, b: seq<nat>)
    requires StrictlyAscending(a) && StrictlyAscending(b) && forall k :: k in a <==> k in b
    ensures a == b
  {
    assert |b| > 0 ==> b[0] in b;
    if a != [] {
      assert a[0] in b && b[0] in a;
      FirstIsLeast(a, b[0]);
      FirstIsLeast(b, a[0]);
      BehindFirst(a);
      BehindFirst(b);
      OneAscendingList(a[1..], b[1..]);
      assert a == [a[0]] + a[1..] && b == [b[0]] + b[1..];
    }
  }

  lemma FirstIsLeast(a: seq<nat>, k: nat)
    requires StrictlyAscending(a) && k in a
    ensures a[0] <= k
  {
    var i :| 0 <= i < |a| && a[i] == k;
    if i > 0 { assert a[0] < a[i]; }
  }

  lemma BehindFirst(a: seq<nat>)
    requires StrictlyAscending(a) && a != []
    ensures StrictlyAscending(a[1..]) && forall k :: k in a[1..] <==> k in a && k != a[0]
  {
    var rest := a[1..];
    assert forall i | 0 <= i < |rest| :: rest[i] == a[i + 1] && a[0] < a[i + 1];
    forall k | k in a && k != a[0] ensures k in rest {
      var i :| 0 <= i < |a| && a[i] == k;
      assert rest[i - 1] == k;
    }
  }

  function InsertID(ids: seq<nat>, id: nat): seq<nat>
  {
    if ids == [] then [id] else if id < ids[0] then [id] + ids else [ids[0]] + InsertID(ids[1..], id)
  }

  lemma {:induction false} InsertIDOrders(ids: seq<nat>, id: nat)
    requires StrictlyAscending(ids) && id !in ids
    ensures StrictlyAscending(InsertID(ids, id)) && forall k :: k in InsertID(ids, id) <==> k in ids || k == id
  {
    if ids != [] {
      var first, rest := ids[0], ids[1..];
      BehindFirst(ids);
      assert ids == [first] + rest;
      if id < first {
        forall i | 0 <= i < |ids| ensures id < ids[i] { FirstIsLeast(ids, ids[i]); }
        LeastInFront(id, ids);
      } else {
        InsertIDOrders(rest, id);
        var r := InsertID(rest, id);
        forall i | 0 <= i < |r| ensures first < r[i] {
          assert r[i] in r;
          if r[i] in rest { FirstIsLeast(ids, r[i]); }
        }
        LeastInFront(first, r);
      }
    }
  }

  /** Ranges over the map in any order and sorts by property ID. */
  method SortedValues<V>(m: map<nat, V>) returns (list: seq<V>)
    ensures list == ListOf(m)
  {
    var ids := [];
    var todo := m.Keys;
    while todo != {}
      invariant todo <= m.Keys && StrictlyAscending(ids)
      invariant forall k :: k in ids <==> k in m.Keys - todo
    {
      var id :| id in todo;
      InsertIDOrders(ids, id);
      ids := InsertID(ids, id);
      todo := todo - {id};
    }
    AscendingMembers(m.Keys);
    OneAscendingList(ids, Ascending(m.Keys));
    list := seq(|ids|, i requires 0 <= i < |ids| && ids[i] in m => m[ids[i]]);
  }

  // ---------- Hashes ----------

  function CoinBytes(coins: seq<Coin>): seq<byte>
  {
    if coins == [] then []
    else
      var last := |coins| - 1;
      CoinBytes(coins[..last]) + coins[last].bytes
  }

  function HashesBytes<V>(list: seq<V>, item: V -> Hash): seq<byte>
  {
    if list == [] then []
    else
      var last := |list| - 1;
      HashesBytes(list[..last], item) + item(list[last]).bytes
  }

  /** The three hashes that are hashed together. */
  function CombinedBytes(h: Hashing, coins: seq<Coin>, tokens: seq<Token>, privacy: seq<PrivacyToken>): seq<byte>
  {
    h.hash(CoinBytes(coins)).bytes
      + h.hash(HashesBytes(tokens, h.token)).bytes
      + h.hash(HashesBytes(privacy, h.privacy)).bytes
  }

  function Combined(h: Hashing, coins: seq<Coin>, tokens: seq<Token>, privacy: seq<PrivacyToken>): Hash
  {
    h.hash(CombinedBytes(h, coins, tokens, privacy))
  }

  /** What the header binds for shard `s`. */
  function LeafOf(h: Hashing, txs: seq<Tx>, s: nat): Hash
  {
    Combined(h, Coins(txs, s, true), ListOf(Tokens(txs, s)), ListOf(Privacy(txs, s)))
  }

  method CalHashOutCoinCrossShard(h: Hashing, outCoins: seq<Coin>) returns (r: Hash)
    ensures r == h.hash(CoinBytes(outCoins))
  {
    var tmpByte: seq<byte> := [];
    if |outCoins| != 0 {
      for i := 0 to |outCoins|
        invariant tmpByte == CoinBytes(outCoins[..i])
      {
        assert outCoins[..i + 1][..i] == outCoins[..i];
        tmpByte := tmpByte + outCoins[i].bytes;
      }
      assert outCoins[..|outCoins|] == outCoins;
      r := h.hash(tmpByte);
    } else {
      r := h.hash([]);
    }
  }

  method CalHashList<V>(h: Hashing, list: seq<V>, item: V -> Hash) returns (r: Hash)
    ensures r == h.hash(HashesBytes(list, item))
  {
    var tmpByte: seq<byte> := [];
    if |list| == 0 { return h.hash([]); }
    for i := 0 to |list|
      invariant tmpByte == HashesBytes(list[..i], item)
    {
      assert list[..i + 1][..i] == list[..i];
      tmpByte := tmpByte + item(list[i]).bytes;
    }
    assert list[..|list|] == list;
    r := h.hash(tmpByte);
  }

  method CalHashFromMap<V>(h: Hashing, m: map<nat, V>, item: V -> Hash) returns (r: Hash)
    ensures r == h.hash(HashesBytes(ListOf(m), item))
  {
    if |m| == 0 {
      assert m.Keys == {};
      return h.hash([]);
    }
    var list := SortedValues(m);
    r := CalHashList(h, list, item);
  }

  // ---------- Extraction for one shard ----------

  method GetCrossShardData(txList: seq<Tx>, shardID: nat)
    returns (coinList: seq<Coin>, tokenList: seq<Token>, privacyList: seq<PrivacyToken>)
    ensures coinList == Coins(txList, shardID, false)
    ensures tokenList == ListOf(Tokens(txList, shardID))
    ensures privacyList == ListOf(Privacy(txList, shardID))
  {
    coinList := [];
    var tokens: map<nat, Token>, privacy: map<nat, PrivacyToken> := map[], map[];
    for t := 0 to |txList|
      invariant coinList == Coins(txList[..t], shardID, false)
      invariant tokens == Tokens(txList[..t], shardID)
      invariant privacy == Privacy(txList[..t], shardID)
    {
      var tx := txList[t];
      assert txList[..t + 1][..t] == txList[..t];
      var own := PickCoins(Outputs(tx.proof), shardID);
      coinList := coinList + own;
      if tx.kind == CustomToken { tokens := PickVouts(tokens, tx.token, shardID); }
      if tx.kind == CustomTokenPrivacy { privacy := PickTokenCoins(privacy, tx.privacy, Outputs(tx.tokenProof), shardID); }
    }
    assert txList[..|txList|] == txList;
    tokenList := SortedValues(tokens);
    privacyList := SortedValues(privacy);
  }

  method PickCoins(coins: seq<Coin>, s: nat) returns (r: seq<Coin>)
    ensures r == CoinsTo(coins, s)
  {
    r := [];
    for i := 0 to |coins|
      invariant r == CoinsTo(coins[..i], s)
    {
      assert coins[..i + 1][..i] == coins[..i];
      if ShardOf(coins[i].lastByte) == s { r := r + [coins[i]]; }
    }
    assert coins[..|coins|] == coins;
  }

  method PickVouts(m: map<nat, Token>, token: Token, s: nat) returns (r: map<nat, Token>)
    ensures r == AddVouts(m, token, token.vouts, s)
  {
    r := m;
    var vouts := token.vouts;
    for i := 0 to |vouts|
      invariant r == AddVouts(m, token, vouts[..i], s)
    {
      assert vouts[..i + 1][..i] == vouts[..i];
      if ShardOf(vouts[i].lastByte) == s { r := AddVout(r, token, vouts[i]); }
    }
    assert vouts[..|vouts|] == vouts;
  }

  method PickTokenCoins(m: map<nat, PrivacyToken>, token: PrivacyToken, coins: seq<Coin>, s: nat) returns (r: map<nat, PrivacyToken>)
    ensures r == AddCoins(m, token, coins, s)
  {
    r := m;
    for i := 0 to |coins|
      invariant r == AddCoins(m, token, coins[..i], s)
    {
      assert coins[..i + 1][..i] == coins[..i];
      if ShardOf(coins[i].lastByte) == s { r := AddCoin(r, token, coins[i]); }
    }
    assert coins[..|coins|] == coins;
  }

  // ---------- Hashing for all shards ----------

  ghost predicate Grouped(coins: seq<seq<Coin>>, tokens: seq<map<nat, Token>>, privacy: seq<map<nat, PrivacyToken>>, txs: seq<Tx>)
  {
    && |coins| == |tokens| == |privacy| == MAX_SHARD_NUMBER
    && forall s | 0 <= s < MAX_SHARD_NUMBER ::
      coins[s] == Coins(txs, s, true) && tokens[s] == Tokens(txs, s) && privacy[s] == Privacy(txs, s)
  }

  method GetCrossShardDataHash(h: Hashing, txList: seq<Tx>) returns (combined: seq<Hash>)
    ensures |combined| == MAX_SHARD_NUMBER
    ensures forall s | 0 <= s < MAX_SHARD_NUMBER :: combined[s] == LeafOf(h, txList, s)
  {
    var coins: seq<seq<Coin>> := seq(MAX_SHARD_NUMBER, _ => []);
    var tokens: seq<map<nat, Token>> := seq(MAX_SHARD_NUMBER, _ => map[]);
    var privacy: seq<map<nat, PrivacyToken>> := seq(MAX_SHARD_NUMBER, _ => map[]);
    for t := 0 to |txList|
      invariant Grouped(coins, tokens, privacy, txList[..t])
    {
      coins, tokens, privacy := GroupOne(txList[t], coins, tokens, privacy, txList[..t]);
      assert txList[..t + 1] == txList[..t] + [txList[t]];
    }
    assert txList[..|txList|] == txList;
    combined := LeafHashes(h, coins, tokens, privacy, txList);
  }

  method LeafHashes(h: Hashing, coins: seq<seq<Coin>>, tokens: seq<map<nat, Token>>, privacy: seq<map<nat, PrivacyToken>>, ghost txs: seq<Tx>)
    returns (combined: seq<Hash>)
    requires Grouped(coins, tokens, privacy, txs)
    ensures |combined| == MAX_SHARD_NUMBER && forall s | 0 <= s < MAX_SHARD_NUMBER :: combined[s] == LeafOf(h, txs, s)
  {
    combined := [];
    for i := 0 to MAX_SHARD_NUMBER
      invariant |combined| == i && forall s | 0 <= s < i :: combined[s] == LeafOf(h, txs, s)
    {
      var leaf := LeafHash(h, coins[i], tokens[i], privacy[i]);
      combined := combined + [leaf];
    }
  }

  method LeafHash(h: Hashing, coins: seq<Coin>, tokens: map<nat, Token>, privacy: map<nat, PrivacyToken>) returns (leaf: Hash)
    ensures leaf == Combined(h, coins, ListOf(tokens), ListOf(privacy))
  {
    var outputCoinHash := CalHashOutCoinCrossShard(h, coins);
    var txTokenOutHash := CalHashFromMap(h, tokens, h.token);
    var txTokenPrivacyOutHash := CalHashFromMap(h, privacy, h.privacy);
    leaf := h.hash(outputCoinHash.bytes + txTokenOutHash.bytes + txTokenPrivacyOutHash.bytes);
  }

  method GroupOne(tx: Tx, coins: seq<seq<Coin>>, tokens: seq<map<nat, Token>>, privacy: seq<map<nat, PrivacyToken>>, ghost before: seq<Tx>)
    returns (coins': seq<seq<Coin>>, tokens': seq<map<nat, Token>>, privacy': seq<map<nat, PrivacyToken>>)
    requires Grouped(coins, tokens, privacy, before)
    ensures Grouped(coins', tokens', privacy', before + [tx])
  {
    coins', tokens', privacy' := coins, tokens, privacy;
    assert (before + [tx])[..|before|] == before;
    if tx.kind != ReturnStaking { coins' := GroupCoins(coins, Outputs(tx.proof)); }
    if tx.kind == CustomToken { tokens' := GroupVouts(tokens, tx.token); }
    if tx.kind == CustomTokenPrivacy { privacy' := GroupTokenCoins(privacy, tx.privacy, Outputs(tx.tokenProof)); }
  }

  method GroupCoins(groups: seq<seq<Coin>>, coins: seq<Coin>) returns (r: seq<seq<Coin>>)
    requires |groups| == MAX_SHARD_NUMBER
    ensures |r| == MAX_SHARD_NUMBER && forall s | 0 <= s < |r| :: r[s] == groups[s] + CoinsTo(coins, s)
  {
    r := groups;
    for i := 0 to |coins|
      invariant |r| == MAX_SHARD_NUMBER && forall s | 0 <= s < |r| :: r[s] == groups[s] + CoinsTo(coins[..i], s)
    {
      assert coins[..i + 1][..i] == coins[..i];
      var shardID := ShardOf(coins[i].lastByte);
      r := r[shardID := r[shardID] + [coins[i]]];
    }
    assert coins[..|coins|] == coins;
  }

  method GroupVouts(groups: seq<map<nat, Token>>, token: Token) returns (r: seq<map<nat, Token>>)
    requires |groups| == MAX_SHARD_NUMBER
    ensures |r| == MAX_SHARD_NUMBER && forall s | 0 <= s < |r| :: r[s] == AddVouts(groups[s], token, token.vouts, s)
  {
    r := groups;
    var vouts := token.vouts;
    for i := 0 to |vouts|
      invariant |r| == MAX_SHARD_NUMBER && forall s | 0 <= s < |r| :: r[s] == AddVouts(groups[s], token, vouts[..i], s)
    {
      assert vouts[..i + 1][..i] == vouts[..i];
      var shardID := ShardOf(vouts[i].lastByte);
      r := r[shardID := AddVout(r[shardID], token, vouts[i])];
    }
    assert vouts[..|vouts|] == vouts;
  }

  method GroupTokenCoins(groups: seq<map<nat, PrivacyToken>>, token: PrivacyToken, coins: seq<Coin>) returns (r: seq<map<nat, PrivacyToken>>)
    requires |groups| == MAX_SHARD_NUMBER
    ensures |r| == MAX_SHARD_NUMBER && forall s | 0 <= s < |r| :: r[s] == AddCoins(groups[s], token, coins, s)
  {
    r := groups;
    for i := 0 to |coins|
      invariant |r| == MAX_SHARD_NUMBER && forall s | 0 <= s < |r| :: r[s] == AddCoins(groups[s], token, coins[..i], s)
    {
      assert coins[..i + 1][..i] == coins[..i];
      var shardID := ShardOf(coins[i].lastByte);
      r := r[shardID := AddCoin(r[shardID], token, coins[i])];
    }
    assert coins[..|coins|] == coins;
  }

  // ---------- Creating and checking a cross-shard block ----------

  datatype CrossBlock = CrossBlock(coins: seq<Coin>, tokens: seq<Token>, privacy: seq<PrivacyToken>, path: seq<Hash>, root: Hash, toShard: nat)

  datatype Creation = Created(block: CrossBlock) | NothingToCross | RootMismatch

  function Node(h: Hashing): (Hash, Hash) -> Hash
  {
    (l: Hash, r: Hash) => h.hash(l.bytes + r.bytes)
  }

  function HeaderLeaves(h: Hashing, txs: seq<Tx>, zero: Hash): nat -> Hash
  {
    Leaves(seq(MAX_SHARD_NUMBER, s requires 0 <= s < MAX_SHARD_NUMBER => LeafOf(h, txs, s)), zero)
  }

  /** The root over all shards' leaves. */
  function TxRoot(h: Hashing, txs: seq<Tx>, zero: Hash): Hash
  {
    NodeAt(HeaderLeaves(h, txs, zero), Node(h), Height(MAX_SHARD_NUMBER), 0)
  }

  method CreateShardTxRoot2(h: Hashing, txList: seq<Tx>, zero: Hash) returns (merkleData: seq<Hash>)
    ensures Stores(merkleData, HeaderLeaves(h, txList, zero), Node(h), Height(MAX_SHARD_NUMBER))
  {
    var crossShardDataHash := GetCrossShardDataHash(h, txList);
    assert crossShardDataHash == seq(MAX_SHARD_NUMBER, s requires 0 <= s < MAX_SHARD_NUMBER => LeafOf(h, txList, s));
    merkleData := BuildMerkleTreeOfHashes2(crossShardDataHash, MAX_SHARD_NUMBER, zero, Node(h));
  }

  ghost predicate Extracted(b: CrossBlock, txs: seq<Tx>, s: nat)
  {
    b.coins == Coins(txs, s, false) && b.tokens == ListOf(Tokens(txs, s)) && b.privacy == ListOf(Privacy(txs, s))
  }

  method CreateCrossShardBlock(h: Hashing, txs: seq<Tx>, shardTxRoot: Hash, shardID: nat, zero: Hash) returns (r: Creation)
    requires shardID < MAX_SHARD_NUMBER
    ensures r == NothingToCross <==> Coins(txs, shardID, false) == [] && ListOf(Tokens(txs, shardID)) == [] && ListOf(Privacy(txs, shardID)) == []
    ensures r == RootMismatch ==> shardTxRoot != TxRoot(h, txs, zero)
    ensures r.Created? ==> shardTxRoot == TxRoot(h, txs, zero) && r.block.toShard == shardID && Made(h, txs, r.block, zero)
  {
    var coins, tokens, privacy := GetCrossShardData(txs, shardID);
    if |coins| == 0 && |tokens| == 0 && |privacy| == 0 { return NothingToCross; }
    var merkleTree := CreateShardTxRoot2(h, txs, zero);
    NextPowerIsLeast(MAX_SHARD_NUMBER, 0);
    var path, root := GetMerklePathForCrossShard(MAX_SHARD_NUMBER, merkleTree, shardID, HeaderLeaves(h, txs, zero), Node(h));
    if root != shardTxRoot { return RootMismatch; }
    r := Created(CrossBlock(coins, tokens, privacy, path, shardTxRoot, shardID));
  }

  method VerifyCrossShardBlockUTXO2(h: Hashing, block: CrossBlock, path: seq<Hash>) returns (ok: bool)
    ensures ok <==> ContentAccepted(h, block.(path := path))
  {
    var outputCoinHash := CalHashOutCoinCrossShard(h, block.coins);
    var txTokenDataHash := CalHashList(h, block.tokens, h.token);
    var txTokenPrivacyDataHash := CalHashList(h, block.privacy, h.privacy);
    var finalHash := h.hash(outputCoinHash.bytes + txTokenDataHash.bytes + txTokenPrivacyDataHash.bytes);
    ok := VerifyMerkleRootFromMerklePath(finalHash, path, block.root, block.toShard, Node(h));
  }

  // ---------- When what is sent is what is bound ----------

  /** No return-staking transaction has an output for `s`. */
  ghost predicate StakingStaysHome(txs: seq<Tx>, s: nat)
  {
    forall tx | tx in txs :: tx.kind == ReturnStaking ==> CoinsTo(Outputs(tx.proof), s) == []
  }

  ghost predicate CoinsHaveBytes(txs: seq<Tx>)
  {
    forall tx, coin | tx in txs && coin in Outputs(tx.proof) :: coin.bytes != []
  }

  lemma {:induction false} CoinBytesAppend(a: seq<Coin>, b: seq<Coin>)
    ensures CoinBytes(a + b) == CoinBytes(a) + CoinBytes(b)
    decreases |b|
  {
    if b == [] {
      assert a + b == a;
    } else {
      var last := |b| - 1;
      assert (a + b)[..|a + b| - 1] == a + b[..last];
      CoinBytesAppend(a, b[..last]);
    }
  }

  lemma {:induction false} CoinsToHasBytes(coins: seq<Coin>, s: nat)
    requires forall coin | coin in coins :: coin.bytes != []
    ensures CoinsTo(coins, s) != [] <==> |CoinBytes(CoinsTo(coins, s))| > 0
  {
    if coins != [] {
      var last := |coins| - 1;
      assert forall coin | coin in coins[..last] :: coin in coins;
      CoinsToHasBytes(coins[..last], s);
      assert coins[last] in coins;
      var own := if ShardOf(coins[last].lastByte) == s then [coins[last]] else [];
      CoinBytesAppend(CoinsTo(coins[..last], s), own);
      if own != [] { OneCoinBytes(coins[last]); }
    }
  }

  lemma OneCoinBytes(coin: Coin)
    ensures CoinBytes([coin]) == coin.bytes
  {
    assert [coin][..0] == [];
  }

  /** When staking stays home, what is sent is what is bound. */
  lemma {:induction false} SentIsBound(txs: seq<Tx>, s: nat)
    requires StakingStaysHome(txs, s)
    ensures Coins(txs, s, false) == Coins(txs, s, true)
  {
    if txs != [] {
      var last := |txs| - 1;
      assert txs == txs[..last] + [txs[last]];
      SentIsBound(txs[..last], s);
      assert txs[last] in txs;
    }
  }

  /** What is sent is never shorter than what is bound, and as long only when staking stays home. */
  lemma {:induction false} SentIsLonger(txs: seq<Tx>, s: nat)
    requires CoinsHaveBytes(txs)
    ensures |CoinBytes(Coins(txs, s, false))| >= |CoinBytes(Coins(txs, s, true))|
    ensures |CoinBytes(Coins(txs, s, false))| == |CoinBytes(Coins(txs, s, true))| ==> StakingStaysHome(txs, s)
  {
    if txs != [] {
      var last := |txs| - 1;
      var before, tx := txs[..last], txs[last];
      assert txs == before + [tx];
      SentIsLonger(before, s);
      var own := CoinsTo(Outputs(tx.proof), s);
      CoinBytesAppend(Coins(before, s, false), own);
      CoinBytesAppend(Coins(before, s, true), own);
      CoinsToHasBytes(Outputs(tx.proof), s);
      assert Coins(before, s, true) + [] == Coins(before, s, true);
    }
  }

  // ---------- Hash collisions, named ----------

  /** Two different strings with one hash. */
  ghost predicate Collide(h: Hashing, a: seq<byte>, b: seq<byte>)
  {
    a != b && h.hash(a) == h.hash(b)
  }

  /** Two lists of strings collide when they do so at the same place. */
  ghost predicate SomeCollide(h: Hashing, a: seq<seq<byte>>, b: seq<seq<byte>>)
  {
    exists t | 0 <= t < |a| && t < |b| :: Collide(h, a[t], b[t])
  }

  /** The strings hashed on the way from `x` to the root. */
  function ClimbStrings(h: Hashing, x: Hash, path: seq<Hash>, i: nat): seq<seq<byte>>
    decreases |path|
  {
    if path == [] then []
    else
      var pair := PairAt(x, path[0], i);
      [pair.0.bytes + pair.1.bytes] + ClimbStrings(h, h.hash(pair.0.bytes + pair.1.bytes), path[1..], i / 2)
  }

  /** The strings that depend on the coins when the content is checked along a path. */
  function HashedStrings(h: Hashing, coins: seq<Coin>, tokens: seq<Token>, privacy: seq<PrivacyToken>, path: seq<Hash>, i: nat): seq<seq<byte>>
  {
    [CoinBytes(coins), CombinedBytes(h, coins, tokens, privacy)] + ClimbStrings(h, Combined(h, coins, tokens, privacy), path, i)
  }

  lemma SameTail(a: seq<byte>, b: seq<byte>, c: seq<byte>)
    ensures a + c == b + c <==> a == b
    ensures c + a == c + b <==> a == b
  {
    assert (a + c)[..|a|] == a && (b + c)[..|b|] == b;
    assert (c + a)[|c|..] == a && (c + b)[|c|..] == b;
  }

  lemma SomeCollideLater(h: Hashing, x: seq<byte>, y: seq<byte>, a: seq<seq<byte>>, b: seq<seq<byte>>)
    ensures SomeCollide(h, [x] + a, [y] + b) <==> Collide(h, x, y) || SomeCollide(h, a, b)
  {
    if Collide(h, x, y) { assert Collide(h, ([x] + a)[0], ([y] + b)[0]); }
    if SomeCollide(h, a, b) {
      var t :| 0 <= t < |a| && t < |b| && Collide(h, a[t], b[t]);
      assert Collide(h, ([x] + a)[t + 1], ([y] + b)[t + 1]);
    }
    if SomeCollide(h, [x] + a, [y] + b) {
      var t :| 0 <= t < |a| + 1 && t < |b| + 1 && Collide(h, ([x] + a)[t], ([y] + b)[t]);
      if t > 0 { assert Collide(h, a[t - 1], b[t - 1]); }
    }
  }

  lemma PairStrings(x: Hash, y: Hash, other: Hash, i: nat)
    ensures var p, q := PairAt(x, other, i), PairAt(y, other, i);
      p.0.bytes + p.1.bytes == q.0.bytes + q.1.bytes <==> x == y
  {
    SameTail(x.bytes, y.bytes, other.bytes);
  }

  /** Along one path, two nodes reach the same root exactly when they are equal or two strings hashed on the way collide. */
  lemma {:induction false} ClimbsMeet(h: Hashing, x: Hash, y: Hash, path: seq<Hash>, i: nat)
    ensures Climb(x, path, i, Node(h)) == Climb(y, path, i, Node(h))
      <==> x == y || SomeCollide(h, ClimbStrings(h, x, path, i), ClimbStrings(h, y, path, i))
    decreases |path|
  {
    if path != [] {
      var p, q := PairAt(x, path[0], i), PairAt(y, path[0], i);
      var sp, sq := p.0.bytes + p.1.bytes, q.0.bytes + q.1.bytes;
      PairStrings(x, y, path[0], i);
      ClimbsMeet(h, h.hash(sp), h.hash(sq), path[1..], i / 2);
      SomeCollideLater(h, sp, sq, ClimbStrings(h, h.hash(sp), path[1..], i / 2), ClimbStrings(h, h.hash(sq), path[1..], i / 2));
    }
  }

  /** Two coin lists with the same tokens have one combined hash exactly when their bytes are equal or two strings collide. */
  lemma CombinedMeet(h: Hashing, a: seq<Coin>, b: seq<Coin>, tokens: seq<Token>, privacy: seq<PrivacyToken>)
    ensures Combined(h, a, tokens, privacy) == Combined(h, b, tokens, privacy)
      <==> (CoinBytes(a) == CoinBytes(b) || Collide(h, CoinBytes(a), CoinBytes(b))
        || Collide(h, CombinedBytes(h, a, tokens, privacy), CombinedBytes(h, b, tokens, privacy)))
  {
    var t, p := h.hash(HashesBytes(tokens, h.token)).bytes, h.hash(HashesBytes(privacy, h.privacy)).bytes;
    var ca, cb := h.hash(CoinBytes(a)), h.hash(CoinBytes(b));
    SameTail(ca.bytes + t, cb.bytes + t, p);
    SameTail(ca.bytes, cb.bytes, t);
    assert ca.bytes == cb.bytes <==> ca == cb;
  }

  /** What is extracted for `s` hashes to leaf `s` exactly when no return-staking output goes to `s`, or two different strings
      hashed for the two collide. */
  lemma LeafMatches(h: Hashing, txs: seq<Tx>, s: nat)
    requires CoinsHaveBytes(txs)
    ensures var tokens, privacy := ListOf(Tokens(txs, s)), ListOf(Privacy(txs, s));
      var sent, bound := Coins(txs, s, false), Coins(txs, s, true);
      Combined(h, sent, tokens, privacy) == LeafOf(h, txs, s) <==>
        (StakingStaysHome(txs, s) || Collide(h, CoinBytes(sent), CoinBytes(bound))
          || Collide(h, CombinedBytes(h, sent, tokens, privacy), CombinedBytes(h, bound, tokens, privacy)))
  {
    CombinedMeet(h, Coins(txs, s, false), Coins(txs, s, true), ListOf(Tokens(txs, s)), ListOf(Privacy(txs, s)));
    SentIsLonger(txs, s);
    if StakingStaysHome(txs, s) { SentIsBound(txs, s); }
  }

  /** One leaf binds all three parts: two contents have it exactly when their coins, token entries and privacy entries have the
      same bytes, unless the hash function collides on them. */
  lemma LeafBinds(h: Hashing, coins: seq<Coin>, tokens: seq<Token>, privacy: seq<PrivacyToken>,
                  coins': seq<Coin>, tokens': seq<Token>, privacy': seq<PrivacyToken>)
    requires forall x :: |h.hash(x).bytes| == 32
    requires !Collide(h, CoinBytes(coins), CoinBytes(coins'))
    requires !Collide(h, HashesBytes(tokens, h.token), HashesBytes(tokens', h.token))
    requires !Collide(h, HashesBytes(privacy, h.privacy), HashesBytes(privacy', h.privacy))
    requires !Collide(h, CombinedBytes(h, coins, tokens, privacy), CombinedBytes(h, coins', tokens', privacy'))
    ensures Combined(h, coins, tokens, privacy) == Combined(h, coins', tokens', privacy') <==>
      (CoinBytes(coins) == CoinBytes(coins') && HashesBytes(tokens, h.token) == HashesBytes(tokens', h.token)
        && HashesBytes(privacy, h.privacy) == HashesBytes(privacy', h.privacy))
  {
    var a, b, c := h.hash(CoinBytes(coins)).bytes, h.hash(HashesBytes(tokens, h.token)).bytes, h.hash(HashesBytes(privacy, h.privacy)).bytes;
    var a', b', c' :=
      h.hash(CoinBytes(coins')).bytes, h.hash(HashesBytes(tokens', h.token)).bytes, h.hash(HashesBytes(privacy', h.privacy)).bytes;
    ThreeParts(a, b, c, a', b', c');
    SameHash(h, CoinBytes(coins), CoinBytes(coins'));
    SameHash(h, HashesBytes(tokens, h.token), HashesBytes(tokens', h.token));
    SameHash(h, HashesBytes(privacy, h.privacy), HashesBytes(privacy', h.privacy));
    SameHash(h, CombinedBytes(h, coins, tokens, privacy), CombinedBytes(h, coins', tokens', privacy'));
  }

  /** The bytes of a list of entries say how many there are and which hash each one has. */
  lemma {:induction false} EntriesBind<V>(list: seq<V>, list': seq<V>, item: V -> Hash)
    requires forall v :: |item(v).bytes| == 32
    ensures HashesBytes(list, item) == HashesBytes(list', item) <==>
      (|list| == |list'| && forall i | 0 <= i < |list| :: item(list[i]) == item(list'[i]))
    decreases |list|
  {
    BytesLength(list, item);
    BytesLength(list', item);
    if list != [] && |list| == |list'| {
      var last := |list| - 1;
      var front, front' := list[..last], list'[..last];
      EntriesBind(front, front', item);
      TwoParts(HashesBytes(front, item), item(list[last]).bytes, HashesBytes(front', item), item(list'[last]).bytes);
      assert (forall i | 0 <= i < |list| :: item(list[i]) == item(list'[i])) <==>
        (item(list[last]) == item(list'[last]) && forall i | 0 <= i < last :: item(front[i]) == item(front'[i])) by {
        assert forall i | 0 <= i < last :: front[i] == list[i] && front'[i] == list'[i];
      }
    }
  }

  lemma {:induction false} BytesLength<V>(list: seq<V>, item: V -> Hash)
    requires forall v :: |item(v).bytes| == 32
    ensures |HashesBytes(list, item)| == 32 * |list|
  {
    if list != [] { BytesLength(list[..|list| - 1], item); }
  }

  lemma TwoParts(a: seq<byte>, b: seq<byte>, a': seq<byte>, b': seq<byte>)
    requires |b| == |b'|
    ensures a + b == a' + b' <==> a == a' && b == b'
  {
    if a + b == a' + b' {
      assert |a| == |a'|;
      assert a == (a + b)[..|a|] && a' == (a' + b')[..|a|];
      assert b == (a + b)[|a|..] && b' == (a' + b')[|a|..];
    }
  }

  lemma SameHash(h: Hashing, x: seq<byte>, y: seq<byte>)
    requires !Collide(h, x, y)
    ensures h.hash(x) == h.hash(y) <==> x == y
    ensures h.hash(x) == h.hash(y) <==> h.hash(x).bytes == h.hash(y).bytes
  {
  }

  lemma ThreeParts(a: seq<byte>, b: seq<byte>, c: seq<byte>, a': seq<byte>, b': seq<byte>, c': seq<byte>)
    requires |a| == |a'| == 32 && |b| == |b'| == 32 && |c| == |c'|
    ensures a + b + c == a' + b' + c' <==> a == a' && b == b' && c == c'
  {
    if a + b + c == a' + b' + c' {
      var all, all' := a + b + c, a' + b' + c';
      assert a == all[..32] && a' == all'[..32];
      assert b == all[32..64] && b' == all'[32..64];
      assert c == all[64..] && c' == all'[64..];
    }
  }

  /** The verdict of `VerifyCrossShardBlockUTXO2`. */
  ghost predicate ContentAccepted(h: Hashing, b: CrossBlock)
  {
    Climb(Combined(h, b.coins, b.tokens, b.privacy), b.path, b.toShard, Node(h)) == b.root
  }

  /** A block as `CreateCrossShardBlock` makes it. */
  ghost predicate Made(h: Hashing, txs: seq<Tx>, b: CrossBlock, zero: Hash)
  {
    && b.toShard < MAX_SHARD_NUMBER && Extracted(b, txs, b.toShard) && b.root == TxRoot(h, txs, zero)
    && b.path == Path(HeaderLeaves(h, txs, zero), Node(h), Height(MAX_SHARD_NUMBER), 0, b.toShard)
  }

  /** The receiver checks what was sent against the same path and root as the leaf that the header binds. */
  lemma BoundLeafClimbs(h: Hashing, txs: seq<Tx>, b: CrossBlock, zero: Hash)
    requires Made(h, txs, b, zero)
    ensures Climb(LeafOf(h, txs, b.toShard), b.path, b.toShard, Node(h)) == b.root
  {
    var leaf := HeaderLeaves(h, txs, zero);
    NextPowerIsLeast(MAX_SHARD_NUMBER, 0);
    PathVerifies(leaf, Node(h), Height(MAX_SHARD_NUMBER), 0, b.toShard);
    assert leaf(b.toShard) == LeafOf(h, txs, b.toShard);
  }

  /** If return-staking outputs stay in their own shard, every created block is accepted, whatever the hash function. */
  lemma StakingAtHomeVerifies(h: Hashing, txs: seq<Tx>, b: CrossBlock, zero: Hash)
    requires Made(h, txs, b, zero) && StakingStaysHome(txs, b.toShard)
    ensures ContentAccepted(h, b)
  {
    SentIsBound(txs, b.toShard);
    BoundLeafClimbs(h, txs, b, zero);
  }

  /** The receiver accepts a created block exactly when no return-staking output was sent to it, or the hash function gives one
      hash to two different strings among the few that the sender and the receiver hash for this block. */
  lemma CreatedBlockVerifies(h: Hashing, txs: seq<Tx>, b: CrossBlock, zero: Hash)
    requires Made(h, txs, b, zero) && CoinsHaveBytes(txs)
    ensures ContentAccepted(h, b) <==> (StakingStaysHome(txs, b.toShard)
      || SomeCollide(h, HashedStrings(h, b.coins, b.tokens, b.privacy, b.path, b.toShard),
           HashedStrings(h, Coins(txs, b.toShard, true), b.tokens, b.privacy, b.path, b.toShard)))
  {
    var s, sent, bound := b.toShard, b.coins, Coins(txs, b.toShard, true);
    var x, y := Combined(h, sent, b.tokens, b.privacy), Combined(h, bound, b.tokens, b.privacy);
    BoundLeafClimbs(h, txs, b, zero);
    LeafMatches(h, txs, s);
    ClimbsMeet(h, x, y, b.path, s);
    TwoMoreStrings(h, CoinBytes(sent), CoinBytes(bound), CombinedBytes(h, sent, b.tokens, b.privacy),
      CombinedBytes(h, bound, b.tokens, b.privacy), ClimbStrings(h, x, b.path, s), ClimbStrings(h, y, b.path, s));
  }

  lemma TwoMoreStrings(h: Hashing, p: seq<byte>, q: seq<byte>, u: seq<byte>, v: seq<byte>, a: seq<seq<byte>>, b: seq<seq<byte>>)
    ensures SomeCollide(h, [p, u] + a, [q, v] + b) <==> Collide(h, p, q) || Collide(h, u, v) || SomeCollide(h, a, b)
  {
    SomeCollideLater(h, u, v, a, b);
    SomeCollideLater(h, p, q, [u] + a, [v] + b);
    assert [p, u] + a == [p] + ([u] + a) && [q, v] + b == [q] + ([v] + b);
  }

  /** There are hash functions under which nothing collides, so that staking alone decides. */
  lemma WithoutCollisions() returns (h: Hashing)
    ensures forall a, b :: !SomeCollide(h, a, b)
  {
    h := Hashing(bytes => Hash(bytes), _ => Hash([]), _ => Hash([]));
    forall a, b ensures !SomeCollide(h, a, b) {
      forall t | 0 <= t < |a| && t < |b| ensures !Collide(h, a[t], b[t]) {
        assert h.hash(a[t]).bytes == a[t] && h.hash(b[t]).bytes == b[t];
      }
    }
  }
}
