/** Schnorr signatures that several signers of a larger group combine. Points are written by their discrete logarithm: the curve is
    a cyclic group of order `order`, its generator is 1 and the point at infinity is 0. */
module MultiSig {
  import opened Modular

  type Point = nat

  /** `weight` is the hash of a compressed point read as a number; `challenge` is the number read from the aggregated key, the
      common R and the data. */
  datatype Scheme = Scheme(order: nat, weight: Point -> nat, challenge: (Point, Point, seq<nat>) -> nat)

  datatype Signature = Signature(R: Point, S: nat)

  datatype Signing = Signed(sig: Signature) | SignPanic

  datatype Verdict = Accepted | Rejected | VerifyPanic

  function Plus(g: Scheme, a: Point, b: Point): Point
    requires g.order > 0
  {
    (a + b) % g.order
  }

  function Scale(g: Scheme, k: nat, a: Point): Point
    requires g.order > 0
  {
    (k * a) % g.order
  }

  function PublicKey(g: Scheme, sk: nat): Point
    requires g.order > 0
  {
    Scale(g, sk, 1)
  }

  // ---------- Common parameters ----------

  function SumOf(g: Scheme, points: seq<Point>): Point
    requires g.order > 0
  {
    if points == [] then 0 else Plus(g, SumOf(g, points[..|points| - 1]), points[|points| - 1])
  }

  /** Every key scaled by the hash of itself added to the aggregated key. */
  function Weighted(g: Scheme, agg: Point, keys: seq<Point>): Point
    requires g.order > 0
  {
    if keys == [] then 0
    else
      var last := keys[|keys| - 1];
      Plus(g, Weighted(g, agg, keys[..|keys| - 1]), Scale(g, g.weight(Plus(g, agg, last)), last))
  }

  function Challenge(g: Scheme, keys: seq<Point>, R: Point, data: seq<nat>): nat
    requires g.order > 0
  {
    g.challenge(Weighted(g, SumOf(g, keys), keys), R, data) % g.order
  }

  /** The key that a signature of the combining signers is checked against. */
  function CombinedKey(g: Scheme, common: seq<Point>, combine: seq<Point>): Point
    requires g.order > 0
  {
    Weighted(g, SumOf(g, common), if |common| > |combine| then combine else common)
  }

  method Aggregate(g: Scheme, points: seq<Point>) returns (sum: Point)
    requires g.order > 0
    ensures sum == SumOf(g, points)
  {
    sum := 0;
    for i := 0 to |points|
      invariant sum == SumOf(g, points[..i])
    {
      assert points[..i + 1][..i] == points[..i];
      sum := Plus(g, sum, points[i]);
    }
    assert points[..|points|] == points;
  }

  /** `reduce`: the hash is taken modulo the order before scaling, which makes no difference. */
  method WeightedSum(g: Scheme, agg: Point, keys: seq<Point>, reduce: bool) returns (X: Point)
    requires g.order > 0
    ensures X == Weighted(g, agg, keys)
  {
    X := 0;
    for i := 0 to |keys|
      invariant X == Weighted(g, agg, keys[..i])
    {
      assert keys[..i + 1][..i] == keys[..i];
      var a := g.weight(Plus(g, agg, keys[i]));
      MulLeft(a, keys[i], g.order);
      if reduce { a := a % g.order; }
      X := Plus(g, X, Scale(g, a, keys[i]));
    }
    assert keys[..|keys|] == keys;
  }

  method GenerateCommonParams(g: Scheme, common: seq<Point>, combine: seq<Point>, R: Point, data: seq<nat>)
    returns (agg: Point, C: nat, X: Point)
    requires g.order > 0
    ensures agg == SumOf(g, common) && C == Challenge(g, common, R, data) && X == CombinedKey(g, common, combine)
  {
    agg := Aggregate(g, common);
    X := WeightedSum(g, agg, common, true);
    C := g.challenge(X, R, data) % g.order;
    if |common| > |combine| {
      X := WeightedSum(g, agg, combine, false);
    }
  }

  // ---------- Signing, combining, verifying ----------

  /** Serialising a signature whose R is the point at infinity panics. */
  function Sign(g: Scheme, data: seq<nat>, sk: nat, keys: seq<Point>, R: Point, r: nat): Signing
    requires g.order > 0
  {
    var a := g.weight(Plus(g, SumOf(g, keys), PublicKey(g, sk))) % g.order;
    var S := (a * Challenge(g, keys, R, data) % g.order * sk % g.order + r) % g.order;
    if Scale(g, r, 1) == 0 then SignPanic else Signed(Signature(Scale(g, r, 1), S))
  }

  method SignMultiSig(g: Scheme, data: seq<nat>, sk: nat, listPK: seq<Point>, listR: seq<Point>, r: nat) returns (res: Signing)
    requires g.order > 0
    ensures res == Sign(g, data, sk, listPK, SumOf(g, listR), r)
  {
    var R := Aggregate(g, listR);
    var aggKey, C, X := GenerateCommonParams(g, listPK, listPK, R, data);
    var aInt := g.weight(Plus(g, aggKey, PublicKey(g, sk))) % g.order;
    var sig := aInt;
    sig := sig * C;
    sig := sig % g.order;
    sig := sig * sk;
    sig := sig % g.order;
    sig := sig + r;
    sig := sig % g.order;
    var selfR := Scale(g, r, 1);
    if selfR == 0 { return SignPanic; }
    res := Signed(Signature(selfR, sig));
  }

  function Combined(g: Scheme, sigs: seq<Signature>): Signature
    requires g.order > 0
  {
    if sigs == [] then Signature(0, 0)
    else
      var before, last := Combined(g, sigs[..|sigs| - 1]), sigs[|sigs| - 1];
      Signature(Plus(g, before.R, last.R), (before.S + last.S) % g.order)
  }

  method CombineMultiSig(g: Scheme, sigs: seq<Signature>) returns (res: Signature)
    requires g.order > 0
    ensures res == Combined(g, sigs)
  {
    res := Signature(0, 0);
    for i := 0 to |sigs|
      invariant res == Combined(g, sigs[..i])
    {
      assert sigs[..i + 1][..i] == sigs[..i];
      res := Signature(Plus(g, res.R, sigs[i].R), (res.S + sigs[i].S) % g.order);
    }
    assert sigs[..|sigs|] == sigs;
  }

  function Verify(g: Scheme, sig: Signature, data: seq<nat>, common: seq<Point>, combine: seq<Point>, RCombine: Point): Verdict
    requires g.order > 0
  {
    if sig.R == 0 then VerifyPanic
    else if Scale(g, sig.S, 1) == Plus(g, Scale(g, Challenge(g, common, RCombine, data), CombinedKey(g, common, combine)), sig.R)
    then Accepted else Rejected
  }

  method VerifyMultiSig(g: Scheme, sig: Signature, data: seq<nat>, common: seq<Point>, combine: seq<Point>, RCombine: Point)
    returns (v: Verdict)
    requires g.order > 0
    ensures v == Verify(g, sig, data, common, combine, RCombine)
  {
    if sig.R == 0 { return VerifyPanic; }
    var agg, C, X := GenerateCommonParams(g, common, combine, RCombine, data);
    var GSPoint := Scale(g, sig.S, 1);
    var RXCPoint := Scale(g, C, X);
    RXCPoint := Plus(g, RXCPoint, sig.R);
    v := if GSPoint == RXCPoint then Accepted else Rejected;
  }

  // ---------- Completeness ----------

  /** A signer's secret key and random number. */
  datatype Signer = Signer(sk: nat, r: nat)

  function Keys(g: Scheme, signers: seq<Signer>): seq<Point>
    requires g.order > 0
  {
    seq(|signers|, i requires 0 <= i < |signers| => PublicKey(g, signers[i].sk))
  }

  function Randoms(g: Scheme, signers: seq<Signer>): seq<Point>
    requires g.order > 0
  {
    seq(|signers|, i requires 0 <= i < |signers| => Scale(g, signers[i].r, 1))
  }

  /** The signature of one signer of the whole group, as far as it does not panic. */
  function SignatureOf(g: Scheme, all: seq<Signer>, data: seq<nat>, s: Signer): Signature
    requires g.order > 0
  {
    var R := SumOf(g, Randoms(g, all));
    var a := g.weight(Plus(g, SumOf(g, Keys(g, all)), PublicKey(g, s.sk))) % g.order;
    Signature(Scale(g, s.r, 1), (a * Challenge(g, Keys(g, all), R, data) % g.order * s.sk % g.order + s.r) % g.order)
  }

  function SignaturesOf(g: Scheme, all: seq<Signer>, data: seq<nat>, some: seq<Signer>): seq<Signature>
    requires g.order > 0
  {
    seq(|some|, i requires 0 <= i < |some| => SignatureOf(g, all, data, some[i]))
  }

  lemma SignsAs(g: Scheme, all: seq<Signer>, data: seq<nat>, s: Signer)
    requires g.order > 0
    ensures Sign(g, data, s.sk, Keys(g, all), SumOf(g, Randoms(g, all)), s.r)
      == if Scale(g, s.r, 1) == 0 then SignPanic else Signed(SignatureOf(g, all, data, s))
  {
  }

  /** One more signer: what it adds to S is the challenge times what it adds to the key, plus what it adds to R. */
  lemma OneMore(C: nat, X: int, R: int, S: int, w: nat, sk: nat, r: nat, n: nat)
    requires n > 0 && Congruent(S, C * X + R, n)
    ensures Congruent((S + ((w % n) * C % n * sk % n + r) % n) % n,
      C * ((X + (w * ((sk * 1) % n)) % n) % n) + (R + (r * 1) % n) % n, n)
  {
    LeftSide(C, S, w, sk, r, n);
    RightSide(C, X, R, w, sk, r, n);
    Distribute(C, X, R, w, sk, r);
    CongruentAdd(S, C * X + R, w * C * sk + r, w * C * sk + r, n);
  }

  lemma Distribute(C: nat, X: int, R: int, w: nat, sk: nat, r: nat)
    ensures C * X + R + (w * C * sk + r) == C * (X + w * sk) + (R + r)
  {
    assert w * C * sk == C * (w * sk);
    assert C * (X + w * sk) == C * X + C * (w * sk);
  }

  lemma LeftSide(C: nat, S: int, w: nat, sk: nat, r: nat, n: nat)
    requires n > 0
    ensures Congruent((S + ((w % n) * C % n * sk % n + r) % n) % n, S + (w * C * sk + r), n)
  {
    var a := (w % n) * C % n;
    MulLeft(w, C, n);
    ModCongruent(w * C, n);
    CongruentMul(a, w * C, sk, sk, n);
    ModCongruent(a * sk, n);
    CongruentAdd(a * sk % n, w * C * sk, r, r, n);
    ModCongruent(a * sk % n + r, n);
    CongruentAdd(S, S, (a * sk % n + r) % n, w * C * sk + r, n);
    ModCongruent(S + (a * sk % n + r) % n, n);
  }

  lemma RightSide(C: nat, X: int, R: int, w: nat, sk: nat, r: nat, n: nat)
    requires n > 0
    ensures Congruent(C * ((X + (w * ((sk * 1) % n)) % n) % n) + (R + (r * 1) % n) % n, C * (X + w * sk) + (R + r), n)
  {
    var pk := (sk * 1) % n;
    ModCongruent(sk, n);
    CongruentMul(w, w, pk, sk, n);
    ModCongruent(w * pk, n);
    CongruentAdd(X, X, (w * pk) % n, w * sk, n);
    ModCongruent(X + (w * pk) % n, n);
    CongruentMul(C, C, (X + (w * pk) % n) % n, X + w * sk, n);
    ModCongruent(r, n);
    CongruentAdd(R, R, (r * 1) % n, r, n);
    ModCongruent(R + (r * 1) % n, n);
    CongruentAdd(C * ((X + (w * pk) % n) % n), C * (X + w * sk), (R + (r * 1) % n) % n, R + r, n);
  }

  /** What the last signer adds to the combined signature and to the key. */
  lemma LastSigner(g: Scheme, all: seq<Signer>, data: seq<nat>, some: seq<Signer>)
    requires g.order > 0 && some != []
    ensures var before, s, n := some[..|some| - 1], some[|some| - 1], g.order;
      var agg := SumOf(g, Keys(g, all));
      var w := g.weight(Plus(g, agg, PublicKey(g, s.sk)));
      var sig, sig' := Combined(g, SignaturesOf(g, all, data, before)), Combined(g, SignaturesOf(g, all, data, some));
      var C := Challenge(g, Keys(g, all), SumOf(g, Randoms(g, all)), data);
      && sig'.S == (sig.S + ((w % n) * C % n * s.sk % n + s.r) % n) % n
      && sig'.R == (sig.R + (s.r * 1) % n) % n
      && Weighted(g, agg, Keys(g, some)) == (Weighted(g, agg, Keys(g, before)) + (w * ((s.sk * 1) % n)) % n) % n
  {
    var last := |some| - 1;
    assert SignaturesOf(g, all, data, some)[..last] == SignaturesOf(g, all, data, some[..last]);
    assert Keys(g, some)[..last] == Keys(g, some[..last]);
  }

  /** The equation that verification checks, for any list of signers of the group. */
  lemma {:induction false} EquationHolds(g: Scheme, all: seq<Signer>, data: seq<nat>, some: seq<Signer>)
    requires g.order > 0
    ensures var sig := Combined(g, SignaturesOf(g, all, data, some));
      Congruent(sig.S, Challenge(g, Keys(g, all), SumOf(g, Randoms(g, all)), data) * Weighted(g, SumOf(g, Keys(g, all)), Keys(g, some))
        + sig.R, g.order)
    decreases |some|
  {
    if some != [] {
      var before, s := some[..|some| - 1], some[|some| - 1];
      EquationHolds(g, all, data, before);
      LastSigner(g, all, data, some);
      var agg := SumOf(g, Keys(g, all));
      var sig := Combined(g, SignaturesOf(g, all, data, before));
      OneMore(Challenge(g, Keys(g, all), SumOf(g, Randoms(g, all)), data), Weighted(g, agg, Keys(g, before)), sig.R, sig.S,
        g.weight(Plus(g, agg, PublicKey(g, s.sk))), s.sk, s.r, g.order);
    }
  }

  /** `at` picks a sub-list: increasing positions. */
  ghost predicate Picks(at: seq<nat>, n: nat)
  {
    && (forall i | 0 <= i < |at| :: at[i] < n)
    && (forall i, j | 0 <= i < j < |at| :: at[i] < at[j])
  }

  function Picked(all: seq<Signer>, at: seq<nat>): seq<Signer>
    requires Picks(at, |all|)
  {
    seq(|at|, i requires 0 <= i < |at| => all[at[i]])
  }

  lemma {:induction false} PicksStretch(at: seq<nat>, n: nat, i: nat)
    requires Picks(at, n) && i < |at|
    ensures i <= at[i] && at[i] + (|at| - 1 - i) < n
  {
    BelowPosition(at, n, i);
    AbovePosition(at, n, i);
  }

  lemma {:induction false} BelowPosition(at: seq<nat>, n: nat, i: nat)
    requires Picks(at, n) && i < |at|
    ensures i <= at[i]
  {
    if i > 0 { BelowPosition(at, n, i - 1); }
  }

  lemma {:induction false} AbovePosition(at: seq<nat>, n: nat, i: nat)
    requires Picks(at, n) && i < |at|
    ensures at[i] + (|at| - 1 - i) < n
    decreases |at| - i
  {
    if i + 1 < |at| { AbovePosition(at, n, i + 1); }
  }

  /** A sub-list as long as the list is the list. */
  lemma FullPick(all: seq<Signer>, at: seq<nat>)
    requires Picks(at, |all|)
    ensures |at| <= |all| && (|at| == |all| ==> Picked(all, at) == all)
  {
    if |at| > 0 { PicksStretch(at, |all|, 0); }
    forall i | 0 <= i < |at| && |at| == |all| ensures at[i] == i {
      PicksStretch(at, |all|, i);
    }
  }

  /** What the signers of a sub-list have signed, each with the keys and the sum of R of the whole group. */
  ghost predicate AllSigned(g: Scheme, all: seq<Signer>, data: seq<nat>, some: seq<Signer>, sigs: seq<Signature>)
    requires g.order > 0
  {
    && |sigs| == |some|
    && forall i | 0 <= i < |some| ::
      Sign(g, data, some[i].sk, Keys(g, all), SumOf(g, Randoms(g, all)), some[i].r) == Signed(sigs[i])
  }

  /** The signatures of any sub-list of the signers combine to one that verifies against the full list as common keys, the sub-list
      as combining keys and the full sum of R - except that verification panics when the combined R is the point at infinity. */
  lemma CombinedVerifies(g: Scheme, all: seq<Signer>, data: seq<nat>, at: seq<nat>, sigs: seq<Signature>)
    requires g.order > 0 && Picks(at, |all|) && AllSigned(g, all, data, Picked(all, at), sigs)
    ensures var sig := Combined(g, sigs);
      Verify(g, sig, data, Keys(g, all), Keys(g, Picked(all, at)), SumOf(g, Randoms(g, all)))
        == if sig.R == 0 then VerifyPanic else Accepted
  {
    var some := Picked(all, at);
    forall i | 0 <= i < |some| ensures sigs[i] == SignaturesOf(g, all, data, some)[i] {
      SignsAs(g, all, data, some[i]);
    }
    assert sigs == SignaturesOf(g, all, data, some);
    EquationHolds(g, all, data, some);
    KeyIsWeighted(g, all, at);
    CheckPasses(g, Combined(g, sigs), Challenge(g, Keys(g, all), SumOf(g, Randoms(g, all)), data),
      Weighted(g, SumOf(g, Keys(g, all)), Keys(g, some)));
  }

  lemma KeyIsWeighted(g: Scheme, all: seq<Signer>, at: seq<nat>)
    requires g.order > 0 && Picks(at, |all|)
    ensures CombinedKey(g, Keys(g, all), Keys(g, Picked(all, at))) == Weighted(g, SumOf(g, Keys(g, all)), Keys(g, Picked(all, at)))
  {
    FullPick(all, at);
  }

  lemma CheckPasses(g: Scheme, sig: Signature, C: nat, X: Point)
    requires g.order > 0 && Congruent(sig.S, C * X + sig.R, g.order)
    ensures Scale(g, sig.S, 1) == Plus(g, Scale(g, C, X), sig.R)
  {
    AddLeft(C * X, sig.R, g.order);
  }

  // ---------- Soundness ----------

  function KeySum(keys: seq<Point>): nat
  {
    if keys == [] then 0 else keys[0] + KeySum(keys[1..])
  }

  /** The sum of all keys, each times the hash of itself added to `agg`. */
  function WeightedSumOf(g: Scheme, agg: Point, keys: seq<Point>): nat
    requires g.order > 0
  {
    if keys == [] then 0 else g.weight((agg + keys[0]) % g.order) * keys[0] + WeightedSumOf(g, agg, keys[1..])
  }

  /** What makes a signature right: S is the challenge times the weighted sum of the combining keys, plus R. */
  ghost predicate Right(g: Scheme, sig: Signature, data: seq<nat>, common: seq<Point>, combine: seq<Point>, R: Point)
    requires g.order > 0
  {
    var agg := KeySum(common) % g.order;
    var c := g.challenge(WeightedSumOf(g, agg, common) % g.order, R, data);
    var X := WeightedSumOf(g, agg, if |combine| < |common| then combine else common);
    Congruent(sig.S, c * X + sig.R, g.order)
  }

  lemma {:induction false} KeySumOneMore(keys: seq<Point>, key: Point)
    ensures KeySum(keys + [key]) == KeySum(keys) + key
  {
    if keys != [] {
      assert (keys + [key])[1..] == keys[1..] + [key];
      KeySumOneMore(keys[1..], key);
    } else {
      assert [] + [key] == [key] && [key][1..] == [];
    }
  }

  lemma {:induction false} WeightedOneMore(g: Scheme, agg: Point, keys: seq<Point>, key: Point)
    requires g.order > 0
    ensures WeightedSumOf(g, agg, keys + [key]) == WeightedSumOf(g, agg, keys) + g.weight((agg + key) % g.order) * key
  {
    if keys != [] {
      assert (keys + [key])[1..] == keys[1..] + [key];
      WeightedOneMore(g, agg, keys[1..], key);
    } else {
      assert [] + [key] == [key] && [key][1..] == [];
    }
  }

  lemma {:induction false} SumIs(g: Scheme, keys: seq<Point>)
    requires g.order > 0
    ensures SumOf(g, keys) == KeySum(keys) % g.order
  {
    if keys != [] {
      var before, last := keys[..|keys| - 1], keys[|keys| - 1];
      assert keys == before + [last];
      SumIs(g, before);
      KeySumOneMore(before, last);
      AddLeft(KeySum(before), last, g.order);
    }
  }

  lemma {:induction false} WeightedIs(g: Scheme, agg: Point, keys: seq<Point>)
    requires g.order > 0
    ensures Weighted(g, agg, keys) == WeightedSumOf(g, agg, keys) % g.order
  {
    if keys != [] {
      var before, last := keys[..|keys| - 1], keys[|keys| - 1];
      assert keys == before + [last];
      WeightedIs(g, agg, before);
      WeightedOneMore(g, agg, before, last);
      BothReduced(WeightedSumOf(g, agg, before), g.weight((agg + last) % g.order) * last, g.order);
    }
  }

  lemma BothReduced(a: int, b: int, n: int)
    requires n > 0
    ensures (a % n + b % n) % n == (a + b) % n
  {
    AddLeft(a, b % n, n);
    AddLeft(b, a, n);
  }

  /** The verdict for every signature: accepted if and only if it is right. */
  lemma AcceptsOnlyRight(g: Scheme, sig: Signature, data: seq<nat>, common: seq<Point>, combine: seq<Point>, R: Point)
    requires g.order > 0
    ensures Verify(g, sig, data, common, combine, R) ==
      if sig.R == 0 then VerifyPanic else if Right(g, sig, data, common, combine, R) then Accepted else Rejected
  {
    var n, agg, keys := g.order, KeySum(common) % g.order, if |combine| < |common| then combine else common;
    SumIs(g, common);
    WeightedIs(g, agg, common);
    WeightedIs(g, agg, keys);
    CheckedModulo(sig.S, g.challenge(WeightedSumOf(g, agg, common) % n, R, data), WeightedSumOf(g, agg, keys), sig.R, n);
  }

  lemma CheckedModulo(S: int, c: int, X: int, R: int, n: int)
    requires n > 0
    ensures (S * 1) % n == ((c % n * (X % n)) % n + R) % n <==> Congruent(S, c * X + R, n)
  {
    ModCongruent(c, n);
    ModCongruent(X, n);
    CongruentMul(c % n, c, X % n, X, n);
    AddLeft(c * X, R, n);
  }

  /** Changing S of a combined signature modulo the order makes it rejected. */
  lemma ChangedIsRejected(g: Scheme, all: seq<Signer>, data: seq<nat>, at: seq<nat>, sigs: seq<Signature>, S: nat)
    requires g.order > 0 && Picks(at, |all|) && AllSigned(g, all, data, Picked(all, at), sigs)
    requires Combined(g, sigs).R != 0 && !Congruent(S, Combined(g, sigs).S, g.order)
    ensures Verify(g, Signature(Combined(g, sigs).R, S), data, Keys(g, all), Keys(g, Picked(all, at)), SumOf(g, Randoms(g, all)))
      == Rejected
  {
    var sig, common, combine, R := Combined(g, sigs), Keys(g, all), Keys(g, Picked(all, at)), SumOf(g, Randoms(g, all));
    CombinedVerifies(g, all, data, at, sigs);
    AcceptsOnlyRight(g, sig, data, common, combine, R);
    AcceptsOnlyRight(g, Signature(sig.R, S), data, common, combine, R);
  }
}
