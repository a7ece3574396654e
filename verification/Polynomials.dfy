/** Polynomials with integer coefficients, lowest first, over the integers or modulo a number. */
module Polynomials {
  import opened Modular

  datatype Modulus = Integers | Mod(m: nat)

  /** A modulus, when given, is positive. */
  predicate ValidModulus(m: Modulus)
  {
    m.Mod? ==> m.m > 0
  }

  function Reduce(x: int, m: Modulus): int
    requires ValidModulus(m)
  {
    if m.Integers? then x else x % m.m
  }

  /** Coefficient `i`, zero outside the list. */
  function Co(p: seq<int>, i: int): int
  {
    if 0 <= i < |p| then p[i] else 0
  }

  predicate IsZero(p: seq<int>)
  {
    |p| == 1 && p[0] == 0
  }

  /** The highest coefficient is not zero, unless it is the only one. */
  predicate Trimmed(p: seq<int>)
  {
    |p| >= 1 && (|p| > 1 ==> p[|p| - 1] != 0)
  }

  function Trim(p: seq<int>): seq<int>
  {
    if |p| > 1 && p[|p| - 1] == 0 then Trim(p[..|p| - 1]) else p
  }

  lemma {:induction false} TrimKeeps(p: seq<int>)
    requires |p| >= 1
    ensures Trimmed(Trim(p)) && |Trim(p)| <= |p|
    ensures forall i :: Co(Trim(p), i) == Co(p, i)
    ensures p[|p| - 1] == 0 && |p| > 1 ==> |Trim(p)| < |p|
  {
    if |p| > 1 && p[|p| - 1] == 0 {
      TrimKeeps(p[..|p| - 1]);
      assert forall i :: Co(p[..|p| - 1], i) == Co(p, i);
    }
  }

  method TrimInPlace(p: seq<int>) returns (r: seq<int>)
    requires |p| >= 1
    ensures r == Trim(p)
  {
    var last := 0;
    var i := |p| - 1;
    assert p[..i + 1] == p;
    while i > 0
      invariant 0 <= i < |p| && last == 0 && Trim(p) == Trim(p[..i + 1])
      decreases i
    {
      if p[i] != 0 {
        last := i;
        break;
      }
      assert p[..i + 1][..i] == p[..i];
      i := i - 1;
    }
    r := p[..last + 1];
  }

  // ---------- Sum, difference, shift ----------

  datatype Order = Less | Equal | Greater

  function CompareFrom(p: seq<int>, q: seq<int>, i: nat): Order
    requires |p| == |q| && i <= |p|
    decreases |p| - i
  {
    if i == |p| then Equal
    else if p[i] > q[i] then Greater
    else if p[i] < q[i] then Less
    else CompareFrom(p, q, i + 1)
  }

  function Compare(p: seq<int>, q: seq<int>): Order
  {
    if |p| > |q| then Greater else if |p| < |q| then Less else CompareFrom(p, q, 0)
  }

  /** Place `k` is the first one where the lists differ, and `p` has the larger number there. */
  ghost predicate LargerAt(p: seq<int>, q: seq<int>, k: nat)
  {
    k < |p| && k < |q| && p[k] > q[k] && forall j | 0 <= j < k :: p[j] == q[j]
  }

  ghost predicate LargerFirst(p: seq<int>, q: seq<int>)
  {
    exists k: nat :: LargerAt(p, q, k)
  }

  /** The longer polynomial is greater; of two equally long ones the lowest coefficient that differs decides. */
  lemma CompareExactly(p: seq<int>, q: seq<int>)
    ensures Compare(p, q) == Equal <==> p == q
    ensures Compare(p, q) == Greater <==> |p| > |q| || (|p| == |q| && LargerFirst(p, q))
    ensures Compare(p, q) == Less <==> |p| < |q| || (|p| == |q| && LargerFirst(q, p))
  {
    if |p| == |q| { CompareDecides(p, q, 0); }
  }

  lemma {:induction false} CompareDecides(p: seq<int>, q: seq<int>, i: nat)
    requires |p| == |q| && i <= |p| && forall j | 0 <= j < i :: p[j] == q[j]
    ensures CompareFrom(p, q, i) == Equal <==> p == q
    ensures CompareFrom(p, q, i) == Greater <==> LargerFirst(p, q)
    ensures CompareFrom(p, q, i) == Less <==> LargerFirst(q, p)
    decreases |p| - i
  {
    if i == |p| {
      assert p == q;
    } else if p[i] == q[i] {
      CompareDecides(p, q, i + 1);
    } else if p[i] > q[i] {
      assert LargerAt(p, q, i);
      forall k: nat ensures !LargerAt(q, p, k) {}
    } else {
      assert LargerAt(q, p, i);
      forall k: nat ensures !LargerAt(p, q, k) {}
    }
  }

  /** Coefficient by coefficient, reduced; the sum is trimmed and no longer than the longer summand. */
  ghost predicate IsSum(r: seq<int>, p: seq<int>, q: seq<int>, m: Modulus)
    requires ValidModulus(m)
  {
    && Trimmed(r) && (|r| <= |p| || |r| <= |q|)
    && forall i :: Co(r, i) == Reduce(Co(p, i) + Co(q, i), m)
  }

  method Add(p: seq<int>, q: seq<int>, m: Modulus) returns (r: seq<int>)
    requires ValidModulus(m) && |p| >= 1 && |q| >= 1
    ensures IsSum(r, p, q, m)
    decreases if Compare(p, q) == Less then 1 else 0
  {
    if Compare(p, q) == Less {
      CompareExactly(p, q);
      CompareExactly(q, p);
      r := Add(q, p, m);
      return;
    }
    var s := Summed(p, q);
    if m.Mod? { s := AllMod(s, m.m); }
    TrimKeeps(s);
    r := TrimInPlace(s);
    assert forall i :: Co(s, i) == Reduce(Co(p, i) + Co(q, i), m);
  }

  method Summed(p: seq<int>, q: seq<int>) returns (s: seq<int>)
    requires |q| <= |p|
    ensures |s| == |p| && forall i :: Co(s, i) == Co(p, i) + Co(q, i)
  {
    s := [];
    for i := 0 to |q|
      invariant |s| == i && forall k | 0 <= k < i :: s[k] == p[k] + q[k]
    {
      s := s + [p[i] + q[i]];
    }
    for i := |q| to |p|
      invariant |s| == i && forall k | 0 <= k < i :: s[k] == Co(p, k) + Co(q, k)
    {
      s := s + [p[i]];
    }
  }

  method AllMod(p: seq<int>, m: nat) returns (s: seq<int>)
    requires m > 0
    ensures |s| == |p| && forall i :: Co(s, i) == Co(p, i) % m
  {
    s := p;
    for i := 0 to |p|
      invariant |s| == |p|
      invariant forall k | 0 <= k < i :: s[k] == p[k] % m
      invariant forall k | i <= k < |p| :: s[k] == p[k]
    {
      s := s[i := s[i] % m];
    }
  }

  method Neg(p: seq<int>) returns (q: seq<int>)
    ensures |q| == |p| && forall i :: Co(q, i) == -Co(p, i)
  {
    q := [];
    for i := 0 to |p|
      invariant |q| == i && forall k | 0 <= k < i :: q[k] == -p[k]
    {
      q := q + [-p[i]];
    }
  }

  method Sub(p: seq<int>, q: seq<int>, m: Modulus) returns (r: seq<int>)
    requires ValidModulus(m) && |p| >= 1 && |q| >= 1
    ensures Trimmed(r) && (|r| <= |p| || |r| <= |q|)
    ensures forall i :: Co(r, i) == Reduce(Co(p, i) - Co(q, i), m)
  {
    var n := Neg(q);
    r := Add(p, n, m);
  }

  /** The polynomial times x^adjust. */
  function Shifted(p: seq<int>, adjust: nat): (q: seq<int>)
    ensures |q| == |p| + adjust
    ensures forall i :: Co(q, i) == Co(p, i - adjust)
  {
    seq(adjust, _ => 0) + p
  }

  method Clone(p: seq<int>, adjust: int) returns (q: seq<int>)
    requires |p| + adjust >= 0
    ensures q == if adjust < 0 then [0] else Shifted(p, adjust)
  {
    if adjust < 0 { return [0]; }
    q := [];
    for i := 0 to adjust
      invariant |q| == i && forall k | 0 <= k < i :: q[k] == 0
    {
      q := q + [0];
    }
    for i := adjust to |p| + adjust
      invariant |q| == i && forall k | 0 <= k < i :: q[k] == Shifted(p, adjust)[k]
    {
      q := q + [p[i - adjust]];
    }
  }

  function Reduced(p: seq<int>, m: Modulus): (r: seq<int>)
    requires ValidModulus(m)
    ensures |r| == |p| && forall i :: Co(r, i) == Reduce(Co(p, i), m)
  {
    seq(|p|, i requires 0 <= i < |p| => Reduce(p[i], m))
  }

  /** With a modulus, coefficients are reduced and the polynomial is trimmed; without, nothing happens. */
  function Sanitized(p: seq<int>, m: Modulus): seq<int>
    requires ValidModulus(m)
  {
    if m.Integers? then p else Trim(Reduced(p, m))
  }

  lemma SanitizedKeeps(p: seq<int>, m: Modulus)
    requires ValidModulus(m) && |p| >= 1
    ensures |Sanitized(p, m)| >= 1 && (m.Mod? || Trimmed(p) ==> Trimmed(Sanitized(p, m)))
    ensures forall i :: Co(Sanitized(p, m), i) == Reduce(Co(p, i), m)
  {
    if m.Mod? { TrimKeeps(Reduced(p, m)); }
  }

  // ---------- Product ----------

  /** Coefficient `i` of the product. */
  function Conv(q: seq<int>, p: seq<int>, i: int): int
  {
    if p == [] then 0
    else
      var last := |p| - 1;
      Conv(q, p[..last], i) + p[last] * Co(q, i - last)
  }

  lemma {:induction false} ConvUpdated(q: seq<int>, p: seq<int>, k: nat, r: int, i: int)
    requires k < |p|
    ensures Conv(q, p[k := r], i) == Conv(q, p, i) + (r - p[k]) * Co(q, i - k)
  {
    var last := |p| - 1;
    var p' := p[k := r];
    if k < last {
      assert p'[..last] == p[..last][k := r];
      ConvUpdated(q, p[..last], k, r, i);
    } else {
      assert p'[..last] == p[..last];
    }
  }

  lemma {:induction false} ConvOfZeros(q: seq<int>, p: seq<int>, i: int)
    requires forall k | 0 <= k < |p| :: p[k] == 0
    ensures Conv(q, p, i) == 0
  {
    if p != [] { ConvOfZeros(q, p[..|p| - 1], i); }
  }

  /** Zeros at the end of a factor do not count. */
  lemma {:induction false} ConvTrimmed(q: seq<int>, p: seq<int>, i: int)
    requires |p| >= 1
    ensures Conv(q, Trim(p), i) == Conv(q, p, i)
  {
    if |p| > 1 && p[|p| - 1] == 0 { ConvTrimmed(q, p[..|p| - 1], i); }
  }

  lemma {:induction false} ConvOutside(q: seq<int>, p: seq<int>, i: int)
    requires |q| >= 1 && (i < 0 || i >= |p| + |q| - 1)
    ensures Conv(q, p, i) == 0
  {
    if p != [] {
      ConvOutside(q, p[..|p| - 1], i);
      assert Co(q, i - (|p| - 1)) == 0;
    }
  }

  lemma ReduceLeft(a: int, b: int, m: Modulus)
    requires ValidModulus(m)
    ensures Reduce(Reduce(a, m) + b, m) == Reduce(a + b, m)
  {
    if m.Mod? { AddLeft(a, b, m.m); }
  }

  lemma ReduceTwice(a: int, m: Modulus)
    requires ValidModulus(m)
    ensures Reduce(Reduce(a, m), m) == Reduce(a, m)
  {
    ReduceLeft(a, 0, m);
  }

  /** Adds `a` times `q`, shifted, coefficient by coefficient. */
  method AddRow(r: seq<int>, a: int, q: seq<int>, shift: nat, m: Modulus) returns (r': seq<int>)
    requires ValidModulus(m) && shift + |q| <= |r|
    requires forall k | 0 <= k < |r| :: Reduce(r[k], m) == r[k]
    ensures |r'| == |r| && forall k | 0 <= k < |r| :: r'[k] == Reduce(r[k] + a * Co(q, k - shift), m)
  {
    r' := r;
    for j := 0 to |q|
      invariant |r'| == |r|
      invariant forall k | 0 <= k < shift + j :: r'[k] == Reduce(r[k] + a * Co(q, k - shift), m)
      invariant forall k | shift + j <= k < |r| :: r'[k] == r[k]
      invariant forall k | 0 <= k < shift :: r'[k] == r[k]
    {
      var c := a * q[j] + r'[shift + j];
      r' := r'[shift + j := if m.Mod? then c % m.m else c];
    }
  }

  /** The sum of the first `i` rows of the product. */
  ghost predicate Rows(s: seq<int>, a: seq<int>, b: seq<int>, i: nat, m: Modulus)
    requires ValidModulus(m)
  {
    && i <= |a| && |b| >= 1 && |s| == |a| + |b| - 1
    && forall k | 0 <= k < |s| :: s[k] == Reduce(Conv(b, a[..i], k), m)
  }

  lemma RowsReduced(s: seq<int>, a: seq<int>, b: seq<int>, i: nat, m: Modulus)
    requires ValidModulus(m) && Rows(s, a, b, i, m)
    ensures forall k | 0 <= k < |s| :: Reduce(s[k], m) == s[k]
  {
    forall k | 0 <= k < |s| ensures Reduce(s[k], m) == s[k] {
      ReduceTwice(Conv(b, a[..i], k), m);
    }
  }

  lemma RowAdded(s: seq<int>, s': seq<int>, a: seq<int>, b: seq<int>, i: nat, m: Modulus)
    requires ValidModulus(m) && Rows(s, a, b, i, m) && i < |a|
    requires |s'| == |s| && forall k | 0 <= k < |s| :: s'[k] == Reduce(s[k] + a[i] * Co(b, k - i), m)
    ensures Rows(s', a, b, i + 1, m)
  {
    forall k | 0 <= k < |s'| ensures s'[k] == Reduce(Conv(b, a[..i + 1], k), m) {
      assert a[..i + 1][..i] == a[..i];
      ReduceLeft(Conv(b, a[..i], k), a[i] * Co(b, k - i), m);
    }
  }

  lemma AllRows(s: seq<int>, a: seq<int>, b: seq<int>, m: Modulus)
    requires ValidModulus(m) && Rows(s, a, b, |a|, m)
    ensures forall k :: Co(s, k) == Reduce(Conv(b, a, k), m)
  {
    assert a[..|a|] == a;
    forall k ensures Co(s, k) == Reduce(Conv(b, a, k), m) {
      if k < 0 || k >= |s| { ConvOutside(b, a, k); }
    }
  }

  method Mul(p: seq<int>, q: seq<int>, m: Modulus) returns (r: seq<int>)
    requires ValidModulus(m) && |p| >= 1 && |q| >= 1
    ensures Trimmed(r)
    ensures forall k :: Co(r, k) == Reduce(Conv(Sanitized(q, m), Sanitized(p, m), k), m)
  {
    SanitizedKeeps(p, m);
    SanitizedKeeps(q, m);
    var a, b := Sanitized(p, m), Sanitized(q, m);
    var s := seq(|a| + |b| - 1, _ => 0);
    for i := 0 to |a|
      invariant Rows(s, a, b, i, m)
    {
      RowsReduced(s, a, b, i, m);
      ghost var before := s;
      s := AddRow(s, a[i], b, i, m);
      RowAdded(before, s, a, b, i, m);
    }
    AllRows(s, a, b, m);
    TrimKeeps(s);
    r := TrimInPlace(s);
  }

  // ---------- Division ----------

  /** The inverse, or zero when there is none. */
  function ModInverse(a: int, m: nat, from: nat): nat
    requires 0 < m && from <= m
    decreases m - from
  {
    if from == m then 0 else if (a * from) % m == 1 then from else ModInverse(a, m, from + 1)
  }

  lemma {:induction false} InverseFound(a: int, m: nat, from: nat, x: nat)
    requires from <= x < m && (a * x) % m == 1
    ensures ModInverse(a, m, from) < m && (a * ModInverse(a, m, from)) % m == 1
    decreases m - from
  {
    if (a * from) % m != 1 { InverseFound(a, m, from + 1, x); }
  }

  lemma {:induction false} InverseOrZero(a: int, m: nat, from: nat)
    requires 0 < m && from <= m
    ensures ModInverse(a, m, from) == 0 || (a * ModInverse(a, m, from)) % m == 1
    decreases m - from
  {
    if from < m && (a * from) % m != 1 { InverseOrZero(a, m, from + 1); }
  }

  /** The factor for one step: what the highest coefficient of `t` is of that of `q`. */
  function Factor(t: int, q: int, m: Modulus): int
    requires ValidModulus(m) && (m.Integers? ==> q != 0)
  {
    if m.Mod? then (ModInverse(q, m.m, 0) * t) % m.m else t / q
  }

  /** Over the integers a step leaves the remainder at the place of the highest coefficient. */
  lemma IntegerLead(t: int, q: int)
    requires q != 0
    ensures t - Factor(t, q, Integers) * q == t % q
    ensures 0 <= t % q < if q > 0 then q else -q
  {
    assert t == t / q * q + t % q;
  }

  /** With a modulus it leaves zero there, unless the factor was zero. */
  lemma ModularLead(t: int, q: int, m: nat)
    requires 0 <= t < m && Factor(t, q, Mod(m)) != 0
    ensures (t - (Factor(t, q, Mod(m)) * q) % m) % m == 0
  {
    var inv := ModInverse(q, m, 0);
    InverseOrZero(q, m, 0);
    ZeroTimes(inv, t, m);
    LeadIsRestored(t, q, inv, m);
    DifferenceWithItself(t, m);
  }

  lemma DifferenceWithItself(t: int, m: nat)
    requires m > 0
    ensures (t - t) % m == 0
  {
  }

  lemma ZeroTimes(a: int, b: int, m: nat)
    requires m > 0
    ensures (a * b) % m != 0 ==> a != 0
  {
    if a == 0 { assert a * b == 0; }
  }

  lemma LeadIsRestored(t: int, q: int, inv: int, m: nat)
    requires 0 <= t < m && (q * inv) % m == 1
    ensures ((inv * t) % m * q) % m == t
  {
    MulLeft(inv * t, q, m);
    Rotate(inv, t, q);
    MulLeft(q * inv, t, m);
    Small(t, m);
  }

  lemma Rotate(a: int, b: int, c: int)
    ensures a * b * c == c * a * b
  {
    assert a * b * c == c * (a * b);
    assert c * (a * b) == c * a * b;
  }

  /** Modulo a prime the factor is never zero. */
  lemma PrimeFactor(t: int, q: int, m: nat)
    requires Prime(m) && 0 < t < m && 0 < q < m
    ensures Factor(t, q, Mod(m)) != 0
  {
    var x := PrimeInverse(q, m);
    InverseFound(q, m, 0, x);
    var inv := ModInverse(q, m, 0);
    LeadIsRestored(t, q, inv, m);
    if (inv * t) % m == 0 {
      assert 0 * q == 0;
      Small(0, m);
    }
  }

  lemma Balance(c: int, x: int, t: int, m: Modulus)
    requires ValidModulus(m)
    ensures Reduce(c + x + Reduce(t - Reduce(x, m), m), m) == Reduce(c + t, m)
  {
    if m.Mod? {
      AddLeft(t - x % m.m, c + x, m.m);
      SubRight(c + t + x, x, m.m);
    }
  }

  ghost predicate AllReduced(p: seq<int>, m: Modulus)
  {
    m.Mod? ==> forall i | 0 <= i < |p| :: 0 <= p[i] < m.m
  }

  /** The dividend is the divisor times the quotient so far plus what is left. */
  ghost predicate Splits(p: seq<int>, q: seq<int>, quo: seq<int>, t: seq<int>, m: Modulus)
    requires ValidModulus(m)
  {
    forall i :: Reduce(Co(p, i), m) == Reduce(Conv(q, quo, i) + Co(t, i), m)
  }

  /** Over the integers: the highest coefficient no longer holds a multiple of the divisor's. */
  ghost predicate Stuck(t: seq<int>, q: seq<int>, m: Modulus)
    requires |q| >= 1
  {
    m.Integers? && |t| >= |q| && 0 < t[|t| - 1] < if q[|q| - 1] > 0 then q[|q| - 1] else -q[|q| - 1]
  }

  ghost predicate OpenPlaces(quo: seq<int>, t: seq<int>, q: seq<int>, m: Modulus)
    requires |q| >= 1
  {
    Stuck(t, q, m) || IsZero(t) || forall k | 0 <= k < |quo| && k <= |t| - |q| :: quo[k] == 0
  }

  method Scaled(q: seq<int>, rd: nat, r: int, m: Modulus) returns (u: seq<int>)
    requires ValidModulus(m)
    ensures |u| == |q| + rd && forall i :: Co(u, i) == Reduce(r * Co(q, i - rd), m)
  {
    u := Clone(q, rd);
    for i := rd to |u|
      invariant |u| == |q| + rd
      invariant forall k | 0 <= k < rd :: u[k] == 0
      invariant forall k | rd <= k < i :: u[k] == Reduce(r * Co(q, k - rd), m)
      invariant forall k | i <= k < |u| :: u[k] == Co(q, k - rd)
    {
      u := u[i := if m.Mod? then u[i] * r % m.m else u[i] * r];
    }
    assert r * 0 == 0 && Reduce(0, m) == 0;
  }

  lemma SplitsOn(p: seq<int>, q: seq<int>, quo: seq<int>, t: seq<int>, t': seq<int>, rd: nat, r: int, m: Modulus)
    requires ValidModulus(m) && Splits(p, q, quo, t, m) && rd < |quo| && quo[rd] == 0
    requires forall i :: Co(t', i) == Reduce(Co(t, i) - Reduce(r * Co(q, i - rd), m), m)
    ensures Splits(p, q, quo[rd := r], t', m)
  {
    forall i ensures Reduce(Co(p, i), m) == Reduce(Conv(q, quo[rd := r], i) + Co(t', i), m) {
      ConvUpdated(q, quo, rd, r, i);
      Balance(Conv(q, quo, i), r * Co(q, i - rd), Co(t, i), m);
    }
  }

  lemma SplitsAtFirst(p: seq<int>, q: seq<int>, quo: seq<int>, m: Modulus)
    requires ValidModulus(m) && forall k | 0 <= k < |quo| :: quo[k] == 0
    ensures Splits(p, q, quo, p, m)
  {
    forall i ensures Conv(q, quo, i) == 0 { ConvOfZeros(q, quo, i); }
  }

  /** One step takes the highest coefficient away, or leaves a remainder there at which the next step stops. */
  lemma StepLead(t: seq<int>, q: seq<int>, t': seq<int>, r: int, m: Modulus)
    requires ValidModulus(m) && |q| >= 1 && |t| >= |q| && (m.Integers? ==> q[|q| - 1] != 0)
    requires AllReduced(t, m) && r == Factor(t[|t| - 1], q[|q| - 1], m) != 0
    requires Trimmed(t') && |t'| <= |t|
    requires forall i :: Co(t', i) == Reduce(Co(t, i) - Reduce(r * Co(q, i - (|t| - |q|)), m), m)
    ensures |t'| < |t| || IsZero(t') || Stuck(t', q, m)
  {
    var td := |t| - 1;
    assert Co(t', td) == Reduce(t[td] - Reduce(r * q[|q| - 1], m), m);
    if m.Integers? { IntegerLead(t[td], q[|q| - 1]); } else { ModularLead(t[td], q[|q| - 1], m.m); }
  }

  /** A stuck dividend gives a zero factor. */
  lemma StuckStops(t: seq<int>, q: seq<int>, m: Modulus)
    requires |q| >= 1 && q[|q| - 1] != 0 && Stuck(t, q, m)
    ensures Factor(t[|t| - 1], q[|q| - 1], m) == 0
  {
    var a, b := t[|t| - 1], q[|q| - 1];
    assert a == a / b * b + a % b;
    if b > 0 { SmallQuotient(a, b); } else { SmallQuotient(a, -b); }
  }

  lemma SmallQuotient(a: int, b: int)
    requires 0 < a < b
    ensures a / b == 0 && a / (-b) == 0
  {
  }

  lemma PlacesStayOpen(quo: seq<int>, t: seq<int>, t': seq<int>, q: seq<int>, r: int, m: Modulus)
    requires |q| >= 1 && OpenPlaces(quo, t, q, m) && !Stuck(t, q, m) && !IsZero(t)
    requires |t| - |q| < |quo| && |t| >= |q| && (|t'| < |t| || IsZero(t') || Stuck(t', q, m))
    ensures OpenPlaces(quo[|t| - |q| := r], t', q, m)
  {
  }

  /** How much is left to do. */
  function Work(t: seq<int>, q: seq<int>, m: Modulus): nat
    requires |q| >= 1
  {
    2 * |t| + if IsZero(t) || (m.Integers? && |t| >= |q| && 0 < t[|t| - 1] < if q[|q| - 1] > 0 then q[|q| - 1] else -q[|q| - 1])
      then 0 else 1
  }

  /** What is left is zero or of lower degree than the divisor. */
  ghost predicate Finished(rem: seq<int>, q: seq<int>)
  {
    |rem| < |q| || forall i :: Co(rem, i) == 0
  }

  /** The result of a division: either nothing is divided, or the identity holds with a small remainder. */
  ghost predicate Divided(p: seq<int>, q: seq<int>, quo: seq<int>, rem: seq<int>, m: Modulus)
    requires ValidModulus(m)
  {
    && |quo| >= 1 && |rem| >= 1 && Splits(p, q, quo, rem, m)
    && ((quo == [0] && rem == p) || Finished(rem, q))
  }

  lemma NothingDivided(p: seq<int>, q: seq<int>, m: Modulus)
    requires ValidModulus(m) && |p| >= 1
    ensures Divided(p, q, [0], p, m)
  {
    SplitsAtFirst(p, q, [0], m);
  }

  lemma TrimmedDivides(p: seq<int>, q: seq<int>, quo: seq<int>, t: seq<int>, m: Modulus)
    requires ValidModulus(m) && |quo| >= 1 && |t| >= 1 && Splits(p, q, quo, t, m)
    requires |t| < |q| || IsZero(t)
    ensures Divided(p, q, Trim(quo), Trim(t), m) && Finished(Trim(t), q)
  {
    TrimKeeps(quo);
    TrimKeeps(t);
    TrimmedSplits(p, q, quo, t, m);
    if IsZero(t) { ZeroIsFinished(t, q); }
  }

  lemma ZeroIsFinished(t: seq<int>, q: seq<int>)
    requires IsZero(t)
    ensures Trim(t) == t && Finished(t, q)
  {
  }

  lemma TrimmedSplits(p: seq<int>, q: seq<int>, quo: seq<int>, t: seq<int>, m: Modulus)
    requires ValidModulus(m) && |quo| >= 1 && |t| >= 1 && Splits(p, q, quo, t, m)
    ensures Splits(p, q, Trim(quo), Trim(t), m)
  {
    TrimKeeps(t);
    var quo', t' := Trim(quo), Trim(t);
    forall i ensures Conv(q, quo', i) == Conv(q, quo, i) { ConvTrimmed(q, quo, i); }
    SplitsByCoefficients(p, q, quo, t, quo', t', m);
  }

  lemma SplitsByCoefficients(p: seq<int>, q: seq<int>, quo: seq<int>, t: seq<int>, quo': seq<int>, t': seq<int>, m: Modulus)
    requires ValidModulus(m) && Splits(p, q, quo, t, m)
    requires forall i :: Conv(q, quo', i) == Conv(q, quo, i)
    requires forall i :: Co(t', i) == Co(t, i)
    ensures Splits(p, q, quo', t', m)
  {
  }

  /** A prime modulus and a divisor that is not zero: the factor of every step exists. */
  lemma PrimeSteps(t: seq<int>, q: seq<int>, m: Modulus)
    requires m.Mod? && Prime(m.m) && Trimmed(t) && Trimmed(q) && !IsZero(t) && !IsZero(q)
    requires AllReduced(t, m) && AllReduced(q, m)
    ensures Factor(t[|t| - 1], q[|q| - 1], m) != 0
  {
    PrimeFactor(t[|t| - 1], q[|q| - 1], m.m);
  }

  // ---------- When integers divide ----------

  /** `p` is a multiple of `q` with integer coefficients plus something zero or of lower degree. */
  ghost predicate Divisible(p: seq<int>, q: seq<int>)
  {
    exists quo, rem :: DividesBy(p, q, quo, rem)
  }

  ghost predicate DividesBy(p: seq<int>, q: seq<int>, quo: seq<int>, rem: seq<int>)
  {
    Splits(p, q, quo, rem, Integers) && Finished(rem, q)
  }

  function Padded(p: seq<int>, n: nat): seq<int>
  {
    seq(n, i => Co(p, i))
  }

  lemma {:induction false} ConvPadded(q: seq<int>, p: seq<int>, n: nat, i: int)
    requires |p| <= n
    ensures Conv(q, Padded(p, n), i) == Conv(q, p, i)
    decreases n
  {
    if n == |p| {
      assert Padded(p, n) == p;
    } else {
      assert Padded(p, n)[..n - 1] == Padded(p, n - 1);
      ConvPadded(q, p, n - 1, i);
    }
  }

  function Minus(a: seq<int>, b: seq<int>): seq<int>
    requires |a| == |b|
  {
    seq(|a|, i requires 0 <= i < |a| => a[i] - b[i])
  }

  lemma {:induction false} ConvMinus(q: seq<int>, a: seq<int>, b: seq<int>, i: int)
    requires |a| == |b|
    ensures Conv(q, Minus(a, b), i) == Conv(q, a, i) - Conv(q, b, i)
  {
    if a != [] {
      var last := |a| - 1;
      assert Minus(a, b)[..last] == Minus(a[..last], b[..last]);
      ConvMinus(q, a[..last], b[..last], i);
      assert (a[last] - b[last]) * Co(q, i - last) == a[last] * Co(q, i - last) - b[last] * Co(q, i - last);
    }
  }

  lemma ConvTop(q: seq<int>, d: seq<int>)
    requires |q| >= 1 && |d| >= 1
    ensures Conv(q, d, |d| + |q| - 2) == d[|d| - 1] * q[|q| - 1]
  {
    ConvOutside(q, d[..|d| - 1], |d| + |q| - 2);
  }

  /** Two ways to split the same dividend differ by a multiple of the divisor. */
  lemma Difference(p: seq<int>, q: seq<int>, quo: seq<int>, t: seq<int>, quo': seq<int>, t': seq<int>) returns (d: seq<int>)
    requires Splits(p, q, quo, t, Integers) && Splits(p, q, quo', t', Integers)
    ensures Trimmed(d) && forall i :: Co(t, i) == Conv(q, d, i) + Co(t', i)
  {
    var n := 1 + |quo| + |quo'|;
    var all := Minus(Padded(quo', n), Padded(quo, n));
    d := Trim(all);
    TrimKeeps(all);
    forall i ensures Co(t, i) == Conv(q, d, i) + Co(t', i) {
      ConvTrimmed(q, all, i);
      ConvMinus(q, Padded(quo', n), Padded(quo, n), i);
      ConvPadded(q, quo', n, i);
      ConvPadded(q, quo, n, i);
      assert Reduce(Co(p, i), Integers) == Reduce(Conv(q, quo, i) + Co(t, i), Integers);
      assert Reduce(Co(p, i), Integers) == Reduce(Conv(q, quo', i) + Co(t', i), Integers);
    }
  }

  lemma NotBetween(d: int, q: int, t: int)
    requires t == d * q && q != 0
    ensures !(0 < t < if q > 0 then q else -q)
  {
    if d >= 1 {
      assert d * q == q + (d - 1) * q;
      if q > 0 { assert (d - 1) * q >= 0; } else { assert (d - 1) * q <= 0; }
    } else if d <= -1 {
      assert d * q == -q + (d + 1) * q;
      if q > 0 { assert (d + 1) * q <= 0; } else { assert (d + 1) * q >= 0; }
    }
  }

  /** No multiple of the divisor leaves what a stuck division has left. */
  lemma StuckDiffers(q: seq<int>, d: seq<int>, t: seq<int>, rem: seq<int>) returns (i: int)
    requires |q| >= 1 && q[|q| - 1] != 0 && Trimmed(d) && Stuck(t, q, Integers) && Finished(rem, q)
    ensures Co(t, i) != Conv(q, d, i) + Co(rem, i)
  {
    var top, td := |d| + |q| - 2, |t| - 1;
    ConvTop(q, d);
    if top < td {
      ConvOutside(q, d, td);
      i := td;
    } else {
      i := top;
      NotBetween(d[|d| - 1], q[|q| - 1], d[|d| - 1] * q[|q| - 1]);
      NoZeroProduct(d[|d| - 1], q[|q| - 1]);
    }
  }

  lemma NoZeroProduct(d: int, q: int)
    requires q != 0
    ensures d * q == 0 ==> d == 0
  {
  }

  /** A stuck division has no integer quotient. */
  lemma StuckIsIndivisible(p: seq<int>, q: seq<int>, quo: seq<int>, t: seq<int>)
    requires |q| >= 1 && q[|q| - 1] != 0 && Splits(p, q, quo, t, Integers) && Stuck(t, q, Integers)
    ensures !Divisible(p, q)
  {
    forall quo', rem ensures !DividesBy(p, q, quo', rem) {
      if DividesBy(p, q, quo', rem) {
        var d := Difference(p, q, quo, t, quo', rem);
        var i := StuckDiffers(q, d, t, rem);
        assert false;
      }
    }
  }

  /** A zero factor over the integers: the division is stuck. */
  lemma ZeroFactorIsStuck(t: seq<int>, q: seq<int>)
    requires |q| >= 1 && q[|q| - 1] != 0 && |t| >= |q| && Trimmed(t) && !IsZero(t)
    requires Factor(t[|t| - 1], q[|q| - 1], Integers) == 0
    ensures Stuck(t, q, Integers)
  {
    IntegerLead(t[|t| - 1], q[|q| - 1]);
  }

  /** `Div` keeps the identity dividend == divisor * quotient + remainder over the integers and modulo m, with a remainder that is
      zero or of lower degree unless it gave up. Modulo a prime it never gives up on a divisor that is not zero. Over the
      integers it gives up exactly when no integer quotient exists, or the dividend has a leading zero; a leading zero of the
      divisor makes it divide by zero. */
  method Div(p0: seq<int>, q0: seq<int>, m: Modulus) returns (panicked: bool, quo: seq<int>, rem: seq<int>)
    requires ValidModulus(m) && |p0| >= 1 && |q0| >= 1
    ensures panicked <==> m.Integers? && !Trimmed(q0) && |p0| >= |q0|
    ensures !panicked ==> Divided(Sanitized(p0, m), Sanitized(q0, m), quo, rem, m)
    ensures m.Mod? && Prime(m.m) && !IsZero(Sanitized(q0, m)) ==> Finished(rem, Sanitized(q0, m))
    ensures !panicked && m.Integers? && Trimmed(p0) && !IsZero(q0) ==> (Finished(rem, q0) <==> Divisible(p0, q0))
    ensures !panicked && m.Integers? && !Trimmed(p0) && |p0| >= |q0| ==> quo == [0] && rem == p0
  {
    SanitizedKeeps(p0, m);
    SanitizedKeeps(q0, m);
    SanitizedReduced(p0, m);
    SanitizedReduced(q0, m);
    var p, q := Sanitized(p0, m), Sanitized(q0, m);
    if |p| < |q| || IsZero(q) {
      NothingDivided(p, q, m);
      if m.Integers? { WithoutDividing(p, q); }
      return false, [0], p;
    }
    panicked, quo, rem := DivReduced(p, q, m);
  }

  lemma WithoutDividing(p: seq<int>, q: seq<int>)
    ensures Finished(p, q) ==> Divisible(p, q)
  {
    SplitsAtFirst(p, q, [0], Integers);
    assert Finished(p, q) ==> DividesBy(p, q, [0], p);
  }

  method DivReduced(p: seq<int>, q: seq<int>, m: Modulus) returns (panicked: bool, quo: seq<int>, rem: seq<int>)
    requires ValidModulus(m) && |p| >= |q| >= 1 && !IsZero(q)
    requires AllReduced(p, m) && AllReduced(q, m) && (m.Mod? ==> Trimmed(p) && Trimmed(q))
    ensures panicked <==> m.Integers? && !Trimmed(q)
    ensures !panicked ==> Divided(p, q, quo, rem, m)
    ensures m.Mod? && Prime(m.m) ==> Finished(rem, q)
    ensures !panicked && m.Integers? && Trimmed(p) ==> (Finished(rem, q) <==> Divisible(p, q))
    ensures !panicked && m.Integers? && !Trimmed(p) ==> quo == [0] && rem == p
  {
    quo := seq(|p| - |q| + 1, _ => 0);
    var t := p;
    SplitsAtFirst(p, q, quo, m);
    while !(|t| - |q| < 0 || IsZero(t))
      invariant 1 <= |t| <= |p| && |quo| == |p| - |q| + 1
      invariant AllReduced(t, m) && (Trimmed(p) ==> Trimmed(t))
      invariant !(Trimmed(p) && Trimmed(q)) ==> t == p
      invariant Splits(p, q, quo, t, m) && OpenPlaces(quo, t, q, m)
      decreases Work(t, q, m)
    {
      var rd := |t| - |q|;
      if m.Integers? && q[|q| - 1] == 0 { return true, [0], p; }
      var r := Factor(t[|t| - 1], q[|q| - 1], m);
      if m.Mod? && Prime(m.m) { PrimeSteps(t, q, m); }
      if r == 0 {
        NothingDivided(p, q, m);
        if m.Integers? && Trimmed(p) { GivesUp(p, q, quo, t); }
        return false, [0], p;
      }
      NotGivenUp(p, q, t, r, m);
      var u := Scaled(q, rd, r, m);
      var t' := Sub(t, u, m);
      SplitsOn(p, q, quo, t, t', rd, r, m);
      StepLead(t, q, t', r, m);
      DifferenceReduced(t, u, t', m);
      PlacesStayOpen(quo, t, t', q, r, m);
      t := t';
      quo := quo[rd := r];
    }
    TrimmedDivides(p, q, quo, t, m);
    rem := TrimInPlace(t);
    quo := TrimInPlace(quo);
    panicked := false;
    if m.Integers? { assert DividesBy(p, q, quo, rem); }
  }

  lemma GivesUp(p: seq<int>, q: seq<int>, quo: seq<int>, t: seq<int>)
    requires |q| >= 1 && q[|q| - 1] != 0 && |t| >= |q| && Trimmed(t) && !IsZero(t)
    requires Splits(p, q, quo, t, Integers) && Factor(t[|t| - 1], q[|q| - 1], Integers) == 0
    ensures !Finished(p, q) && !Divisible(p, q)
  {
    ZeroFactorIsStuck(t, q);
    StuckIsIndivisible(p, q, quo, t);
    WithoutDividing(p, q);
  }

  lemma NotGivenUp(p: seq<int>, q: seq<int>, t: seq<int>, r: int, m: Modulus)
    requires ValidModulus(m) && |t| >= |q| >= 1 && (m.Integers? ==> q[|q| - 1] != 0)
    requires r == Factor(t[|t| - 1], q[|q| - 1], m) != 0 && |p| >= 1
    requires (m.Mod? ==> Trimmed(p) && Trimmed(q)) && (!Trimmed(p) ==> t == p)
    ensures Trimmed(p) && Trimmed(q) && !Stuck(t, q, m)
  {
    if Stuck(t, q, m) { StuckStops(t, q, m); }
  }

  lemma SanitizedReduced(p: seq<int>, m: Modulus)
    requires ValidModulus(m) && |p| >= 1
    ensures AllReduced(Sanitized(p, m), m)
  {
    SanitizedKeeps(p, m);
    var s := Sanitized(p, m);
    forall i | 0 <= i < |s| && m.Mod? ensures 0 <= s[i] < m.m {
      assert s[i] == Co(s, i) == Reduce(Co(p, i), m);
    }
  }

  lemma DifferenceReduced(t: seq<int>, u: seq<int>, t': seq<int>, m: Modulus)
    requires ValidModulus(m) && forall i :: Co(t', i) == Reduce(Co(t, i) - Co(u, i), m)
    ensures AllReduced(t', m)
  {
    forall i | 0 <= i < |t'| && m.Mod? ensures 0 <= t'[i] < m.m {
      assert t'[i] == Co(t', i);
    }
  }
}
