/** Exact decimal arithmetic: digit sequences, powers of ten and JSON number spellings. */
module Decimals {
  import opened Sequences

  ghost predicate Digits(ds: seq<int>) {
    forall i :: 0 <= i < |ds| ==> 0 <= ds[i] < 10
  }

  ghost predicate AllZeros(ds: seq<int>) {
    forall i :: 0 <= i < |ds| ==> ds[i] == 0
  }

  ghost function Pow10(n: nat): (r: nat)
    ensures r >= 1
  {
    if n == 0 then 1 else 10 * Pow10(n - 1)
  }

  /** The number a sequence of digits denotes. */
  ghost function Value(ds: seq<int>): int {
    if ds == [] then 0 else Value(ds[..|ds| - 1]) * 10 + ds[|ds| - 1]
  }

  /** The position of the first digit that is not zero, or the length. */
  ghost function Lead(ds: seq<int>): (r: nat)
    ensures r <= |ds|
  {
    if ds == [] then 0
    else
      var r := Lead(ds[..|ds| - 1]);
      if r < |ds| - 1 || ds[|ds| - 1] != 0 then r else |ds|
  }

  /** The number of zeros at the end. */
  ghost function Trail(ds: seq<int>): (r: nat)
    ensures r <= |ds|
  {
    if ds == [] || ds[|ds| - 1] != 0 then 0 else 1 + Trail(ds[..|ds| - 1])
  }

  lemma {:induction false} LeadMeans(ds: seq<int>)
    ensures AllZeros(ds[..Lead(ds)]) && (Lead(ds) < |ds| ==> ds[Lead(ds)] != 0)
  {
    if ds != [] {
      var c := ds[..|ds| - 1];
      LeadMeans(c);
      if Lead(c) == |c| && ds[|ds| - 1] == 0 { assert forall i :: 0 <= i < |c| ==> ds[i] == c[..Lead(c)][i]; }
      else { assert ds[..Lead(c)] == c[..Lead(c)]; }
    }
  }

  lemma {:induction false} TrailMeans(ds: seq<int>)
    ensures AllZeros(ds[|ds| - Trail(ds)..]) && (Trail(ds) < |ds| ==> ds[|ds| - 1 - Trail(ds)] != 0)
  {
    if ds != [] && ds[|ds| - 1] == 0 {
      var c := ds[..|ds| - 1];
      TrailMeans(c);
      assert ds[|ds| - Trail(ds)..] == c[|c| - Trail(c)..] + [0];
    }
  }

  lemma {:induction false} PowAdd(a: nat, b: nat)
    ensures Pow10(a + b) == Pow10(a) * Pow10(b)
  {
    if a > 0 {
      PowAdd(a - 1, b);
      assert Pow10(a + b) == 10 * Pow10(a - 1 + b);
    }
  }

  lemma {:induction false} PowMonotone(a: nat, b: nat)
    requires a <= b
    ensures Pow10(a) <= Pow10(b)
  {
    if a < b { PowMonotone(a, b - 1); }
  }

  lemma {:induction false} ValueJoin(a: seq<int>, b: seq<int>)
    ensures Value(a + b) == Value(a) * Pow10(|b|) + Value(b)
  {
    if b == [] {
      assert a + b == a;
    } else {
      var c := b[..|b| - 1];
      ValueJoin(a, c);
      assert (a + b)[..|a + b| - 1] == a + c;
      assert Value(a) * Pow10(|b|) == Value(a) * Pow10(|c|) * 10;
    }
  }

  lemma {:induction false} ValueZeros(ds: seq<int>)
    requires AllZeros(ds)
    ensures Value(ds) == 0
  {
    if ds != [] { ValueZeros(ds[..|ds| - 1]); }
  }

  lemma {:induction false} ValueBelow(ds: seq<int>)
    requires Digits(ds)
    ensures 0 <= Value(ds) < Pow10(|ds|)
  {
    if ds != [] { ValueBelow(ds[..|ds| - 1]); }
  }

  lemma {:induction false} ValueAtLeast(ds: seq<int>)
    requires Digits(ds) && ds != [] && ds[0] != 0
    ensures Value(ds) >= Pow10(|ds| - 1)
  {
    if |ds| == 1 {
      assert ds[..0] == [];
    } else {
      ValueAtLeast(ds[..|ds| - 1]);
    }
  }

  /** A number that does not start or end in zero. */
  ghost predicate Normal(m: seq<int>) {
    Digits(m) && m != [] && m[0] != 0 && m[|m| - 1] != 0
  }

  lemma NormalValue(m: seq<int>)
    requires Normal(m)
    ensures Value(m) % 10 != 0 && m != [] && 1 <= Pow10(|m| - 1) <= Value(m) < Pow10(|m|)
  {
    ValueBelow(m);
    ValueAtLeast(m);
    assert Value(m) == Value(m[..|m| - 1]) * 10 + m[|m| - 1];
    LastDigit(Value(m[..|m| - 1]), m[|m| - 1]);
  }

  lemma LastDigit(a: int, d: int)
    requires 0 <= d < 10
    ensures (a * 10 + d) % 10 == d
  {
  }

  lemma Padded(a: seq<int>, m: seq<int>, z: seq<int>)
    requires AllZeros(a) && AllZeros(z)
    ensures Value(a + (m + z)) == Value(m) * Pow10(|z|)
  {
    ValueJoin(a, m + z);
    ValueJoin(m, z);
    ValueZeros(a);
    ValueZeros(z);
    hide Value, Pow10;
  }

  lemma Sandwich(ds: seq<int>, l: nat, t: nat)
    requires l + t <= |ds| && AllZeros(ds[..l]) && AllZeros(ds[|ds| - t..])
    ensures Value(ds) == Value(ds[l..|ds| - t]) * Pow10(t)
  {
    hide *;
    Padded(ds[..l], ds[l..|ds| - t], ds[|ds| - t..]);
    assert ds == ds[..l] + (ds[l..|ds| - t] + ds[|ds| - t..]);
  }

  /** The digits left when the zeros in front and behind are taken away. */
  ghost function Core(ds: seq<int>): seq<int>
    requires Lead(ds) + Trail(ds) <= |ds|
  {
    ds[Lead(ds)..|ds| - Trail(ds)]
  }

  lemma ZeroAt(ds: seq<int>, t: nat, i: nat)
    requires t <= |ds| && AllZeros(ds[|ds| - t..]) && |ds| - t <= i < |ds|
    ensures ds[i] == 0
  {
    assert ds[|ds| - t..][i - (|ds| - t)] == ds[i];
  }

  lemma NormalSlice(ds: seq<int>, l: nat, u: nat)
    requires Digits(ds) && l < u <= |ds| && ds[l] != 0 && ds[u - 1] != 0
    ensures Normal(ds[l..u])
  {
  }

  /** Zeros in front and behind: the value is that of the digits between, times a power of ten. */
  lemma Trimmed(ds: seq<int>)
    requires Digits(ds) && Lead(ds) < |ds|
    ensures Lead(ds) + Trail(ds) < |ds| && Normal(Core(ds))
    ensures Value(ds) == Value(Core(ds)) * Pow10(Trail(ds))
  {
    hide Digits, Lead, Trail, Value, Pow10, Normal, AllZeros;
    LeadMeans(ds);
    TrailMeans(ds);
    if Lead(ds) >= |ds| - Trail(ds) { ZeroAt(ds, Trail(ds), Lead(ds)); }
    Sandwich(ds, Lead(ds), Trail(ds));
    NormalSlice(ds, Lead(ds), |ds| - Trail(ds));
  }

  lemma AllZero(ds: seq<int>)
    requires Digits(ds)
    ensures Value(ds) >= 0
    ensures Lead(ds) == |ds| <==> Value(ds) == 0
  {
    hide *;
    if Lead(ds) == |ds| {
      LeadMeans(ds);
      assert ds[..|ds|] == ds;
      ValueZeros(ds);
    } else {
      Trimmed(ds);
      NormalValue(Core(ds));
      Positive(Value(Core(ds)), Pow10(Trail(ds)));
    }
  }

  lemma Positive(a: int, b: int)
    requires a >= 1 && b >= 1
    ensures a * b >= 1
  {
  }

  /** Digit sequences of one length compare as their values do. */
  lemma {:induction false} ValueLess(a: seq<int>, b: seq<int>, k: nat)
    requires Digits(a) && Digits(b) && |a| == |b| && k < |a| && a[..k] == b[..k] && a[k] < b[k]
    ensures Value(a) < Value(b)
  {
    if k == |a| - 1 {
      assert a[..|a| - 1] == b[..|b| - 1];
    } else {
      var c, d := a[..|a| - 1], b[..|b| - 1];
      assert c[..k] == a[..k] && d[..k] == b[..k];
      ValueLess(c, d, k);
    }
  }

  // ---------- JSON number spellings (section 6 of RFC 8259) ----------

  /** The digits before the point and, when there is a point, after it. */
  datatype Mantissa = Mantissa(whole: seq<int>, point: bool, fraction: seq<int>)

  datatype Sign = NoSign | Plus | Minus

  datatype Exponent = NoExponent | Exponent(upper: bool, sign: Sign, digits: seq<int>)

  datatype Number = Number(negative: bool, mantissa: Mantissa, exponent: Exponent)

  ghost predicate WellFormedMantissa(m: Mantissa) {
    && Digits(m.whole) && Digits(m.fraction)
    && m.whole != [] && (|m.whole| > 1 ==> m.whole[0] != 0)
    && (m.point <==> m.fraction != [])
  }

  ghost predicate WellFormed(n: Number) {
    WellFormedMantissa(n.mantissa) && (n.exponent.Exponent? ==> Digits(n.exponent.digits) && n.exponent.digits != [])
  }

  ghost function Ascii(ds: seq<int>): (r: seq<int>)
    ensures |r| == |ds| && forall i :: 0 <= i < |ds| ==> r[i] == 0x30 + ds[i]
  {
    if ds == [] then [] else Ascii(ds[..|ds| - 1]) + [0x30 + ds[|ds| - 1]]
  }

  ghost function SpellMantissa(m: Mantissa): seq<int> {
    Ascii(m.whole) + (if m.point then [0x2e] else []) + Ascii(m.fraction)
  }

  ghost function SpellSign(s: Sign): seq<int> {
    match s case NoSign => [] case Plus => [0x2b] case Minus => [0x2d]
  }

  ghost function SpellExponent(e: Exponent): seq<int> {
    match e
    case NoExponent => []
    case Exponent(upper, sign, digits) => [if upper then 0x45 else 0x65] + SpellSign(sign) + Ascii(digits)
  }

  ghost function Spell(n: Number): seq<int> {
    (if n.negative then [0x2d] else []) + SpellMantissa(n.mantissa) + SpellExponent(n.exponent)
  }

  ghost function AllDigits(m: Mantissa): seq<int> {
    m.whole + m.fraction
  }

  /** The written exponent, as large as it is spelled. */
  ghost function ExponentOf(e: Exponent): int {
    match e
    case NoExponent => 0
    case Exponent(_, sign, digits) => if sign == Minus then -Value(digits) else Value(digits)
  }

  // ---------- the exact value ----------

  datatype ExactInteger = Admitted(value: int) | InvalidType | InvalidFormat

  const MAX_SAFE: nat := 9007199254740991

  ghost function InRange(negative: bool, magnitude: int): ExactInteger {
    if magnitude <= MAX_SAFE then Admitted(if negative then -magnitude else magnitude) else InvalidFormat
  }

  /** c * 10^e is an integer. */
  ghost predicate Integral(c: int, e: int) {
    e >= 0 || c % Pow10(-e) == 0
  }

  ghost function Scaled(c: int, e: int): int
    requires Integral(c, e)
  {
    if e >= 0 then c * Pow10(e) else c / Pow10(-e)
  }

  /** What exact arithmetic says about the spelled number: value = coefficient * 10^(exponent - fraction digits). */
  ghost function Verdict(n: Number): ExactInteger {
    var c, e := Value(AllDigits(n.mantissa)), ExponentOf(n.exponent) - |n.mantissa.fraction|;
    if c == 0 && n.negative then InvalidFormat
    else if c == 0 then Admitted(0)
    else if !Integral(c, e) then InvalidType
    else InRange(n.negative, Scaled(c, e))
  }

  /** m does not end in zero: m * 10^t * 10^e is an integer exactly when t + e is not negative. */
  lemma IntegralShift(m: int, t: nat, e: int)
    requires m % 10 != 0
    ensures Integral(m * Pow10(t), e) <==> t + e >= 0
    ensures t + e >= 0 ==> Scaled(m * Pow10(t), e) == m * Pow10(t + e)
  {
    if e >= 0 {
      PowAdd(t, e);
      Associate(m, Pow10(t), Pow10(e));
    } else if t + e >= 0 {
      PowAdd(t + e, -e);
      Associate(m, Pow10(t + e), Pow10(-e));
      Multiple(m * Pow10(t + e), Pow10(-e));
    } else {
      PowAdd(t, -e - t);
      NotMultiple(m, Pow10(t), -e - t);
    }
  }

  lemma Associate(a: int, b: int, c: int)
    ensures (a * b) * c == a * (b * c)
  {
  }

  lemma Multiple(a: int, b: int)
    requires b >= 1
    ensures (a * b) % b == 0 && (a * b) / b == a
  {
    var q, r := (a * b) / b, (a * b) % b;
    assert a * b == q * b + r;
    assert (a - q) * b == r;
    SmallMultiple(a - q, b, r);
  }

  lemma SmallMultiple(x: int, b: int, r: int)
    requires x * b == r && 0 <= r < b
    ensures x == 0 && r == 0
  {
    assert x >= 1 ==> x * b >= b;
    assert x <= -1 ==> (x + 1) * b <= 0;
  }

  lemma NotMultiple(m: int, p: int, k: nat)
    requires m % 10 != 0 && p >= 1 && k >= 1
    ensures (m * p) % (p * Pow10(k)) != 0
  {
    var d := p * Pow10(k);
    Positive(p, Pow10(k));
    if (m * p) % d == 0 {
      var q := (m * p) / d;
      assert m * p == q * d;
      assert q * d == (q * Pow10(k)) * p by { Associate(q, Pow10(k), p); }
      Cancel(m, q * Pow10(k), p);
      TenDivides(q, k);
    }
  }

  lemma TenDivides(q: int, k: nat)
    requires k >= 1
    ensures (q * Pow10(k)) % 10 == 0
  {
    var p := Pow10(k - 1);
    assert Pow10(k) == 10 * p;
    hide Pow10;
    Associate(q, p, 10);
    LastDigit(q * p, 0);
  }

  lemma Cancel(a: int, b: int, p: nat)
    requires a * p == b * p && p >= 1
    ensures a == b
  {
    assert (a - b) * p == 0;
    SmallMultiple(a - b, p, 0);
  }
}
