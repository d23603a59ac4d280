/** Admission of a JSON number as an exact safe integer, straight from its bytes (raw-integer.ts). */
module RawInteger {
  import opened Sequences
  import opened Decimals

  type Bytes = seq<int>

  /** The bytes from start to end spell the number. */
  ghost predicate Spells(bytes: Bytes, start: nat, end: nat, n: Number) {
    start <= end <= |bytes| && WellFormed(n) && bytes[start..end] == Spell(n)
  }

  ghost function SignLength(n: Number): nat { if n.negative then 1 else 0 }

  ghost function Length(m: Mantissa): nat {
    |m.whole| + (if m.point then 1 else 0) + |m.fraction|
  }

  /** The offset of digit i in the spelled mantissa. */
  ghost function Offset(m: Mantissa, i: nat): nat {
    if i < |m.whole| then i else i + 1
  }

  /** How many digits stand before offset o. */
  ghost function DigitsBefore(m: Mantissa, o: nat): nat {
    if o <= |m.whole| then o else o - 1
  }

  /** The mantissa and then the exponent fill the bytes from `at` to `end`. */
  ghost predicate Layout(bytes: Bytes, at: nat, end: nat, m: Mantissa, e: Exponent) {
    && WellFormedMantissa(m) && at + Length(m) <= end <= |bytes|
    && bytes[at..at + Length(m)] == SpellMantissa(m) && bytes[at + Length(m)..end] == SpellExponent(e)
  }

  lemma SpelledLayout(bytes: Bytes, start: nat, end: nat, n: Number)
    requires Spells(bytes, start, end, n)
    ensures Layout(bytes, start + SignLength(n), end, n.mantissa, n.exponent)
    ensures start < end <= |bytes| && (bytes[start] == 0x2d <==> n.negative)
  {
    var m, sign := n.mantissa, if n.negative then [0x2d] else [];
    assert |SpellMantissa(m)| == Length(m);
    assert SpellMantissa(m)[0] == 0x30 + m.whole[0];
    hide SpellMantissa, SpellExponent, WellFormedMantissa, Length;
    Thirds(bytes, start, end, sign, SpellMantissa(m), SpellExponent(n.exponent));
    if !n.negative { assert bytes[start..start + |SpellMantissa(m)|][0] == bytes[start]; }
    else { assert bytes[start..start + 1][0] == bytes[start]; }
  }

  lemma Thirds(s: Bytes, start: nat, end: nat, a: Bytes, b: Bytes, c: Bytes)
    requires start <= end <= |s| && s[start..end] == a + b + c
    ensures start + |a| + |b| + |c| == end
    ensures s[start..start + |a|] == a && s[start + |a|..start + |a| + |b|] == b && s[start + |a| + |b|..end] == c
  {
    var t := a + b + c;
    assert a == t[..|a|] && b == t[|a|..|a| + |b|] && c == t[|a| + |b|..];
    SubSlice(s, start, end, 0, |a|);
    SubSlice(s, start, end, |a|, |a| + |b|);
    SubSlice(s, start, end, |a| + |b|, |t|);
  }

  lemma SubSlice(s: Bytes, start: nat, end: nat, i: nat, j: nat)
    requires start <= end <= |s| && i <= j <= end - start
    ensures s[start..end][i..j] == s[start + i..start + j]
  {
    var t, u := s[start..end][i..j], s[start + i..start + j];
    forall x | 0 <= x < j - i ensures t[x] == u[x] { assert s[start..end][i + x] == s[start + (i + x)]; }
  }

  /** What stands at offset o of the mantissa: a digit, the point, or the letter that starts the exponent. */
  lemma InMantissa(bytes: Bytes, at: nat, end: nat, m: Mantissa, e: Exponent, o: nat)
    requires Layout(bytes, at, end, m, e) && o <= Length(m) && at + o < end
    ensures o == Length(m) <==> bytes[at + o] == 0x65 || bytes[at + o] == 0x45
    ensures o < Length(m) ==> (bytes[at + o] == 0x2e <==> m.point && o == |m.whole|)
    ensures o < Length(m) && bytes[at + o] != 0x2e ==>
      DigitsBefore(m, o) < |AllDigits(m)| && bytes[at + o] == 0x30 + AllDigits(m)[DigitsBefore(m, o)]
  {
    hide Layout, Length, SpellMantissa, SpellExponent, AllDigits;
    if o == Length(m) {
      ExponentByte(bytes, at, end, m, e);
    } else {
      MantissaByte(bytes, at, end, m, e, o);
      SpelledAt(m, o);
    }
  }

  lemma ExponentByte(bytes: Bytes, at: nat, end: nat, m: Mantissa, e: Exponent)
    requires Layout(bytes, at, end, m, e) && at + Length(m) < end
    ensures bytes[at + Length(m)] == 0x65 || bytes[at + Length(m)] == 0x45
  {
    hide SpellMantissa;
    assert bytes[at + Length(m)] == bytes[at + Length(m)..end][0];
    assert SpellExponent(e)[0] == if e.upper then 0x45 else 0x65;
  }

  lemma MantissaByte(bytes: Bytes, at: nat, end: nat, m: Mantissa, e: Exponent, o: nat)
    requires Layout(bytes, at, end, m, e) && o < Length(m)
    ensures WellFormedMantissa(m)
    ensures at + o < end <= |bytes|
    ensures o < |SpellMantissa(m)|
    ensures bytes[at + o] == SpellMantissa(m)[o]
  {
    hide SpellMantissa, SpellExponent;
    assert bytes[at + o] == bytes[at..at + Length(m)][o];
  }

  lemma SpelledAt(m: Mantissa, o: nat)
    requires WellFormedMantissa(m) && o < Length(m)
    ensures |SpellMantissa(m)| == Length(m)
    ensures m.point && o == |m.whole| ==> SpellMantissa(m)[o] == 0x2e
    ensures !(m.point && o == |m.whole|) ==>
      && DigitsBefore(m, o) < |AllDigits(m)| && SpellMantissa(m)[o] == 0x30 + AllDigits(m)[DigitsBefore(m, o)]
      && 0 <= AllDigits(m)[DigitsBefore(m, o)] < 10
  {
  }

  // ---------- the mantissa scan ----------

  datatype Counts = Counts(fractional: bool, fractionalDigits: int, significantStart: int, significantDigits: int,
    trailingZeros: int)

  /** What the scan has counted once it has passed o bytes of the mantissa. */
  ghost function Counted(m: Mantissa, at: nat, end: nat, o: nat): Counts {
    var k := Min(DigitsBefore(m, o), |AllDigits(m)|);
    var ds := AllDigits(m)[..k];
    var fd := if k >= |m.whole| then k - |m.whole| else 0;
    if Lead(ds) == |ds| then Counts(o > |m.whole|, fd, end, 0, 0)
    else Counts(o > |m.whole|, fd, at + Offset(m, Lead(ds)), |ds| - Lead(ds), Trail(ds))
  }

  lemma LeadStep(ds: seq<int>, k: nat)
    requires k < |ds|
    ensures Lead(ds[..k + 1]) == if Lead(ds[..k]) < k || ds[k] != 0 then Lead(ds[..k]) else k + 1
    ensures Trail(ds[..k + 1]) == if ds[k] != 0 then 0 else 1 + Trail(ds[..k])
  {
    assert ds[..k + 1][..k] == ds[..k];
  }

  /** One byte of the mantissa. */
  function Pass(c: Counts, cursor: int, end: int, byte: int): Counts {
    if byte == 0x2e then c.(fractional := true)
    else
      var fd := if c.fractional then c.fractionalDigits + 1 else c.fractionalDigits;
      var start := if c.significantStart == end && byte != 0x30 then cursor else c.significantStart;
      if start == end then Counts(c.fractional, fd, start, c.significantDigits, c.trailingZeros)
      else Counts(c.fractional, fd, start, c.significantDigits + 1, if byte == 0x30 then c.trailingZeros + 1 else 0)
  }

  lemma PassDigit(m: Mantissa, at: nat, end: nat, o: nat, byte: int)
    requires WellFormedMantissa(m) && o < Length(m) && at + Length(m) <= end && !(m.point && o == |m.whole|)
    requires DigitsBefore(m, o) < |AllDigits(m)| && byte == 0x30 + AllDigits(m)[DigitsBefore(m, o)]
    ensures Counted(m, at, end, o + 1) == Pass(Counted(m, at, end, o), at + o, end, byte)
  {
    LeadStep(AllDigits(m), DigitsBefore(m, o));
    DigitAt(m, DigitsBefore(m, o));
    hide Lead, Trail, AllDigits, Digits;
  }

  lemma DigitAt(m: Mantissa, k: nat)
    requires WellFormedMantissa(m) && k < |AllDigits(m)|
    ensures 0 <= AllDigits(m)[k] < 10
  {
  }

  lemma ScanStep(bytes: Bytes, m: Mantissa, e: Exponent, at: nat, end: nat, o: nat)
    requires Layout(bytes, at, end, m, e) && o <= Length(m) && at + o < end
    ensures o == Length(m) <==> bytes[at + o] == 0x65 || bytes[at + o] == 0x45
    ensures o < Length(m) ==> Counted(m, at, end, o + 1) == Pass(Counted(m, at, end, o), at + o, end, bytes[at + o])
  {
    InMantissa(bytes, at, end, m, e, o);
    if o < Length(m) {
      if bytes[at + o] == 0x2e {
        hide Lead, Trail;
      } else {
        PassDigit(m, at, end, o, bytes[at + o]);
      }
    }
  }

  lemma ScanEnd(m: Mantissa, at: nat, end: nat)
    requires WellFormedMantissa(m) && at + Length(m) <= end
    ensures Counted(m, at, end, 0) == Counts(false, 0, end, 0, 0)
    ensures var c, ds := Counted(m, at, end, Length(m)), AllDigits(m);
            && c.fractionalDigits == |m.fraction|
            && (c.significantStart == end <==> Lead(ds) == |ds|)
            && (Lead(ds) < |ds| ==>
              c.significantStart == at + Offset(m, Lead(ds)) && c.significantDigits == |ds| - Lead(ds)
                && c.trailingZeros == Trail(ds))
  {
    assert AllDigits(m)[..0] == [];
    assert AllDigits(m)[..|AllDigits(m)|] == AllDigits(m);
    hide Lead, Trail;
  }

  lemma LayoutBounds(bytes: Bytes, at: nat, end: nat, m: Mantissa, e: Exponent)
    requires Layout(bytes, at, end, m, e)
    ensures WellFormedMantissa(m) && at + Length(m) <= end <= |bytes|
  {
  }

  datatype Coefficient = Coefficient(exponentStart: int, fractionalDigits: int, significantStart: int,
    significantDigits: int, trailingZeros: int)

  method ScanCoefficient(bytes: Bytes, start: nat, end: nat, ghost m: Mantissa, ghost e: Exponent)
    returns (c: Coefficient)
    requires Layout(bytes, start, end, m, e)
    ensures c.exponentStart == start + Length(m)
    ensures c.fractionalDigits == |m.fraction|
    ensures c.significantStart == end <==> Lead(AllDigits(m)) == |AllDigits(m)|
    ensures var ds := AllDigits(m);
            Lead(ds) < |ds| ==>
              c.significantStart == start + Offset(m, Lead(ds)) && c.significantDigits == |ds| - Lead(ds)
                && c.trailingZeros == Trail(ds)
  {
    hide Layout, WellFormedMantissa, Length, AllDigits, Lead, Trail, Offset, DigitsBefore, Counted, SpellMantissa,
         SpellExponent;
    var cursor, fractional, fractionalDigits := start, false, 0;
    var significantStart, significantDigits, trailingZeros := end, 0, 0;
    LayoutBounds(bytes, start, end, m, e);
    ScanEnd(m, start, end);
    while cursor < end
      invariant start <= cursor <= start + Length(m)
      invariant Counts(fractional, fractionalDigits, significantStart, significantDigits, trailingZeros) ==
        Counted(m, start, end, cursor - start)
    {
      var byte := bytes[cursor];
      ScanStep(bytes, m, e, start, end, cursor - start);
      if byte == 0x65 || byte == 0x45 { break; }
      if byte == 0x2e {
        fractional := true;
      } else {
        if fractional { fractionalDigits := fractionalDigits + 1; }
        if significantStart == end && byte != 0x30 { significantStart := cursor; }
        if significantStart != end {
          significantDigits := significantDigits + 1;
          trailingZeros := if byte == 0x30 then trailingZeros + 1 else 0;
        }
      }
      cursor := cursor + 1;
    }
    c := Coefficient(cursor, fractionalDigits, significantStart, significantDigits, trailingZeros);
  }

  // ---------- the exponent, clamped ----------

  lemma ClampStep(limit: int, v: int, d: int)
    requires limit >= 0 && v >= 0 && d >= 0
    ensures Min(limit, Min(limit, v) * 10 + d) == Min(limit, v * 10 + d)
  {
  }

  lemma NoLetters(e: Exponent)
    ensures SpellExponent(e) == [] <==> e == NoExponent
  {
  }

  lemma ExponentLetters(e: Exponent)
    requires e.Exponent? && e.digits != [] && Digits(e.digits)
    ensures var s, k := SpellExponent(e), 1 + |SpellSign(e.sign)|;
            |s| == k + |e.digits| && (s[1] == 0x2d <==> e.sign == Minus) && (s[1] == 0x2b <==> e.sign == Plus)
  {
    var s := SpellExponent(e);
    assert e.sign == NoSign ==> s[1] == 0x30 + e.digits[0];
  }

  lemma ExponentLetter(e: Exponent, i: nat)
    requires e.Exponent? && i < |e.digits|
    ensures var s, k := SpellExponent(e), |SpellExponent(e)| - |e.digits|; k >= 0 && s[k + i] == 0x30 + e.digits[i]
  {
  }

  lemma ExponentShape(bytes: Bytes, start: nat, end: nat, e: Exponent)
    requires start <= end <= |bytes| && bytes[start..end] == SpellExponent(e)
    requires e.Exponent? && e.digits != [] && Digits(e.digits)
    ensures start + 1 < end
    ensures bytes[start + 1] == 0x2d <==> e.sign == Minus
    ensures bytes[start + 1] == 0x2b <==> e.sign == Plus
    ensures end == start + 1 + (if e.sign == NoSign then 0 else 1) + |e.digits|
    ensures Value(e.digits[..0]) == 0
  {
    ExponentLetters(e);
    hide SpellExponent;
    assert bytes[start + 1] == bytes[start..end][1];
  }

  lemma ExponentDigit(bytes: Bytes, start: nat, end: nat, e: Exponent, k: nat)
    requires start <= end <= |bytes| && bytes[start..end] == SpellExponent(e)
    requires e.Exponent? && Digits(e.digits) && k < |e.digits|
    ensures start + 1 < end - |e.digits| + k + 1
    ensures bytes[end - |e.digits| + k] == 0x30 + e.digits[k]
    ensures e.digits[k] >= 0
    ensures Value(e.digits[..k + 1]) == Value(e.digits[..k]) * 10 + e.digits[k] && Value(e.digits[..k]) >= 0
  {
    hide SpellExponent, Value, Digits;
    ExponentShape(bytes, start, end, e);
    ExponentLetter(e, k);
    assert bytes[end - |e.digits| + k] == bytes[start..end][|SpellExponent(e)| - |e.digits| + k];
    ValueStep(e.digits, k);
  }

  lemma ValueStep(ds: seq<int>, k: nat)
    requires Digits(ds) && k < |ds|
    ensures Value(ds[..k + 1]) == Value(ds[..k]) * 10 + ds[k] && Value(ds[..k]) >= 0 && ds[k] >= 0
  {
    assert ds[..k + 1][..k] == ds[..k];
    ValueBelow(ds[..k]);
  }

  /** The exponent, no further from zero than the limit. */
  ghost function ClampedExponent(e: Exponent, limit: int): int {
    match e
    case NoExponent => 0
    case Exponent(_, sign, digits) => if sign == Minus then -Min(limit, Value(digits)) else Min(limit, Value(digits))
  }

  method ReadExponent(bytes: Bytes, start: nat, end: nat, limit: nat, ghost e: Exponent) returns (r: int)
    requires start <= end <= |bytes| && bytes[start..end] == SpellExponent(e)
    requires e.Exponent? ==> e.digits != [] && Digits(e.digits)
    ensures r == ClampedExponent(e, limit)
  {
    hide Value, SpellExponent, Digits;
    NoLetters(e);
    if start == end { return 0; }
    ExponentShape(bytes, start, end, e);
    ghost var first := end - |e.digits|;
    var cursor := start + 1;
    var negative := bytes[cursor] == 0x2d;
    if negative || bytes[cursor] == 0x2b { cursor := cursor + 1; }
    var exponent := 0;
    while cursor < end
      invariant first <= cursor <= end
      invariant exponent == Min(limit, Value(e.digits[..cursor - first]))
    {
      ExponentDigit(bytes, start, end, e, cursor - first);
      ClampStep(limit, Value(e.digits[..cursor - first]), e.digits[cursor - first]);
      exponent := Min(limit, exponent * 10 + (bytes[cursor] - 0x30));
      cursor := cursor + 1;
    }
    assert e.digits[..|e.digits|] == e.digits;
    r := if negative then -exponent else exponent;
  }

  // ---------- the digits of the integer ----------

  ghost function Zeros(k: nat): (r: seq<int>)
    ensures |r| == k && AllZeros(r)
  {
    seq(k, _ => 0)
  }

  /** The integer's digits: what is left of the coefficient, then the zeros its exponent adds. */
  ghost function IntegerDigits(m: Mantissa, k: nat): (r: seq<int>)
    requires Lead(AllDigits(m)) + Trail(AllDigits(m)) <= |AllDigits(m)|
  {
    Core(AllDigits(m)) + Zeros(k)
  }

  /** Where the scan for digit i stands: behind the digit before it. */
  ghost function CursorAt(m: Mantissa, at: nat, i: nat): nat {
    at + if i == Lead(AllDigits(m)) then Offset(m, i) else if i == 0 then 0 else Offset(m, i - 1) + 1
  }

  /** The coefficient whose digits are being read again. */
  ghost predicate Coefficiented(bytes: Bytes, at: nat, end: nat, m: Mantissa, e: Exponent, digits: nat) {
    && Layout(bytes, at, end, m, e) && Lead(AllDigits(m)) < |AllDigits(m)|
    && Lead(AllDigits(m)) + Trail(AllDigits(m)) + digits == |AllDigits(m)|
  }

  lemma DigitByte(bytes: Bytes, at: nat, end: nat, m: Mantissa, e: Exponent, i: nat)
    requires Layout(bytes, at, end, m, e) && Lead(AllDigits(m)) <= i < |AllDigits(m)|
    ensures var c := CursorAt(m, at, i);
            var p := if bytes[c] == 0x2e then c + 1 else c;
            at <= c <= p < end <= |bytes| && bytes[p] == 0x30 + AllDigits(m)[i] && p + 1 == CursorAt(m, at, i + 1)
              && 0 <= AllDigits(m)[i] < 10
  {
    hide Lead, Layout, SpellMantissa;
    var c := CursorAt(m, at, i);
    LayoutBounds(bytes, at, end, m, e);
    SpelledAt(m, c - at);
    SpelledAt(m, Offset(m, i));
    MantissaByte(bytes, at, end, m, e, c - at);
    MantissaByte(bytes, at, end, m, e, Offset(m, i));
  }

  lemma NormalizedAt(bytes: Bytes, at: nat, end: nat, m: Mantissa, e: Exponent, digits: nat, k: nat, i: nat)
    requires Coefficiented(bytes, at, end, m, e, digits) && i < digits + k
    ensures Lead(AllDigits(m)) + Trail(AllDigits(m)) <= |AllDigits(m)| && |IntegerDigits(m, k)| == digits + k
    ensures 0 <= IntegerDigits(m, k)[i] < 10
    ensures i < digits ==>
      var c := CursorAt(m, at, Lead(AllDigits(m)) + i);
      var p := if bytes[c] == 0x2e then c + 1 else c;
      0 <= c <= p < |bytes| && bytes[p] == 0x30 + IntegerDigits(m, k)[i]
        && p + 1 == CursorAt(m, at, Lead(AllDigits(m)) + i + 1)
    ensures i >= digits ==> IntegerDigits(m, k)[i] == 0
  {
    hide Layout, Lead, Trail, AllDigits, CursorAt;
    if i < digits { DigitByte(bytes, at, end, m, e, Lead(AllDigits(m)) + i); }
  }

  method NormalizedDigit(bytes: Bytes, cursor: int, index: nat, digits: nat,
                         ghost at: nat, ghost end: nat, ghost m: Mantissa, ghost e: Exponent, ghost k: nat)
    returns (digit: int, next: int)
    requires Coefficiented(bytes, at, end, m, e, digits) && index < digits + k
    requires index < digits ==> cursor == CursorAt(m, at, Lead(AllDigits(m)) + index)
    ensures Lead(AllDigits(m)) + Trail(AllDigits(m)) <= |AllDigits(m)| && |IntegerDigits(m, k)| == digits + k
    ensures digit == IntegerDigits(m, k)[index]
    ensures index < digits ==> next == CursorAt(m, at, Lead(AllDigits(m)) + index + 1)
  {
    hide *;
    NormalizedAt(bytes, at, end, m, e, digits, k, index);
    if index >= digits { return 0, cursor; }
    var position := if bytes[cursor] == 0x2e then cursor + 1 else cursor;
    return bytes[position] - 0x30, position + 1;
  }

  // ---------- the largest safe integer ----------

  const MAX_DIGITS: seq<int> := [9, 0, 0, 7, 1, 9, 9, 2, 5, 4, 7, 4, 0, 9, 9, 1]

  lemma Append(ds: seq<int>, d: int)
    ensures Value(ds + [d]) == Value(ds) * 10 + d
  {
    assert (ds + [d])[..|ds|] == ds;
  }

  lemma FourDigits(a: int, b: int, c: int, d: int)
    ensures Value([a, b, c, d]) == 1000 * a + 100 * b + 10 * c + d
  {
    assert [a, b, c, d] == [] + [a] + [b] + [c] + [d];
    Append([], a);
    Append([] + [a], b);
    Append([] + [a] + [b], c);
    Append([] + [a] + [b] + [c], d);
  }

  lemma MaxValue()
    ensures |MAX_DIGITS| == 16 && Digits(MAX_DIGITS) && Value(MAX_DIGITS) == MAX_SAFE
  {
    hide Value;
    FourDigits(9, 0, 0, 7);
    FourDigits(1, 9, 9, 2);
    FourDigits(5, 4, 7, 4);
    FourDigits(0, 9, 9, 1);
    var a, b, c, d := [9, 0, 0, 7], [1, 9, 9, 2], [5, 4, 7, 4], [0, 9, 9, 1];
    assert MAX_DIGITS == a + b + c + d;
    assert Pow10(4) == 10000 by { assert Pow10(3) == 1000 by { assert Pow10(2) == 100; } }
    ValueJoin(a, b);
    ValueJoin(a + b, c);
    ValueJoin(a + b + c, d);
  }

  /** Digits and the largest safe integer's agree up to k and differ there, or agree throughout. */
  lemma CompareMax(ds: seq<int>, k: nat)
    requires Digits(ds) && |ds| == 16 && k <= 16 && |MAX_DIGITS| == 16 && ds[..k] == MAX_DIGITS[..k]
    ensures k < 16 && ds[k] > MAX_DIGITS[k] ==> Value(ds) > MAX_SAFE
    ensures k < 16 && ds[k] < MAX_DIGITS[k] ==> Value(ds) <= MAX_SAFE
    ensures k < 16 && ds[k] == MAX_DIGITS[k] ==> ds[..k + 1] == MAX_DIGITS[..k + 1]
    ensures k == 16 ==> Value(ds) <= MAX_SAFE
  {
    MaxValue();
    hide Value;
    if k == 16 { assert ds[..16] == ds && MAX_DIGITS[..16] == MAX_DIGITS; }
    else if ds[k] > MAX_DIGITS[k] { ValueLess(MAX_DIGITS, ds, k); }
    else if ds[k] < MAX_DIGITS[k] { ValueLess(ds, MAX_DIGITS, k); }
    else { assert ds[..k + 1] == ds[..k] + [ds[k]] && MAX_DIGITS[..k + 1] == MAX_DIGITS[..k] + [ds[k]]; }
  }

  lemma IntegerDigitsFit(bytes: Bytes, at: nat, end: nat, m: Mantissa, e: Exponent, digits: nat, k: nat)
    requires Coefficiented(bytes, at, end, m, e, digits)
    ensures Lead(AllDigits(m)) + Trail(AllDigits(m)) <= |AllDigits(m)| && |IntegerDigits(m, k)| == digits + k
    ensures Digits(IntegerDigits(m, k)) && Value(IntegerDigits(m, k)) == Value(Core(AllDigits(m))) * Pow10(k)
    ensures digits >= 1 && |Core(AllDigits(m))| == digits && Normal(Core(AllDigits(m)))
  {
    hide Lead, Trail, AllDigits, Value, Pow10, Layout, WellFormedMantissa;
    LayoutMantissa(bytes, at, end, m, e);
    AllDigitsAre(m);
    Trimmed(AllDigits(m));
    Padded([], Core(AllDigits(m)), Zeros(k));
    assert [] + IntegerDigits(m, k) == IntegerDigits(m, k);
  }

  lemma LayoutMantissa(bytes: Bytes, at: nat, end: nat, m: Mantissa, e: Exponent)
    requires Layout(bytes, at, end, m, e)
    ensures WellFormedMantissa(m)
  {
  }

  lemma AllDigitsAre(m: Mantissa)
    requires WellFormedMantissa(m)
    ensures Digits(AllDigits(m)) && AllDigits(m) != [] && |m.fraction| <= |AllDigits(m)| == |m.whole| + |m.fraction|
  {
  }

  method ExceedsSafeInteger(bytes: Bytes, start: int, digits: nat,
                            ghost at: nat, ghost end: nat, ghost m: Mantissa, ghost e: Exponent, ghost k: nat)
    returns (exceeds: bool)
    requires Coefficiented(bytes, at, end, m, e, digits) && digits + k == 16
    requires start == CursorAt(m, at, Lead(AllDigits(m)))
    ensures exceeds <==> Value(Core(AllDigits(m))) * Pow10(k) > MAX_SAFE
  {
    hide *;
    var cursor := start;
    IntegerDigitsFit(bytes, at, end, m, e, digits, k);
    ghost var ds := IntegerDigits(m, k);
    MaxValue();
    assert ds[..0] == MAX_DIGITS[..0];
    for index := 0 to 16
      invariant ds[..index] == MAX_DIGITS[..index]
      invariant index < digits ==> cursor == CursorAt(m, at, Lead(AllDigits(m)) + index)
    {
      var digit, next := NormalizedDigit(bytes, cursor, index, digits, at, end, m, e, k);
      cursor := next;
      var limitDigit := MAX_DIGITS[index];
      CompareMax(ds, index);
      if digit > limitDigit { return true; }
      if digit < limitDigit { return false; }
    }
    CompareMax(ds, 16);
    return false;
  }

  /** The numbers on the way to a value: each prefix of its digits, and each prefix times ten, is a safe integer. */
  ghost predicate SafeOnTheWay(ds: seq<int>, passed: seq<int>) {
    && |passed| == |ds|
    && (forall i :: 0 <= i < |passed| ==> passed[i] == Value(ds[..i + 1]) && 0 <= passed[i] <= MAX_SAFE)
    && (forall i :: 0 <= i < |passed| - 1 ==> passed[i] * 10 <= MAX_SAFE)
  }

  lemma SafeSoFar(ds: seq<int>, index: nat, passed: seq<int>, value: int)
    requires Digits(ds) && index < |ds| && Value(ds) <= MAX_SAFE && SafeOnTheWay(ds[..index], passed)
    requires value == Value(ds[..index + 1])
    ensures SafeOnTheWay(ds[..index + 1], passed + [value]) && 0 <= value <= MAX_SAFE
  {
    hide Value;
    PrefixSmaller(ds, index + 1);
    var some, more := ds[..index], ds[..index + 1];
    var all := passed + [value];
    forall i | 0 <= i < |all| ensures all[i] == Value(more[..i + 1]) && 0 <= all[i] <= MAX_SAFE {
      assert more[..i + 1] == ds[..i + 1];
      if i < index { assert some[..i + 1] == ds[..i + 1] && all[i] == passed[i]; }
    }
    if index > 0 {
      ValueStep(ds, index);
      assert some[..index] == ds[..index] && passed[index - 1] == Value(some[..index - 1 + 1]);
    }
  }

  /** The value; every product and every sum on the way to it is a safe integer. */
  method MaterializeInteger(bytes: Bytes, start: int, digits: nat, integerDigits: nat,
                            ghost at: nat, ghost end: nat, ghost m: Mantissa, ghost e: Exponent)
    returns (value: int, ghost passed: seq<int>)
    requires Coefficiented(bytes, at, end, m, e, digits) && digits <= integerDigits
    requires start == CursorAt(m, at, Lead(AllDigits(m)))
    requires Value(Core(AllDigits(m))) * Pow10(integerDigits - digits) <= MAX_SAFE
    ensures value == Value(Core(AllDigits(m))) * Pow10(integerDigits - digits)
    ensures SafeOnTheWay(IntegerDigits(m, integerDigits - digits), passed)
  {
    hide *;
    var cursor := start;
    ghost var k := integerDigits - digits;
    IntegerDigitsFit(bytes, at, end, m, e, digits, k);
    ghost var ds := IntegerDigits(m, k);
    value, passed := 0, [];
    EmptyValue(ds);
    for index := 0 to integerDigits
      invariant value == Value(ds[..index]) && 0 <= value <= MAX_SAFE && SafeOnTheWay(ds[..index], passed)
      invariant index < digits ==> cursor == CursorAt(m, at, Lead(AllDigits(m)) + index)
    {
      var digit, next := NormalizedDigit(bytes, cursor, index, digits, at, end, m, e, k);
      cursor := next;
      ValueStep(ds, index);
      value := value * 10 + digit;
      SafeSoFar(ds, index, passed, value);
      passed := passed + [value];
    }
    assert ds[..|ds|] == ds;
  }

  lemma EmptyValue(ds: seq<int>)
    ensures Value(ds[..0]) == 0 && SafeOnTheWay(ds[..0], [])
  {
  }

  lemma {:induction false} PrefixSmaller(ds: seq<int>, k: nat)
    requires Digits(ds) && k <= |ds|
    ensures 0 <= Value(ds[..k]) <= Value(ds)
    decreases |ds| - k
  {
    if k < |ds| {
      PrefixSmaller(ds, k + 1);
      ValueStep(ds, k);
    } else {
      assert ds[..k] == ds;
      ValueBelow(ds);
    }
  }

  // ---------- admission ----------

  /** The power of ten left once the coefficient has lost its trailing zeros. */
  ghost function Shift(n: Number): int {
    ExponentOf(n.exponent) - |n.mantissa.fraction| + Trail(AllDigits(n.mantissa))
  }

  lemma VerdictZero(n: Number)
    requires WellFormed(n) && Lead(AllDigits(n.mantissa)) == |AllDigits(n.mantissa)|
    ensures Verdict(n) == if n.negative then InvalidFormat else Admitted(0)
  {
    hide Lead, Value, AllDigits, ExponentOf;
    AllDigitsAre(n.mantissa);
    AllZero(AllDigits(n.mantissa));
  }

  lemma VerdictOther(n: Number)
    requires WellFormed(n) && Lead(AllDigits(n.mantissa)) < |AllDigits(n.mantissa)|
    ensures var ds := AllDigits(n.mantissa);
            && Lead(ds) + Trail(ds) < |ds|
            && Verdict(n) ==
              if Shift(n) < 0 then InvalidType else InRange(n.negative, Value(Core(ds)) * Pow10(Shift(n)))
  {
    var ds := AllDigits(n.mantissa);
    hide Lead, Trail, Value, AllDigits, ExponentOf, Pow10, Core, Integral, Scaled;
    AllDigitsAre(n.mantissa);
    AllZero(ds);
    Trimmed(ds);
    NormalValue(Core(ds));
    IntegralShift(Value(Core(ds)), Trail(ds), ExponentOf(n.exponent) - |n.mantissa.fraction|);
  }

  lemma TooLong(m: seq<int>, k: nat)
    requires Normal(m) && |m| + k > 16
    ensures Value(m) * Pow10(k) > MAX_SAFE
  {
    hide Value, Normal;
    NormalValue(m);
    PowAdd(|m| - 1, k);
    PowMonotone(16, |m| - 1 + k);
    PowSixteen();
    hide Pow10;
    Multiply(Pow10(|m| - 1), Value(m), Pow10(k));
  }

  lemma ShortEnough(m: seq<int>, k: nat)
    requires Normal(m) && |m| + k < 16
    ensures 1 <= Value(m) * Pow10(k) <= MAX_SAFE
  {
    hide Value, Normal;
    NormalValue(m);
    PowAdd(|m|, k);
    PowMonotone(|m| + k, 15);
    PowSixteen();
    hide Pow10;
    Multiply(Value(m), Pow10(|m|), Pow10(k));
    Positive(Value(m), Pow10(k));
  }

  lemma Multiply(a: int, b: int, c: int)
    requires a <= b && c >= 0
    ensures a * c <= b * c
  {
  }

  lemma PowSixteen()
    ensures Pow10(16) == 10_000_000_000_000_000 && Pow10(15) == 1_000_000_000_000_000
  {
    assert Pow10(4) == 10000 by { assert Pow10(3) == 1000 by { assert Pow10(2) == 100; } }
    PowAdd(4, 4);
    PowAdd(8, 8);
    assert Pow10(16) == 10 * Pow10(15);
  }

  /**
   * Clamping the exponent changes neither the sign of the shift nor whether sixteen digits suffice; short of that,
   * it changes nothing.
   */
  lemma Clamping(n: Number, limit: int, digits: int)
    requires WellFormed(n) && digits >= 1 && limit >= |AllDigits(n.mantissa)| + 17
    ensures var s, c :=
      Shift(n), ClampedExponent(n.exponent, limit) - |n.mantissa.fraction| + Trail(AllDigits(n.mantissa));
            && (c < 0 <==> s < 0)
            && (c >= 0 ==> (digits + c > 16 <==> digits + s > 16) && (digits + c <= 16 ==> c == s))
  {
    hide Trail, Value, AllDigits, Digits;
    AllDigitsAre(n.mantissa);
    if n.exponent.Exponent? { ValueBelow(n.exponent.digits); }
  }

  lemma SpelledBounds(bytes: Bytes, start: nat, end: nat, n: Number)
    requires Spells(bytes, start, end, n)
    ensures WellFormed(n)
    ensures WellFormedMantissa(n.mantissa)
    ensures n.exponent.Exponent? ==> n.exponent.digits != [] && Digits(n.exponent.digits)
    ensures start + SignLength(n) + Length(n.mantissa) <= end <= |bytes| && |AllDigits(n.mantissa)| <= end - start
    ensures bytes[start + SignLength(n) + Length(n.mantissa)..end] == SpellExponent(n.exponent)
  {
    SpelledLayout(bytes, start, end, n);
    hide Spells, SpellMantissa, SpellExponent;
  }

  lemma StartCoefficient(bytes: Bytes, at: nat, end: nat, m: Mantissa, e: Exponent, start: int, digits: int)
    requires Layout(bytes, at, end, m, e) && Lead(AllDigits(m)) < |AllDigits(m)|
    requires start == at + Offset(m, Lead(AllDigits(m)))
    requires digits == |AllDigits(m)| - Lead(AllDigits(m)) - Trail(AllDigits(m))
    ensures digits >= 1 && Coefficiented(bytes, at, end, m, e, digits) && start == CursorAt(m, at, Lead(AllDigits(m)))
    ensures Normal(Core(AllDigits(m))) && |Core(AllDigits(m))| == digits
  {
    AllDigitsAre(m);
    hide Lead, Trail, AllDigits, Layout;
    Trimmed(AllDigits(m));
  }

  /** Exact arithmetic's answer for every spelling of every number. */
  method AdmitRawInteger(bytes: Bytes, start: nat, end: nat, ghost n: Number) returns (r: ExactInteger)
    requires Spells(bytes, start, end, n)
    ensures r == Verdict(n)
  {
    hide *;
    SpelledLayout(bytes, start, end, n);
    SpelledBounds(bytes, start, end, n);
    ghost var m, e, at := n.mantissa, n.exponent, start + SignLength(n);
    ghost var ds := AllDigits(m);
    var negative := bytes[start] == 0x2d;
    SignIs(n);
    var coefficient := ScanCoefficient(bytes, start + if negative then 1 else 0, end, m, e);
    if coefficient.significantStart == end {
      VerdictZero(n);
      return if negative then InvalidFormat else Admitted(0);
    }
    var digits := coefficient.significantDigits - coefficient.trailingZeros;
    StartCoefficient(bytes, at, end, m, e, coefficient.significantStart, digits);
    VerdictOther(n);
    var exponent := ReadExponent(bytes, coefficient.exponentStart, end, end - start + 17, e);
    var shift := exponent - coefficient.fractionalDigits + coefficient.trailingZeros;
    Clamping(n, end - start + 17, digits);
    if shift < 0 { return InvalidType; }
    var integerDigits := digits + shift;
    Ranges(n, digits);
    if integerDigits > 16 { return InvalidFormat; }
    if integerDigits == 16 {
      var exceeds := ExceedsSafeInteger(bytes, coefficient.significantStart, digits, at, end, m, e, shift);
      if exceeds { return InvalidFormat; }
    }
    var value, _ := MaterializeInteger(bytes, coefficient.significantStart, digits, integerDigits, at, end, m, e);
    return Admitted(if negative then -value else value);
  }

  lemma SignIs(n: Number)
    ensures SignLength(n) == if n.negative then 1 else 0
  {
  }

  lemma Ranges(n: Number, digits: int)
    requires WellFormed(n) && Lead(AllDigits(n.mantissa)) + Trail(AllDigits(n.mantissa)) <= |AllDigits(n.mantissa)|
    requires Normal(Core(AllDigits(n.mantissa))) && |Core(AllDigits(n.mantissa))| == digits && Shift(n) >= 0
    ensures var v := Value(Core(AllDigits(n.mantissa))) * Pow10(Shift(n));
            && (digits + Shift(n) > 16 ==> v > MAX_SAFE) && (digits + Shift(n) < 16 ==> v <= MAX_SAFE)
            && InRange(n.negative, v) ==
              (if v <= MAX_SAFE then Admitted(if n.negative then -v else v) else InvalidFormat)
  {
    hide Lead, Trail, AllDigits, Normal, Value, Pow10, ExponentOf, WellFormed;
    if digits + Shift(n) > 16 { TooLong(Core(AllDigits(n.mantissa)), Shift(n)); }
    if digits + Shift(n) < 16 { ShortEnough(Core(AllDigits(n.mantissa)), Shift(n)); }
  }
}
