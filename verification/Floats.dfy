/**
 Floating-point numbers as their shortest round-trip decimal digits, and the Ruby layout of
 those digits. The digits themselves come from `strconv`: they are the value here.
 */
module Floats {
  import opened ByteStrings
  import opened Digits

  type Digit = i: int | 0 <= i < 10

  /** The number 0.d1d2d3... times ten to the power `point`, negated when `neg`. */
  datatype Decimal = Decimal(neg: bool, digits: seq<Digit>, point: int) {
    /** No leading and no trailing zero digit; zero (of either sign) has no digit at all. */
    predicate Normal() {
      if digits == [] then point == 0 else digits[0] != 0 && digits[|digits| - 1] != 0
    }
  }

  datatype Float = Finite(decimal: Decimal) | NaN | Infinite(neg: bool)

  const DOT: byte := 0x2e
  const LOWER_E: byte := 0x65
  const UPPER_E: byte := 0x45

  // ---- printing ----

  function DigitText(ds: seq<Digit>): (t: Bytes)
    ensures |t| == |ds| && AllDigits(t)
    ensures forall k :: 0 <= k < |t| ==> t[k] == ZERO + ds[k]
  {
    seq(|ds|, k requires 0 <= k < |ds| => ZERO + ds[k])
  }

  function Zeros(n: nat): seq<Digit> {
    seq(n, _ => 0)
  }

  /** `%+03d`: always a sign, and at least two digits. */
  function PaddedExponent(e: int): Bytes {
    var digits := FormatNat(if e < 0 then -e else e);
    [if e < 0 then MINUS else PLUS] + (if |digits| < 2 then [ZERO] + digits else digits)
  }

  function Magnitude(digits: seq<Digit>, point: int): Bytes {
    if digits == [] then [ZERO, DOT, ZERO]
    else if 0 < point <= 16 then
      if |digits| <= point then DigitText(digits + Zeros(point - |digits|)) + [DOT, ZERO]
      else DigitText(digits[..point]) + [DOT] + DigitText(digits[point..])
    else if -4 < point <= 0 then [ZERO, DOT] + DigitText(Zeros(-point) + digits)
    else
      var fraction := if |digits| == 1 then [ZERO] else DigitText(digits[1..]);
      DigitText(digits[..1]) + [DOT] + fraction + [LOWER_E] + PaddedExponent(point - 1)
  }

  function RubyFloat(d: Decimal): Bytes {
    if d.neg then [MINUS] + Magnitude(d.digits, d.point) else Magnitude(d.digits, d.point)
  }

  // ---- reading ----

  datatype Mantissa = Mantissa(end: nat, digits: seq<Digit>, point: Option<nat>)

  /** The longest run of digits with at most one point among them. */
  function ScanMantissa(t: Bytes, i: nat, digits: seq<Digit>, point: Option<nat>): (m: Mantissa)
    requires i <= |t|
    ensures i <= m.end <= |t|
    decreases |t| - i
  {
    if i < |t| && IsDigit(t[i]) then ScanMantissa(t, i + 1, digits + [t[i] - ZERO], point)
    else if i < |t| && t[i] == DOT && point.None? then ScanMantissa(t, i + 1, digits, Some(|digits|))
    else Mantissa(i, digits, point)
  }

  /** The exponent after its letter: an optional sign and at least one digit, up to the end. */
  function ReadExponent(t: Bytes): Option<int> {
    var signed := t != [] && (t[0] == MINUS || t[0] == PLUS);
    var digits := if signed then t[1..] else t;
    if digits == [] || !AllDigits(digits) then None
    else
      var magnitude: int := NatValue(digits);
      Some(if signed && t[0] == MINUS then -magnitude else magnitude)
  }

  /** The decimal that a numeral spells, digit for digit, or `None` for a syntax error. */
  function ReadDecimal(t: Bytes): Option<Decimal> {
    var signed := t != [] && (t[0] == MINUS || t[0] == PLUS);
    Assemble(t, signed && t[0] == MINUS, ScanMantissa(t, if signed then 1 else 0, [], None))
  }

  function Assemble(t: Bytes, neg: bool, m: Mantissa): Option<Decimal>
    requires m.end <= |t|
  {
    var point: int := if m.point.Some? then m.point.value else |m.digits|;
    if m.digits == [] then None
    else if m.end == |t| then Some(Decimal(neg, m.digits, point))
    else if t[m.end] != LOWER_E && t[m.end] != UPPER_E then None
    else
      match ReadExponent(t[m.end + 1..])
      case None => None
      case Some(e) => Some(Decimal(neg, m.digits, point + e))
  }

  function Normalize(d: Decimal): (n: Decimal)
    ensures n.Normal()
    decreases |d.digits|
  {
    if d.digits == [] then d.(point := 0)
    else if d.digits[0] == 0 then Normalize(Decimal(d.neg, d.digits[1..], d.point - 1))
    else if d.digits[|d.digits| - 1] == 0 then Normalize(d.(digits := d.digits[..|d.digits| - 1]))
    else d
  }

  /**
   `strconv.ParseFloat`: read the numeral, then take the nearest float. `nearest` is the
   library's rounding, seen through the shortest digits of the result; it is `None` out of range.
   */
  type Rounding = Decimal -> Option<Decimal>

  function ParseFloat(nearest: Rounding, t: Bytes): Option<Decimal> {
    match ReadDecimal(t)
    case None => None
    case Some(d) => nearest(Normalize(d))
  }

  /** The floats are the decimals that rounding leaves alone. */
  predicate IsFloat(nearest: Rounding, d: Decimal) {
    d.Normal() && nearest(d) == Some(d)
  }

  /** Shortest digits round-trip: what rounding returns is again a float. */
  ghost predicate RoundsToFloats(nearest: Rounding) {
    forall d :: nearest(d).Some? ==> IsFloat(nearest, nearest(d).value)
  }

  // ---- what a decimal is worth ----

  function PowerOfTen(e: int): (p: real)
    ensures p > 0.0
    decreases if e < 0 then -e else e
  {
    if e == 0 then 1.0 else if e > 0 then 10.0 * PowerOfTen(e - 1) else PowerOfTen(e + 1) / 10.0
  }

  function DigitsValue(ds: seq<Digit>): nat {
    if ds == [] then 0 else 10 * DigitsValue(ds[..|ds| - 1]) + ds[|ds| - 1]
  }

  function Worth(d: Decimal): real {
    var magnitude := DigitsValue(d.digits) as real * PowerOfTen(d.point - |d.digits|);
    if d.neg then -magnitude else magnitude
  }

  lemma {:induction false} LeadingZeroWorthless(ds: seq<Digit>)
    requires ds != [] && ds[0] == 0
    ensures DigitsValue(ds) == DigitsValue(ds[1..])
  {
    var n := |ds|;
    if n > 1 {
      LeadingZeroWorthless(ds[..n - 1]);
      assert ds[1..][..n - 2] == ds[..n - 1][1..];
    }
  }

  /** Normalizing strips zeros without changing the sign or the number. */
  lemma {:induction false} NormalizeKeepsWorth(d: Decimal)
    ensures Worth(Normalize(d)) == Worth(d) && Normalize(d).neg == d.neg
    decreases |d.digits|
  {
    var n := |d.digits|;
    if n == 0 {
    } else if d.digits[0] == 0 {
      NormalizeKeepsWorth(Decimal(d.neg, d.digits[1..], d.point - 1));
      StripLeadingZero(d);
    } else if d.digits[n - 1] == 0 {
      NormalizeKeepsWorth(d.(digits := d.digits[..n - 1]));
      StripTrailingZero(d);
    }
  }

  lemma {:induction false} StripLeadingZero(d: Decimal)
    requires d.digits != [] && d.digits[0] == 0
    ensures Worth(Decimal(d.neg, d.digits[1..], d.point - 1)) == Worth(d)
  {
    LeadingZeroWorthless(d.digits);
    assert d.point - 1 - |d.digits[1..]| == d.point - |d.digits|;
  }

  lemma {:induction false} StripTrailingZero(d: Decimal)
    requires d.digits != [] && d.digits[|d.digits| - 1] == 0
    ensures Worth(d.(digits := d.digits[..|d.digits| - 1])) == Worth(d)
  {
    var shorter := d.digits[..|d.digits| - 1];
    assert DigitsValue(d.digits) == 10 * DigitsValue(shorter);
    ShiftPower(DigitsValue(shorter), d.point - |d.digits|);
  }

  lemma {:induction false} ShiftPower(v: nat, e: int)
    ensures (10 * v) as real * PowerOfTen(e) == v as real * PowerOfTen(e + 1)
  {
    assert PowerOfTen(e + 1) == 10.0 * PowerOfTen(e);
    assert (10 * v) as real == 10.0 * v as real;
  }

  // ---- the layouts read back ----

  /** The digits `ds` stand in `t` from position `i` on. */
  predicate Spells(t: Bytes, i: nat, ds: seq<Digit>) {
    i + |ds| <= |t| && forall k :: 0 <= k < |ds| ==> t[i + k] == ZERO + ds[k]
  }

  lemma {:induction false} SpellsHere(before: Bytes, ds: seq<Digit>, after: Bytes)
    ensures Spells(before + DigitText(ds) + after, |before|, ds)
  {
    var t := before + DigitText(ds) + after;
    forall k | 0 <= k < |ds| ensures t[|before| + k] == ZERO + ds[k] {
      assert t[|before| + k] == DigitText(ds)[k];
    }
  }

  lemma {:induction false} ScanDigits(t: Bytes, i: nat, ds: seq<Digit>, digits: seq<Digit>, point: Option<nat>)
    requires Spells(t, i, ds)
    ensures ScanMantissa(t, i, digits, point) == ScanMantissa(t, i + |ds|, digits + ds, point)
    decreases |ds|
  {
    if ds == [] {
      assert digits + ds == digits;
    } else {
      var rest := ds[1..];
      assert t[i + 0] == ZERO + ds[0];
      forall k | 0 <= k < |rest| ensures t[i + 1 + k] == ZERO + rest[k] {
        assert t[i + (k + 1)] == ZERO + ds[k + 1];
      }
      ScanDigits(t, i + 1, rest, digits + [ds[0]], point);
      assert digits + [ds[0]] + rest == digits + ds;
    }
  }

  /** A run of digits, a point and a second run are one mantissa. */
  lemma {:induction false} ScanPointed(t: Bytes, i: nat, whole: seq<Digit>, fraction: seq<Digit>)
    requires Spells(t, i, whole) && i + |whole| < |t| && t[i + |whole|] == DOT
    requires Spells(t, i + |whole| + 1, fraction)
    ensures ScanMantissa(t, i, [], None)
         == ScanMantissa(t, i + |whole| + 1 + |fraction|, whole + fraction, Some(|whole|))
  {
    ScanDigits(t, i, whole, [], None);
    assert [] + whole == whole;
    ScanDigits(t, i + |whole| + 1, fraction, whole, Some(|whole|));
  }

  /** Each layout is a run of digits, a point, a run of digits, and perhaps an exponent. */
  datatype Layout = Layout(whole: seq<Digit>, fraction: seq<Digit>, exponent: Option<int>) {
    function Text(): Bytes {
      DigitText(whole) + [DOT] + DigitText(fraction) + Tail()
    }

    function Tail(): Bytes {
      match exponent
      case None => []
      case Some(e) => [LOWER_E] + PaddedExponent(e)
    }

    function Spelled(neg: bool): Decimal {
      Decimal(neg, whole + fraction, |whole| + match exponent { case None => 0 case Some(e) => e })
    }
  }

  function LayoutOf(digits: seq<Digit>, point: int): (l: Layout)
    ensures l.whole != [] && l.fraction != []
  {
    if digits == [] then Layout([0], [0], None)
    else if 0 < point <= 16 then
      if |digits| <= point then Layout(digits + Zeros(point - |digits|), [0], None)
      else Layout(digits[..point], digits[point..], None)
    else if -4 < point <= 0 then Layout([0], Zeros(-point) + digits, None)
    else Layout(digits[..1], if |digits| == 1 then [0] else digits[1..], Some(point - 1))
  }

  lemma {:induction false} LayoutIsMagnitude(digits: seq<Digit>, point: int)
    ensures Magnitude(digits, point) == LayoutOf(digits, point).Text()
  {
    hide PaddedExponent;
    assert DigitText([0]) == [ZERO];
    assert forall t: Bytes :: t + [] == t;
    if digits != [] && 0 < point <= 16 && |digits| <= point {
      var whole := DigitText(digits + Zeros(point - |digits|));
      assert whole + [DOT, ZERO] == whole + [DOT] + [ZERO];
    }
  }

  lemma {:induction false} ExponentRoundTrip(e: int)
    ensures ReadExponent(PaddedExponent(e)) == Some(e)
  {
    var n: nat := if e < 0 then -e else e;
    NatRoundTrip(n);
    var digits := FormatNat(n);
    var t := PaddedExponent(e);
    if |digits| < 2 {
      assert digits == [digits[0]];
      assert t[1..] == [ZERO] + digits;
      assert t[1..][..1] == [ZERO] && digits[..0] == [];
      assert [ZERO][..0] == [];
      assert NatValue([ZERO]) == 0;
    } else {
      assert t[1..] == digits;
    }
  }

  /** A sign, a layout: the mantissa scan stops where the fraction ends. */
  lemma {:induction false} ScanLayout(sign: Bytes, l: Layout)
    ensures |sign + l.Text()| == |sign| + |l.whole| + 1 + |l.fraction| + |l.Tail()|
    ensures ScanMantissa(sign + l.Text(), |sign|, [], None)
         == Mantissa(|sign| + |l.whole| + 1 + |l.fraction|, l.whole + l.fraction, Some(|l.whole|))
    ensures (sign + l.Text())[|sign| + |l.whole| + 1 + |l.fraction|..] == l.Tail()
  {
    var t := sign + l.Text();
    var w, f, tail := DigitText(l.whole), DigitText(l.fraction), l.Tail();
    assert t == sign + w + ([DOT] + f + tail);
    SpellsHere(sign, l.whole, [DOT] + f + tail);
    assert t == (sign + w + [DOT]) + f + tail;
    SpellsHere(sign + w + [DOT], l.fraction, tail);
    assert t[|sign| + |w|] == DOT;
    ScanPointed(t, |sign|, l.whole, l.fraction);
  }

  lemma {:induction false} AssembleLayout(t: Bytes, neg: bool, l: Layout, end: nat)
    requires end <= |t| && t[end..] == l.Tail() && l.whole != []
    ensures Assemble(t, neg, Mantissa(end, l.whole + l.fraction, Some(|l.whole|))) == Some(l.Spelled(neg))
  {
    match l.exponent {
      case None =>
        assert end == |t|;
      case Some(e) =>
        assert t[end] == t[end..][0];
        assert t[end + 1..] == t[end..][1..] == PaddedExponent(e);
        ExponentRoundTrip(e);
    }
  }

  lemma {:induction false} ReadLayout(sign: Bytes, l: Layout)
    requires l.whole != [] && (sign == [] || sign == [MINUS])
    ensures ReadDecimal(sign + l.Text()) == Some(l.Spelled(sign == [MINUS]))
  {
    hide ScanMantissa, Assemble, PaddedExponent, DigitText;
    var t := sign + l.Text();
    assert l.Text()[0] == DigitText(l.whole)[0];
    assert t[|sign|] == l.Text()[0];
    ScanLayout(sign, l);
    AssembleLayout(t, sign == [MINUS], l, |sign| + |l.whole| + 1 + |l.fraction|);
  }

  /** Reading the printed text spells out exactly the layout that was printed. */
  lemma {:induction false} ReadRubyFloat(d: Decimal)
    ensures ReadDecimal(RubyFloat(d)) == Some(LayoutOf(d.digits, d.point).Spelled(d.neg))
  {
    LayoutIsMagnitude(d.digits, d.point);
    var l := LayoutOf(d.digits, d.point);
    ReadLayout(if d.neg then [MINUS] else [], l);
    assert [] + l.Text() == l.Text();
  }

  lemma {:induction false} NormalizeStripsLeading(neg: bool, k: nat, ds: seq<Digit>, point: int)
    ensures Normalize(Decimal(neg, Zeros(k) + ds, point)) == Normalize(Decimal(neg, ds, point - k))
    decreases k
  {
    if k == 0 {
      assert Zeros(0) + ds == ds;
    } else {
      var d := Decimal(neg, Zeros(k) + ds, point);
      assert d.digits[0] == 0 && d.digits[1..] == Zeros(k - 1) + ds;
      NormalizeStripsLeading(neg, k - 1, ds, point - 1);
    }
  }

  lemma {:induction false} NormalizeStripsTrailing(neg: bool, ds: seq<Digit>, k: nat, point: int)
    requires ds != [] && ds[0] != 0
    ensures Normalize(Decimal(neg, ds + Zeros(k), point)) == Normalize(Decimal(neg, ds, point))
    decreases k
  {
    if k == 0 {
      assert ds + Zeros(0) == ds;
    } else {
      assert (ds + Zeros(k))[..|ds| + k - 1] == ds + Zeros(k - 1);
      NormalizeStripsTrailing(neg, ds, k - 1, point);
    }
  }

  lemma {:induction false} NormalizeStrips(neg: bool, lead: nat, ds: seq<Digit>, trail: nat, point: int)
    requires Decimal(neg, ds, point - lead).Normal() && ds != []
    ensures Normalize(Decimal(neg, Zeros(lead) + ds + Zeros(trail), point)) == Decimal(neg, ds, point - lead)
  {
    assert Zeros(lead) + ds + Zeros(trail) == Zeros(lead) + (ds + Zeros(trail));
    NormalizeStripsLeading(neg, lead, ds + Zeros(trail), point);
    NormalizeStripsTrailing(neg, ds, trail, point - lead);
  }

  lemma {:induction false} SpelledNormalizes(d: Decimal)
    requires d.Normal()
    ensures Normalize(LayoutOf(d.digits, d.point).Spelled(d.neg)) == d
  {
    var ds, p := d.digits, d.point;
    var s := LayoutOf(ds, p).Spelled(d.neg);
    if ds == [] {
      assert s.digits == Zeros(2) + [];
      NormalizeStripsLeading(d.neg, 2, [], s.point);
    } else {
      var lead := if -4 < p <= 0 then 1 - p else 0;
      var trail := if 0 < p <= 16 && |ds| <= p then p - |ds| + 1
                   else if !(-4 < p <= 16) && |ds| == 1 then 1 else 0;
      assert s.digits == Zeros(lead) + ds + Zeros(trail);
      assert s.point == p + lead;
      NormalizeStrips(d.neg, lead, ds, trail, s.point);
    }
  }

  /** Every layout reads back to the very digits and decimal point it was printed from. */
  lemma {:induction false} FloatRoundTrip(nearest: Rounding, d: Decimal)
    requires IsFloat(nearest, d)
    ensures ParseFloat(nearest, RubyFloat(d)) == Some(d)
  {
    ReadRubyFloat(d);
    SpelledNormalizes(d);
  }

  /** Every layout, read as a plain numeral, is worth what its digits and decimal point are worth. */
  lemma {:induction false} LayoutKeepsWorth(d: Decimal)
    requires d.Normal()
    ensures ReadDecimal(RubyFloat(d)).Some?
    ensures Worth(ReadDecimal(RubyFloat(d)).value) == Worth(d)
    ensures ReadDecimal(RubyFloat(d)).value.neg == d.neg
  {
    ReadRubyFloat(d);
    SpelledNormalizes(d);
    NormalizeKeepsWorth(LayoutOf(d.digits, d.point).Spelled(d.neg));
  }
}
