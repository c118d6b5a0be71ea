/** Decimal digit strings: `strconv.FormatInt`, `strconv.ParseInt` and `%d`. */
module Digits {
  import opened ByteStrings

  const MINUS: byte := 0x2d
  const PLUS: byte := 0x2b
  const ZERO: byte := 0x30
  const NINE: byte := 0x39

  const INT64_LIMIT: int := 0x8000_0000_0000_0000

  predicate IsDigit(c: byte) {
    ZERO <= c <= NINE
  }

  predicate AllDigits(t: Bytes) {
    forall k :: 0 <= k < |t| ==> IsDigit(t[k])
  }

  /** The decimal rendering of a natural number, without leading zeros. */
  function FormatNat(n: nat): (t: Bytes)
    ensures t != [] && AllDigits(t)
    ensures n > 0 ==> t[0] != ZERO
  {
    if n < 10 then [ZERO + n] else FormatNat(n / 10) + [ZERO + n % 10]
  }

  function NatValue(t: Bytes): nat
    requires AllDigits(t)
  {
    if t == [] then 0 else 10 * NatValue(t[..|t| - 1]) + (t[|t| - 1] - ZERO)
  }

  lemma {:induction false} NatRoundTrip(n: nat)
    ensures NatValue(FormatNat(n)) == n
  {
    var t := FormatNat(n);
    if n < 10 {
      assert t[..|t| - 1] == [];
    } else {
      NatRoundTrip(n / 10);
      assert t[..|t| - 1] == FormatNat(n / 10);
    }
  }

  function FormatInt(n: int): (t: Bytes)
    ensures t != []
    ensures forall k :: 0 <= k < |t| ==> IsDigit(t[k]) || (k == 0 && n < 0 && t[k] == MINUS)
    ensures n < 0 ==> t[0] == MINUS
  {
    if n < 0 then [MINUS] + FormatNat(-n) else FormatNat(n)
  }

  predicate IsInt64(n: int) {
    -INT64_LIMIT <= n < INT64_LIMIT
  }

  /** `strconv.ParseInt(text, 10, 64)`: a syntax error and a range error are both `None`. */
  function ParseInt(t: Bytes): (r: Option<int>)
    ensures r.Some? ==> IsInt64(r.value)
  {
    var signed := t != [] && (t[0] == MINUS || t[0] == PLUS);
    var digits := if signed then t[1..] else t;
    if digits == [] || !AllDigits(digits) then None
    else
      var magnitude: int := NatValue(digits);
      var n := if signed && t[0] == MINUS then -magnitude else magnitude;
      if IsInt64(n) then Some(n) else None
  }

  lemma {:induction false} IntRoundTrip(n: int)
    requires IsInt64(n)
    ensures ParseInt(FormatInt(n)) == Some(n)
    ensures n >= 0 ==> ParseInt([PLUS] + FormatNat(n)) == Some(n)
  {
    if n < 0 {
      NatRoundTrip(-n);
      assert FormatInt(n)[1..] == FormatNat(-n);
    } else {
      NatRoundTrip(n);
      assert ([PLUS] + FormatNat(n))[1..] == FormatNat(n);
    }
  }

  lemma {:induction false} NatInjective(m: nat, n: nat)
    requires FormatNat(m) == FormatNat(n)
    ensures m == n
  {
    NatRoundTrip(m);
    NatRoundTrip(n);
  }
}
