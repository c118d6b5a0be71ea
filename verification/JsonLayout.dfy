/** The canonical text, letter by letter: words, quotes, escapes, commas without space, and exponents. */
module JsonLayout {
  import opened ByteStrings
  import opened Digits
  import opened Floats
  import opened JsonValues
  import opened JsonSpelling

  /** `strings.Join(texts, ",")`. */
  function Commas(texts: seq<Bytes>): Bytes {
    if texts == [] then [] else if |texts| == 1 then texts[0] else texts[0] + [0x2c] + Commas(texts[1..])
  }

  ghost function ItemTexts(v: Value): (ts: seq<Bytes>)
    requires v.List? && Printable(v)
    ensures |ts| == |v.items|
  {
    seq(|v.items|, i requires 0 <= i < |v.items| => Canonical(v.items[i]))
  }

  ghost function FieldTexts(v: Value, ks: seq<Bytes>): (ts: seq<Bytes>)
    requires v.Object? && Printable(v) && forall k :: k in ks ==> k in v.fields
    ensures |ts| == |ks|
  {
    seq(|ks|, i requires 0 <= i < |ks| => Quoted(ks[i]) + [0x3a] + Canonical(v.fields[ks[i]]))
  }

  lemma {:induction false} ItemsJoined(v: Value, i: nat)
    requires v.List? && Printable(v) && i <= |v.items|
    ensures ItemsText(v, i) == (if 0 < i < |v.items| then [0x2c] else []) + Commas(ItemTexts(v)[i..]) + [0x5d]
    decreases |v.items| - i
  {
    hide Canonical;
    if i < |v.items| {
      var ts, rest := ItemTexts(v), ItemsText(v, i + 1);
      ItemsJoined(v, i + 1);
      assert ts[i..][0] == Canonical(v.items[i]) && ts[i..][1..] == ts[i + 1..];
    }
  }

  lemma {:induction false} FieldsJoined(v: Value, ks: seq<Bytes>, i: nat)
    requires v.Object? && Printable(v) && i <= |ks| && forall k :: k in ks ==> k in v.fields
    ensures FieldsText(v, ks, i) == (if 0 < i < |ks| then [0x2c] else []) + Commas(FieldTexts(v, ks)[i..]) + [0x7d]
    decreases |ks| - i
  {
    hide Canonical, Quoted;
    if i < |ks| {
      var ts, rest := FieldTexts(v, ks), FieldsText(v, ks, i + 1);
      FieldsJoined(v, ks, i + 1);
      assert ts[i..][0] == FieldText(v, ks[i]) && ts[i..][1..] == ts[i + 1..];
    }
  }

  /** What is written for each kind of value; the keys of an object increase. */
  lemma {:induction false} CanonicalSpells(v: Value) returns (ks: seq<Bytes>)
    requires Printable(v)
    ensures v.Null? ==> Canonical(v) == Ascii("null")
    ensures v.Bool? ==> Canonical(v) == if v.b then Ascii("true") else Ascii("false")
    ensures v.Int? ==> var n: int := v.n; Canonical(v) == if n < 0 then Ascii("-") + FormatNat(-n) else FormatNat(n)
    ensures v.List? ==> Canonical(v) == Ascii("[") + Commas(ItemTexts(v)) + Ascii("]")
    ensures v.Object? ==>
              && Increasing(ks) && (forall k :: k in ks <==> k in v.fields)
              && Canonical(v) == Ascii("{") + Commas(FieldTexts(v, ks)) + Ascii("}")
  {
    ks := [];
    hide Commas, ItemsText, FieldsText, ItemTexts, FieldTexts;
    assert Ascii("null") == NULL && Ascii("true") == TRUE && Ascii("false") == FALSE && Ascii("-") == [MINUS];
    if v.List? {
      ListSpells(v);
    } else if v.Object? {
      ks := SortedKeys(v.fields.Keys);
      assert forall k :: k in ks <==> k in Elements(ks);
      ObjectSpells(v, ks);
    }
  }

  lemma {:induction false} ListSpells(v: Value)
    requires v.List? && Printable(v)
    ensures Canonical(v) == Ascii("[") + Commas(ItemTexts(v)) + Ascii("]")
  {
    hide Commas, ItemsText, ItemTexts;
    ItemsJoined(v, 0);
    var ts := ItemTexts(v);
    assert ts[0..] == ts && [] + Commas(ts) == Commas(ts);
    assert Ascii("[") == [OPEN_LIST] && Ascii("]") == [0x5d];
    assert [OPEN_LIST] + (Commas(ts) + [0x5d]) == [OPEN_LIST] + Commas(ts) + [0x5d];
  }

  lemma {:induction false} ObjectSpells(v: Value, ks: seq<Bytes>)
    requires v.Object? && Printable(v) && ks == SortedKeys(v.fields.Keys)
    requires forall k :: k in ks ==> k in v.fields
    ensures Canonical(v) == Ascii("{") + Commas(FieldTexts(v, ks)) + Ascii("}")
  {
    hide Commas, FieldsText, FieldTexts, SortedKeys;
    FieldsJoined(v, ks, 0);
    var ts := FieldTexts(v, ks);
    assert ts[0..] == ts && [] + Commas(ts) == Commas(ts);
    assert Ascii("{") == [OPEN_OBJECT] && Ascii("}") == [0x7d];
    assert [OPEN_OBJECT] + (Commas(ts) + [0x7d]) == [OPEN_OBJECT] + Commas(ts) + [0x7d];
  }

  /**
   A byte is written as it is unless it is a quote, a backslash or a control byte. Those are written with
   the letter that stands for them, if there is one, and otherwise with four hex digits, in lower case.
   */
  lemma {:induction false} EscapeSpells(c: byte)
    ensures Escape(c) == [c] <==> c >= 0x20 && c as char != '"' && c as char != '\\'
    ensures (exists l: byte :: l as char != '/' && Stands(l) == Some(c)) ==>
              exists l: byte :: Stands(l) == Some(c) && Escape(c) == Ascii("\\") + [l]
    ensures c < 0x20 && (forall l: byte :: Stands(l) != Some(c)) ==>
              && |Escape(c)| == 6 && Escape(c)[..4] == Ascii("\\u00")
              && Escape(c)[4] as char == "0123456789abcdef"[c / 16]
              && Escape(c)[5] as char == "0123456789abcdef"[c % 16]
  {
    var letters := Ascii("\"\\bfnrt");
    assert Ascii("\\") == [0x5c] && Ascii("\\u00") == [0x5c, 0x75, 0x30, 0x30];
    if c == 0x22 || c == 0x5c || c == 0x08 || c == 0x0c || c == 0x0a || c == 0x0d || c == 0x09 {
      var l := Escape(c)[1];
      assert Stands(l) == Some(c) && Escape(c) == [0x5c] + [l];
    } else {
      forall l: byte | l as char != '/' ensures Stands(l) != Some(c) {
      }
      HexLetters(c / 16);
      HexLetters(c % 16);
    }
  }

  lemma {:induction false} HexLetters(n: nat)
    requires n < 16
    ensures HexDigit(n) as char == "0123456789abcdef"[n]
  {
  }

  /** What is written between the quotes is each byte in turn. */
  lemma {:induction false} QuotedSpells(s: Bytes)
    ensures s == [] ==> Quoted(s) == Ascii("\"\"")
    ensures s != [] ==> Quoted(s) == Ascii("\"") + (Escape(s[0]) + Quoted(s[1..])[1..])
  {
    assert Ascii("\"\"") == [0x22, 0x22] && Ascii("\"") == [0x22];
    if s != [] {
      assert Quoted(s[1..])[1..] == EscapeAll(s[1..]) + [QUOTE];
    }
  }

  // ---- floats ----

  function TenToThe(n: nat): (p: nat)
    ensures p > 0
  {
    if n == 0 then 1 else 10 * TenToThe(n - 1)
  }

  lemma {:induction false} DigitsBound(ds: seq<Digit>)
    requires ds != [] && ds[0] != 0
    ensures TenToThe(|ds| - 1) <= DigitsValue(ds) < TenToThe(|ds|)
  {
    if |ds| > 1 {
      DigitsBound(ds[..|ds| - 1]);
    } else {
      assert ds[..0] == [] && TenToThe(0) == 1;
    }
  }

  lemma {:induction false} TenPower(n: nat, e: int)
    ensures TenToThe(n) as real * PowerOfTen(e) == PowerOfTen(e + n)
    decreases n
  {
    if n > 0 {
      hide PowerOfTen;
      TenPower(n - 1, e + 1);
      ShiftPower(TenToThe(n - 1), e);
    } else {
      assert 1.0 * PowerOfTen(e) == PowerOfTen(e);
    }
  }

  lemma {:induction false} PowersGrow(a: int, b: int)
    requires a <= b
    ensures PowerOfTen(a) <= PowerOfTen(b)
    decreases b - a
  {
    if a < b {
      PowersGrow(a, b - 1);
      assert PowerOfTen(b) == 10.0 * PowerOfTen(b - 1);
    }
  }

  function Size(d: Decimal): real {
    if Worth(d) < 0.0 then -Worth(d) else Worth(d)
  }

  lemma {:induction false} Scale(a: real, b: real, p: real)
    requires p > 0.0
    ensures a <= b ==> a * p <= b * p
    ensures a < b ==> a * p < b * p
  {
  }

  lemma {:induction false} SizeIs(d: Decimal)
    ensures Size(d) == DigitsValue(d.digits) as real * PowerOfTen(d.point - |d.digits|)
  {
    hide PowerOfTen, DigitsValue;
    Scale(0.0, DigitsValue(d.digits) as real, PowerOfTen(d.point - |d.digits|));
  }

  lemma {:induction false} SizeBound(d: Decimal)
    requires d.Normal() && d.digits != []
    ensures PowerOfTen(d.point - 1) <= Size(d) < PowerOfTen(d.point)
  {
    hide PowerOfTen, DigitsValue, Size, TenToThe;
    var n, e := |d.digits|, d.point - |d.digits|;
    DigitsBound(d.digits);
    TenPower(n - 1, e);
    TenPower(n, e);
    SizeIs(d);
    var v := DigitsValue(d.digits) as real;
    Scale(TenToThe(n - 1) as real, v, PowerOfTen(e));
    Scale(v, TenToThe(n) as real, PowerOfTen(e));
  }

  /** An exponent is written exactly for a number below 0.0001 or from ten to the sixteenth on. */
  lemma {:induction false} ExponentShows(d: Decimal)
    requires d.Normal() && d.digits != []
    ensures LOWER_E in RubyFloat(d) <==> Size(d) < PowerOfTen(-4) || Size(d) >= PowerOfTen(16)
  {
    hide Size, PowerOfTen, Magnitude, DigitText;
    SizeBound(d);
    if d.point <= -4 { PowersGrow(d.point, -4); } else { PowersGrow(-4, d.point - 1); }
    if d.point <= 16 { PowersGrow(d.point, 16); } else { PowersGrow(16, d.point - 1); }
    MagnitudeShows(d.digits, d.point);
  }

  lemma {:induction false} MagnitudeShows(digits: seq<Digit>, point: int)
    requires digits != []
    ensures LOWER_E in Magnitude(digits, point) <==> point <= -4 || point > 16
  {
    hide PaddedExponent;
  }

  /** An exponent has a sign and at least two digits, and no more than it needs. */
  lemma {:induction false} PaddedSpells(e: int)
    ensures var t := PaddedExponent(e);
            && |t| >= 3 && t[0] as char == (if e < 0 then '-' else '+') && AllDigits(t[1..])
            && (|t| > 3 ==> t[1] as char != '0')
            && NatValue(t[1..]) == if e < 0 then -e else e
  {
    var n: nat := if e < 0 then -e else e;
    var t, digits := PaddedExponent(e), FormatNat(n);
    NatRoundTrip(n);
    if |digits| < 2 {
      assert t[1..] == [ZERO] + digits && digits == [digits[0]];
      assert t[1..][..1] == [ZERO] && [ZERO][..0] == [] && digits[..0] == [];
    } else {
      assert t[1..] == digits;
      assert n >= 10;
    }
  }
}
