/** UTF-8: the encoding of RFC 3629, section 3, the grammar of its section 4, and the strict scan. */
module Utf8 {
  import opened ByteStrings

  /** A Unicode scalar value: a code point that is not a surrogate. */
  type Scalar = r: int | 0 <= r < 0xD800 || 0xE000 <= r < 0x11_0000

  predicate IsScalar(r: int) {
    0 <= r < 0xD800 || 0xE000 <= r < 0x11_0000
  }

  function Encode(r: Scalar): (b: Bytes)
    ensures 1 <= |b| <= 4
  {
    var low: byte := 0x80 + r % 0x40;
    var middle: byte := 0x80 + r / 0x40 % 0x40;
    var high: byte := 0x80 + r / 0x1000 % 0x40;
    if r < 0x80 then var b: byte := r; [b]
    else if r < 0x800 then var lead: byte := 0xC0 + r / 0x40; [lead, low]
    else if r < 0x1_0000 then var lead: byte := 0xE0 + r / 0x1000; [lead, middle, low]
    else
      assert r / 0x4_0000 <= 4;
      var lead: byte := 0xF0 + r / 0x4_0000;
      [lead, high, middle, low]
  }

  function EncodeAll(rs: seq<Scalar>): Bytes {
    if rs == [] then [] else Encode(rs[0]) + EncodeAll(rs[1..])
  }

  /** `utf8.AppendRune`: anything but a scalar value is written as the replacement character. */
  function RuneBytes(r: int): Bytes {
    if IsScalar(r) then Encode(r) else Encode(0xFFFD)
  }

  // ---- section 4 of RFC 3629 ----

  predicate Tail(b: byte) {
    0x80 <= b <= 0xBF
  }

  /** UTF8-char: one alternative of UTF8-1, UTF8-2, UTF8-3 and UTF8-4. */
  predicate Utf8Char(c: Bytes) {
    || (|c| == 1 && c[0] <= 0x7F)
    || (|c| == 2 && 0xC2 <= c[0] <= 0xDF && Tail(c[1]))
    || (|c| == 3 && Tail(c[2]) && (
          || (c[0] == 0xE0 && 0xA0 <= c[1] <= 0xBF)
          || (0xE1 <= c[0] <= 0xEC && Tail(c[1]))
          || (c[0] == 0xED && 0x80 <= c[1] <= 0x9F)
          || (0xEE <= c[0] <= 0xEF && Tail(c[1]))))
    || (|c| == 4 && Tail(c[2]) && Tail(c[3]) && (
          || (c[0] == 0xF0 && 0x90 <= c[1] <= 0xBF)
          || (0xF1 <= c[0] <= 0xF3 && Tail(c[1]))
          || (c[0] == 0xF4 && 0x80 <= c[1] <= 0x8F)))
  }

  function Flatten(cs: seq<Bytes>): Bytes {
    if cs == [] then [] else cs[0] + Flatten(cs[1..])
  }

  /** UTF8-octets: any number of UTF8-char. */
  ghost predicate Utf8Octets(b: Bytes) {
    exists cs: seq<Bytes> :: (forall c :: c in cs ==> Utf8Char(c)) && b == Flatten(cs)
  }

  // ---- the strict scan ----

  /** How many bytes the character at the head of `b` takes, or 0 when there is none. */
  function CharLength(b: Bytes): (n: nat)
    requires b != []
    ensures n <= |b| && n <= 4
    ensures n > 1 ==> forall k :: 0 <= k < n ==> b[k] >= 0x80
    ensures n == 1 ==> b[0] < 0x80
  {
    var c := b[0];
    if c < 0x80 then 1
    else if 0xC2 <= c <= 0xDF then
      if |b| < 2 || b[1] / 0x40 != 2 then 0 else 2
    else if 0xE0 <= c <= 0xEF then
      if |b| < 3 || b[1] / 0x40 != 2 || b[2] / 0x40 != 2 then 0
      else if (c == 0xE0 && b[1] < 0xA0) || (c == 0xED && b[1] >= 0xA0) then 0
      else 3
    else if 0xF0 <= c <= 0xF4 then
      if |b| < 4 || b[1] / 0x40 != 2 || b[2] / 0x40 != 2 || b[3] / 0x40 != 2 then 0
      else if (c == 0xF0 && b[1] < 0x90) || (c == 0xF4 && b[1] >= 0x90) then 0
      else 4
    else 0
  }

  predicate Valid(b: Bytes) {
    b == [] || (CharLength(b) > 0 && Valid(b[CharLength(b)..]))
  }

  lemma {:induction false} CharLengthIsGrammar(b: Bytes, n: nat)
    requires 0 < n <= |b|
    ensures CharLength(b) == n <==> Utf8Char(b[..n])
  {
    var c := b[..n];
    assert forall k :: 0 <= k < n ==> c[k] == b[k];
  }

  /** The strict scan accepts exactly the grammar of RFC 3629. */
  lemma {:induction false} ValidIsGrammar(b: Bytes)
    ensures Valid(b) <==> Utf8Octets(b)
  {
    if Valid(b) {
      var cs := ValidSplits(b);
    }
    if cs: seq<Bytes> :| (forall c :: c in cs ==> Utf8Char(c)) && b == Flatten(cs) {
      GrammarIsValid(cs);
    }
  }

  lemma {:induction false} ValidSplits(b: Bytes) returns (cs: seq<Bytes>)
    requires Valid(b)
    ensures (forall c :: c in cs ==> Utf8Char(c)) && b == Flatten(cs)
    decreases |b|
  {
    cs := [];
    if b != [] {
      var n := CharLength(b);
      CharLengthIsGrammar(b, n);
      hide CharLength, Utf8Char;
      var rest := ValidSplits(b[n..]);
      cs := [b[..n]] + rest;
      assert cs[1..] == rest && b == b[..n] + b[n..];
    }
  }

  lemma {:induction false} GrammarIsValid(cs: seq<Bytes>)
    requires forall c :: c in cs ==> Utf8Char(c)
    ensures Valid(Flatten(cs))
  {
    if cs != [] {
      GrammarIsValid(cs[1..]);
      CharThenValid(cs[0], Flatten(cs[1..]));
    }
  }

  function Decode(c: Bytes): (r: Scalar)
    requires Utf8Char(c)
    ensures Encode(r) == c
  {
    if |c| == 1 then c[0]
    else if |c| == 2 then Decode2(c[0], c[1])
    else if |c| == 3 then Decode3(c[0], c[1], c[2])
    else Decode4(c[0], c[1], c[2], c[3])
  }

  function Decode2(a: byte, b: byte): (r: Scalar)
    requires Utf8Char([a, b])
    ensures Encode(r) == [a, b]
  {
    Sextets(a - 0xC0, b)
  }

  function Decode3(a: byte, b: byte, c: byte): (r: Scalar)
    requires Utf8Char([a, b, c])
    ensures Encode(r) == [a, b, c]
  {
    var high := Sextets(a - 0xE0, b);
    var r := Sextets(high, c);
    assert r / 0x1000 == high / 0x40;
    r
  }

  function Decode4(a: byte, b: byte, c: byte, d: byte): (r: Scalar)
    requires Utf8Char([a, b, c, d])
    ensures Encode(r) == [a, b, c, d]
  {
    var top := Sextets(a - 0xF0, b);
    var high := Sextets(top, c);
    var r := Sextets(high, d);
    assert r / 0x1000 == top && r / 0x4_0000 == top / 0x40;
    r
  }

  /** Six more low bits, taken from a tail byte. */
  function Sextets(high: nat, tail: byte): (r: nat)
    requires Tail(tail)
    ensures r / 0x40 == high && r % 0x40 == tail - 0x80
  {
    high * 0x40 + (tail - 0x80)
  }

  lemma {:induction false} EncodeIsGrammar(r: Scalar)
    ensures Utf8Char(Encode(r))
  {
    assert 0x800 <= r < 0x1000 ==> r / 0x40 % 0x40 == r / 0x40 && r / 0x40 >= 0x20;
    assert 0xD000 <= r < 0xD800 ==> r / 0x40 % 0x40 == r / 0x40 - 0x340;
    assert 0x1_0000 <= r < 0x4_0000 ==> r / 0x1000 % 0x40 == r / 0x1000 && r / 0x1000 >= 0x10;
    assert 0x10_0000 <= r ==> r / 0x1000 % 0x40 == r / 0x1000 - 0x100 && r / 0x4_0000 == 4;
  }

  lemma {:induction false} EncodeOneMore(r: Scalar, rs: seq<Scalar>)
    ensures EncodeAll([r] + rs) == Encode(r) + EncodeAll(rs)
  {
    hide Encode;
    assert ([r] + rs)[1..] == rs;
  }

  lemma {:induction false} ValidHasEncoding(b: Bytes) returns (rs: seq<Scalar>)
    requires Valid(b)
    ensures b == EncodeAll(rs)
    decreases |b|
  {
    hide Encode, Decode, EncodeAll;
    if b == [] {
      rs := [];
      NothingEncodes();
    } else {
      var n := CharLength(b);
      CharLengthIsGrammar(b, n);
      var rest := ValidHasEncoding(b[n..]);
      var r := Decode(b[..n]);
      rs := [r] + rest;
      EncodeOneMore(r, rest);
      assert b == b[..n] + b[n..];
    }
  }

  lemma {:induction false} NothingEncodes()
    ensures EncodeAll([]) == []
  {
  }

  lemma {:induction false} EncodingIsValid(rs: seq<Scalar>)
    ensures Valid(EncodeAll(rs))
  {
    if rs != [] {
      EncodingIsValid(rs[1..]);
      EncodeIsGrammar(rs[0]);
      CharThenValid(Encode(rs[0]), EncodeAll(rs[1..]));
    }
  }

  /** What the strict scan accepts is exactly what encoding scalar values produces. */
  lemma {:induction false} ValidIsEncoding(b: Bytes)
    ensures Valid(b) <==> exists rs :: b == EncodeAll(rs)
  {
    if Valid(b) {
      var rs := ValidHasEncoding(b);
    }
    if rs :| b == EncodeAll(rs) {
      EncodingIsValid(rs);
    }
  }

  /** A character keeps its length whatever follows it. */
  lemma {:induction false} CharThenValid(c: Bytes, rest: Bytes)
    requires Utf8Char(c) && Valid(rest)
    ensures Valid(c + rest)
  {
    assert (c + rest)[..|c|] == c && (c + rest)[|c|..] == rest;
    CharLengthIsGrammar(c + rest, |c|);
  }
}
