/** Every way to spell a string or a number in JSON, and that the decoder reads each of them and nothing else. */
module JsonSpelling {
  import opened ByteStrings
  import opened Digits
  import opened Floats
  import opened JsonValues
  import opened JsonParser
  import opened Utf8

  // ---- strings ----

  /** A byte as it is, a backslash and a letter, or `\u` and four hex digits with the number that they spell. */
  datatype Piece = Raw(c: byte) | Letter(c: byte) | Unit(hex: Bytes, code: nat)

  predicate IsNibble(c: byte, n: nat) {
    n < 16 && (c as char == "0123456789abcdef"[n] || c as char == "0123456789ABCDEF"[n])
  }

  /** What a letter stands for after a backslash. */
  function Stands(letter: byte): Option<byte> {
    match letter as char
    case '"' => Some(0x22)
    case '\\' => Some(0x5c)
    case '/' => Some(0x2f)
    case 'b' => Some(0x08)
    case 'f' => Some(0x0c)
    case 'n' => Some(0x0a)
    case 'r' => Some(0x0d)
    case 't' => Some(0x09)
    case _ => None
  }

  predicate GoodPiece(p: Piece) {
    match p
    case Raw(c) => c as char != '"' && c as char != '\\'
    case Letter(c) => Stands(c).Some?
    case Unit(hex, code) =>
      && |hex| == 4 && code < 0x1_0000
      && IsNibble(hex[0], code / 0x1000) && IsNibble(hex[1], code / 0x100 % 0x10)
      && IsNibble(hex[2], code / 0x10 % 0x10) && IsNibble(hex[3], code % 0x10)
  }

  function PieceText(p: Piece): (t: Bytes)
    ensures t != []
  {
    match p
    case Raw(c) => [c]
    case Letter(c) => [0x5c, c]
    case Unit(hex, _) => [0x5c, 0x75] + hex
  }

  function PiecesText(ps: seq<Piece>): Bytes {
    if ps == [] then [] else PieceText(ps[0]) + PiecesText(ps[1..])
  }

  /** The text starts with a surrogate pair. */
  predicate Pairs(ps: seq<Piece>) {
    && |ps| >= 2 && ps[0].Unit? && ps[1].Unit?
    && 0xD800 <= ps[0].code < 0xDC00 && 0xDC00 <= ps[1].code < 0xE000
  }

  /** A lone surrogate is written as the replacement character. */
  function Meant(p: Piece): Bytes
    requires GoodPiece(p)
  {
    match p
    case Raw(c) => [c]
    case Letter(c) => [Stands(c).value]
    case Unit(_, code) => if 0xD800 <= code < 0xE000 then [0xef, 0xbf, 0xbd] else Encode(code)
  }

  ghost predicate GoodPieces(ps: seq<Piece>) {
    forall p :: p in ps ==> GoodPiece(p)
  }

  /** The bytes that the pieces spell. */
  ghost function Spelled(ps: seq<Piece>): Bytes
    requires GoodPieces(ps)
    decreases |ps|
  {
    if ps == [] then []
    else if Pairs(ps) then
      Encode(0x1_0000 + (ps[0].code - 0xD800) * 0x400 + (ps[1].code - 0xDC00)) + Spelled(ps[2..])
    else Meant(ps[0]) + Spelled(ps[1..])
  }

  lemma {:induction false} NibbleIsHex(c: byte, n: nat)
    ensures IsNibble(c, n) <==> HexValue(c) == Some(n)
  {
    assert forall k: nat :: k < 16 ==> "0123456789abcdef"[k] as int == if k < 10 then 0x30 + k else 0x57 + k;
    assert forall k: nat :: k < 16 ==> "0123456789ABCDEF"[k] as int == if k < 10 then 0x30 + k else 0x37 + k;
  }

  lemma {:induction false} FourDigits(a: nat, b: nat, c: nat, d: nat, code: nat)
    requires a < 16 && b < 16 && c < 16 && d < 16
    ensures code == ((a * 16 + b) * 16 + c) * 16 + d <==>
              code < 0x1_0000 && a == code / 0x1000 && b == code / 0x100 % 0x10 && c == code / 0x10 % 0x10
              && d == code % 0x10
  {
    var two := a * 16 + b;
    var three := two * 16 + c;
    if code == three * 16 + d {
      assert code / 0x10 == three && three / 0x10 == two && two / 0x10 == a;
      assert code / 0x100 == two && code / 0x1000 == a;
    } else if code < 0x1_0000 && a == code / 0x1000 && b == code / 0x100 % 0x10 && c == code / 0x10 % 0x10 {
      assert code / 0x100 / 0x10 == code / 0x1000 && code / 0x10 / 0x10 == code / 0x100;
      assert code / 0x100 == two && code / 0x10 == three;
    }
  }

  lemma {:induction false} UnitIsHex4(data: Bytes, pos: nat, hex: Bytes, code: nat)
    requires |hex| == 4 && At(data, pos, hex)
    ensures Hex4(data, pos) == Some(code) <==> GoodPiece(Unit(hex, code))
  {
    hide IsNibble, HexValue;
    assert hex[0] == data[pos + 0] && hex[1] == data[pos + 1] && hex[2] == data[pos + 2] && hex[3] == data[pos + 3];
    var a, b, c, d := HexValue(hex[0]), HexValue(hex[1]), HexValue(hex[2]), HexValue(hex[3]);
    NibbleIsHex(hex[0], code / 0x1000);
    NibbleIsHex(hex[1], code / 0x100 % 0x10);
    NibbleIsHex(hex[2], code / 0x10 % 0x10);
    NibbleIsHex(hex[3], code % 0x10);
    HexIsSmall(hex[0]);
    HexIsSmall(hex[1]);
    HexIsSmall(hex[2]);
    HexIsSmall(hex[3]);
    if a.Some? && b.Some? && c.Some? && d.Some? {
      FourDigits(a.value, b.value, c.value, d.value, code);
    }
  }

  lemma {:induction false} HexIsSmall(c: byte)
    ensures HexValue(c).Some? ==> HexValue(c).value < 16
  {
  }

  lemma {:induction false} OneByte(data: Bytes, pos: nat, c: byte)
    ensures At(data, pos, [c]) <==> pos < |data| && data[pos] == c
  {
    assert At(data, pos, [c]) ==> [c][0] == data[pos + 0];
  }

  /** A piece, at the place where it stands. */
  lemma {:induction false} PieceStands(data: Bytes, pos: nat, p: Piece)
    ensures p.Raw? ==> (At(data, pos, PieceText(p)) <==> pos < |data| && data[pos] == p.c)
    ensures p.Letter? ==>
              (At(data, pos, PieceText(p)) <==> pos + 1 < |data| && data[pos] == BACKSLASH && data[pos + 1] == p.c)
    ensures p.Unit? ==>
              (At(data, pos, PieceText(p)) <==>
                 pos + 1 < |data| && data[pos] == BACKSLASH && data[pos + 1] == 0x75 && At(data, pos + 2, p.hex))
  {
    hide At;
    match p
    case Raw(c) =>
      OneByte(data, pos, c);
    case Letter(c) =>
      assert [0x5c, c] == [0x5c] + [c];
      AtSplit(data, pos, [0x5c], [c]);
      OneByte(data, pos, 0x5c);
      OneByte(data, pos + 1, c);
    case Unit(hex, _) =>
      AtSplit(data, pos, [0x5c, 0x75], hex);
      assert [0x5c, 0x75] == [0x5c as byte] + [0x75];
      AtSplit(data, pos, [0x5c], [0x75]);
      OneByte(data, pos, 0x5c);
      OneByte(data, pos + 1, 0x75);
  }

  /** The text of the pieces and the closing quote. */
  function Closed(ps: seq<Piece>): Bytes {
    PiecesText(ps) + [QUOTE]
  }

  lemma {:induction false} ClosedSplits(data: Bytes, pos: nat, ps: seq<Piece>)
    requires ps != []
    ensures At(data, pos, Closed(ps)) <==>
              At(data, pos, PieceText(ps[0])) && At(data, pos + |PieceText(ps[0])|, Closed(ps[1..]))
    ensures |Closed(ps)| == |PieceText(ps[0])| + |Closed(ps[1..])|
  {
    hide At, PieceText;
    assert Closed(ps) == PieceText(ps[0]) + Closed(ps[1..]);
    AtSplit(data, pos, PieceText(ps[0]), Closed(ps[1..]));
  }

  lemma {:induction false} ClosedNothing(data: Bytes, pos: nat)
    ensures At(data, pos, Closed([])) <==> pos < |data| && data[pos] == QUOTE
    ensures |Closed([])| == 1
  {
    OneByte(data, pos, QUOTE);
    assert Closed([]) == [QUOTE];
  }

  /** Whether a `\u` escape with a number stands here. */
  ghost predicate UnitAt(data: Bytes, pos: nat, code: nat) {
    && pos + 6 <= |data| && data[pos] == BACKSLASH && data[pos + 1] == 0x75
    && Hex4(data, pos + 2) == Some(code)
  }

  lemma {:induction false} UnitStands(data: Bytes, pos: nat, hex: Bytes, code: nat)
    requires GoodPiece(Unit(hex, code)) && At(data, pos, PieceText(Unit(hex, code)))
    ensures UnitAt(data, pos, code)
  {
    PieceStands(data, pos, Unit(hex, code));
    UnitIsHex4(data, pos + 2, hex, code);
  }

  /** The head of a closed text is such an escape only if the first piece is. */
  lemma {:induction false} HeadUnit(data: Bytes, pos: nat, ps: seq<Piece>, code: nat)
    requires GoodPieces(ps) && At(data, pos, Closed(ps)) && UnitAt(data, pos, code)
    ensures ps != [] && ps[0].Unit? && ps[0].code == code
  {
    hide Hex4, At, Closed, PieceText, GoodPiece;
    if ps == [] {
      ClosedNothing(data, pos);
    } else {
      assert ps[0] in ps;
      ClosedSplits(data, pos, ps);
      PieceStands(data, pos, ps[0]);
      if ps[0].Raw? { RawIsPlain(ps[0].c); }
      if ps[0].Letter? { LetterStands(ps[0].c); }
      if ps[0].Unit? { UnitStands(data, pos, ps[0].hex, ps[0].code); }
    }
  }

  /** The second half of a surrogate pair stands here. */
  ghost predicate LowAt(data: Bytes, pos: nat) {
    exists low: nat :: UnitAt(data, pos, low) && 0xDC00 <= low < 0xE000
  }

  lemma {:induction false} EscapeOfPair(data: Bytes, pos: nat, high: nat, low: nat)
    requires UnitAt(data, pos, high) && UnitAt(data, pos + 6, low)
    requires 0xD800 <= high < 0xDC00 && 0xDC00 <= low < 0xE000
    ensures ParseEscape(data, pos + 1)
         == Token(Encode(0x1_0000 + (high - 0xD800) * 0x400 + (low - 0xDC00)), pos + 12)
  {
    hide Encode, Hex4;
  }

  lemma {:induction false} EscapeOfOne(data: Bytes, pos: nat, code: nat)
    requires UnitAt(data, pos, code) && !(0xD800 <= code < 0xDC00 && LowAt(data, pos + 6))
    ensures ParseEscape(data, pos + 1) == Token(RuneBytes(code), pos + 6)
  {
    hide Encode, Hex4;
    if pos + 12 <= |data| && data[pos + 6] == BACKSLASH && data[pos + 7] == 0x75 && Hex4(data, pos + 8).Some? {
      assert UnitAt(data, pos + 6, Hex4(data, pos + 8).value);
    }
  }

  lemma {:induction false} HexIsUnit(data: Bytes, pos: nat, code: nat)
    requires pos + 4 <= |data| && Hex4(data, pos) == Some(code)
    ensures code < 0x1_0000
  {
    HexIsSmall(data[pos]);
    HexIsSmall(data[pos + 1]);
    HexIsSmall(data[pos + 2]);
    HexIsSmall(data[pos + 3]);
  }

  lemma {:induction false} MeantIsRune(hex: Bytes, code: nat)
    requires GoodPiece(Unit(hex, code))
    ensures Meant(Unit(hex, code)) == RuneBytes(code)
  {
    assert Encode(0xFFFD) == [0xef, 0xbf, 0xbd];
  }

  lemma {:induction false} EscapeOfLetter(data: Bytes, pos: nat, c: byte)
    requires pos < |data| && data[pos] == c && c != 0x75
    ensures ParseEscape(data, pos)
         == if Stands(c).Some? then Token([Stands(c).value], pos + 1) else Malformed(BadEscape(c))
  {
  }

  /** The decoder reads a text of pieces, and what they spell. */
  lemma {:induction false} ReadPieces(data: Bytes, pos: nat, ps: seq<Piece>, out: Bytes)
    requires GoodPieces(ps) && At(data, pos, Closed(ps))
    ensures ParseStringFrom(data, pos, out) == Token(out + Spelled(ps), pos + |Closed(ps)|)
    decreases |ps|
  {
    hide ParseEscape, Encode, GoodPiece, Meant, UnitAt, At;
    if ps == [] {
      assert Closed(ps) == [QUOTE] && out + [] == out;
      OneByte(data, pos, QUOTE);
    } else {
      var p, next := ps[0], pos + |PieceText(ps[0])|;
      assert p in ps && forall q :: q in ps[1..] ==> q in ps;
      ClosedSplits(data, pos, ps);
      PieceStands(data, pos, p);
      if p.Raw? {
        RawIsPlain(p.c);
        ReadPieces(data, next, ps[1..], out + [p.c]);
        assert out + [p.c] + Spelled(ps[1..]) == out + Spelled(ps) by { SpelledOne(ps, out); }
      } else if p.Letter? {
        LetterStands(p.c);
        EscapeOfLetter(data, pos + 1, p.c);
        ReadPieces(data, next, ps[1..], out + Meant(p));
        assert out + Meant(p) + Spelled(ps[1..]) == out + Spelled(ps) by { SpelledOne(ps, out); }
      } else {
        ReadUnit(data, pos, ps, out);
      }
    }
  }

  lemma {:induction false} RawIsPlain(c: byte)
    requires GoodPiece(Raw(c))
    ensures c != QUOTE && c != BACKSLASH && Meant(Raw(c)) == [c]
  {
  }

  lemma {:induction false} LetterStands(c: byte)
    requires GoodPiece(Letter(c))
    ensures Stands(c).Some? && c != 0x75 && Meant(Letter(c)) == [Stands(c).value]
  {
  }

  lemma {:induction false} SpelledOne(ps: seq<Piece>, out: Bytes)
    requires ps != [] && GoodPieces(ps) && !Pairs(ps)
    ensures out + Meant(ps[0]) + Spelled(ps[1..]) == out + Spelled(ps)
  {
    hide Meant, GoodPiece;
    assert out + (Meant(ps[0]) + Spelled(ps[1..])) == out + Meant(ps[0]) + Spelled(ps[1..]);
  }

  lemma {:induction false} AfterEscape(data: Bytes, pos: nat, out: Bytes, b: Bytes, next: nat)
    requires pos < |data| && data[pos] == BACKSLASH && ParseEscape(data, pos + 1) == Token(b, next)
    ensures ParseStringFrom(data, pos, out) == ParseStringFrom(data, next, out + b)
  {
    hide ParseEscape;
  }

  /** The first piece is a `\u` escape: what stands behind it. */
  lemma {:induction false} UnitFirst(data: Bytes, pos: nat, ps: seq<Piece>)
    requires GoodPieces(ps) && At(data, pos, Closed(ps)) && ps != [] && ps[0].Unit?
    ensures pos < |data| && data[pos] == BACKSLASH && UnitAt(data, pos, ps[0].code)
    ensures GoodPieces(ps[1..]) && At(data, pos + 6, Closed(ps[1..])) && |Closed(ps)| == 6 + |Closed(ps[1..])|
  {
    hide Encode, UnitAt, At;
    var p := ps[0];
    assert p in ps && forall q :: q in ps[1..] ==> q in ps;
    ClosedSplits(data, pos, ps);
    PieceStands(data, pos, p);
    UnitStands(data, pos, p.hex, p.code);
  }

  lemma {:induction false} ReadUnit(data: Bytes, pos: nat, ps: seq<Piece>, out: Bytes)
    requires GoodPieces(ps) && At(data, pos, Closed(ps)) && ps != [] && ps[0].Unit?
    ensures ParseStringFrom(data, pos, out) == Token(out + Spelled(ps), pos + |Closed(ps)|)
    decreases |ps|, 0
  {
    hide ParseEscape, ParseStringFrom, Encode, GoodPieces, Meant, UnitAt, At, Closed, Spelled;
    UnitFirst(data, pos, ps);
    if Pairs(ps) {
      UnitFirst(data, pos + 6, ps[1..]);
      assert ps[1..][1..] == ps[2..];
      EscapeOfPair(data, pos, ps[0].code, ps[1].code);
      var b := Encode(0x1_0000 + (ps[0].code - 0xD800) * 0x400 + (ps[1].code - 0xDC00));
      AfterEscape(data, pos, out, b, pos + 12);
      ReadPieces(data, pos + 12, ps[2..], out + b);
      SpelledPair(ps, out);
    } else {
      if 0xD800 <= ps[0].code < 0xDC00 && LowAt(data, pos + 6) {
        var low: nat :| UnitAt(data, pos + 6, low) && 0xDC00 <= low < 0xE000;
        HeadUnit(data, pos + 6, ps[1..], low);
        assert false;
      }
      EscapeOfOne(data, pos, ps[0].code);
      FirstIsRune(ps);
      AfterEscape(data, pos, out, Meant(ps[0]), pos + 6);
      ReadPieces(data, pos + 6, ps[1..], out + Meant(ps[0]));
      SpelledOne(ps, out);
    }
  }

  lemma {:induction false} FirstIsRune(ps: seq<Piece>)
    requires GoodPieces(ps) && ps != [] && ps[0].Unit?
    ensures GoodPiece(ps[0]) && Meant(ps[0]) == RuneBytes(ps[0].code)
  {
    assert ps[0] in ps;
    MeantIsRune(ps[0].hex, ps[0].code);
  }

  lemma {:induction false} SpelledPair(ps: seq<Piece>, out: Bytes)
    requires GoodPieces(ps) && Pairs(ps)
    ensures GoodPieces(ps[2..])
    ensures var b := Encode(0x1_0000 + (ps[0].code - 0xD800) * 0x400 + (ps[1].code - 0xDC00));
            out + b + Spelled(ps[2..]) == out + Spelled(ps)
  {
    hide Encode, GoodPiece;
    var b := Encode(0x1_0000 + (ps[0].code - 0xD800) * 0x400 + (ps[1].code - 0xDC00));
    assert out + (b + Spelled(ps[2..])) == out + b + Spelled(ps[2..]);
  }

  lemma {:induction false} UnitIsLong(p: Piece)
    requires GoodPiece(p) && p.Unit?
    ensures |PieceText(p)| == 6
  {
  }

  lemma {:induction false} OneMorePiece(data: Bytes, pos: nat, p: Piece, ps: seq<Piece>)
    requires GoodPiece(p) && GoodPieces(ps) && At(data, pos, PieceText(p))
    requires At(data, pos + |PieceText(p)|, Closed(ps))
    ensures GoodPieces([p] + ps) && At(data, pos, Closed([p] + ps))
  {
    hide At, PieceText, GoodPiece, Closed;
    assert ([p] + ps)[1..] == ps;
    ClosedSplits(data, pos, [p] + ps);
  }

  /** A `\u` escape that the decoder reads is a piece. */
  lemma {:induction false} UnitHere(data: Bytes, pos: nat, code: nat) returns (p: Piece)
    requires UnitAt(data, pos, code)
    ensures p.Unit? && p.code == code && GoodPiece(p) && |PieceText(p)| == 6 && At(data, pos, PieceText(p))
  {
    var hex := data[pos + 2..pos + 6];
    p := Unit(hex, code);
    UnitIsHex4(data, pos + 2, hex, code);
    PieceStands(data, pos, p);
  }

  /** Whatever string the decoder reads is spelled by pieces. */
  lemma {:induction false} FindPieces(data: Bytes, pos: nat, out: Bytes) returns (ps: seq<Piece>)
    requires pos <= |data| && ParseStringFrom(data, pos, out).Token?
    ensures GoodPieces(ps) && At(data, pos, Closed(ps))
    decreases |data| - pos
  {
    hide At, PieceText, GoodPiece, Closed, Hex4, UnitAt;
    if data[pos] == QUOTE {
      ps := [];
      ClosedNothing(data, pos);
    } else if data[pos] == BACKSLASH {
      ps := FindEscape(data, pos, out);
    } else {
      var rest := FindPieces(data, pos + 1, out + [data[pos]]);
      PieceStands(data, pos, Raw(data[pos]));
      RawIsGood(data[pos]);
      OneMorePiece(data, pos, Raw(data[pos]), rest);
      ps := [Raw(data[pos])] + rest;
    }
  }

  lemma {:induction false} RawIsGood(c: byte)
    ensures c != QUOTE && c != BACKSLASH ==> GoodPiece(Raw(c)) && |PieceText(Raw(c))| == 1
    ensures Stands(c).Some? ==> GoodPiece(Letter(c)) && |PieceText(Letter(c))| == 2
  {
  }

  lemma {:induction false} FindEscape(data: Bytes, pos: nat, out: Bytes) returns (ps: seq<Piece>)
    requires pos < |data| && data[pos] == BACKSLASH && ParseStringFrom(data, pos, out).Token?
    ensures GoodPieces(ps) && At(data, pos, Closed(ps))
    decreases |data| - pos, 0
  {
    hide At, PieceText, GoodPiece, Closed, Hex4, UnitAt, Encode, RuneBytes, ParseEscape;
    var escape := ParseEscape(data, pos + 1);
    assert escape.Token? && pos + 1 < |data| by { EscapeIsThere(data, pos, out); }
    AfterEscape(data, pos, out, escape.value, escape.next);
    var c := data[pos + 1];
    if c != 0x75 {
      EscapeOfLetter(data, pos + 1, c);
      var rest := FindPieces(data, pos + 2, out + escape.value);
      PieceStands(data, pos, Letter(c));
      RawIsGood(c);
      OneMorePiece(data, pos, Letter(c), rest);
      ps := [Letter(c)] + rest;
    } else {
      var code := UnitRead(data, pos);
      var p := UnitHere(data, pos, code);
      if 0xD800 <= code < 0xDC00 && LowAt(data, pos + 6) {
        var low: nat :| UnitAt(data, pos + 6, low) && 0xDC00 <= low < 0xE000;
        EscapeOfPair(data, pos, code, low);
        var q := UnitHere(data, pos + 6, low);
        var rest := FindPieces(data, pos + 12, out + escape.value);
        OneMorePiece(data, pos + 6, q, rest);
        OneMorePiece(data, pos, p, [q] + rest);
        ps := [p] + ([q] + rest);
      } else {
        EscapeOfOne(data, pos, code);
        var rest := FindPieces(data, pos + 6, out + escape.value);
        OneMorePiece(data, pos, p, rest);
        ps := [p] + rest;
      }
    }
  }

  lemma {:induction false} EscapeIsThere(data: Bytes, pos: nat, out: Bytes)
    requires pos < |data| && data[pos] == BACKSLASH && ParseStringFrom(data, pos, out).Token?
    ensures ParseEscape(data, pos + 1).Token? && pos + 1 < |data|
  {
    hide ParseUnicode;
  }

  lemma {:induction false} UnitRead(data: Bytes, pos: nat) returns (code: nat)
    requires pos + 1 < |data| && data[pos] == BACKSLASH && data[pos + 1] == 0x75 && ParseEscape(data, pos + 1).Token?
    ensures UnitAt(data, pos, code)
  {
    hide Hex4, RuneBytes, Encode;
    code := Hex4(data, pos + 2).value;
  }

  // ---- numbers ----

  datatype Exponent = Exponent(letter: byte, sign: Option<byte>, digits: seq<Digit>)

  datatype Numeral = Numeral(neg: bool, whole: seq<Digit>, fraction: Option<seq<Digit>>, exponent: Option<Exponent>)

  /** Some digit stands before the exponent, and a number without a sign starts with one. */
  predicate GoodNumeral(n: Numeral) {
    && (n.whole != [] || (n.neg && n.fraction.Some? && n.fraction.value != []))
    && (n.exponent.Some? ==>
          var e := n.exponent.value;
          && (e.letter as char == 'e' || e.letter as char == 'E') && e.digits != []
          && (e.sign.Some? ==> e.sign.value as char == '+' || e.sign.value as char == '-'))
  }

  function SignText(n: Numeral): Bytes {
    if n.neg then [0x2d] else []
  }

  function FractionText(n: Numeral): Bytes {
    match n.fraction
    case None => []
    case Some(f) => [0x2e] + DigitText(f)
  }

  function ExponentText(n: Numeral): Bytes {
    match n.exponent
    case None => []
    case Some(e) => [e.letter] + PowerText(e)
  }

  function PowerText(e: Exponent): Bytes {
    (match e.sign case None => [] case Some(c) => [c]) + DigitText(e.digits)
  }

  function NumeralText(n: Numeral): Bytes {
    SignText(n) + DigitText(n.whole) + FractionText(n) + ExponentText(n)
  }

  function Power(e: Exponent): int {
    var magnitude: int := DigitsValue(e.digits);
    if e.sign == Some(0x2d) then -magnitude else magnitude
  }

  /** The decimal that the digits spell. */
  function Exact(n: Numeral): Decimal {
    Decimal(n.neg, n.whole + n.fraction.GetOr([]), |n.whole| + if n.exponent.Some? then Power(n.exponent.value) else 0)
  }

  /** An integer if it is written as one and fits in 64 bits, otherwise the nearest float, if there is one. */
  function MeantNumber(nearest: Rounding, n: Numeral): Option<Value> {
    var magnitude: int := DigitsValue(n.whole);
    var v := if n.neg then -magnitude else magnitude;
    if n.fraction.None? && n.exponent.None? && -0x8000_0000_0000_0000 <= v <= 0x7fff_ffff_ffff_ffff then Some(Int(v))
    else
      match nearest(Normalize(Exact(n)))
      case None => None
      case Some(d) => Some(Number(Finite(d)))
  }

  lemma {:induction false} NatOfDigits(ds: seq<Digit>)
    ensures NatValue(DigitText(ds)) == DigitsValue(ds)
  {
    if ds != [] {
      NatOfDigits(ds[..|ds| - 1]);
      assert DigitText(ds)[..|ds| - 1] == DigitText(ds[..|ds| - 1]);
    }
  }

  function DigitsOf(t: Bytes): (ds: seq<Digit>)
    requires AllDigits(t)
    ensures DigitText(ds) == t
  {
    seq(|t|, k requires 0 <= k < |t| => t[k] - ZERO)
  }

  lemma {:induction false} ReadPower(e: Exponent)
    requires e.digits != [] && (e.sign.Some? ==> e.sign.value as char == '+' || e.sign.value as char == '-')
    ensures ReadExponent(PowerText(e)) == Some(Power(e))
  {
    hide NatValue, DigitsValue;
    NatOfDigits(e.digits);
    var t := PowerText(e);
    if e.sign.Some? {
      assert t[1..] == DigitText(e.digits);
    } else {
      assert t == DigitText(e.digits) && t[0] == DigitText(e.digits)[0];
    }
  }

  lemma {:induction false} FindPower(t: Bytes) returns (e: Exponent)
    requires ReadExponent(t).Some?
    ensures e.letter == LOWER_E && e.digits != [] && PowerText(e) == t
    ensures e.sign.Some? ==> e.sign.value as char == '+' || e.sign.value as char == '-'
  {
    hide NatValue;
    if t[0] == MINUS || t[0] == PLUS {
      e := Exponent(LOWER_E, Some(t[0]), DigitsOf(t[1..]));
      assert t == [t[0]] + t[1..];
    } else {
      e := Exponent(LOWER_E, None, DigitsOf(t));
      assert [] + t == t;
    }
  }

  // ---- the mantissa ----

  /** The scan stops here: no digit follows, and no point when one is still possible. */
  predicate MantissaStops(t: Bytes, i: nat, point: Option<nat>) {
    i <= |t| && (i < |t| ==> !IsDigit(t[i]) && (t[i] == DOT ==> point.Some?))
  }

  /** The digits stand from `i` on: before a point, and behind it if there is one. */
  predicate MantissaAt(t: Bytes, i: nat, whole: seq<Digit>, fraction: Option<seq<Digit>>) {
    && Spells(t, i, whole)
    && (fraction.Some? ==>
          i + |whole| < |t| && t[i + |whole|] == DOT && Spells(t, i + |whole| + 1, fraction.value))
  }

  function MantissaEnd(i: nat, whole: seq<Digit>, fraction: Option<seq<Digit>>): nat {
    i + |whole| + match fraction { case None => 0 case Some(f) => 1 + |f| }
  }

  lemma {:induction false} ReadMantissa(t: Bytes, i: nat, whole: seq<Digit>, fraction: Option<seq<Digit>>)
    requires MantissaAt(t, i, whole, fraction)
    requires MantissaStops(t, MantissaEnd(i, whole, fraction), if fraction.Some? then Some(|whole|) else None)
    ensures ScanMantissa(t, i, [], None)
         == Mantissa(MantissaEnd(i, whole, fraction), whole + fraction.GetOr([]),
                     if fraction.Some? then Some(|whole|) else None)
  {
    if fraction.Some? {
      ScanPointed(t, i, whole, fraction.value);
    } else {
      ScanDigits(t, i, whole, [], None);
      assert [] + whole == whole && whole + [] == whole;
    }
  }

  lemma {:induction false} FindDigits(t: Bytes, i: nat, digits: seq<Digit>, point: Option<nat>) returns (w: seq<Digit>)
    requires i <= |t|
    ensures Spells(t, i, w)
    ensures ScanMantissa(t, i, digits, point) == ScanMantissa(t, i + |w|, digits + w, point)
    ensures i + |w| == |t| || !IsDigit(t[i + |w|])
    decreases |t| - i
  {
    if i < |t| && IsDigit(t[i]) {
      var rest := FindDigits(t, i + 1, digits + [t[i] - ZERO], point);
      w := [t[i] - ZERO] + rest;
      assert digits + [t[i] - ZERO] + rest == digits + w;
      forall k | 0 <= k < |w| ensures t[i + k] == ZERO + w[k] {
        assert k > 0 ==> t[i + 1 + (k - 1)] == ZERO + rest[k - 1];
      }
    } else {
      w := [];
      assert digits + [] == digits;
    }
  }

  lemma {:induction false} FindMantissa(t: Bytes, i: nat) returns (whole: seq<Digit>, fraction: Option<seq<Digit>>)
    requires i <= |t|
    ensures MantissaAt(t, i, whole, fraction)
    ensures MantissaStops(t, MantissaEnd(i, whole, fraction), if fraction.Some? then Some(|whole|) else None)
  {
    whole := FindDigits(t, i, [], None);
    fraction := None;
    if i + |whole| < |t| && t[i + |whole|] == DOT {
      var f := FindDigits(t, i + |whole| + 1, whole, Some(|whole|));
      fraction := Some(f);
    }
  }

  // ---- whole numerals ----

  lemma {:induction false} FourParts(a: Bytes, b: Bytes, c: Bytes, d: Bytes)
    ensures var t, i, j := a + b + c + d, |a| + |b|, |a| + |b| + |c|;
            |t| == j + |d| && t[..|a|] == a && t[|a|..i] == b && t[i..j] == c && t[j..] == d
  {
  }

  lemma {:induction false} SpelledIs(t: Bytes, i: nat, ds: seq<Digit>)
    ensures Spells(t, i, ds) <==> i + |ds| <= |t| && t[i..i + |ds|] == DigitText(ds)
  {
    if i + |ds| <= |t| && t[i..i + |ds|] == DigitText(ds) {
      forall k | 0 <= k < |ds| ensures t[i + k] == ZERO + ds[k] {
        assert t[i..i + |ds|][k] == DigitText(ds)[k];
      }
    }
  }

  lemma {:induction false} SliceHead(t: Bytes, i: nat, j: nat)
    requires i < j <= |t|
    ensures t[i..j][0] == t[i] && t[i..j][1..] == t[i + 1..j]
  {
  }

  /** Where the parts of a numeral stand in its text. */
  lemma {:induction false} NumeralStands(n: Numeral)
    requires GoodNumeral(n)
    ensures var t, i := NumeralText(n), |SignText(n)|;
            var end := MantissaEnd(i, n.whole, n.fraction);
            && t != [] && MantissaAt(t, i, n.whole, n.fraction) && end <= |t| && t[end..] == ExponentText(n)
            && MantissaStops(t, end, if n.fraction.Some? then Some(|n.whole|) else None)
            && (if n.neg then t[0] == MINUS else IsDigit(t[0]))
  {
    hide DigitText, PowerText, Spells;
    var t, i := NumeralText(n), |SignText(n)|;
    var w, f := |n.whole|, |FractionText(n)|;
    FourParts(SignText(n), DigitText(n.whole), FractionText(n), ExponentText(n));
    SpelledIs(t, i, n.whole);
    if n.fraction.Some? {
      SliceHead(t, i + w, i + w + f);
      SpelledIs(t, i + w + 1, n.fraction.value);
    }
    if n.exponent.Some? { SliceHead(t, i + w + f, |t|); }
    if n.neg {
      SliceHead(t, 0, 1);
    } else {
      SliceHead(t, 0, w);
    }
  }

  lemma {:induction false} ReadExact(n: Numeral)
    requires GoodNumeral(n)
    ensures ReadDecimal(NumeralText(n)) == Some(Exact(n))
  {
    hide ScanMantissa, NumeralText, MantissaAt, MantissaStops, DigitsValue, PowerText, ReadExponent;
    var t, i := NumeralText(n), |SignText(n)|;
    NumeralStands(n);
    ReadMantissa(t, i, n.whole, n.fraction);
    var end := MantissaEnd(i, n.whole, n.fraction);
    if n.exponent.Some? {
      assert t[end] == t[end..][0] && t[end + 1..] == t[end..][1..] == PowerText(n.exponent.value);
      ReadPower(n.exponent.value);
    }
  }

  /** The text is that of an integer exactly when it is written without a fraction and an exponent. */
  lemma {:induction false} IntegerShows(n: Numeral)
    requires GoodNumeral(n)
    ensures var t := NumeralText(n);
            var body := if t != [] && t[0] == MINUS then t[1..] else t;
            && (AllDigits(body) <==> n.fraction.None? && n.exponent.None?)
            && (AllDigits(body) ==> body == DigitText(n.whole) && body != [])
  {
    hide PowerText, DigitText;
    NumeralStands(n);
    var t := NumeralText(n);
    var body := if t[0] == MINUS then t[1..] else t;
    var w, f, e := DigitText(n.whole), FractionText(n), ExponentText(n);
    BodyOf(n);
    FourParts([], w, f, e);
    assert [] + w == w;
    if n.fraction.Some? { SliceHead(body, |w|, |w| + |f|); }
    if n.exponent.Some? { SliceHead(body, |w| + |f|, |body|); }
    assert w + [] == w;
  }

  lemma {:induction false} BodyOf(n: Numeral)
    ensures var t := NumeralText(n);
            (if n.neg then t[1..] else t) == DigitText(n.whole) + FractionText(n) + ExponentText(n)
  {
    hide DigitText, PowerText;
    var rest := DigitText(n.whole) + FractionText(n) + ExponentText(n);
    assert NumeralText(n) == SignText(n) + rest;
    assert n.neg ==> ([0x2d] + rest)[1..] == rest;
    assert [] + rest == rest;
  }

  /** The decoder gives a numeral the number that is meant. */
  lemma {:induction false} ReadNumeral(nearest: Rounding, n: Numeral)
    requires GoodNumeral(n)
    ensures Classify(nearest, NumeralText(n)) == MeantNumber(nearest, n)
  {
    hide NumeralText, ReadDecimal, Normalize, NatValue, DigitsValue, Exact;
    var t := NumeralText(n);
    NumeralStands(n);
    IntegerShows(n);
    ReadExact(n);
    NatOfDigits(n.whole);
  }

  lemma {:induction false} FindExponent(t: Bytes, end: nat) returns (e: Option<Exponent>)
    requires end <= |t|
    requires end < |t| ==> (t[end] == LOWER_E || t[end] == UPPER_E) && ReadExponent(t[end + 1..]).Some?
    ensures e.None? ==> end == |t|
    ensures e.Some? ==>
              && (e.value.letter as char == 'e' || e.value.letter as char == 'E') && e.value.digits != []
              && (e.value.sign.Some? ==> e.value.sign.value as char == '+' || e.value.sign.value as char == '-')
              && t[end..] == [e.value.letter] + PowerText(e.value)
  {
    hide ReadExponent, PowerText;
    e := None;
    if end < |t| {
      var power := FindPower(t[end + 1..]);
      e := Some(power.(letter := t[end]));
      assert PowerText(e.value) == PowerText(power) by { LetterApart(power, t[end]); }
      assert t[end..] == [t[end]] + t[end + 1..];
    }
  }

  lemma {:induction false} LetterApart(e: Exponent, letter: byte)
    ensures PowerText(e.(letter := letter)) == PowerText(e)
  {
  }

  /** Whatever decimal is read is spelled by a numeral. */
  lemma {:induction false} FindExact(t: Bytes) returns (n: Numeral)
    requires t != [] && (t[0] == MINUS || IsDigit(t[0])) && ReadDecimal(t).Some?
    ensures GoodNumeral(n) && NumeralText(n) == t
  {
    hide ScanMantissa, ReadExponent, PowerText, MantissaAt, MantissaStops;
    var neg := t[0] == MINUS;
    var i := if neg then 1 else 0;
    var whole, fraction := FindMantissa(t, i);
    ReadMantissa(t, i, whole, fraction);
    var e := FindExponent(t, MantissaEnd(i, whole, fraction));
    n := Numeral(neg, whole, fraction, e);
    PartsAreText(t, n);
  }

  lemma {:induction false} PartsAreText(t: Bytes, n: Numeral)
    requires t != [] && (t[0] == MINUS <==> n.neg)
    requires var i := if n.neg then 1 else 0;
             var end := MantissaEnd(i, n.whole, n.fraction);
             MantissaAt(t, i, n.whole, n.fraction) && end <= |t| && t[end..] == ExponentText(n)
    ensures NumeralText(n) == t
  {
    hide PowerText, DigitText, Spells, ExponentText;
    var i := if n.neg then 1 else 0;
    var j, end := i + |n.whole|, MantissaEnd(i, n.whole, n.fraction);
    SpelledIs(t, i, n.whole);
    if n.fraction.Some? {
      SpelledIs(t, j + 1, n.fraction.value);
      assert t[j..end] == [t[j]] + t[j + 1..end];
    }
    assert t[..i] == SignText(n) && t[j..end] == FractionText(n);
    assert t == t[..i] + t[i..j] + t[j..end] + t[end..];
  }

  /** Whatever number the decoder reads is spelled by a numeral. */
  lemma {:induction false} FindNumeral(nearest: Rounding, t: Bytes) returns (n: Numeral)
    requires t != [] && (t[0] == MINUS || IsDigit(t[0])) && Classify(nearest, t).Some?
    ensures GoodNumeral(n) && NumeralText(n) == t
  {
    hide ReadDecimal, NatValue;
    if ReadDecimal(t).Some? {
      n := FindExact(t);
    } else {
      var body := if t[0] == MINUS then t[1..] else t;
      n := Numeral(t[0] == MINUS, DigitsOf(body), None, None);
      assert t[0] == MINUS ==> t == [MINUS] + body;
      assert NumeralText(n) == t;
    }
  }
}
