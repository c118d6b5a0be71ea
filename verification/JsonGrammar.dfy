/** Every JSON text, with whatever space between its tokens: what the decoder accepts, and what it makes of it. */
module JsonGrammar {
  import opened ByteStrings
  import opened Digits
  import opened Floats
  import opened JsonValues
  import opened JsonParser
  import opened JsonSpelling
  import opened JsonRoundTrip

  // ---- space ----

  /** Any run of spaces, tabs, line feeds and carriage returns. */
  predicate Blank(s: Bytes) {
    forall c :: c in s ==> c == 0x20 || c == 0x09 || c == 0x0a || c == 0x0d
  }

  predicate SolidAt(data: Bytes, pos: nat) {
    pos <= |data| && (pos < |data| ==> !Blank([data[pos]]))
  }

  lemma {:induction false} SpaceIsBlank(c: byte)
    ensures IsSpace(c) <==> Blank([c])
  {
    assert [c][0] in [c];
  }

  lemma {:induction false} SkipBlank(data: Bytes, pos: nat, s: Bytes)
    requires At(data, pos, s) && Blank(s) && SolidAt(data, pos + |s|)
    ensures SkipSpace(data, pos) == pos + |s|
    decreases |s|
  {
    if s != [] {
      assert s[0] == data[pos + 0] && s[0] in s;
      assert s == [s[0]] + s[1..] && forall c :: c in s[1..] ==> c in s;
      AtSplit(data, pos, [s[0]], s[1..]);
      SkipBlank(data, pos + 1, s[1..]);
    } else if pos < |data| {
      SpaceIsBlank(data[pos]);
    }
  }

  lemma {:induction false} FindBlank(data: Bytes, pos: nat) returns (s: Bytes)
    requires pos <= |data|
    ensures At(data, pos, s) && Blank(s) && SkipSpace(data, pos) == pos + |s| && SolidAt(data, pos + |s|)
    decreases |data| - pos
  {
    if pos < |data| { SpaceIsBlank(data[pos]); }
    if pos < |data| && IsSpace(data[pos]) {
      var rest := FindBlank(data, pos + 1);
      s := [data[pos]] + rest;
      AtSplit(data, pos, [data[pos]], rest);
    } else {
      s := [];
    }
  }

  // ---- texts and what they mean ----

  /** A JSON text by its tokens, and the space between them. */
  datatype Doc =
    | Word(value: Value)
    | Num(numeral: Numeral)
    | Str(pieces: seq<Piece>)
    | Arr(open: Bytes, elems: seq<Elem>)
    | Obj(open: Bytes, members: seq<Member>)

  datatype Elem = Elem(before: Bytes, doc: Doc, after: Bytes)

  datatype Member = Member(before: Bytes, key: seq<Piece>, colon: Bytes, start: Bytes, doc: Doc, after: Bytes)

  function QuotedPieces(ps: seq<Piece>): (t: Bytes)
    ensures t != [] && t[0] == QUOTE
  {
    [QUOTE] + Closed(ps)
  }

  function Render(d: Doc): Bytes
    decreases d
  {
    match d
    case Word(v) => if v == Bool(true) then TRUE else if v == Bool(false) then FALSE else NULL
    case Num(n) => NumeralText(n)
    case Str(ps) => QuotedPieces(ps)
    case Arr(open, elems) => [OPEN_LIST] + (open + ElemsText(elems))
    case Obj(open, members) => [OPEN_OBJECT] + (open + MembersText(members))
  }

  function ElemsText(es: seq<Elem>): Bytes
    decreases es
  {
    if es == [] then [CLOSE_LIST]
    else es[0].before + (Render(es[0].doc) + (es[0].after + AfterElem(es)))
  }

  /** After an item comes a comma and the next one, or the end. */
  function AfterElem(es: seq<Elem>): Bytes
    requires es != []
    decreases es, 0
  {
    if |es| == 1 then [CLOSE_LIST] else [COMMA] + ElemsText(es[1..])
  }

  function MembersText(ms: seq<Member>): Bytes
    decreases ms
  {
    if ms == [] then [CLOSE_OBJECT]
    else
      ms[0].before + (QuotedPieces(ms[0].key) + (ms[0].colon + ([COLON] + (ms[0].start +
        (Render(ms[0].doc) + (ms[0].after + AfterMember(ms)))))))
  }

  function AfterMember(ms: seq<Member>): Bytes
    requires ms != []
    decreases ms, 0
  {
    if |ms| == 1 then [CLOSE_OBJECT] else [COMMA] + MembersText(ms[1..])
  }

  /** The tokens are spelled as they may be, the space is space, and every number has a value. */
  ghost predicate Good(nearest: Rounding, d: Doc)
    decreases d
  {
    match d
    case Word(v) => v.Null? || v.Bool?
    case Num(n) => GoodNumeral(n) && MeantNumber(nearest, n).Some?
    case Str(ps) => GoodPieces(ps)
    case Arr(open, elems) => Blank(open) && GoodElems(nearest, elems)
    case Obj(open, members) => Blank(open) && GoodMembers(nearest, members)
  }

  ghost predicate GoodElems(nearest: Rounding, es: seq<Elem>)
    decreases es
  {
    es != [] ==>
      Blank(es[0].before) && Good(nearest, es[0].doc) && Blank(es[0].after) && GoodElems(nearest, es[1..])
  }

  ghost predicate GoodMembers(nearest: Rounding, ms: seq<Member>)
    decreases ms
  {
    ms != [] ==>
      && Blank(ms[0].before) && GoodPieces(ms[0].key) && Blank(ms[0].colon) && Blank(ms[0].start)
      && Good(nearest, ms[0].doc) && Blank(ms[0].after) && GoodMembers(nearest, ms[1..])
  }

  /** The value that a text means. */
  ghost function Meaning(nearest: Rounding, d: Doc): Value
    requires Good(nearest, d)
    decreases d
  {
    match d
    case Word(v) => v
    case Num(n) => MeantNumber(nearest, n).value
    case Str(ps) => Text(Spelled(ps))
    case Arr(_, elems) => List(Listed(nearest, elems, []))
    case Obj(_, members) => Object(Mapped(nearest, members, map[]))
  }

  ghost function Listed(nearest: Rounding, es: seq<Elem>, out: seq<Value>): seq<Value>
    requires GoodElems(nearest, es)
    decreases es
  {
    if es == [] then out else Listed(nearest, es[1..], out + [Meaning(nearest, es[0].doc)])
  }

  /** A later field replaces an earlier one of the same key. */
  ghost function Mapped(nearest: Rounding, ms: seq<Member>, out: map<Bytes, Value>): map<Bytes, Value>
    requires GoodMembers(nearest, ms)
    decreases ms
  {
    if ms == [] then out
    else Mapped(nearest, ms[1..], out[Spelled(ms[0].key) := Meaning(nearest, ms[0].doc)])
  }

  /** The keys in the order of the text, each with the keys that lead to its object. */
  ghost function KeysOf(g: Config, d: Doc, path: seq<Bytes>): seq<KeyEvent>
    requires Good(g.nearest, d)
    decreases d
  {
    match d
    case Arr(_, elems) => ElemKeys(g, elems, path)
    case Obj(_, members) => MemberKeys(g, members, path)
    case _ => []
  }

  ghost function ElemKeys(g: Config, es: seq<Elem>, path: seq<Bytes>): seq<KeyEvent>
    requires GoodElems(g.nearest, es)
    decreases es
  {
    if es == [] then [] else KeysOf(g, es[0].doc, path) + ElemKeys(g, es[1..], path)
  }

  ghost function MemberKeys(g: Config, ms: seq<Member>, path: seq<Bytes>): seq<KeyEvent>
    requires GoodMembers(g.nearest, ms)
    decreases ms
  {
    if ms == [] then []
    else
      var k := Spelled(ms[0].key);
      (if g.ordered then [KeyEvent(path, k)] + KeysOf(g, ms[0].doc, path + [k]) else KeysOf(g, ms[0].doc, path))
      + MemberKeys(g, ms[1..], path)
  }

  // ---- the decoder reads every text ----

  lemma {:induction false} HeadIsSolid(nearest: Rounding, d: Doc)
    requires Good(nearest, d)
    ensures Render(d) != [] && !Blank([Render(d)[0]]) && !IsSpace(Render(d)[0]) && Render(d)[0] != CLOSE_LIST
  {
    hide NumeralText, ElemsText, MembersText, MeantNumber, GoodElems, GoodMembers, Closed, GoodPieces, Blank;
    if d.Num? { NumeralStands(d.numeral); }
    SpaceIsBlank(Render(d)[0]);
  }

  lemma {:induction false} HeadStands(data: Bytes, pos: nat, t: Bytes)
    requires t != [] && At(data, pos, t)
    ensures pos < |data| && data[pos] == t[0]
  {
    assert t[0] == data[pos + 0];
  }

  predicate NumberBytes(t: Bytes) {
    forall k :: 0 <= k < |t| ==> IsNumberByte(t[k])
  }

  lemma {:induction false} NumberBytesJoin(a: Bytes, b: Bytes)
    requires NumberBytes(a) && NumberBytes(b)
    ensures NumberBytes(a + b)
  {
  }

  lemma {:induction false} DigitBytes(ds: seq<Digit>)
    ensures NumberBytes(DigitText(ds))
  {
  }

  /** A numeral is made of bytes of numbers. */
  lemma {:induction false} NumeralBytes(n: Numeral)
    requires GoodNumeral(n)
    ensures NumberBytes(NumeralText(n))
  {
    hide DigitText, NumberBytes;
    var sign, w, f, e := SignText(n), DigitText(n.whole), FractionText(n), ExponentText(n);
    DigitBytes(n.whole);
    assert NumberBytes([]) && NumberBytes([0x2d]) && NumberBytes([0x2e]) && NumberBytes([0x2b]) by { FewBytes(); }
    if n.fraction.Some? {
      DigitBytes(n.fraction.value);
      NumberBytesJoin([0x2e], DigitText(n.fraction.value));
    }
    if n.exponent.Some? {
      var x := n.exponent.value;
      DigitBytes(x.digits);
      var c: Bytes := match x.sign case None => [] case Some(c) => [c];
      NumberBytesJoin(c, DigitText(x.digits));
      FewBytes();
      NumberBytesJoin([x.letter], PowerText(x));
    }
    NumberBytesJoin(sign, w);
    NumberBytesJoin(sign + w, f);
    NumberBytesJoin(sign + w + f, e);
  }

  lemma {:induction false} FewBytes()
    ensures NumberBytes([]) && NumberBytes([0x2d]) && NumberBytes([0x2e]) && NumberBytes([0x2b])
    ensures NumberBytes([0x65]) && NumberBytes([0x45])
  {
  }

  lemma {:induction false} ReadDoc(g: Config, d: Doc, data: Bytes, pos: nat, path: seq<Bytes>)
    requires Good(g.nearest, d) && At(data, pos, Render(d)) && (d.Num? ==> NumberStops(data, pos + |Render(d)|))
    ensures ParseValue(g, data, pos, path)
         == Parsed(Meaning(g.nearest, d), pos + |Render(d)|, KeysOf(g, d, path))
    decreases d
  {
    hide ParseValue;
    match d
    case Word(_) => ReadWord(g, d, data, pos, path);
    case Num(n) => ReadNum(g, n, data, pos, path);
    case Str(ps) => ReadStr(g, ps, data, pos, path);
    case Arr(_, _) => ReadArr(g, d, data, pos, path);
    case Obj(_, _) => ReadObj(g, d, data, pos, path);
  }

  lemma {:induction false} ReadWord(g: Config, d: Doc, data: Bytes, pos: nat, path: seq<Bytes>)
    requires d.Word? && Good(g.nearest, d) && At(data, pos, Render(d))
    ensures ParseValue(g, data, pos, path) == Parsed(d.value, pos + |Render(d)|, [])
  {
    hide ParseItems, ParseFields, ParseStringFrom, ParseNumber;
    HeadStands(data, pos, Render(d));
  }

  lemma {:induction false} ReadNum(g: Config, n: Numeral, data: Bytes, pos: nat, path: seq<Bytes>)
    requires GoodNumeral(n) && MeantNumber(g.nearest, n).Some?
    requires At(data, pos, NumeralText(n)) && NumberStops(data, pos + |NumeralText(n)|)
    ensures ParseValue(g, data, pos, path)
         == Parsed(MeantNumber(g.nearest, n).value, pos + |NumeralText(n)|, [])
  {
    hide ParseItems, ParseFields, ParseNumber, ParseStringFrom, ParseLiteral, NumeralText, Classify, MeantNumber;
    NumeralStands(n);
    NumeralBytes(n);
    JsonSpelling.ReadNumeral(g.nearest, n);
    ReadNumber(g.nearest, data, pos, NumeralText(n), MeantNumber(g.nearest, n).value);
  }

  lemma {:induction false} ReadQuote(data: Bytes, pos: nat, ps: seq<Piece>)
    requires GoodPieces(ps) && At(data, pos, QuotedPieces(ps))
    ensures pos < |data| && data[pos] == QUOTE
    ensures ParseStringFrom(data, pos + 1, []) == Token(Spelled(ps), pos + |QuotedPieces(ps)|)
  {
    hide Closed, At;
    HeadStands(data, pos, QuotedPieces(ps)) by { assert QuotedPieces(ps)[0] == QUOTE; }
    AtSplit(data, pos, [QUOTE], Closed(ps));
    ReadPieces(data, pos + 1, ps, []);
    assert [] + Spelled(ps) == Spelled(ps);
  }

  lemma {:induction false} ReadStr(g: Config, ps: seq<Piece>, data: Bytes, pos: nat, path: seq<Bytes>)
    requires GoodPieces(ps) && At(data, pos, QuotedPieces(ps))
    ensures ParseValue(g, data, pos, path) == Parsed(Text(Spelled(ps)), pos + |QuotedPieces(ps)|, [])
  {
    hide ParseItems, ParseFields, ParseNumber, ParseStringFrom, QuotedPieces;
    ReadQuote(data, pos, ps);
  }

  // ---- lists ----

  lemma {:induction false} OpensArr(g: Config, data: Bytes, pos: nat, path: seq<Bytes>, p: nat)
    requires pos < |data| && data[pos] == OPEN_LIST && SkipSpace(data, pos + 1) == p < |data|
    ensures ParseValue(g, data, pos, path)
         == if data[p] == CLOSE_LIST then Parsed(List([]), p + 1, []) else ParseItems(g, data, p, path, [], [])
  {
    hide ParseItems, ParseFields, ParseStringFrom, ParseNumber, ParseLiteral;
  }

  /** One turn of the list loop. */
  lemma {:induction false} ElemTurn(g: Config, data: Bytes, pos: nat, path: seq<Bytes>, out: seq<Value>,
                                    keys: seq<KeyEvent>, item: Parsed, p: nat)
    requires pos <= |data| && ParseValue(g, data, SkipSpace(data, pos), path) == item && item.Parsed?
    requires p < |data| && SkipSpace(data, item.next) == p && (data[p] == COMMA || data[p] == CLOSE_LIST)
    ensures ParseItems(g, data, pos, path, out, keys)
         == if data[p] == COMMA then ParseItems(g, data, p + 1, path, out + [item.value], keys + item.keys)
            else Parsed(List(out + [item.value]), p + 1, keys + item.keys)
  {
    hide ParseValue, SkipSpace;
  }

  lemma {:induction false} ItemsFrom(g: Config, data: Bytes, p: nat, q: nat, path: seq<Bytes>, out: seq<Value>,
                                     keys: seq<KeyEvent>)
    requires p <= |data| && q <= |data| && SkipSpace(data, p) == SkipSpace(data, q)
    ensures ParseItems(g, data, p, path, out, keys) == ParseItems(g, data, q, path, out, keys)
  {
    hide ParseValue, SkipSpace;
  }

  /** Where the parts of the first item stand: its value, and the comma or bracket after it. */
  lemma {:induction false} ElemStands(nearest: Rounding, es: seq<Elem>, data: Bytes, pos: nat)
    requires es != [] && GoodElems(nearest, es) && At(data, pos, ElemsText(es))
    ensures var start := pos + |es[0].before|;
            var next := start + |Render(es[0].doc)|;
            var p := next + |es[0].after|;
            && SkipSpace(data, pos) == start && SolidAt(data, start) && At(data, start, Render(es[0].doc))
            && next <= p < |data| && SkipSpace(data, next) == p && NumberStops(data, next)
            && data[p] == (if |es| == 1 then CLOSE_LIST else COMMA)
            && pos + |ElemsText(es)| == p + |AfterElem(es)|
            && (|es| > 1 ==> At(data, p + 1, ElemsText(es[1..])) && |AfterElem(es)| == 1 + |ElemsText(es[1..])|)
            && (|es| == 1 ==> |AfterElem(es)| == 1)
  {
    hide Render, At, SkipSpace;
    var e, rest := es[0], AfterElem(es);
    var text := Render(e.doc);
    var start, next := pos + |e.before|, pos + |e.before| + |text|;
    var p := next + |e.after|;
    AtSplit(data, pos, e.before, text + (e.after + rest));
    AtSplit(data, start, text, e.after + rest);
    AtSplit(data, next, e.after, rest);
    HeadIsSolid(nearest, e.doc);
    HeadStands(data, start, text);
    SkipBlank(data, pos, e.before);
    HeadStands(data, p, rest);
    assert SolidAt(data, p) by { SpaceIsBlank(data[p]); }
    SkipBlank(data, next, e.after);
    BlankStops(data, next, e.after);
    if |es| > 1 { AtSplit(data, p, [COMMA], ElemsText(es[1..])); }
  }

  /** Space, a comma or a closing bracket stops a number. */
  lemma {:induction false} BlankStops(data: Bytes, pos: nat, s: Bytes)
    requires At(data, pos, s) && Blank(s)
    requires pos + |s| < |data| ==> data[pos + |s|] in {COMMA, CLOSE_LIST, CLOSE_OBJECT}
    ensures NumberStops(data, pos)
  {
    if s != [] { assert s[0] == data[pos + 0] && s[0] in s; }
  }

  lemma {:induction false} ReadElems(g: Config, es: seq<Elem>, data: Bytes, pos: nat, path: seq<Bytes>,
                                     out: seq<Value>, keys: seq<KeyEvent>)
    requires es != [] && GoodElems(g.nearest, es) && At(data, pos, ElemsText(es))
    ensures ParseItems(g, data, pos, path, out, keys)
         == Parsed(List(Listed(g.nearest, es, out)), pos + |ElemsText(es)|, keys + ElemKeys(g, es, path))
    decreases es
  {
    hide ParseValue, ParseItems, Render, ElemsText, AfterElem, SkipSpace, At, Meaning, KeysOf;
    var start := pos + |es[0].before|;
    var next := start + |Render(es[0].doc)|;
    var p := next + |es[0].after|;
    ElemStands(g.nearest, es, data, pos);
    ReadDoc(g, es[0].doc, data, start, path);
    var v, more := Meaning(g.nearest, es[0].doc), KeysOf(g, es[0].doc, path);
    ElemTurn(g, data, pos, path, out, keys, Parsed(v, next, more), p);
    if |es| > 1 {
      ReadElems(g, es[1..], data, p + 1, path, out + [v], keys + more);
      assert keys + more + ElemKeys(g, es[1..], path) == keys + ElemKeys(g, es, path);
    } else {
      assert es[1..] == [] && more + [] == more;
    }
  }

  lemma {:induction false} ReadArr(g: Config, d: Doc, data: Bytes, pos: nat, path: seq<Bytes>)
    requires d.Arr? && Good(g.nearest, d) && At(data, pos, Render(d))
    ensures ParseValue(g, data, pos, path)
         == Parsed(Meaning(g.nearest, d), pos + |Render(d)|, KeysOf(g, d, path))
    decreases d, 0
  {
    hide ParseValue, ParseItems, SkipSpace, At, ElemsText;
    var body, from := ElemsText(d.elems), pos + 1 + |d.open|;
    AtSplit(data, pos, [OPEN_LIST], d.open + body);
    AtSplit(data, pos + 1, d.open, body);
    HeadStands(data, pos, Render(d));
    if d.elems == [] {
      assert body == [CLOSE_LIST] by { NoElems(); }
      HeadStands(data, from, body);
      SkipBlank(data, pos + 1, d.open) by { SpaceIsBlank(data[from]); }
      OpensArr(g, data, pos, path, from);
    } else {
      var e := d.elems[0];
      var start := from + |e.before|;
      ElemStands(g.nearest, d.elems, data, from);
      TwoBlanks(data, pos + 1, d.open, e.before) by { FirstElemAt(d.elems, data, from); }
      HeadStands(data, start, Render(e.doc)) by { HeadIsSolid(g.nearest, e.doc); }
      HeadIsSolid(g.nearest, e.doc);
      OpensArr(g, data, pos, path, start);
      NothingToSkip(data, start);
      ItemsFrom(g, data, start, from, path, [], []);
      ReadElems(g, d.elems, data, from, path, [], []);
      assert [] + ElemKeys(g, d.elems, path) == ElemKeys(g, d.elems, path);
    }
  }

  lemma {:induction false} NoElems()
    ensures ElemsText([]) == [CLOSE_LIST]
  {
  }

  lemma {:induction false} FirstElemAt(es: seq<Elem>, data: Bytes, pos: nat)
    requires es != [] && At(data, pos, ElemsText(es))
    ensures At(data, pos, es[0].before)
  {
    hide Render, At;
    AtSplit(data, pos, es[0].before, Render(es[0].doc) + (es[0].after + AfterElem(es)));
  }

  lemma {:induction false} TwoBlanks(data: Bytes, pos: nat, a: Bytes, b: Bytes)
    requires At(data, pos, a) && At(data, pos + |a|, b) && Blank(a) && Blank(b) && SolidAt(data, pos + |a| + |b|)
    ensures SkipSpace(data, pos) == pos + |a| + |b|
  {
    hide At;
    AtSplit(data, pos, a, b);
    assert forall c :: c in a + b ==> c in a || c in b;
    SkipBlank(data, pos, a + b);
  }

  // ---- objects ----

  lemma {:induction false} OpensObj(g: Config, data: Bytes, pos: nat, path: seq<Bytes>, p: nat)
    requires pos < |data| && data[pos] == OPEN_OBJECT && SkipSpace(data, pos + 1) == p < |data|
    ensures ParseValue(g, data, pos, path)
         == if data[p] == CLOSE_OBJECT then Parsed(Object(map[]), p + 1, [])
            else ParseFields(g, data, p, path, map[], [])
  {
    hide ParseItems, ParseFields, ParseStringFrom, ParseNumber, ParseLiteral;
  }

  lemma {:induction false} FieldsFrom(g: Config, data: Bytes, p: nat, q: nat, path: seq<Bytes>, out: map<Bytes, Value>,
                                      keys: seq<KeyEvent>)
    requires p <= |data| && q <= |data| && SkipSpace(data, p) == SkipSpace(data, q)
    ensures ParseFields(g, data, p, path, out, keys) == ParseFields(g, data, q, path, out, keys)
  {
    hide ParseValue, SkipSpace, ParseKey;
  }

  /** One turn of the object loop. */
  lemma {:induction false} MemberTurn(g: Config, data: Bytes, pos: nat, path: seq<Bytes>, out: map<Bytes, Value>,
                                      keys: seq<KeyEvent>, key: Bytes, start: nat, value: Parsed, p: nat)
    requires pos <= |data| && ParseKey(data, SkipSpace(data, pos)) == Token(key, start)
    requires ParseValue(g, data, start, ChildPath(g, path, key)) == value && value.Parsed?
    requires p < |data| && SkipSpace(data, value.next) == p && (data[p] == COMMA || data[p] == CLOSE_OBJECT)
    ensures ParseFields(g, data, pos, path, out, keys)
         == var seen := keys + (Noted(g, path, key) + value.keys);
            if data[p] == COMMA then ParseFields(g, data, p + 1, path, out[key := value.value], seen)
            else Parsed(Object(out[key := value.value]), p + 1, seen)
  {
    hide ParseValue, ParseKey, SkipSpace, ChildPath, Noted;
  }

  /** The key of the first field and all that comes before its value. */
  lemma {:induction false} ReadKeyOf(m: Member, data: Bytes, pos: nat)
    requires GoodPieces(m.key) && Blank(m.before) && Blank(m.colon) && Blank(m.start)
    requires var at := pos + |m.before|;
             var colon := at + |QuotedPieces(m.key)| + |m.colon|;
             && At(data, pos, m.before) && At(data, at, QuotedPieces(m.key))
             && At(data, at + |QuotedPieces(m.key)|, m.colon) && At(data, colon, [COLON])
             && At(data, colon + 1, m.start) && SolidAt(data, colon + 1 + |m.start|)
    ensures var at := pos + |m.before|;
            && pos <= |data| && SkipSpace(data, pos) == at
            && ParseKey(data, at)
               == Token(Spelled(m.key), at + |QuotedPieces(m.key)| + |m.colon| + 1 + |m.start|)
  {
    hide ParseStringFrom, At, QuotedPieces, SkipSpace;
    var at := pos + |m.before|;
    var after := at + |QuotedPieces(m.key)|;
    var colon := after + |m.colon|;
    ReadQuote(data, at, m.key);
    HeadStands(data, colon, [COLON]);
    SpaceIsBlank(data[at]);
    SpaceIsBlank(data[colon]);
    Inside(data, pos, m.before);
    SkipBlank(data, pos, m.before);
    SkipBlank(data, after, m.colon);
    SkipBlank(data, colon + 1, m.start);
  }

  lemma {:induction false} Inside(data: Bytes, pos: nat, t: Bytes)
    requires At(data, pos, t)
    ensures pos + |t| <= |data|
  {
  }

  /** Where the parts of the first field stand. */
  lemma {:induction false} MemberStands(nearest: Rounding, ms: seq<Member>, data: Bytes, pos: nat)
    requires ms != [] && GoodMembers(nearest, ms) && At(data, pos, MembersText(ms))
    ensures var m := ms[0];
            var at := pos + |m.before|;
            var start := at + |QuotedPieces(m.key)| + |m.colon| + 1 + |m.start|;
            var next := start + |Render(m.doc)|;
            var p := next + |m.after|;
            && At(data, pos, m.before) && pos <= |data| && at < |data| && data[at] == QUOTE
            && SkipSpace(data, pos) == at && ParseKey(data, at) == Token(Spelled(m.key), start)
            && At(data, start, Render(m.doc))
            && next <= p < |data| && SkipSpace(data, next) == p && NumberStops(data, next)
            && data[p] == (if |ms| == 1 then CLOSE_OBJECT else COMMA)
            && pos + |MembersText(ms)| == p + |AfterMember(ms)|
            && (|ms| > 1 ==> At(data, p + 1, MembersText(ms[1..])) && |AfterMember(ms)| == 1 + |MembersText(ms[1..])|)
            && (|ms| == 1 ==> |AfterMember(ms)| == 1)
  {
    hide Render, At, SkipSpace, QuotedPieces, ParseKey;
    var m, rest := ms[0], AfterMember(ms);
    var q, text := QuotedPieces(m.key), Render(m.doc);
    var at := pos + |m.before|;
    var colon := at + |q| + |m.colon|;
    var start := colon + 1 + |m.start|;
    var next := start + |text|;
    var p := next + |m.after|;
    var tail := text + (m.after + rest);
    AtSplit(data, pos, m.before, q + (m.colon + ([COLON] + (m.start + tail))));
    AtSplit(data, at, q, m.colon + ([COLON] + (m.start + tail)));
    AtSplit(data, at + |q|, m.colon, [COLON] + (m.start + tail));
    AtSplit(data, colon, [COLON], m.start + tail);
    AtSplit(data, colon + 1, m.start, tail);
    AtSplit(data, start, text, m.after + rest);
    AtSplit(data, next, m.after, rest);
    HeadIsSolid(nearest, m.doc);
    HeadStands(data, start, text);
    HeadStands(data, at, q);
    ReadKeyOf(m, data, pos);
    HeadStands(data, p, rest);
    SpaceIsBlank(data[p]);
    SkipBlank(data, next, m.after);
    BlankStops(data, next, m.after);
    if |ms| > 1 { AtSplit(data, p, [COMMA], MembersText(ms[1..])); }
  }

  lemma {:induction false} ReadMembers(g: Config, ms: seq<Member>, data: Bytes, pos: nat, path: seq<Bytes>,
                                       out: map<Bytes, Value>, keys: seq<KeyEvent>)
    requires ms != [] && GoodMembers(g.nearest, ms) && At(data, pos, MembersText(ms))
    ensures ParseFields(g, data, pos, path, out, keys)
         == Parsed(Object(Mapped(g.nearest, ms, out)), pos + |MembersText(ms)|, keys + MemberKeys(g, ms, path))
    decreases ms
  {
    hide ParseValue, ParseFields, Render, MembersText, AfterMember, SkipSpace, At, Meaning, KeysOf, ParseKey;
    hide QuotedPieces, Spelled;
    var m := ms[0];
    var start := pos + |m.before| + |QuotedPieces(m.key)| + |m.colon| + 1 + |m.start|;
    var next := start + |Render(m.doc)|;
    var p := next + |m.after|;
    MemberStands(g.nearest, ms, data, pos);
    var k := Spelled(m.key);
    ReadDoc(g, m.doc, data, start, ChildPath(g, path, k));
    var v, more := Meaning(g.nearest, m.doc), KeysOf(g, m.doc, ChildPath(g, path, k));
    MemberTurn(g, data, pos, path, out, keys, k, start, Parsed(v, next, more), p);
    var seen := keys + (Noted(g, path, k) + more);
    MemberKeysTurn(g, ms, path, keys);
    if |ms| > 1 {
      ReadMembers(g, ms[1..], data, p + 1, path, out[k := v], seen);
    } else {
      assert ms[1..] == [] && seen + [] == seen;
    }
  }

  lemma {:induction false} MemberKeysTurn(g: Config, ms: seq<Member>, path: seq<Bytes>, keys: seq<KeyEvent>)
    requires ms != [] && GoodMembers(g.nearest, ms)
    ensures var k := Spelled(ms[0].key);
            keys + MemberKeys(g, ms, path)
            == keys + (Noted(g, path, k) + KeysOf(g, ms[0].doc, ChildPath(g, path, k))) + MemberKeys(g, ms[1..], path)
  {
    hide KeysOf, Spelled, Good;
    var k := Spelled(ms[0].key);
    var more := KeysOf(g, ms[0].doc, ChildPath(g, path, k));
    assert [] + more == more;
  }

  lemma {:induction false} ReadObj(g: Config, d: Doc, data: Bytes, pos: nat, path: seq<Bytes>)
    requires d.Obj? && Good(g.nearest, d) && At(data, pos, Render(d))
    ensures ParseValue(g, data, pos, path)
         == Parsed(Meaning(g.nearest, d), pos + |Render(d)|, KeysOf(g, d, path))
    decreases d, 0
  {
    hide ParseValue, ParseFields, SkipSpace, At, MembersText, ParseKey, QuotedPieces;
    var body, from := MembersText(d.members), pos + 1 + |d.open|;
    AtSplit(data, pos, [OPEN_OBJECT], d.open + body);
    AtSplit(data, pos + 1, d.open, body);
    HeadStands(data, pos, Render(d));
    if d.members == [] {
      assert body == [CLOSE_OBJECT] by { NoMembers(); }
      HeadStands(data, from, body);
      SkipBlank(data, pos + 1, d.open) by { SpaceIsBlank(data[from]); }
      OpensObj(g, data, pos, path, from);
    } else {
      var m := d.members[0];
      var at := from + |m.before|;
      MemberStands(g.nearest, d.members, data, from);
      SpaceIsBlank(data[at]);
      TwoBlanks(data, pos + 1, d.open, m.before);
      OpensObj(g, data, pos, path, at);
      NothingToSkip(data, at);
      FieldsFrom(g, data, at, from, path, map[], []);
      ReadMembers(g, d.members, data, from, path, map[], []);
      assert [] + MemberKeys(g, d.members, path) == MemberKeys(g, d.members, path);
    }
  }

  lemma {:induction false} NoMembers()
    ensures MembersText([]) == [CLOSE_OBJECT]
  {
  }

  lemma {:induction false} NothingToSkip(data: Bytes, pos: nat)
    requires SolidAt(data, pos)
    ensures SkipSpace(data, pos) == pos
  {
    SkipBlank(data, pos, []);
  }

  // ---- and accepts nothing else ----

  lemma {:induction false} NumberEndStops(data: Bytes, pos: nat)
    requires pos <= |data|
    ensures NumberStops(data, NumberEnd(data, pos))
    decreases |data| - pos
  {
    if pos < |data| && IsNumberByte(data[pos]) { NumberEndStops(data, pos + 1); }
  }

  lemma {:induction false} FindDoc(g: Config, data: Bytes, pos: nat, path: seq<Bytes>) returns (d: Doc)
    requires pos <= |data| && ParseValue(g, data, pos, path).Parsed?
    ensures Good(g.nearest, d) && At(data, pos, Render(d)) && (d.Num? ==> NumberStops(data, pos + |Render(d)|))
    decreases |data| - pos, 1
  {
    hide ParseStringFrom, ParseNumber, ParseItems, ParseFields, At, Render, Good;
    var c := data[pos];
    if c == OPEN_OBJECT {
      d := FindObj(g, data, pos, path);
    } else if c == OPEN_LIST {
      d := FindArr(g, data, pos, path);
    } else if c == QUOTE {
      var ps := FindQuote(data, pos);
      d := Str(ps);
      StrIsGood(g.nearest, ps);
    } else if c == MINUS || IsDigit(c) {
      d := FindNum(g.nearest, data, pos);
    } else {
      d := FindWord(g, data, pos, path);
    }
  }

  lemma {:induction false} StrIsGood(nearest: Rounding, ps: seq<Piece>)
    requires GoodPieces(ps)
    ensures Good(nearest, Str(ps)) && Render(Str(ps)) == QuotedPieces(ps)
  {
  }

  lemma {:induction false} FindWord(g: Config, data: Bytes, pos: nat, path: seq<Bytes>) returns (d: Doc)
    requires pos < |data| && (data[pos] == 0x74 || data[pos] == 0x66 || data[pos] == 0x6e)
    requires ParseValue(g, data, pos, path).Parsed?
    ensures d.Word? && Good(g.nearest, d) && At(data, pos, Render(d))
  {
    d := Word(if data[pos] == 0x74 then Bool(true) else if data[pos] == 0x66 then Bool(false) else Null);
  }

  lemma {:induction false} FindQuote(data: Bytes, pos: nat) returns (ps: seq<Piece>)
    requires pos < |data| && data[pos] == QUOTE && ParseStringFrom(data, pos + 1, []).Token?
    ensures GoodPieces(ps) && At(data, pos, QuotedPieces(ps))
  {
    hide At, Closed, ParseStringFrom;
    ps := FindPieces(data, pos + 1, []);
    OneByte(data, pos, QUOTE);
    AtSplit(data, pos, [QUOTE], Closed(ps));
  }

  lemma {:induction false} FindNum(nearest: Rounding, data: Bytes, pos: nat) returns (d: Doc)
    requires pos < |data| && (data[pos] == MINUS || IsDigit(data[pos])) && ParseNumber(nearest, data, pos).Token?
    ensures d.Num? && Good(nearest, d) && At(data, pos, Render(d)) && NumberStops(data, pos + |Render(d)|)
  {
    hide Classify, NumeralText, MeantNumber;
    var end := NumberEnd(data, pos);
    NumberEndStops(data, pos);
    assert pos < end by { assert IsNumberByte(data[pos]); }
    var n := FindNumeral(nearest, data[pos..end]);
    JsonSpelling.ReadNumeral(nearest, n);
    d := Num(n);
  }

  lemma {:induction false} OneMoreElem(nearest: Rounding, data: Bytes, pos: nat, e: Elem, rest: seq<Elem>)
    requires GoodElems(nearest, rest) && Good(nearest, e.doc) && Blank(e.before) && Blank(e.after)
    requires var start := pos + |e.before|;
             var next := start + |Render(e.doc)|;
             var p := next + |e.after|;
             && At(data, pos, e.before) && At(data, start, Render(e.doc)) && At(data, next, e.after)
             && At(data, p, AfterElem([e] + rest))
    ensures GoodElems(nearest, [e] + rest) && At(data, pos, ElemsText([e] + rest))
  {
    hide At, Render, Good, Blank;
    var es, text := [e] + rest, Render(e.doc);
    assert es[1..] == rest;
    var after := AfterElem(es);
    AtSplit(data, pos, e.before, text + (e.after + after));
    AtSplit(data, pos + |e.before|, text, e.after + after);
    AtSplit(data, pos + |e.before| + |text|, e.after, after);
  }

  lemma {:induction false} ElemEnds(data: Bytes, p: nat, e: Elem, rest: seq<Elem>)
    requires p < |data|
    ensures rest == [] && data[p] == CLOSE_LIST ==> At(data, p, AfterElem([e] + rest))
    ensures rest != [] && data[p] == COMMA && At(data, p + 1, ElemsText(rest)) ==> At(data, p, AfterElem([e] + rest))
  {
    hide At, Render;
    assert ([e] + rest)[1..] == rest;
    OneByte(data, p, CLOSE_LIST);
    OneByte(data, p, COMMA);
    AtSplit(data, p, [COMMA], ElemsText(rest));
  }

  lemma {:induction false} ItemsParsed(g: Config, data: Bytes, pos: nat, path: seq<Bytes>, out: seq<Value>,
                                       keys: seq<KeyEvent>)
    requires pos <= |data| && ParseItems(g, data, pos, path, out, keys).Parsed?
    ensures var item := ParseValue(g, data, SkipSpace(data, pos), path);
            item.Parsed? &&
            var p := SkipSpace(data, item.next);
            p < |data| && (data[p] == CLOSE_LIST || data[p] == COMMA) &&
            (data[p] == COMMA ==> ParseItems(g, data, p + 1, path, out + [item.value], keys + item.keys).Parsed?)
  {
    hide ParseValue, SkipSpace;
  }

  lemma {:induction false} FindElems(g: Config, data: Bytes, pos: nat, path: seq<Bytes>, out: seq<Value>,
                                     keys: seq<KeyEvent>) returns (es: seq<Elem>)
    requires pos <= |data| && ParseItems(g, data, pos, path, out, keys).Parsed?
    ensures es != [] && GoodElems(g.nearest, es) && At(data, pos, ElemsText(es))
    decreases |data| - pos, 2
  {
    hide ParseValue, ParseItems, At, Render, ElemsText, AfterElem, GoodElems, Good, Blank, SkipSpace;
    ItemsParsed(g, data, pos, path, out, keys);
    var before := FindBlank(data, pos);
    var start := SkipSpace(data, pos);
    var doc := FindDoc(g, data, start, path);
    ReadDoc(g, doc, data, start, path);
    var item := ParseValue(g, data, start, path);
    var after := FindBlank(data, item.next);
    var p := SkipSpace(data, item.next);
    var e := Elem(before, doc, after);
    var rest: seq<Elem> := [];
    if data[p] == COMMA {
      rest := FindElems(g, data, p + 1, path, out + [item.value], keys + item.keys);
    } else {
      NoElemsAreGood(g.nearest);
    }
    ElemEnds(data, p, e, rest);
    OneMoreElem(g.nearest, data, pos, e, rest);
    es := [e] + rest;
  }

  lemma {:induction false} NoElemsAreGood(nearest: Rounding)
    ensures GoodElems(nearest, []) && GoodMembers(nearest, [])
  {
  }

  lemma {:induction false} FindArr(g: Config, data: Bytes, pos: nat, path: seq<Bytes>) returns (d: Doc)
    requires pos < |data| && data[pos] == OPEN_LIST && ParseValue(g, data, pos, path).Parsed?
    ensures d.Arr? && Good(g.nearest, d) && At(data, pos, Render(d))
    decreases |data| - pos, 0
  {
    hide At, ParseItems, SkipSpace, Blank, GoodElems, ElemsText;
    var open := FindBlank(data, pos + 1);
    var p := SkipSpace(data, pos + 1);
    var es: seq<Elem> := [];
    if p < |data| && data[p] == CLOSE_LIST {
      NoElems();
      NoElemsAreGood(g.nearest);
      OneByte(data, p, CLOSE_LIST);
    } else {
      es := FindElems(g, data, p, path, [], []) by { ArrParsed(g, data, pos, path); }
    }
    d := Arr(open, es);
    OneByte(data, pos, OPEN_LIST);
    AtSplit(data, pos, [OPEN_LIST], open + ElemsText(es));
    AtSplit(data, pos + 1, open, ElemsText(es));
  }

  lemma {:induction false} ArrParsed(g: Config, data: Bytes, pos: nat, path: seq<Bytes>)
    requires pos < |data| && data[pos] == OPEN_LIST && ParseValue(g, data, pos, path).Parsed?
    ensures var p := SkipSpace(data, pos + 1);
            (p < |data| && data[p] == CLOSE_LIST) || ParseItems(g, data, p, path, [], []).Parsed?
  {
    hide ParseItems, ParseFields, SkipSpace;
  }

  lemma {:induction false} OneMoreMember(nearest: Rounding, data: Bytes, pos: nat, m: Member, rest: seq<Member>)
    requires GoodMembers(nearest, rest) && Good(nearest, m.doc) && GoodPieces(m.key)
    requires Blank(m.before) && Blank(m.colon) && Blank(m.start) && Blank(m.after)
    requires var at := pos + |m.before|;
             var colon := at + |QuotedPieces(m.key)| + |m.colon|;
             var start := colon + 1 + |m.start|;
             var next := start + |Render(m.doc)|;
             && At(data, pos, m.before) && At(data, at, QuotedPieces(m.key))
             && At(data, at + |QuotedPieces(m.key)|, m.colon) && At(data, colon, [COLON])
             && At(data, colon + 1, m.start) && At(data, start, Render(m.doc)) && At(data, next, m.after)
             && At(data, next + |m.after|, AfterMember([m] + rest))
    ensures GoodMembers(nearest, [m] + rest) && At(data, pos, MembersText([m] + rest))
  {
    hide At, Render, Good, Blank, QuotedPieces, GoodPieces;
    var ms, q, text := [m] + rest, QuotedPieces(m.key), Render(m.doc);
    assert ms[1..] == rest;
    var at := pos + |m.before|;
    var colon := at + |q| + |m.colon|;
    var start := colon + 1 + |m.start|;
    var next := start + |text|;
    var tail := text + (m.after + AfterMember(ms));
    AtSplit(data, pos, m.before, q + (m.colon + ([COLON] + (m.start + tail))));
    AtSplit(data, at, q, m.colon + ([COLON] + (m.start + tail)));
    AtSplit(data, at + |q|, m.colon, [COLON] + (m.start + tail));
    AtSplit(data, colon, [COLON], m.start + tail);
    AtSplit(data, colon + 1, m.start, tail);
    AtSplit(data, start, text, m.after + AfterMember(ms));
    AtSplit(data, next, m.after, AfterMember(ms));
  }

  lemma {:induction false} MemberEnds(data: Bytes, p: nat, m: Member, rest: seq<Member>)
    requires p < |data|
    ensures rest == [] && data[p] == CLOSE_OBJECT ==> At(data, p, AfterMember([m] + rest))
    ensures rest != [] && data[p] == COMMA && At(data, p + 1, MembersText(rest)) ==>
              At(data, p, AfterMember([m] + rest))
  {
    hide At, Render;
    assert ([m] + rest)[1..] == rest;
    OneByte(data, p, CLOSE_OBJECT);
    OneByte(data, p, COMMA);
    AtSplit(data, p, [COMMA], MembersText(rest));
  }

  lemma {:induction false} FieldsParsed(g: Config, data: Bytes, pos: nat, path: seq<Bytes>, out: map<Bytes, Value>,
                                        keys: seq<KeyEvent>)
    requires pos <= |data| && ParseFields(g, data, pos, path, out, keys).Parsed?
    ensures var key := ParseKey(data, SkipSpace(data, pos));
            key.Token? &&
            var v := ParseValue(g, data, key.next, ChildPath(g, path, key.value));
            v.Parsed? &&
            var p := SkipSpace(data, v.next);
            p < |data| && (data[p] == CLOSE_OBJECT || data[p] == COMMA) &&
            (data[p] == COMMA ==>
               ParseFields(g, data, p + 1, path, out[key.value := v.value],
                           keys + (Noted(g, path, key.value) + v.keys)).Parsed?)
  {
    hide ParseValue, ParseKey, SkipSpace;
  }

  /** A key that is read: its quotes, the space before the colon and after it. */
  lemma {:induction false} FindKey(data: Bytes, at: nat) returns (key: seq<Piece>, colon: Bytes, start: Bytes)
    requires at <= |data| && ParseKey(data, at).Token?
    ensures GoodPieces(key) && Blank(colon) && Blank(start)
    ensures var after := at + |QuotedPieces(key)|;
            var c := after + |colon|;
            && At(data, at, QuotedPieces(key)) && At(data, after, colon) && At(data, c, [COLON])
            && At(data, c + 1, start) && ParseKey(data, at).next == c + 1 + |start|
  {
    hide At, ParseStringFrom, SkipSpace, Blank, QuotedPieces;
    key := FindQuote(data, at);
    ReadQuote(data, at, key);
    var after := at + |QuotedPieces(key)|;
    colon := FindBlank(data, after);
    var c := SkipSpace(data, after);
    OneByte(data, c, COLON);
    start := FindBlank(data, c + 1);
  }

  lemma {:induction false} FindMembers(g: Config, data: Bytes, pos: nat, path: seq<Bytes>, out: map<Bytes, Value>,
                                       keys: seq<KeyEvent>) returns (ms: seq<Member>)
    requires pos <= |data| && ParseFields(g, data, pos, path, out, keys).Parsed?
    ensures ms != [] && GoodMembers(g.nearest, ms) && At(data, pos, MembersText(ms))
    decreases |data| - pos, 2
  {
    hide ParseValue, ParseFields, ParseKey, At, Render, MembersText, AfterMember, GoodMembers, Good, Blank, SkipSpace;
    hide QuotedPieces, GoodPieces;
    FieldsParsed(g, data, pos, path, out, keys);
    var before := FindBlank(data, pos);
    var at := SkipSpace(data, pos);
    var key := ParseKey(data, at);
    var pieces, colon, space := FindKey(data, at);
    var inside := ChildPath(g, path, key.value);
    var doc := FindDoc(g, data, key.next, inside);
    ReadDoc(g, doc, data, key.next, inside);
    var v := ParseValue(g, data, key.next, inside);
    var after := FindBlank(data, v.next);
    var p := SkipSpace(data, v.next);
    var m := Member(before, pieces, colon, space, doc, after);
    var rest: seq<Member> := [];
    if data[p] == COMMA {
      rest := FindMembers(g, data, p + 1, path, out[key.value := v.value],
                          keys + (Noted(g, path, key.value) + v.keys));
    } else {
      NoElemsAreGood(g.nearest);
    }
    MemberEnds(data, p, m, rest);
    OneMoreMember(g.nearest, data, pos, m, rest);
    ms := [m] + rest;
  }

  lemma {:induction false} FindObj(g: Config, data: Bytes, pos: nat, path: seq<Bytes>) returns (d: Doc)
    requires pos < |data| && data[pos] == OPEN_OBJECT && ParseValue(g, data, pos, path).Parsed?
    ensures d.Obj? && Good(g.nearest, d) && At(data, pos, Render(d))
    decreases |data| - pos, 0
  {
    hide At, ParseFields, SkipSpace, Blank, GoodMembers, MembersText;
    var open := FindBlank(data, pos + 1);
    var p := SkipSpace(data, pos + 1);
    var ms: seq<Member> := [];
    if p < |data| && data[p] == CLOSE_OBJECT {
      NoMembers();
      NoElemsAreGood(g.nearest);
      OneByte(data, p, CLOSE_OBJECT);
    } else {
      ms := FindMembers(g, data, p, path, map[], []) by { ObjParsed(g, data, pos, path); }
    }
    d := Obj(open, ms);
    OneByte(data, pos, OPEN_OBJECT);
    AtSplit(data, pos, [OPEN_OBJECT], open + MembersText(ms));
    AtSplit(data, pos + 1, open, MembersText(ms));
  }

  lemma {:induction false} ObjParsed(g: Config, data: Bytes, pos: nat, path: seq<Bytes>)
    requires pos < |data| && data[pos] == OPEN_OBJECT && ParseValue(g, data, pos, path).Parsed?
    ensures var p := SkipSpace(data, pos + 1);
            (p < |data| && data[p] == CLOSE_OBJECT) || ParseFields(g, data, p, path, map[], []).Parsed?
  {
    hide ParseItems, ParseFields, SkipSpace;
  }

  // ---- the whole text ----

  /** The data is this text, with space before and after it. */
  ghost predicate IsText(nearest: Rounding, data: Bytes, before: Bytes, d: Doc, after: Bytes) {
    data == before + (Render(d) + after) && Blank(before) && Blank(after) && Good(nearest, d)
  }

  lemma {:induction false} ReadText(g: Config, data: Bytes, before: Bytes, d: Doc, after: Bytes)
    requires IsText(g.nearest, data, before, d, after)
    ensures SkipSpace(data, 0) == |before|
    ensures ParseValue(g, data, |before|, []) == Parsed(Meaning(g.nearest, d), |before| + |Render(d)|, KeysOf(g, d, []))
    ensures |before| + |Render(d)| <= |data| && SkipSpace(data, |before| + |Render(d)|) == |data|
  {
    hide At, Render, Good, SkipSpace, ParseValue, KeysOf, Meaning;
    var text := Render(d);
    assert At(data, 0, before + (text + after)) by { Whole(data); }
    AtSplit(data, 0, before, text + after);
    AtSplit(data, |before|, text, after);
    HeadIsSolid(g.nearest, d);
    HeadStands(data, |before|, text);
    SkipBlank(data, 0, before);
    SkipBlank(data, |before| + |text|, after);
    BlankStops(data, |before| + |text|, after);
    ReadDoc(g, d, data, |before|, []);
  }

  lemma {:induction false} Whole(data: Bytes)
    ensures At(data, 0, data)
  {
  }

  lemma {:induction false} FindText(g: Config, data: Bytes) returns (before: Bytes, d: Doc, after: Bytes)
    requires var r := ParseValue(g, data, SkipSpace(data, 0), []); r.Parsed? && SkipSpace(data, r.next) == |data|
    ensures IsText(g.nearest, data, before, d, after)
  {
    hide At, Render, Good, SkipSpace, ParseValue, Blank;
    before := FindBlank(data, 0);
    var from := SkipSpace(data, 0);
    d := FindDoc(g, data, from, []);
    ReadDoc(g, d, data, from, []);
    after := FindBlank(data, from + |Render(d)|);
    AtSplit(data, from, Render(d), after);
    AtSplit(data, 0, before, Render(d) + after);
    AtAll(data, before + (Render(d) + after));
  }

  lemma {:induction false} AtAll(data: Bytes, t: Bytes)
    requires At(data, 0, t) && |t| == |data|
    ensures data == t
  {
  }

  /** Data is decoded to a value exactly when it is a JSON text that means that value, with any space between tokens. */
  lemma {:induction false} DecodesExactly(nearest: Rounding, data: Bytes, v: Value)
    ensures ParseJson(nearest, data) == Ok(v) <==>
              exists before, d, after :: IsText(nearest, data, before, d, after) && Meaning(nearest, d) == v
  {
    hide ParseValue, SkipSpace, Good, Render, Blank, Meaning;
    var g := Config(nearest, false);
    if before, d, after :| IsText(nearest, data, before, d, after) && Meaning(nearest, d) == v {
      ReadText(g, data, before, d, after);
    }
    if ParseJson(nearest, data) == Ok(v) {
      var before, d, after := FindText(g, data);
      ReadText(g, data, before, d, after);
    }
  }

  // ---- space means nothing ----

  /** The same tokens, with other space between them. */
  ghost predicate Respaced(d: Doc, e: Doc)
    decreases d
  {
    match d
    case Arr(_, elems) => e.Arr? && Blank(e.open) && RespacedElems(elems, e.elems)
    case Obj(_, members) => e.Obj? && Blank(e.open) && RespacedMembers(members, e.members)
    case _ => e == d
  }

  ghost predicate RespacedElems(es: seq<Elem>, fs: seq<Elem>)
    decreases es
  {
    |es| == |fs| &&
    (es != [] ==>
       Blank(fs[0].before) && Blank(fs[0].after) && Respaced(es[0].doc, fs[0].doc) && RespacedElems(es[1..], fs[1..]))
  }

  ghost predicate RespacedMembers(ms: seq<Member>, ns: seq<Member>)
    decreases ms
  {
    |ms| == |ns| &&
    (ms != [] ==>
       && ns[0].key == ms[0].key && Blank(ns[0].before) && Blank(ns[0].colon) && Blank(ns[0].start)
       && Blank(ns[0].after)
       && Respaced(ms[0].doc, ns[0].doc) && RespacedMembers(ms[1..], ns[1..]))
  }

  lemma {:induction false} SpaceMeansNothing(nearest: Rounding, d: Doc, e: Doc)
    requires Good(nearest, d) && Respaced(d, e)
    ensures Good(nearest, e) && Meaning(nearest, e) == Meaning(nearest, d)
    decreases d
  {
    hide Blank;
    if d.Arr? { ElemsMeanTheSame(nearest, d.elems, e.elems, []); }
    if d.Obj? { MembersMeanTheSame(nearest, d.members, e.members, map[]); }
  }

  lemma {:induction false} ElemsMeanTheSame(nearest: Rounding, es: seq<Elem>, fs: seq<Elem>, out: seq<Value>)
    requires GoodElems(nearest, es) && RespacedElems(es, fs)
    ensures GoodElems(nearest, fs) && Listed(nearest, fs, out) == Listed(nearest, es, out)
    decreases es
  {
    hide Blank;
    if es != [] {
      SpaceMeansNothing(nearest, es[0].doc, fs[0].doc);
      ElemsMeanTheSame(nearest, es[1..], fs[1..], out + [Meaning(nearest, es[0].doc)]);
    }
  }

  lemma {:induction false} MembersMeanTheSame(nearest: Rounding, ms: seq<Member>, ns: seq<Member>,
                                              out: map<Bytes, Value>)
    requires GoodMembers(nearest, ms) && RespacedMembers(ms, ns)
    ensures GoodMembers(nearest, ns) && Mapped(nearest, ns, out) == Mapped(nearest, ms, out)
    decreases ms
  {
    hide Blank, Spelled, GoodPieces;
    if ms != [] {
      SpaceMeansNothing(nearest, ms[0].doc, ns[0].doc);
      MembersMeanTheSame(nearest, ms[1..], ns[1..], out[Spelled(ms[0].key) := Meaning(nearest, ms[0].doc)]);
    }
  }

  /** The tokens of the canonical text, with any space before, between and after them, decode to the value. */
  lemma {:induction false} SpacedTextDecodes(nearest: Rounding, v: Value, d: Doc, before: Bytes, e: Doc, after: Bytes)
    requires Carried(nearest, v) && Good(nearest, d) && Render(d) == Canonical(v)
    requires Respaced(d, e) && Blank(before) && Blank(after)
    ensures ParseJson(nearest, before + (Render(e) + after)) == Ok(v)
  {
    hide Blank, Good, Render, Meaning, Canonical, ParseJson;
    DecodingUndoesPrinting(nearest, v);
    assert Canonical(v) == [] + (Render(d) + []) && Blank([]) by { NoSpace(); }
    assert IsText(nearest, Canonical(v), [], d, []);
    DecodesExactly(nearest, Canonical(v), Meaning(nearest, d));
    SpaceMeansNothing(nearest, d, e);
    assert IsText(nearest, before + (Render(e) + after), before, e, after);
    DecodesExactly(nearest, before + (Render(e) + after), v);
  }

  lemma {:induction false} NoSpace()
    ensures Blank([])
  {
  }

  /** The canonical text has tokens. */
  lemma {:induction false} CanonicalHasTokens(nearest: Rounding, v: Value) returns (d: Doc)
    requires Carried(nearest, v)
    ensures Good(nearest, d) && Render(d) == Canonical(v) && Meaning(nearest, d) == v
  {
    hide Good, Render, Meaning, Canonical, ParseValue;
    var g := Config(nearest, false);
    JsonRoundTrip.HeadIsSolid(v);
    Whole(Canonical(v));
    ReadValue(g, v, Canonical(v), 0, []);
    d := FindDoc(g, Canonical(v), 0, []);
    ReadDoc(g, d, Canonical(v), 0, []);
    AtAll(Canonical(v), Render(d));
  }
}
