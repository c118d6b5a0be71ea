/** Decoding undoes printing, and what follows from that. */
module JsonRoundTrip {
  import opened ByteStrings
  import opened Digits
  import opened Floats
  import opened JsonValues
  import opened JsonParser
  import opened Utf8

  // ---- strings ----

  lemma {:induction false} ReadEscape(data: Bytes, pos: nat, c: byte, out: Bytes)
    requires At(data, pos, Escape(c))
    ensures ParseStringFrom(data, pos, out) == ParseStringFrom(data, pos + |Escape(c)|, out + [c])
  {
    var t := Escape(c);
    assert t[0] == data[pos + 0];
    if |t| == 2 {
      assert t[1] == data[pos + 1];
    } else if |t| == 6 {
      assert t[1] == data[pos + 1] && t[2] == data[pos + 2] && t[3] == data[pos + 3];
      assert t[4] == data[pos + 4] && t[5] == data[pos + 5];
      assert Hex4(data, pos + 2) == Some(c);
    }
  }

  lemma {:induction false} ReadEscapes(data: Bytes, pos: nat, s: Bytes, out: Bytes)
    requires At(data, pos, EscapeAll(s))
    ensures ParseStringFrom(data, pos, out) == ParseStringFrom(data, pos + |EscapeAll(s)|, out + s)
    decreases s
  {
    hide Escape, ParseEscape;
    if s == [] {
      assert out + s == out;
    } else {
      AtSplit(data, pos, Escape(s[0]), EscapeAll(s[1..]));
      ReadEscape(data, pos, s[0], out);
      ReadEscapes(data, pos + |Escape(s[0])|, s[1..], out + [s[0]]);
      assert out + [s[0]] + s[1..] == out + s;
    }
  }

  lemma {:induction false} ReadQuoted(data: Bytes, pos: nat, s: Bytes)
    requires At(data, pos, Quoted(s))
    ensures data[pos] == QUOTE
    ensures ParseStringFrom(data, pos + 1, []) == Token(s, pos + |Quoted(s)|)
  {
    hide EscapeAll;
    var body := EscapeAll(s);
    assert Quoted(s)[0] == data[pos + 0];
    assert Quoted(s)[1 + |body|] == data[pos + (1 + |body|)];
    forall k | 0 <= k < |body| ensures body[k] == data[pos + 1 + k] {
      assert body[k] == Quoted(s)[1 + k];
    }
    ReadEscapes(data, pos + 1, s, []);
    assert [] + s == s;
  }

  // ---- numbers ----

  /** A number token ends where the data ends or at a byte that no number contains. */
  predicate NumberStops(data: Bytes, pos: nat) {
    pos == |data| || (pos < |data| && !IsNumberByte(data[pos]))
  }

  lemma {:induction false} NumberEndAt(data: Bytes, pos: nat, text: Bytes)
    requires At(data, pos, text) && NumberStops(data, pos + |text|)
    requires forall k :: 0 <= k < |text| ==> IsNumberByte(text[k])
    ensures NumberEnd(data, pos) == pos + |text|
    decreases |text|
  {
    if text != [] {
      assert text[0] == data[pos + 0];
      assert text == [text[0]] + text[1..];
      AtSplit(data, pos, [text[0]], text[1..]);
      NumberEndAt(data, pos + 1, text[1..]);
    }
  }

  lemma {:induction false} IntIsClassified(nearest: Rounding, n: int64)
    ensures Classify(nearest, FormatInt(n)) == Some(Int(n))
    ensures forall k :: 0 <= k < |FormatInt(n)| ==> IsNumberByte(FormatInt(n)[k])
    ensures FormatInt(n)[0] == MINUS || IsDigit(FormatInt(n)[0])
  {
    var t := FormatInt(n);
    IntRoundTrip(n);
    var body := if t[0] == MINUS then t[1..] else t;
    assert forall k :: 0 <= k < |body| ==> body[k] == t[k + |t| - |body|];
  }

  /** Every layout of a float is made of number bytes and shows its point, so it never reads as an integer. */
  lemma {:induction false} FloatText(d: Decimal)
    ensures var t := RubyFloat(d);
            && t != [] && (t[0] == MINUS || IsDigit(t[0]))
            && (forall k :: 0 <= k < |t| ==> IsNumberByte(t[k]))
            && exists k :: 0 < k < |t| && t[k] == DOT
  {
    hide LayoutOf, Magnitude;
    var l := LayoutOf(d.digits, d.point);
    LayoutIsMagnitude(d.digits, d.point);
    var sign: Bytes := if d.neg then [MINUS] else [];
    var t := RubyFloat(d);
    var whole, fraction, tail := DigitText(l.whole), DigitText(l.fraction), l.Tail();
    assert forall k :: 0 <= k < |tail| ==> IsNumberByte(tail[k]);
    assert t == sign + whole + [DOT] + fraction + tail;
    assert t[0] == (sign + whole)[0];
    assert t[|sign + whole|] == DOT;
  }

  lemma {:induction false} FloatIsClassified(nearest: Rounding, d: Decimal)
    requires IsFloat(nearest, d)
    ensures Classify(nearest, RubyFloat(d)) == Some(Number(Finite(d)))
  {
    var t := RubyFloat(d);
    FloatText(d);
    FloatRoundTrip(nearest, d);
    var k :| 0 < k < |t| && t[k] == DOT;
    assert t[0] == MINUS ==> t[1..][k - 1] == DOT;
  }

  lemma {:induction false} ReadNumber(nearest: Rounding, data: Bytes, pos: nat, text: Bytes, v: Value)
    requires At(data, pos, text) && NumberStops(data, pos + |text|) && text != []
    requires text[0] == MINUS || IsDigit(text[0])
    requires forall k :: 0 <= k < |text| ==> IsNumberByte(text[k])
    requires Classify(nearest, text) == Some(v)
    ensures data[pos] == text[0]
    ensures ParseNumber(nearest, data, pos) == Token(v, pos + |text|)
  {
    hide Classify;
    assert text[0] == data[pos + 0];
    NumberEndAt(data, pos, text);
    AtSlice(data, pos, text);
  }

  // ---- values ----

  /** The keys in the order in which a canonical text shows them. */
  ghost function Trace(g: Config, v: Value, path: seq<Bytes>): seq<KeyEvent>
    decreases v, 1, 0
  {
    match v
    case List(_) => ItemsTrace(g, v, 0, path)
    case Object(fields) => FieldsTrace(g, v, SortedKeys(fields.Keys), 0, path)
    case _ => []
  }

  ghost function ItemsTrace(g: Config, v: Value, i: nat, path: seq<Bytes>): seq<KeyEvent>
    requires v.List? && i <= |v.items|
    decreases v, 0, |v.items| - i
  {
    if i == |v.items| then [] else Trace(g, v.items[i], path) + ItemsTrace(g, v, i + 1, path)
  }

  ghost function FieldsTrace(g: Config, v: Value, ks: seq<Bytes>, i: nat, path: seq<Bytes>): seq<KeyEvent>
    requires v.Object? && i <= |ks| && (forall k :: k in ks ==> k in v.fields)
    decreases v, 0, |ks| - i
  {
    if i == |ks| then []
    else
      Noted(g, path, ks[i]) + Trace(g, v.fields[ks[i]], ChildPath(g, path, ks[i])) + FieldsTrace(g, v, ks, i + 1, path)
  }

  lemma {:induction false} HeadIsSolid(v: Value)
    requires Printable(v)
    ensures !IsSpace(Canonical(v)[0]) && Canonical(v)[0] != CLOSE_LIST
  {
    match v
    case Int(n) =>
    case Number(f) => FloatText(f.decimal);
    case _ =>
  }

  lemma {:induction false} ReadValue(g: Config, v: Value, data: Bytes, pos: nat, path: seq<Bytes>)
    requires Carried(g.nearest, v)
    requires At(data, pos, Canonical(v)) && NumberStops(data, pos + |Canonical(v)|)
    ensures ParseValue(g, data, pos, path) == Parsed(v, pos + |Canonical(v)|, Trace(g, v, path))
    decreases v, 1, 0
  {
    hide ParseValue;
    match v
    case Null => ReadWord(g, v, data, pos, path);
    case Bool(b) => ReadWord(g, v, data, pos, path);
    case Text(s) => ReadText(g, s, data, pos, path);
    case Int(n) =>
      IntIsClassified(g.nearest, n);
      ReadNumeral(g, v, data, pos, path);
    case Number(f) =>
      FloatText(f.decimal);
      FloatIsClassified(g.nearest, f.decimal);
      ReadNumeral(g, v, data, pos, path);
    case List(items) => ReadList(g, v, data, pos, path);
    case Object(fields) => ReadObject(g, v, data, pos, path);
  }

  lemma {:induction false} ReadWord(g: Config, v: Value, data: Bytes, pos: nat, path: seq<Bytes>)
    requires (v.Null? || v.Bool?) && At(data, pos, Canonical(v))
    ensures ParseValue(g, data, pos, path) == Parsed(v, pos + |Canonical(v)|, [])
  {
    hide ParseItems, ParseFields, ParseStringFrom, ParseNumber;
    assert Canonical(v)[0] == data[pos + 0];
  }

  lemma {:induction false} ReadText(g: Config, s: Bytes, data: Bytes, pos: nat, path: seq<Bytes>)
    requires At(data, pos, Quoted(s))
    ensures ParseValue(g, data, pos, path) == Parsed(Text(s), pos + |Quoted(s)|, [])
  {
    hide ParseItems, ParseFields, ParseNumber, ParseStringFrom;
    assert Quoted(s)[0] == data[pos + 0];
    ReadQuoted(data, pos, s);
  }

  lemma {:induction false} ReadNumeral(g: Config, v: Value, data: Bytes, pos: nat, path: seq<Bytes>)
    requires Printable(v) && At(data, pos, Canonical(v)) && NumberStops(data, pos + |Canonical(v)|)
    requires Canonical(v)[0] == MINUS || IsDigit(Canonical(v)[0])
    requires forall k :: 0 <= k < |Canonical(v)| ==> IsNumberByte(Canonical(v)[k])
    requires Classify(g.nearest, Canonical(v)) == Some(v)
    ensures ParseValue(g, data, pos, path) == Parsed(v, pos + |Canonical(v)|, [])
  {
    hide ParseItems, ParseFields, ParseNumber, ParseStringFrom, ParseLiteral, Canonical, Classify;
    ReadNumber(g.nearest, data, pos, Canonical(v), v);
  }

  lemma {:induction false} OpensList(g: Config, data: Bytes, pos: nat, path: seq<Bytes>)
    requires pos + 1 < |data| && data[pos] == OPEN_LIST && !IsSpace(data[pos + 1])
    ensures ParseValue(g, data, pos, path)
         == if data[pos + 1] == CLOSE_LIST then Parsed(List([]), pos + 2, [])
            else ParseItems(g, data, pos + 1, path, [], [])
  {
    hide ParseItems, ParseFields, ParseStringFrom, ParseNumber, ParseLiteral;
  }

  lemma {:induction false} ReadList(g: Config, v: Value, data: Bytes, pos: nat, path: seq<Bytes>)
    requires v.List? && Carried(g.nearest, v) && At(data, pos, Canonical(v))
    ensures ParseValue(g, data, pos, path) == Parsed(v, pos + |Canonical(v)|, Trace(g, v, path))
    decreases v, 0, |v.items| + 1
  {
    hide ParseValue, ParseItems;
    var body := ItemsText(v, 0);
    AtSplit(data, pos, [OPEN_LIST], body);
    assert [OPEN_LIST][0] == data[pos + 0];
    assert body[0] == data[pos + 1 + 0];
    if v.items == [] {
      OpensList(g, data, pos, path);
    } else {
      var first := Canonical(v.items[0]);
      assert body == first + ItemsText(v, 1);
      assert body[0] == first[0];
      HeadIsSolid(v.items[0]);
      OpensList(g, data, pos, path);
      ReadItems(g, v, 0, data, pos + 1, path, []);
      assert v.items[..0] == [] && [] + ItemsTrace(g, v, 0, path) == ItemsTrace(g, v, 0, path);
    }
  }

  /** One turn of the list loop, when the item and the byte after it are known. */
  lemma {:induction false} ItemsTurn(g: Config, data: Bytes, pos: nat, path: seq<Bytes>,
                                     out: seq<Value>, keys: seq<KeyEvent>, item: Parsed)
    requires pos < |data| && !IsSpace(data[pos]) && ParseValue(g, data, pos, path) == item && item.Parsed?
    requires item.next < |data| && (data[item.next] == COMMA || data[item.next] == CLOSE_LIST)
    ensures ParseItems(g, data, pos, path, out, keys)
         == if data[item.next] == COMMA
            then ParseItems(g, data, item.next + 1, path, out + [item.value], keys + item.keys)
            else Parsed(List(out + [item.value]), item.next + 1, keys + item.keys)
  {
    assert SkipSpace(data, pos) == pos;
    assert SkipSpace(data, item.next) == item.next;
  }

  /** Where an item stands, and the byte that stops it. */
  lemma {:induction false} ItemStands(v: Value, i: nat, data: Bytes, pos: nat)
    requires v.List? && Printable(v) && i < |v.items|
    requires At(data, pos, Canonical(v.items[i]) + ItemsText(v, i + 1))
    ensures At(data, pos, Canonical(v.items[i])) && !IsSpace(data[pos])
    ensures var next := pos + |Canonical(v.items[i])|;
            && next < |data|
            && data[next] == (if i + 1 < |v.items| then COMMA else CLOSE_LIST)
            && (i + 1 == |v.items| ==> |ItemsText(v, i + 1)| == 1)
            && (i + 1 < |v.items| ==>
                  At(data, next + 1, Canonical(v.items[i + 1]) + ItemsText(v, i + 2)) &&
                  |ItemsText(v, i + 1)| == 1 + |Canonical(v.items[i + 1])| + |ItemsText(v, i + 2)|)
  {
    var item, rest := Canonical(v.items[i]), ItemsText(v, i + 1);
    AtSplit(data, pos, item, rest);
    HeadIsSolid(v.items[i]);
    assert item[0] == data[pos + 0];
    assert rest[0] == data[pos + |item| + 0];
    if i + 1 < |v.items| {
      AtSplit(data, pos + |item|, [COMMA], Canonical(v.items[i + 1]) + ItemsText(v, i + 2));
    }
  }

  lemma {:induction false} ReadItems(g: Config, v: Value, i: nat, data: Bytes, pos: nat, path: seq<Bytes>,
                                     keys: seq<KeyEvent>)
    requires v.List? && Carried(g.nearest, v) && i < |v.items|
    requires At(data, pos, Canonical(v.items[i]) + ItemsText(v, i + 1))
    ensures ParseItems(g, data, pos, path, v.items[..i], keys)
         == Parsed(v, pos + |Canonical(v.items[i])| + |ItemsText(v, i + 1)|, keys + ItemsTrace(g, v, i, path))
    decreases v, 0, |v.items| - i
  {
    hide ParseValue, ParseItems, Canonical, ItemsText;
    var next := pos + |Canonical(v.items[i])|;
    ItemStands(v, i, data, pos);
    ReadValue(g, v.items[i], data, pos, path);
    var more := Trace(g, v.items[i], path);
    ItemsTurn(g, data, pos, path, v.items[..i], keys, Parsed(v.items[i], next, more));
    assert v.items[..i] + [v.items[i]] == v.items[..i + 1];
    if i + 1 == |v.items| {
      assert v.items[..i + 1] == v.items;
      assert more + [] == more;
    } else {
      ReadItems(g, v, i + 1, data, next + 1, path, keys + more);
      assert keys + more + ItemsTrace(g, v, i + 1, path) == keys + (more + ItemsTrace(g, v, i + 1, path));
    }
  }

  lemma {:induction false} OpensObject(g: Config, data: Bytes, pos: nat, path: seq<Bytes>)
    requires pos + 1 < |data| && data[pos] == OPEN_OBJECT && !IsSpace(data[pos + 1])
    ensures ParseValue(g, data, pos, path)
         == if data[pos + 1] == CLOSE_OBJECT then Parsed(Object(map[]), pos + 2, [])
            else ParseFields(g, data, pos + 1, path, map[], [])
  {
    hide ParseItems, ParseFields, ParseStringFrom, ParseNumber, ParseLiteral;
  }

  lemma {:induction false} ObjectStands(v: Value, ks: seq<Bytes>, data: Bytes, pos: nat)
    requires v.Object? && Printable(v) && (forall k :: k in ks ==> k in v.fields)
    requires At(data, pos, [OPEN_OBJECT] + FieldsText(v, ks, 0))
    ensures pos + 1 < |data| && data[pos] == OPEN_OBJECT
    ensures data[pos + 1] == (if ks == [] then CLOSE_OBJECT else QUOTE)
    ensures ks == [] ==> |FieldsText(v, ks, 0)| == 1
    ensures ks != [] ==>
              && At(data, pos + 1, FieldText(v, ks[0]) + FieldsText(v, ks, 1))
              && |FieldsText(v, ks, 0)| == |FieldText(v, ks[0])| + |FieldsText(v, ks, 1)|
  {
    var body := FieldsText(v, ks, 0);
    AtSplit(data, pos, [OPEN_OBJECT], body);
    assert [OPEN_OBJECT][0] == data[pos + 0];
    assert body[0] == data[pos + 1 + 0];
    if ks != [] {
      assert body == FieldText(v, ks[0]) + FieldsText(v, ks, 1);
      assert body[0] == FieldText(v, ks[0])[0];
    }
  }

  lemma {:induction false} ReadObject(g: Config, v: Value, data: Bytes, pos: nat, path: seq<Bytes>)
    requires v.Object? && Carried(g.nearest, v) && At(data, pos, Canonical(v))
    ensures ParseValue(g, data, pos, path) == Parsed(v, pos + |Canonical(v)|, Trace(g, v, path))
    decreases v, 0, |SortedKeys(v.fields.Keys)| + 1
  {
    hide ParseValue, ParseFields, SortedKeys, FieldsText, FieldText;
    var ks := SortedKeys(v.fields.Keys);
    ObjectStands(v, ks, data, pos);
    OpensObject(g, data, pos, path);
    if ks == [] {
      assert v.fields.Keys == Elements(ks) == {};
      assert v.fields == map[];
    } else {
      ReadFields(g, v, ks, 0, data, pos + 1, path, map[], []);
      assert [] + FieldsTrace(g, v, ks, 0, path) == FieldsTrace(g, v, ks, 0, path);
    }
  }

  /** The fields already read, when the first `i` keys have been. */
  ghost predicate ReadSoFar(v: Value, ks: seq<Bytes>, i: nat, out: map<Bytes, Value>)
    requires v.Object? && i <= |ks| && (forall k :: k in ks ==> k in v.fields)
  {
    out.Keys == Elements(ks[..i]) && forall k :: k in ks[..i] ==> out[k] == v.fields[k]
  }

  lemma {:induction false} ReadOneMore(v: Value, ks: seq<Bytes>, i: nat, out: map<Bytes, Value>)
    requires v.Object? && i < |ks| && (forall k :: k in ks ==> k in v.fields) && ReadSoFar(v, ks, i, out)
    ensures ReadSoFar(v, ks, i + 1, out[ks[i] := v.fields[ks[i]]])
    ensures i + 1 == |ks| && Elements(ks) == v.fields.Keys ==> out[ks[i] := v.fields[ks[i]]] == v.fields
  {
    var now := out[ks[i] := v.fields[ks[i]]];
    assert ks[..i + 1] == ks[..i] + [ks[i]];
    assert Elements(ks[..i + 1]) == Elements(ks[..i]) + {ks[i]};
    if i + 1 == |ks| && Elements(ks) == v.fields.Keys {
      assert ks[..i + 1] == ks;
      assert now.Keys == v.fields.Keys;
      forall k | k in v.fields ensures now[k] == v.fields[k] { assert k in Elements(ks); }
    }
  }

  /** Where a field stands: its key, its value, and the byte that stops the value. */
  lemma {:induction false} FieldStands(v: Value, ks: seq<Bytes>, i: nat, data: Bytes, pos: nat)
    requires v.Object? && Printable(v) && i < |ks| && (forall k :: k in ks ==> k in v.fields)
    requires At(data, pos, FieldText(v, ks[i]) + FieldsText(v, ks, i + 1))
    ensures pos < |data| && data[pos] == QUOTE && At(data, pos, FieldText(v, ks[i]))
    ensures var next := pos + |FieldText(v, ks[i])|;
            && next < |data|
            && data[next] == (if i + 1 < |ks| then COMMA else CLOSE_OBJECT)
            && (i + 1 == |ks| ==> |FieldsText(v, ks, i + 1)| == 1)
            && (i + 1 < |ks| ==>
                  At(data, next + 1, FieldText(v, ks[i + 1]) + FieldsText(v, ks, i + 2)) &&
                  |FieldsText(v, ks, i + 1)| == 1 + |FieldText(v, ks[i + 1])| + |FieldsText(v, ks, i + 2)|)
  {
    hide Canonical, Quoted;
    var text, rest := FieldText(v, ks[i]), FieldsText(v, ks, i + 1);
    AtSplit(data, pos, text, rest);
    assert text[0] == data[pos + 0];
    assert rest[0] == data[pos + |text| + 0];
    if i + 1 < |ks| {
      AtSplit(data, pos + |text|, [COMMA], FieldText(v, ks[i + 1]) + FieldsText(v, ks, i + 2));
    }
  }

  lemma {:induction false} ReadKey(v: Value, k: Bytes, data: Bytes, pos: nat)
    requires v.Object? && Printable(v) && k in v.fields && At(data, pos, FieldText(v, k))
    ensures ParseKey(data, pos) == Token(k, pos + |Quoted(k)| + 1)
    ensures At(data, pos + |Quoted(k)| + 1, Canonical(v.fields[k]))
  {
    var text := Canonical(v.fields[k]);
    AtSplit(data, pos, Quoted(k), [COLON] + text);
    AtSplit(data, pos + |Quoted(k)|, [COLON], text);
    ReadQuoted(data, pos, k);
    assert [COLON][0] == data[pos + |Quoted(k)| + 0];
    HeadIsSolid(v.fields[k]);
    assert text[0] == data[pos + |Quoted(k)| + 1 + 0];
  }

  /** One turn of the object loop, when the key, the value and the byte after it are known. */
  lemma {:induction false} FieldsTurn(g: Config, data: Bytes, pos: nat, path: seq<Bytes>, out: map<Bytes, Value>,
                                      keys: seq<KeyEvent>, key: Bytes, start: nat, value: Parsed)
    requires pos < |data| && !IsSpace(data[pos]) && ParseKey(data, pos) == Token(key, start)
    requires ParseValue(g, data, start, ChildPath(g, path, key)) == value && value.Parsed?
    requires value.next < |data| && (data[value.next] == COMMA || data[value.next] == CLOSE_OBJECT)
    ensures ParseFields(g, data, pos, path, out, keys)
         == if data[value.next] == COMMA
            then ParseFields(g, data, value.next + 1, path, out[key := value.value],
                             keys + (Noted(g, path, key) + value.keys))
            else Parsed(Object(out[key := value.value]), value.next + 1, keys + (Noted(g, path, key) + value.keys))
  {
    assert SkipSpace(data, pos) == pos;
    assert SkipSpace(data, value.next) == value.next;
  }

  /** One field of the canonical text takes one turn of the object loop. */
  lemma {:induction false} ReadField(g: Config, v: Value, ks: seq<Bytes>, i: nat, data: Bytes, pos: nat,
                                     path: seq<Bytes>, out: map<Bytes, Value>, keys: seq<KeyEvent>)
    returns (next: nat, seen: seq<KeyEvent>)
    requires v.Object? && Carried(g.nearest, v) && i < |ks| && (forall k :: k in ks ==> k in v.fields)
    requires At(data, pos, FieldText(v, ks[i]) + FieldsText(v, ks, i + 1))
    ensures next == pos + |FieldText(v, ks[i])| && next < |data|
    ensures i + 1 == |ks| ==> |FieldsText(v, ks, i + 1)| == 1
    ensures seen == keys + (Noted(g, path, ks[i]) + Trace(g, v.fields[ks[i]], ChildPath(g, path, ks[i])))
    ensures i + 1 < |ks| ==>
              && At(data, next + 1, FieldText(v, ks[i + 1]) + FieldsText(v, ks, i + 2))
              && |FieldsText(v, ks, i + 1)| == 1 + |FieldText(v, ks[i + 1])| + |FieldsText(v, ks, i + 2)|
    ensures ParseFields(g, data, pos, path, out, keys)
         == if i + 1 < |ks| then ParseFields(g, data, next + 1, path, out[ks[i] := v.fields[ks[i]]], seen)
            else Parsed(Object(out[ks[i] := v.fields[ks[i]]]), next + 1, seen)
    decreases v, 0, |ks| - i, 0
  {
    hide ParseFields, ParseValue, ParseKey, FieldsText, Trace, Quoted;
    var k := ks[i];
    var start := pos + |Quoted(k)| + 1;
    FieldStands(v, ks, i, data, pos);
    ReadKey(v, k, data, pos);
    next := pos + |FieldText(v, k)|;
    ReadValue(g, v.fields[k], data, start, ChildPath(g, path, k));
    var value := Parsed(v.fields[k], next, Trace(g, v.fields[k], ChildPath(g, path, k)));
    FieldsTurn(g, data, pos, path, out, keys, k, start, value);
    seen := keys + (Noted(g, path, k) + value.keys);
  }

  lemma {:induction false} ReadFields(g: Config, v: Value, ks: seq<Bytes>, i: nat, data: Bytes, pos: nat,
                                      path: seq<Bytes>, out: map<Bytes, Value>, keys: seq<KeyEvent>)
    requires v.Object? && Carried(g.nearest, v) && i < |ks|
    requires Elements(ks) == v.fields.Keys && (forall k :: k in ks ==> k in v.fields) && ReadSoFar(v, ks, i, out)
    requires At(data, pos, FieldText(v, ks[i]) + FieldsText(v, ks, i + 1))
    ensures ParseFields(g, data, pos, path, out, keys)
         == Parsed(v, pos + |FieldText(v, ks[i])| + |FieldsText(v, ks, i + 1)|, keys + FieldsTrace(g, v, ks, i, path))
    decreases v, 0, |ks| - i, 1
  {
    hide ParseFields, ParseKey, ParseValue, FieldText, FieldsText, FieldsTrace, Trace, Canonical;
    var next, seen := ReadField(g, v, ks, i, data, pos, path, out, keys);
    ReadOneMore(v, ks, i, out);
    FieldsTraceTurn(g, v, ks, i, path, keys,
                    Noted(g, path, ks[i]) + Trace(g, v.fields[ks[i]], ChildPath(g, path, ks[i])));
    if i + 1 < |ks| {
      ReadFields(g, v, ks, i + 1, data, next + 1, path, out[ks[i] := v.fields[ks[i]]], seen);
    }
  }

  lemma {:induction false} FieldsTraceTurn(g: Config, v: Value, ks: seq<Bytes>, i: nat, path: seq<Bytes>,
                                           keys: seq<KeyEvent>, more: seq<KeyEvent>)
    requires v.Object? && i < |ks| && (forall k :: k in ks ==> k in v.fields)
    requires more == Noted(g, path, ks[i]) + Trace(g, v.fields[ks[i]], ChildPath(g, path, ks[i]))
    ensures keys + FieldsTrace(g, v, ks, i, path) == keys + more + FieldsTrace(g, v, ks, i + 1, path)
    ensures i + 1 == |ks| ==> keys + FieldsTrace(g, v, ks, i, path) == keys + more
  {
    assert keys + (more + FieldsTrace(g, v, ks, i + 1, path)) == keys + more + FieldsTrace(g, v, ks, i + 1, path);
    assert more + [] == more;
  }

  // ---- the laws of the canonical text ----

  /** Decoding the canonical text of a value returns that value. */
  lemma {:induction false} DecodingUndoesPrinting(nearest: Rounding, v: Value)
    requires Carried(nearest, v)
    ensures ParseJson(nearest, Canonical(v)) == Ok(v)
  {
    var t := Canonical(v);
    HeadIsSolid(v);
    ReadValue(Config(nearest, false), v, t, 0, []);
  }

  /** Two values have the same canonical text only when they are the same value: `jsonEqual` decides equality. */
  lemma {:induction false} CanonicalInjective(nearest: Rounding, a: Value, b: Value)
    requires Carried(nearest, a) && Carried(nearest, b)
    ensures Canonical(a) == Canonical(b) <==> a == b
  {
    DecodingUndoesPrinting(nearest, a);
    DecodingUndoesPrinting(nearest, b);
  }

  /** Whatever the decoder returns can be printed, and its numbers are floats when rounding returns floats. */
  ghost predicate Storable(nearest: Rounding, v: Value) {
    Printable(v) && (RoundsToFloats(nearest) ==> Carried(nearest, v))
  }

  lemma {:induction false} ParsedIsStorable(g: Config, data: Bytes, pos: nat, path: seq<Bytes>)
    requires pos <= |data|
    ensures var r := ParseValue(g, data, pos, path); r.Parsed? ==> Storable(g.nearest, r.value)
    decreases |data| - pos, 1
  {
    hide ParseStringFrom, ParseNumber;
    if pos < |data| && (data[pos] == MINUS || IsDigit(data[pos])) {
      NumberIsStorable(g.nearest, data, pos);
    } else if pos < |data| {
      var p := SkipSpace(data, pos + 1);
      ItemsAreStorable(g, data, p, path, [], []);
      FieldsAreStorable(g, data, p, path, map[], []);
    }
  }

  lemma {:induction false} NumberIsStorable(nearest: Rounding, data: Bytes, pos: nat)
    requires pos < |data| && (data[pos] == MINUS || IsDigit(data[pos]))
    ensures var r := ParseNumber(nearest, data, pos); r.Token? ==> Storable(nearest, r.value)
  {
    hide ReadDecimal, Normalize, ParseInt, NumberEnd;
  }

  lemma {:induction false} ItemsAreStorable(g: Config, data: Bytes, pos: nat, path: seq<Bytes>, out: seq<Value>,
                                            keys: seq<KeyEvent>)
    requires pos <= |data| && forall v :: v in out ==> Storable(g.nearest, v)
    ensures var r := ParseItems(g, data, pos, path, out, keys); r.Parsed? ==> Storable(g.nearest, r.value)
    decreases |data| - pos, 2
  {
    hide ParseValue;
    var start := SkipSpace(data, pos);
    ParsedIsStorable(g, data, start, path);
    var item := ParseValue(g, data, start, path);
    if item.Parsed? {
      var p := SkipSpace(data, item.next);
      if p < |data| && data[p] == COMMA {
        ItemsAreStorable(g, data, p + 1, path, out + [item.value], keys + item.keys);
      }
    }
  }

  lemma {:induction false} FieldsAreStorable(g: Config, data: Bytes, pos: nat, path: seq<Bytes>,
                                             out: map<Bytes, Value>, keys: seq<KeyEvent>)
    requires pos <= |data| && forall k :: k in out ==> Storable(g.nearest, out[k])
    ensures var r := ParseFields(g, data, pos, path, out, keys); r.Parsed? ==> Storable(g.nearest, r.value)
    decreases |data| - pos, 2
  {
    hide ParseValue, ParseKey;
    var key := ParseKey(data, SkipSpace(data, pos));
    if key.Token? {
      ParsedIsStorable(g, data, key.next, ChildPath(g, path, key.value));
      var field := ParseValue(g, data, key.next, ChildPath(g, path, key.value));
      if field.Parsed? {
        var p := SkipSpace(data, field.next);
        if p < |data| && data[p] == COMMA {
          FieldsAreStorable(g, data, p + 1, path, out[key.value := field.value],
                            keys + (Noted(g, path, key.value) + field.keys));
        }
      }
    }
  }

  /** Printing what was decoded gives a text that decodes to the same value again. */
  lemma {:induction false} PrintingNormalizes(nearest: Rounding, data: Bytes, v: Value)
    requires RoundsToFloats(nearest) && ParseJson(nearest, data) == Ok(v)
    ensures Carried(nearest, v)
    ensures ParseJson(nearest, Canonical(v)) == Ok(v)
  {
    hide ParseValue;
    ParsedIsStorable(Config(nearest, false), data, SkipSpace(data, 0), []);
    DecodingUndoesPrinting(nearest, v);
  }

  /** No canonical text holds a control byte, in particular no line end. */
  lemma {:induction false} CanonicalIsOneLine(v: Value)
    requires Printable(v)
    ensures forall k :: 0 <= k < |Canonical(v)| ==> Canonical(v)[k] >= 0x20
    decreases v, 1, 0
  {
    match v
    case Text(s) => QuotedIsOneLine(s);
    case Number(f) => FloatText(f.decimal);
    case List(items) => ItemsAreOneLine(v, 0);
    case Object(fields) => FieldsAreOneLine(v, SortedKeys(fields.Keys), 0);
    case _ =>
  }

  lemma {:induction false} EscapesAreOneLine(s: Bytes)
    ensures forall k :: 0 <= k < |EscapeAll(s)| ==> EscapeAll(s)[k] >= 0x20
  {
    if s != [] { EscapesAreOneLine(s[1..]); }
  }

  lemma {:induction false} QuotedIsOneLine(s: Bytes)
    ensures forall k :: 0 <= k < |Quoted(s)| ==> Quoted(s)[k] >= 0x20
  {
    EscapesAreOneLine(s);
  }

  lemma {:induction false} ItemsAreOneLine(v: Value, i: nat)
    requires v.List? && Printable(v) && i <= |v.items|
    ensures forall k :: 0 <= k < |ItemsText(v, i)| ==> ItemsText(v, i)[k] >= 0x20
    decreases v, 0, |v.items| - i
  {
    if i < |v.items| {
      CanonicalIsOneLine(v.items[i]);
      ItemsAreOneLine(v, i + 1);
    }
  }

  lemma {:induction false} FieldsAreOneLine(v: Value, ks: seq<Bytes>, i: nat)
    requires v.Object? && Printable(v) && i <= |ks| && (forall k :: k in ks ==> k in v.fields)
    ensures forall k :: 0 <= k < |FieldsText(v, ks, i)| ==> FieldsText(v, ks, i)[k] >= 0x20
    decreases v, 0, |ks| - i
  {
    if i < |ks| {
      var value := Canonical(v.fields[ks[i]]);
      QuotedIsOneLine(ks[i]);
      CanonicalIsOneLine(v.fields[ks[i]]);
      var field := Quoted(ks[i]) + ([COLON] + value);
      forall k | 0 <= k < |field| ensures field[k] >= 0x20 {
        assert k > |Quoted(ks[i])| ==> field[k] == value[k - |Quoted(ks[i])| - 1];
      }
      FieldsAreOneLine(v, ks, i + 1);
    }
  }
}
