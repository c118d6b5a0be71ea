/** The decoder itself: a cursor over the data, moved in place, that also keeps the order of keys. */
module JsonDecoder {
  import opened ByteStrings
  import opened Digits
  import opened Floats
  import opened JsonValues
  import opened JsonParser
  import opened Utf8

  type Orders = map<Bytes, seq<Bytes>>

  /** `strings.Join(path, ".")`. */
  function Dotted(path: seq<Bytes>): Bytes {
    if path == [] then []
    else if |path| == 1 then path[0]
    else path[0] + [DOT] + Dotted(path[1..])
  }

  /** The key orders after some more keys were met; nothing is kept when no order is asked for. */
  function Record(orders: Option<Orders>, keys: seq<KeyEvent>): (r: Option<Orders>)
    ensures r.Some? <==> orders.Some?
  {
    if orders.None? || keys == [] then orders
    else
      var before := Record(orders, keys[..|keys| - 1]);
      var e := keys[|keys| - 1];
      var p := Dotted(e.path);
      Some(before.value[p := (if p in before.value then before.value[p] else []) + [e.key]])
  }

  /** The keys of the path with a point between any two. */
  lemma {:induction false} DottedSpells(path: seq<Bytes>, key: Bytes)
    ensures Dotted([]) == [] && Dotted([key]) == key
    ensures path != [] ==> Dotted(path + [key]) == Dotted(path) + Ascii(".") + key
    decreases |path|
  {
    assert Ascii(".") == [DOT];
    if |path| == 1 {
      assert path + [key] == [path[0], key] && [path[0], key][1..] == [key];
    } else if |path| > 1 {
      assert (path + [key])[1..] == path[1..] + [key];
      DottedSpells(path[1..], key);
    }
  }

  /** The keys met under a dotted path, in the order of the text. */
  function KeysAt(keys: seq<KeyEvent>, p: Bytes): seq<Bytes> {
    if keys == [] then [] else (if Dotted(keys[0].path) == p then [keys[0].key] else []) + KeysAt(keys[1..], p)
  }

  lemma {:induction false} KeysAtGrow(keys: seq<KeyEvent>, e: KeyEvent, p: Bytes)
    ensures KeysAt(keys + [e], p) == KeysAt(keys, p) + if Dotted(e.path) == p then [e.key] else []
    decreases |keys|
  {
    hide Dotted;
    if keys != [] {
      assert (keys + [e])[1..] == keys[1..] + [e];
      KeysAtGrow(keys[1..], e, p);
    } else {
      assert ([e])[1..] == [] && keys + [e] == [e];
    }
  }

  /** The order of an object's keys is that of the text; objects with the same dotted path share one entry. */
  lemma {:induction false} RecordTells(keys: seq<KeyEvent>, p: Bytes)
    ensures var orders := Record(Some(map[]), keys).value;
            && (p in orders <==> exists e :: e in keys && Dotted(e.path) == p)
            && (p in orders ==> orders[p] == KeysAt(keys, p))
            && (p !in orders ==> KeysAt(keys, p) == [])
    decreases |keys|
  {
    hide Dotted;
    if keys != [] {
      var some, e := keys[..|keys| - 1], keys[|keys| - 1];
      RecordTells(some, p);
      KeysAtGrow(some, e, p);
      assert keys == some + [e];
    }
  }

  lemma {:induction false} RecordAll(orders: Option<Orders>, a: seq<KeyEvent>, b: seq<KeyEvent>)
    ensures Record(Record(orders, a), b) == Record(orders, a + b)
    decreases |b|
  {
    if b == [] {
      assert a + b == a;
    } else {
      RecordAll(orders, a, b[..|b| - 1]);
      assert (a + b)[..|a + b| - 1] == a + b[..|b| - 1];
    }
  }

  class Decoder {
    const data: Bytes
    const nearest: Rounding
    var pos: nat
    var path: seq<Bytes>
    var orders: Option<Orders>

    constructor (data: Bytes, nearest: Rounding, ordered: bool)
      ensures this.data == data && this.nearest == nearest
      ensures pos == 0 && path == [] && orders == if ordered then Some(map[]) else None
    {
      this.data := data;
      this.nearest := nearest;
      pos := 0;
      path := [];
      orders := if ordered then Some(map[]) else None;
    }

    ghost function Settings(): Config
      reads this
    {
      Config(nearest, orders.Some?)
    }

    /** The decoder did what the parse says: the same failure, or the same value, place and key orders. */
    ghost predicate Did(p: Parsed, r: Result<Value, Failure>, path0: seq<Bytes>, orders0: Option<Orders>)
      reads this
    {
      match p
      case Failed(f) => r == Err(f)
      case Parsed(v, next, keys) => r == Ok(v) && pos == next && path == path0 && orders == Record(orders0, keys)
    }

    method SkipBlanks()
      requires pos <= |data|
      modifies this`pos
      ensures pos == SkipSpace(data, old(pos))
    {
      while pos < |data|
        invariant pos <= |data| && SkipSpace(data, pos) == SkipSpace(data, old(pos))
      {
        if !IsSpace(data[pos]) { return; }
        pos := pos + 1;
      }
    }

    method Literal(word: Bytes, value: Value) returns (r: Result<Value, Failure>)
      requires pos <= |data|
      modifies this`pos
      ensures Did(ParseLiteral(data, old(pos), word, value), r, path, orders)
    {
      if !At(data, pos, word) {
        return Err(BadLiteral(pos));
      }
      pos := pos + |word|;
      return Ok(value);
    }

    method Number() returns (r: Result<Value, Failure>)
      requires pos < |data| && (data[pos] == MINUS || IsDigit(data[pos]))
      modifies this`pos
      ensures match ParseNumber(nearest, data, old(pos))
              case Malformed(f) => r == Err(f)
              case Token(v, next) => r == Ok(v) && pos == next
    {
      var start := pos;
      var isFloat := false;
      if data[pos] == MINUS {
        pos := pos + 1;
      }
      ghost var first := pos;
      while pos < |data|
        invariant first <= pos <= |data|
        invariant NumberEnd(data, pos) == NumberEnd(data, start)
        invariant isFloat <==> exists k :: first <= k < pos && !IsDigit(data[k])
      {
        var c := data[pos];
        if IsDigit(c) {
          pos := pos + 1;
          continue;
        }
        if c == DOT || c == LOWER_E || c == UPPER_E || c == PLUS || c == MINUS {
          isFloat := true;
          pos := pos + 1;
          continue;
        }
        break;
      }
      var text := data[start..pos];
      FloatByteShows(data, start, pos);
      if isFloat {
        var f := ParseFloat(nearest, text);
        if f.None? {
          return Err(BadNumber(text));
        }
        return Ok(Value.Number(Finite(f.value)));
      }
      var i := ParseInt(text);
      if i.None? {
        var f := ParseFloat(nearest, text);
        if f.None? {
          return Err(BadNumber(text));
        }
        return Ok(Value.Number(Finite(f.value)));
      }
      return Ok(Int(i.value));
    }

    method Str() returns (r: Result<Bytes, Failure>)
      requires pos < |data|
      modifies this`pos
      ensures match ParseStringFrom(data, old(pos) + 1, [])
              case Malformed(f) => r == Err(f)
              case Token(s, next) => r == Ok(s) && pos == next
    {
      hide ParseEscape, ParseUnicode;
      pos := pos + 1;
      var out := [];
      while pos < |data|
        invariant pos <= |data|
        invariant ParseStringFrom(data, pos, out) == ParseStringFrom(data, old(pos) + 1, [])
        decreases |data| - pos
      {
        var c := data[pos];
        if c == QUOTE {
          pos := pos + 1;
          return Ok(out);
        } else if c == BACKSLASH {
          pos := pos + 1;
          var b := EscapeSequence();
          if b.Err? {
            return Err(b.error);
          }
          out := out + b.value;
        } else {
          out := out + [c];
          pos := pos + 1;
        }
      }
      return Err(UnterminatedString);
    }

    /** The part of `str` behind a backslash. */
    method EscapeSequence() returns (r: Result<Bytes, Failure>)
      requires pos <= |data|
      modifies this`pos
      ensures match ParseEscape(data, old(pos))
              case Malformed(f) => r == Err(f)
              case Token(b, next) => r == Ok(b) && pos == next
    {
      hide Encode, HexValue;
      if pos >= |data| {
        return Err(UnterminatedEscape);
      }
      var esc := data[pos];
      pos := pos + 1;
      match esc {
        case 0x22 | 0x5c | 0x2f => return Ok([esc]);
        case 0x62 => return Ok([0x08]);
        case 0x66 => return Ok([0x0c]);
        case 0x6e => return Ok([0x0a]);
        case 0x72 => return Ok([0x0d]);
        case 0x74 => return Ok([0x09]);
        case 0x75 =>
          if pos + 4 > |data| {
            return Err(ShortUnicode);
          }
          var u := Hex4(data, pos);
          if u.None? {
            return Err(BadUnicode);
          }
          pos := pos + 4;
          var cp := u.value;
          if 0xD800 <= cp < 0xDC00 && pos + 6 <= |data| && data[pos] == BACKSLASH && data[pos + 1] == 0x75 {
            var lo := Hex4(data, pos + 2);
            if lo.Some? && 0xDC00 <= lo.value < 0xE000 {
              cp := 0x1_0000 + (cp - 0xD800) * 0x400 + (lo.value - 0xDC00);
              pos := pos + 6;
            }
          }
          return Ok(RuneBytes(cp));
        case _ => return Err(BadEscape(esc));
      }
    }

    method DecodeValue() returns (r: Result<Value, Failure>)
      requires pos <= |data|
      modifies this
      ensures Did(ParseValue(old(Settings()), data, old(pos), old(path)), r, old(path), old(orders))
      decreases |data| - pos, 1
    {
      if pos >= |data| {
        return Err(UnexpectedEnd);
      }
      var c := data[pos];
      if c == OPEN_OBJECT {
        r := DecodeObject();
      } else if c == OPEN_LIST {
        r := DecodeList();
      } else if c == QUOTE {
        var s := Str();
        r := if s.Ok? then Ok(Text(s.value)) else Err(s.error);
      } else if c == 0x74 {
        r := Literal(TRUE, Bool(true));
      } else if c == 0x66 {
        r := Literal(FALSE, Bool(false));
      } else if c == 0x6e {
        r := Literal(NULL, Null);
      } else if c == MINUS || (c >= ZERO && c <= NINE) {
        r := Number();
      } else {
        r := Err(UnexpectedByte(pos));
      }
    }

    method DecodeList() returns (r: Result<Value, Failure>)
      requires pos < |data| && data[pos] == OPEN_LIST
      modifies this
      ensures Did(ParseValue(old(Settings()), data, old(pos), old(path)), r, old(path), old(orders))
      decreases |data| - pos, 0
    {
      hide ParseValue, ParseFields, SkipSpace, Record, Dotted;
      ghost var g, start, path0, orders0 := Settings(), pos, path, orders;
      AtOpening(g, data, start, path0);
      RecordNothing(orders0);
      pos := pos + 1;
      var out: seq<Value> := [];
      SkipBlanks();
      if pos < |data| && data[pos] == CLOSE_LIST {
        pos := pos + 1;
        return Ok(List(out));
      }
      ghost var keys: seq<KeyEvent> := [];
      while true
        invariant start < pos <= |data|
        invariant ParseItems(g, data, pos, path0, out, keys) == ParseValue(g, data, start, path0)
        invariant path == path0 && orders == Record(orders0, keys) && Settings() == g
        decreases |data| - pos
      {
        SkipBlanks();
        ghost var item := ParseValue(g, data, pos, path0);
        var v := DecodeValue();
        if v.Err? {
          return v;
        }
        RecordAll(orders0, keys, item.keys);
        out, keys := out + [v.value], keys + item.keys;
        SkipBlanks();
        if pos >= |data| {
          return Err(UnterminatedList);
        }
        if data[pos] == COMMA {
          pos := pos + 1;
          continue;
        }
        if data[pos] == CLOSE_LIST {
          pos := pos + 1;
          return Ok(List(out));
        }
        return Err(BadList(pos));
      }
    }

    /** The part of `object` from a key to where its value starts; the key is noted before the colon is seen. */
    method DecodeKey() returns (r: Result<Bytes, Failure>)
      requires pos <= |data|
      modifies this
      ensures Settings() == old(Settings())
      ensures match ParseKey(data, old(pos))
              case Malformed(f) => r == Err(f)
              case Token(key, next) =>
                && r == Ok(key) && pos == next && path == ChildPath(Settings(), old(path), key)
                && orders == Record(old(orders), Noted(Settings(), old(path), key))
    {
      hide ParseStringFrom;
      if pos >= |data| || data[pos] != QUOTE {
        return Err(BadKey(pos));
      }
      var key := Str();
      if key.Err? {
        return Err(key.error);
      }
      if orders.Some? {
        var p := Dotted(path);
        var m := orders.value;
        orders := Some(m[p := (if p in m then m[p] else []) + [key.value]]);
        path := path + [key.value];
      }
      SkipBlanks();
      if pos >= |data| || data[pos] != COLON {
        return Err(MissingColon(pos));
      }
      pos := pos + 1;
      SkipBlanks();
      return key;
    }

    /** One turn of `object`: a key and its value; the key is on the path while the value is read. */
    method DecodeField() returns (key: Bytes, r: Result<Value, Failure>)
      requires pos <= |data|
      modifies this
      ensures match ParseKey(data, old(pos))
              case Malformed(f) => r == Err(f)
              case Token(k, start) =>
                match ParseValue(old(Settings()), data, start, ChildPath(old(Settings()), old(path), k))
                case Failed(f) => r == Err(f)
                case Parsed(v, next, more) =>
                  && key == k && r == Ok(v) && pos == next && path == old(path)
                  && orders == Record(old(orders), Noted(old(Settings()), old(path), k) + more)
      decreases |data| - pos, 2
    {
      hide ParseValue, ParseKey, Record, Dotted;
      ghost var g, path0, orders0 := Settings(), path, orders;
      var k := DecodeKey();
      if k.Err? {
        return [], Err(k.error);
      }
      key := k.value;
      ghost var field := ParseValue(g, data, pos, path);
      r := DecodeValue();
      if r.Ok? {
        RecordAll(orders0, Noted(g, path0, key), field.keys);
      }
      if r.Ok? && orders.Some? {
        path := path[..|path| - 1];
      }
    }

    method DecodeObject() returns (r: Result<Value, Failure>)
      requires pos < |data| && data[pos] == OPEN_OBJECT
      modifies this
      ensures Did(ParseValue(old(Settings()), data, old(pos), old(path)), r, old(path), old(orders))
      decreases |data| - pos, 0
    {
      hide ParseValue, ParseItems, ParseKey, SkipSpace, Record, Dotted, Noted, ChildPath;
      ghost var g, start, path0, orders0 := Settings(), pos, path, orders;
      AtOpening(g, data, start, path0);
      RecordNothing(orders0);
      pos := pos + 1;
      var out: map<Bytes, Value> := map[];
      SkipBlanks();
      if pos < |data| && data[pos] == CLOSE_OBJECT {
        pos := pos + 1;
        return Ok(Object(out));
      }
      ghost var keys: seq<KeyEvent> := [];
      while true
        invariant start < pos <= |data|
        invariant ParseFields(g, data, pos, path0, out, keys) == ParseValue(g, data, start, path0)
        invariant path == path0 && orders == Record(orders0, keys) && Settings() == g
        decreases |data| - pos
      {
        SkipBlanks();
        ghost var at := pos;
        var key, v := DecodeField();
        if v.Err? {
          return v;
        }
        ghost var more :=
          Noted(g, path0, key) + ParseValue(g, data, ParseKey(data, at).next, ChildPath(g, path0, key)).keys;
        RecordAll(orders0, keys, more);
        out, keys := out[key := v.value], keys + more;
        SkipBlanks();
        if pos >= |data| {
          return Err(UnterminatedObject);
        }
        if data[pos] == COMMA {
          pos := pos + 1;
          continue;
        }
        if data[pos] == CLOSE_OBJECT {
          pos := pos + 1;
          return Ok(Object(out));
        }
        return Err(BadObject(pos));
      }
    }
  }

  lemma {:induction false} RecordNothing(orders: Option<Orders>)
    ensures Record(orders, []) == orders
  {
  }

  /** What follows an opening bracket or brace. */
  lemma {:induction false} AtOpening(g: Config, data: Bytes, pos: nat, path: seq<Bytes>)
    requires pos < |data|
    ensures data[pos] == OPEN_LIST ==>
              ParseValue(g, data, pos, path) ==
                var p := SkipSpace(data, pos + 1);
                if p < |data| && data[p] == CLOSE_LIST then Parsed(List([]), p + 1, [])
                else ParseItems(g, data, p, path, [], [])
    ensures data[pos] == OPEN_OBJECT ==>
              ParseValue(g, data, pos, path) ==
                var p := SkipSpace(data, pos + 1);
                if p < |data| && data[p] == CLOSE_OBJECT then Parsed(Object(map[]), p + 1, [])
                else ParseFields(g, data, p, path, map[], [])
  {
    hide ParseItems, ParseFields;
  }

  /** The scan has met a byte of a float exactly when the token's body is not all digits. */
  lemma {:induction false} FloatByteShows(data: Bytes, start: nat, end: nat)
    requires start < end <= |data|
    ensures var text := data[start..end];
            var first := if data[start] == MINUS then start + 1 else start;
            AllDigits(if text[0] == MINUS then text[1..] else text) <==>
              forall k :: first <= k < end ==> IsDigit(data[k])
  {
    var text := data[start..end];
    var first := if data[start] == MINUS then start + 1 else start;
    var body := if text[0] == MINUS then text[1..] else text;
    assert forall k :: 0 <= k < |body| ==> body[k] == data[first + k];
    assert forall k :: first <= k < end ==> data[k] == body[k - first];
  }

  /** `parseJSON`. */
  method ParseJsonText(nearest: Rounding, data: Bytes) returns (r: Result<Value, Failure>)
    ensures r == ParseJson(nearest, data)
  {
    var d := new Decoder(data, nearest, false);
    d.SkipBlanks();
    r := d.DecodeValue();
    if r.Err? { return; }
    d.SkipBlanks();
    if d.pos != |data| {
      return Err(TrailingData(d.pos));
    }
  }

  /** `parseJSONOrdered`: the value and, by dotted path, the order in which each object's keys appeared. */
  method ParseJsonOrdered(nearest: Rounding, data: Bytes) returns (r: Result<(Value, Orders), Failure>)
    ensures match ParseValue(Config(nearest, true), data, SkipSpace(data, 0), [])
            case Failed(f) => r == Err(f)
            case Parsed(v, _, keys) => r == Ok((v, Record(Some(map[]), keys).value))
  {
    var d := new Decoder(data, nearest, true);
    d.SkipBlanks();
    var v := d.DecodeValue();
    if v.Err? {
      return Err(v.error);
    }
    return Ok((v.value, d.orders.value));
  }
}
