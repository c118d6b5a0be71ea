/**
 What the hand-written decoder computes, as functions of the data and a position. The class that
 moves the cursor is in JsonDecoder; it is proved to compute these.
 */
module JsonParser {
  import opened ByteStrings
  import opened Digits
  import opened Floats
  import opened JsonValues
  import opened Utf8

  datatype Failure =
    | UnexpectedEnd
    | UnexpectedByte(at: nat)
    | BadLiteral(at: nat)
    | BadNumber(text: Bytes)
    | UnterminatedEscape
    | ShortUnicode
    | BadUnicode
    | BadEscape(escape: byte)
    | UnterminatedString
    | UnterminatedList
    | BadList(at: nat)
    | BadKey(at: nat)
    | MissingColon(at: nat)
    | UnterminatedObject
    | BadObject(at: nat)
    | TrailingData(at: nat)

  /** One key of one object: where the object stands, as the keys that lead to it, and the key. */
  datatype KeyEvent = KeyEvent(path: seq<Bytes>, key: Bytes)

  datatype Token<+T> = Token(value: T, next: nat) | Malformed(failure: Failure)

  datatype Parsed = Parsed(value: Value, next: nat, keys: seq<KeyEvent>) | Failed(failure: Failure)

  /** The number library's rounding, and whether the order of keys is recorded. */
  datatype Config = Config(nearest: Rounding, ordered: bool)

  predicate IsSpace(c: byte) {
    c == 0x20 || c == 0x09 || c == 0x0a || c == 0x0d
  }

  function SkipSpace(data: Bytes, pos: nat): (p: nat)
    requires pos <= |data|
    ensures pos <= p <= |data|
    decreases |data| - pos
  {
    if pos < |data| && IsSpace(data[pos]) then SkipSpace(data, pos + 1) else pos
  }

  // ---- numbers ----

  predicate IsFloatByte(c: byte) {
    c == DOT || c == LOWER_E || c == UPPER_E || c == PLUS || c == MINUS
  }

  predicate IsNumberByte(c: byte) {
    IsDigit(c) || IsFloatByte(c)
  }

  function NumberEnd(data: Bytes, pos: nat): (p: nat)
    requires pos <= |data|
    ensures pos <= p <= |data|
    decreases |data| - pos
  {
    if pos < |data| && IsNumberByte(data[pos]) then NumberEnd(data, pos + 1) else pos
  }

  function NumberOf(nearest: Rounding, text: Bytes): Option<Value> {
    match ParseFloat(nearest, text)
    case Some(d) => Some(Number(Finite(d)))
    case None => None
  }

  /** A token with a byte of a float in it, its leading minus aside, is a float; any other is an integer if it fits. */
  function Classify(nearest: Rounding, text: Bytes): Option<Value> {
    var body := if text != [] && text[0] == MINUS then text[1..] else text;
    if !AllDigits(body) then NumberOf(nearest, text)
    else
      match ParseInt(text)
      case Some(n) => Some(Int(n))
      case None => NumberOf(nearest, text)
  }

  function ParseNumber(nearest: Rounding, data: Bytes, pos: nat): (r: Token<Value>)
    requires pos < |data|
    requires data[pos] == MINUS || IsDigit(data[pos])
    ensures r.Token? ==> pos < r.next <= |data|
  {
    var end := NumberEnd(data, pos);
    match Classify(nearest, data[pos..end])
    case Some(v) => Token(v, end)
    case None => Malformed(BadNumber(data[pos..end]))
  }

  // ---- strings ----

  function HexValue(c: byte): Option<nat> {
    if 0x30 <= c <= 0x39 then Some(c - 0x30)
    else if 0x61 <= c <= 0x66 then Some(c - 0x57)
    else if 0x41 <= c <= 0x46 then Some(c - 0x37)
    else None
  }

  /** `strconv.ParseUint(text, 16, 32)` on the four bytes at `pos`. */
  function Hex4(data: Bytes, pos: nat): (r: Option<nat>)
    requires pos + 4 <= |data|
  {
    var a, b, c, d := HexValue(data[pos]), HexValue(data[pos + 1]), HexValue(data[pos + 2]), HexValue(data[pos + 3]);
    if a.None? || b.None? || c.None? || d.None? then None
    else Some(((a.value * 16 + b.value) * 16 + c.value) * 16 + d.value)
  }

  /** The bytes of a `\u` escape whose hex digits start at `pos`; a surrogate pair is one character. */
  function ParseUnicode(data: Bytes, pos: nat): (r: Token<Bytes>)
    requires pos <= |data|
    ensures r.Token? ==> pos < r.next <= |data|
  {
    if pos + 4 > |data| then Malformed(ShortUnicode)
    else
      match Hex4(data, pos)
      case None => Malformed(BadUnicode)
      case Some(high) =>
        if 0xD800 <= high < 0xDC00 && pos + 10 <= |data| && data[pos + 4] == BACKSLASH && data[pos + 5] == 0x75 then
          match Hex4(data, pos + 6)
          case Some(low) =>
            if 0xDC00 <= low < 0xE000 then
              Token(RuneBytes(0x1_0000 + (high - 0xD800) * 0x400 + (low - 0xDC00)), pos + 10)
            else Token(RuneBytes(high), pos + 4)
          case None => Token(RuneBytes(high), pos + 4)
        else Token(RuneBytes(high), pos + 4)
  }

  /** The bytes that an escape stands for; `pos` is just past the backslash. */
  function ParseEscape(data: Bytes, pos: nat): (r: Token<Bytes>)
    requires pos <= |data|
    ensures r.Token? ==> pos < r.next <= |data|
  {
    if pos == |data| then Malformed(UnterminatedEscape)
    else
      var c := data[pos];
      if c == QUOTE || c == BACKSLASH || c == 0x2f then Token([c], pos + 1)
      else if c == 0x62 then Token([0x08], pos + 1)
      else if c == 0x66 then Token([0x0c], pos + 1)
      else if c == 0x6e then Token([0x0a], pos + 1)
      else if c == 0x72 then Token([0x0d], pos + 1)
      else if c == 0x74 then Token([0x09], pos + 1)
      else if c == 0x75 then ParseUnicode(data, pos + 1)
      else Malformed(BadEscape(c))
  }

  /** The rest of a string whose bytes so far are `out`. */
  function ParseStringFrom(data: Bytes, pos: nat, out: Bytes): (r: Token<Bytes>)
    requires pos <= |data|
    ensures r.Token? ==> pos < r.next <= |data|
    decreases |data| - pos
  {
    if pos == |data| then Malformed(UnterminatedString)
    else if data[pos] == QUOTE then Token(out, pos + 1)
    else if data[pos] == BACKSLASH then
      match ParseEscape(data, pos + 1)
      case Malformed(f) => Malformed(f)
      case Token(b, next) => ParseStringFrom(data, next, out + b)
    else ParseStringFrom(data, pos + 1, out + [data[pos]])
  }

  // ---- values ----

  function ParseLiteral(data: Bytes, pos: nat, word: Bytes, value: Value): Parsed {
    if At(data, pos, word) then Parsed(value, pos + |word|, []) else Failed(BadLiteral(pos))
  }

  function ParseValue(g: Config, data: Bytes, pos: nat, path: seq<Bytes>): (r: Parsed)
    requires pos <= |data|
    ensures r.Parsed? ==> pos < r.next <= |data|
    decreases |data| - pos, 1
  {
    if pos == |data| then Failed(UnexpectedEnd)
    else
      var c := data[pos];
      if c == OPEN_OBJECT then
        var p := SkipSpace(data, pos + 1);
        if p < |data| && data[p] == CLOSE_OBJECT then Parsed(Object(map[]), p + 1, [])
        else ParseFields(g, data, p, path, map[], [])
      else if c == OPEN_LIST then
        var p := SkipSpace(data, pos + 1);
        if p < |data| && data[p] == CLOSE_LIST then Parsed(List([]), p + 1, [])
        else ParseItems(g, data, p, path, [], [])
      else if c == QUOTE then
        match ParseStringFrom(data, pos + 1, [])
        case Malformed(f) => Failed(f)
        case Token(s, next) => Parsed(Text(s), next, [])
      else if c == 0x74 then ParseLiteral(data, pos, TRUE, Bool(true))
      else if c == 0x66 then ParseLiteral(data, pos, FALSE, Bool(false))
      else if c == 0x6e then ParseLiteral(data, pos, NULL, Null)
      else if c == MINUS || IsDigit(c) then
        match ParseNumber(g.nearest, data, pos)
        case Malformed(f) => Failed(f)
        case Token(v, next) => Parsed(v, next, [])
      else Failed(UnexpectedByte(pos))
  }

  /** The rest of a list, at an item, when `out` has been read already. */
  function ParseItems(g: Config, data: Bytes, pos: nat, path: seq<Bytes>, out: seq<Value>, keys: seq<KeyEvent>)
    : (r: Parsed)
    requires pos <= |data|
    ensures r.Parsed? ==> pos < r.next <= |data|
    decreases |data| - pos, 2
  {
    match ParseValue(g, data, SkipSpace(data, pos), path)
    case Failed(f) => Failed(f)
    case Parsed(v, next, more) =>
      var p := SkipSpace(data, next);
      if p == |data| then Failed(UnterminatedList)
      else if data[p] == COMMA then ParseItems(g, data, p + 1, path, out + [v], keys + more)
      else if data[p] == CLOSE_LIST then Parsed(List(out + [v]), p + 1, keys + more)
      else Failed(BadList(p))
  }

  /** A key, its colon and the space after it; `next` is where the value starts. */
  function ParseKey(data: Bytes, pos: nat): (r: Token<Bytes>)
    requires pos <= |data|
    ensures r.Token? ==> pos < r.next <= |data|
  {
    if pos == |data| || data[pos] != QUOTE then Malformed(BadKey(pos))
    else
      match ParseStringFrom(data, pos + 1, [])
      case Malformed(f) => Malformed(f)
      case Token(key, next) =>
        var p := SkipSpace(data, next);
        if p == |data| || data[p] != COLON then Malformed(MissingColon(p))
        else Token(key, SkipSpace(data, p + 1))
  }

  function ChildPath(g: Config, path: seq<Bytes>, key: Bytes): seq<Bytes> {
    if g.ordered then path + [key] else path
  }

  function Noted(g: Config, path: seq<Bytes>, key: Bytes): seq<KeyEvent> {
    if g.ordered then [KeyEvent(path, key)] else []
  }

  /** The rest of an object, at a key, when `out` has been read already. */
  function ParseFields(g: Config, data: Bytes, pos: nat, path: seq<Bytes>, out: map<Bytes, Value>, keys: seq<KeyEvent>)
    : (r: Parsed)
    requires pos <= |data|
    ensures r.Parsed? ==> pos < r.next <= |data|
    decreases |data| - pos, 2
  {
    match ParseKey(data, SkipSpace(data, pos))
    case Malformed(f) => Failed(f)
    case Token(key, start) =>
      match ParseValue(g, data, start, ChildPath(g, path, key))
      case Failed(f) => Failed(f)
      case Parsed(v, next, more) =>
        var p := SkipSpace(data, next);
        var seen := keys + (Noted(g, path, key) + more);
        if p == |data| then Failed(UnterminatedObject)
        else if data[p] == COMMA then ParseFields(g, data, p + 1, path, out[key := v], seen)
        else if data[p] == CLOSE_OBJECT then Parsed(Object(out[key := v]), p + 1, seen)
        else Failed(BadObject(p))
  }

  /** `parseJSON`: one value, with nothing but space around it. */
  function ParseJson(nearest: Rounding, data: Bytes): Result<Value, Failure> {
    match ParseValue(Config(nearest, false), data, SkipSpace(data, 0), [])
    case Failed(f) => Err(f)
    case Parsed(v, next, _) =>
      var p := SkipSpace(data, next);
      if p != |data| then Err(TrailingData(p)) else Ok(v)
  }
}
