/** The generic JSON model and its canonical text: sorted keys, no whitespace, Ruby's escapes and floats. */
module JsonValues {
  import opened ByteStrings
  import opened Digits
  import opened Floats

  type int64 = n: int | -INT64_LIMIT <= n < INT64_LIMIT

  datatype Value =
    | Null
    | Bool(b: bool)
    | Text(s: Bytes)
    | Int(n: int64)
    | Number(f: Float)
    | List(items: seq<Value>)
    | Object(fields: map<Bytes, Value>)

  const QUOTE: byte := 0x22
  const BACKSLASH: byte := 0x5c
  const COMMA: byte := 0x2c
  const COLON: byte := 0x3a
  const OPEN_LIST: byte := 0x5b
  const CLOSE_LIST: byte := 0x5d
  const OPEN_OBJECT: byte := 0x7b
  const CLOSE_OBJECT: byte := 0x7d

  const NULL: Bytes := [0x6e, 0x75, 0x6c, 0x6c]
  const TRUE: Bytes := [0x74, 0x72, 0x75, 0x65]
  const FALSE: Bytes := [0x66, 0x61, 0x6c, 0x73, 0x65]

  /** The value holds no infinity and no NaN, so that it has a canonical text. */
  predicate Printable(v: Value) {
    match v
    case Number(f) => f.Finite?
    case List(items) => forall x :: x in items ==> Printable(x)
    case Object(fields) => forall k :: k in fields ==> Printable(fields[k])
    case _ => true
  }

  /** The value is printable, and each of its numbers is a float that `nearest` knows. */
  predicate Carried(nearest: Rounding, v: Value): (carried: bool)
    ensures carried ==> Printable(v)
  {
    match v
    case Number(f) => f.Finite? && IsFloat(nearest, f.decimal)
    case List(items) => forall x :: x in items ==> Carried(nearest, x)
    case Object(fields) => forall k :: k in fields ==> Carried(nearest, fields[k])
    case _ => true
  }

  function HexDigit(n: nat): byte
    requires n < 16
  {
    if n < 10 then 0x30 + n else 0x57 + n
  }

  /** How one byte of a string is written between the quotes. */
  function Escape(c: byte): (t: Bytes)
    ensures t != [] && forall k :: 0 <= k < |t| ==> t[k] >= 0x20
  {
    if c == QUOTE then [BACKSLASH, QUOTE]
    else if c == BACKSLASH then [BACKSLASH, BACKSLASH]
    else if c == 0x08 then [BACKSLASH, 0x62]
    else if c == 0x0c then [BACKSLASH, 0x66]
    else if c == 0x0a then [BACKSLASH, 0x6e]
    else if c == 0x0d then [BACKSLASH, 0x72]
    else if c == 0x09 then [BACKSLASH, 0x74]
    else if c < 0x20 then [BACKSLASH, 0x75, 0x30, 0x30, HexDigit(c / 16), HexDigit(c % 16)]
    else [c]
  }

  function EscapeAll(s: Bytes): Bytes {
    if s == [] then [] else Escape(s[0]) + EscapeAll(s[1..])
  }

  function Quoted(s: Bytes): Bytes {
    [QUOTE] + EscapeAll(s) + [QUOTE]
  }

  /** The canonical text of a value. */
  ghost function Canonical(v: Value): (t: Bytes)
    requires Printable(v)
    ensures t != []
    decreases v, 1, 0
  {
    match v
    case Null => NULL
    case Bool(b) => if b then TRUE else FALSE
    case Text(s) => Quoted(s)
    case Int(n) => FormatInt(n)
    case Number(f) => RubyFloat(f.decimal)
    case List(items) => [OPEN_LIST] + ItemsText(v, 0)
    case Object(fields) => [OPEN_OBJECT] + FieldsText(v, SortedKeys(fields.Keys), 0)
  }

  function Separator(i: nat): Bytes {
    if i > 0 then [COMMA] else []
  }

  /** The items from index `i` on, each after its separator, and the closing bracket. */
  ghost function ItemsText(v: Value, i: nat): (t: Bytes)
    requires v.List? && Printable(v) && i <= |v.items|
    ensures t != []
    decreases v, 0, |v.items| - i
  {
    if i == |v.items| then [CLOSE_LIST]
    else Separator(i) + (Canonical(v.items[i]) + ItemsText(v, i + 1))
  }

  /** One field: its key, the colon and its value. */
  ghost function FieldText(v: Value, k: Bytes): (t: Bytes)
    requires v.Object? && Printable(v) && k in v.fields
    ensures t != [] && t[0] == QUOTE
    decreases v, 0, 0
  {
    Quoted(k) + ([COLON] + Canonical(v.fields[k]))
  }

  /** The fields named by `ks` from index `i` on, each after its separator, and the closing brace. */
  ghost function FieldsText(v: Value, ks: seq<Bytes>, i: nat): (t: Bytes)
    requires v.Object? && Printable(v) && i <= |ks| && (forall k :: k in ks ==> k in v.fields)
    ensures t != []
    decreases v, 0, |ks| - i
  {
    if i == |ks| then [CLOSE_OBJECT]
    else Separator(i) + (FieldText(v, ks[i]) + FieldsText(v, ks, i + 1))
  }
}
