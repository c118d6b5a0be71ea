/** The canonical printer: it appends to a shared buffer, piece by piece. */
module JsonPrinter {
  import opened ByteStrings
  import opened Digits
  import opened Floats
  import opened JsonValues

  class Buffer {
    var bytes: Bytes

    constructor ()
      ensures bytes == []
    {
      bytes := [];
    }

    method Write(b: Bytes)
      modifies this
      ensures bytes == old(bytes) + b
    {
      bytes := bytes + b;
    }
  }

  method WriteJsonString(buf: Buffer, s: Bytes)
    modifies buf
    ensures buf.bytes == old(buf.bytes) + Quoted(s)
  {
    hide EscapeAll;
    var before := buf.bytes;
    buf.Write([QUOTE]);
    assert s[..0] == [];
    NoEscapes();
    for i := 0 to |s|
      invariant buf.bytes == before + ([QUOTE] + EscapeAll(s[..i]))
    {
      var c := s[i];
      EscapeOneMore(s, i);
      match c {
        case 0x22 => buf.Write([BACKSLASH, QUOTE]);
        case 0x5c => buf.Write([BACKSLASH, BACKSLASH]);
        case 0x08 => buf.Write([BACKSLASH, 0x62]);
        case 0x0c => buf.Write([BACKSLASH, 0x66]);
        case 0x0a => buf.Write([BACKSLASH, 0x6e]);
        case 0x0d => buf.Write([BACKSLASH, 0x72]);
        case 0x09 => buf.Write([BACKSLASH, 0x74]);
        case _ =>
          if c < 0x20 {
            buf.Write([BACKSLASH, 0x75, 0x30, 0x30, HexDigit(c / 16), HexDigit(c % 16)]);
          } else {
            buf.Write([c]);
          }
      }
    }
    assert s[..|s|] == s;
    buf.Write([QUOTE]);
  }

  lemma {:induction false} NoEscapes()
    ensures EscapeAll([]) == []
  {
  }

  lemma {:induction false} EscapeOneMore(s: Bytes, i: nat)
    requires i < |s|
    ensures EscapeAll(s[..i + 1]) == EscapeAll(s[..i]) + Escape(s[i])
    decreases |s|
  {
    hide Escape;
    if i > 0 {
      EscapeOneMore(s[1..], i - 1);
      assert s[..i + 1][1..] == s[1..][..i] && s[..i][1..] == s[1..][..i - 1];
    } else {
      assert s[..1][1..] == [] && s[..0] == [];
    }
  }

  ghost predicate Distinct(ks: seq<Bytes>) {
    forall i, j :: 0 <= i < j < |ks| ==> ks[i] != ks[j]
  }

  /** `sort.Strings` on distinct keys. */
  method SortStrings(keys: seq<Bytes>) returns (sorted: seq<Bytes>)
    requires Distinct(keys)
    ensures Increasing(sorted) && Elements(sorted) == Elements(keys)
  {
    sorted := [];
    for i := 0 to |keys|
      invariant Increasing(sorted) && Elements(sorted) == Elements(keys[..i])
    {
      assert keys[..i + 1] == keys[..i] + [keys[i]];
      var k := keys[i];
      assert k !in Elements(keys[..i]);
      var j := 0;
      while j < |sorted| && Less(sorted[j], k)
        invariant 0 <= j <= |sorted|
        invariant forall m :: 0 <= m < j ==> Less(sorted[m], k)
      {
        j := j + 1;
      }
      InsertKey(sorted, j, k);
      sorted := sorted[..j] + [k] + sorted[j..];
    }
    assert keys[..|keys|] == keys;
  }

  lemma {:induction false} InsertKey(ks: seq<Bytes>, j: nat, k: Bytes)
    requires Increasing(ks) && k !in Elements(ks) && j <= |ks|
    requires forall m :: 0 <= m < j ==> Less(ks[m], k)
    requires j == |ks| || !Less(ks[j], k)
    ensures Increasing(ks[..j] + [k] + ks[j..])
    ensures Elements(ks[..j] + [k] + ks[j..]) == Elements(ks) + {k}
  {
    var r := ks[..j] + [k] + ks[j..];
    forall m | j <= m < |ks| ensures Less(k, ks[m]) {
      assert ks[j] in Elements(ks);
      LessTotal(ks[j], k);
      if m > j { LessTransitive(k, ks[j], ks[m]); }
    }
    assert ks == ks[..j] + ks[j..];
  }

  method CollectKeys(fields: map<Bytes, Value>) returns (keys: seq<Bytes>)
    ensures Distinct(keys) && Elements(keys) == fields.Keys
  {
    keys := [];
    var rest := fields.Keys;
    while rest != {}
      invariant Distinct(keys) && Elements(keys) + rest == fields.Keys && Elements(keys) !! rest
      decreases rest
    {
      var key :| key in rest;
      keys := keys + [key];
      rest := rest - {key};
    }
  }

  /** The error for a number that is not finite is the only one; what was appended before it stays. */
  method WriteJson(buf: Buffer, v: Value) returns (ok: bool)
    modifies buf
    ensures ok <==> Printable(v)
    ensures ok ==> buf.bytes == old(buf.bytes) + Canonical(v)
    decreases v, 1
  {
    match v
    case Null => buf.Write(NULL); ok := true;
    case Bool(b) => buf.Write(if b then TRUE else FALSE); ok := true;
    case Text(s) => WriteJsonString(buf, s); ok := true;
    case Int(n) => buf.Write(FormatInt(n)); ok := true;
    case Number(f) =>
      if f.NaN? || f.Infinite? {
        return false;
      }
      buf.Write(RubyFloat(f.decimal));
      ok := true;
    case List(items) => ok := WriteList(buf, v);
    case Object(fields) => ok := WriteObject(buf, v);
  }

  method WriteList(buf: Buffer, v: Value) returns (ok: bool)
    requires v.List?
    modifies buf
    ensures ok <==> Printable(v)
    ensures ok ==> buf.bytes == old(buf.bytes) + Canonical(v)
    decreases v, 0
  {
    hide Canonical, ItemsText;
    ghost var before := buf.bytes;
    buf.Write([OPEN_LIST]);
    for i := 0 to |v.items|
      invariant forall x :: x in v.items[..i] ==> Printable(x)
      invariant Printable(v) ==> buf.bytes + ItemsText(v, i) == before + ([OPEN_LIST] + ItemsText(v, 0))
    {
      var item := v.items[i];
      assert v.items[..i + 1] == v.items[..i] + [item];
      if Printable(v) {
        TakeItem(buf.bytes, v, i);
      }
      if i > 0 {
        buf.Write([COMMA]);
      }
      ok := WriteJson(buf, item);
      if !ok {
        return;
      }
    }
    assert v.items[..|v.items|] == v.items;
    buf.Write([CLOSE_LIST]);
    ok := true;
    ListText(v);
  }

  lemma {:induction false} TakeItem(here: Bytes, v: Value, i: nat)
    requires v.List? && Printable(v) && i < |v.items|
    ensures here + ItemsText(v, i) == here + Separator(i) + Canonical(v.items[i]) + ItemsText(v, i + 1)
  {
  }

  lemma {:induction false} ListText(v: Value)
    requires v.List? && Printable(v)
    ensures Canonical(v) == [OPEN_LIST] + ItemsText(v, 0)
    ensures ItemsText(v, |v.items|) == [CLOSE_LIST]
  {
  }

  method WriteField(buf: Buffer, key: Bytes, value: Value) returns (ok: bool)
    modifies buf
    ensures ok <==> Printable(value)
    ensures ok ==> buf.bytes == old(buf.bytes) + (Quoted(key) + ([COLON] + Canonical(value)))
    decreases value, 2
  {
    hide Canonical, Quoted;
    WriteJsonString(buf, key);
    buf.Write([COLON]);
    ok := WriteJson(buf, value);
  }

  method WriteObject(buf: Buffer, v: Value) returns (ok: bool)
    requires v.Object?
    modifies buf
    ensures ok <==> Printable(v)
    ensures ok ==> buf.bytes == old(buf.bytes) + Canonical(v)
    decreases v, 0
  {
    hide Canonical, Quoted, FieldsText, SortedKeys;
    var keys := CollectKeys(v.fields);
    keys := SortStrings(keys);
    IncreasingUnique(keys, SortedKeys(v.fields.Keys));
    assert forall k :: k in keys ==> k in Elements(keys);
    ghost var before := buf.bytes;
    buf.Write([OPEN_OBJECT]);
    for i := 0 to |keys|
      invariant forall k :: k in keys[..i] ==> Printable(v.fields[k])
      invariant Printable(v) ==> buf.bytes + FieldsText(v, keys, i) == before + ([OPEN_OBJECT] + FieldsText(v, keys, 0))
    {
      var key := keys[i];
      assert keys[..i + 1] == keys[..i] + [key];
      if Printable(v) {
        TakeField(buf.bytes, v, keys, i);
      }
      if i > 0 {
        buf.Write([COMMA]);
      }
      ok := WriteField(buf, key, v.fields[key]);
      if !ok {
        return;
      }
    }
    assert keys[..|keys|] == keys;
    forall k | k in v.fields ensures Printable(v.fields[k]) { assert k in Elements(keys); }
    buf.Write([CLOSE_OBJECT]);
    ok := true;
    ObjectText(v, keys);
  }

  lemma {:induction false} TakeField(here: Bytes, v: Value, ks: seq<Bytes>, i: nat)
    requires v.Object? && Printable(v) && i < |ks| && (forall k :: k in ks ==> k in v.fields)
    ensures here + FieldsText(v, ks, i)
         == here + Separator(i) + (Quoted(ks[i]) + ([COLON] + Canonical(v.fields[ks[i]]))) + FieldsText(v, ks, i + 1)
  {
  }

  lemma {:induction false} ObjectText(v: Value, ks: seq<Bytes>)
    requires v.Object? && Printable(v) && ks == SortedKeys(v.fields.Keys)
    ensures Canonical(v) == [OPEN_OBJECT] + FieldsText(v, ks, 0)
    ensures FieldsText(v, ks, |ks|) == [CLOSE_OBJECT]
  {
  }

  /** `canonical`, which stops the program on a number that is not finite. */
  method CanonicalText(v: Value) returns (t: Bytes)
    requires Printable(v)
    ensures t == Canonical(v)
  {
    var buf := new Buffer();
    var ok := WriteJson(buf, v);
    t := buf.bytes;
  }
}
