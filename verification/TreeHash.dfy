/** The byte stream that stands for a directory tree when it is hashed. */
module TreeHash {
  import opened ByteStrings
  import opened Digits
  import JsonPrinter

  datatype Entry = Entry(name: Bytes, data: Bytes)

  const COLON: byte := 0x3a

  /** A length in decimal, a colon, and as many bytes. */
  function Sized(t: Bytes): Bytes {
    FormatNat(|t|) + ([COLON] + t)
  }

  /** `"%d:%s:%d:"` and the file's bytes after it. */
  function Frame(e: Entry): (t: Bytes)
    ensures t != []
  {
    Sized(e.name) + ([COLON] + Sized(e.data))
  }

  /** `"%d:%s:%d:"` and the contents, letter by letter. */
  lemma {:induction false} FrameSpells(e: Entry)
    ensures Frame(e) == FormatNat(|e.name|) + Ascii(":") + e.name
                        + Ascii(":") + FormatNat(|e.data|) + Ascii(":") + e.data
  {
    assert Ascii(":") == [COLON];
  }

  function Stream(entries: seq<Entry>): Bytes {
    if entries == [] then [] else Frame(entries[0]) + Stream(entries[1..])
  }

  // ---- reading it back ----

  /** The digits that a text starts with. */
  function DigitRun(t: Bytes): (n: nat)
    ensures n <= |t| && AllDigits(t[..n]) && (n < |t| ==> !IsDigit(t[n]))
  {
    if t != [] && IsDigit(t[0]) then
      assert forall k :: 0 < k < |t| ==> t[k] == t[1..][k - 1];
      1 + DigitRun(t[1..])
    else 0
  }

  /** The text that was sized, and what comes after it; a length must be written as `%d` writes it. */
  function ReadSized(t: Bytes): (r: Option<(Bytes, Bytes)>)
    ensures r.Some? ==> |r.value.1| < |t|
  {
    var n := DigitRun(t);
    var size := NatValue(t[..n]);
    if n == |t| || t[n] != COLON || FormatNat(size) != t[..n] || n + 1 + size > |t| then None
    else Some((t[n + 1..n + 1 + size], t[n + 1 + size..]))
  }

  function ReadEntry(t: Bytes): (r: Option<(Entry, Bytes)>)
    ensures r.Some? ==> |r.value.1| < |t|
  {
    match ReadSized(t)
    case None => None
    case Some((name, rest)) =>
      if rest == [] || rest[0] != COLON then None
      else
        match ReadSized(rest[1..])
        case None => None
        case Some((data, tail)) => Some((Entry(name, data), tail))
  }

  lemma {:induction false} ReadSizedIsSized(t: Bytes)
    requires ReadSized(t).Some?
    ensures t == Sized(ReadSized(t).value.0) + ReadSized(t).value.1
  {
    var n := DigitRun(t);
    var size := NatValue(t[..n]);
    var body := t[n + 1..n + 1 + size];
    assert t == t[..n] + ([COLON] + body) + t[n + 1 + size..];
  }

  lemma {:induction false} ReadEntryIsFrame(t: Bytes)
    requires ReadEntry(t).Some?
    ensures t == Frame(ReadEntry(t).value.0) + ReadEntry(t).value.1
  {
    hide Sized, ReadSized;
    ReadSizedIsSized(t);
    var (name, rest) := ReadSized(t).value;
    ReadSizedIsSized(rest[1..]);
    var (data, tail) := ReadSized(rest[1..]).value;
    assert rest == [COLON] + rest[1..];
    assert t == Sized(name) + ([COLON] + (Sized(data) + tail)) == Frame(Entry(name, data)) + tail;
  }

  /** The entries whose stream this is, if it is one. */
  function Unframe(t: Bytes): Option<seq<Entry>>
    decreases |t|
  {
    if t == [] then Some([])
    else
      match ReadEntry(t)
      case None => None
      case Some((e, rest)) =>
        match Unframe(rest)
        case None => None
        case Some(es) => Some([e] + es)
  }

  lemma {:induction false} DigitRunStops(d: Bytes, rest: Bytes)
    requires AllDigits(d) && rest != [] && !IsDigit(rest[0])
    ensures DigitRun(d + rest) == |d|
  {
    if d == [] {
      assert d + rest == rest;
    } else {
      assert (d + rest)[1..] == d[1..] + rest;
      DigitRunStops(d[1..], rest);
    }
  }

  lemma {:induction false} ReadSizedUndoes(a: Bytes, rest: Bytes)
    ensures ReadSized(Sized(a) + rest) == Some((a, rest))
  {
    var d := FormatNat(|a|);
    var t := Sized(a) + rest;
    assert t == d + ([COLON] + a + rest);
    DigitRunStops(d, [COLON] + a + rest);
    assert t[..|d|] == d;
    NatRoundTrip(|a|);
    assert t[|d| + 1..|d| + 1 + |a|] == a && t[|d| + 1 + |a|..] == rest;
  }

  lemma {:induction false} ReadEntryUndoes(e: Entry, rest: Bytes)
    ensures ReadEntry(Frame(e) + rest) == Some((e, rest))
  {
    hide Sized, ReadSized;
    var after := [COLON] + (Sized(e.data) + rest);
    assert Frame(e) + rest == Sized(e.name) + after;
    ReadSizedUndoes(e.name, after);
    ReadSizedUndoes(e.data, rest);
    assert after[1..] == Sized(e.data) + rest;
  }

  /** The decoder recovers every list from its stream. */
  lemma {:induction false} UnframeUndoesStream(entries: seq<Entry>)
    ensures Unframe(Stream(entries)) == Some(entries)
  {
    hide Frame, ReadEntry;
    if entries != [] {
      ReadEntryUndoes(entries[0], Stream(entries[1..]));
      UnframeUndoesStream(entries[1..]);
      assert Stream(entries) == Frame(entries[0]) + Stream(entries[1..]) != [];
      assert entries == [entries[0]] + entries[1..];
    }
  }

  /** The decoder takes nothing but streams. */
  lemma {:induction false} UnframedIsStream(t: Bytes)
    requires Unframe(t).Some?
    ensures t == Stream(Unframe(t).value)
    decreases |t|
  {
    hide Frame, ReadEntry;
    if t != [] {
      ReadEntryIsFrame(t);
      var (e, rest) := ReadEntry(t).value;
      UnframedIsStream(rest);
      assert Unframe(t).value[1..] == Unframe(rest).value;
    }
  }

  lemma {:induction false} StreamInjective(a: seq<Entry>, b: seq<Entry>)
    requires Stream(a) == Stream(b)
    ensures a == b
  {
    UnframeUndoesStream(a);
    UnframeUndoesStream(b);
  }

  // ---- a whole tree ----

  /** The files of a tree in the order of their names. */
  ghost function Listing(files: map<Bytes, Bytes>, names: seq<Bytes>): (es: seq<Entry>)
    requires forall n :: n in names ==> n in files
    ensures |es| == |names|
  {
    seq(|names|, i requires 0 <= i < |names| => Entry(names[i], files[names[i]]))
  }

  ghost function TreeStream(files: map<Bytes, Bytes>): Bytes {
    assert forall n :: n in SortedKeys(files.Keys) ==> n in Elements(SortedKeys(files.Keys));
    Stream(Listing(files, SortedKeys(files.Keys)))
  }

  /** `hashTree`: the bytes it feeds its hash; `walked` is the order in which the walk met the files. */
  method HashTree(files: map<Bytes, Bytes>, walked: seq<Bytes>) returns (fed: Bytes)
    requires JsonPrinter.Distinct(walked) && Elements(walked) == files.Keys
    ensures fed == TreeStream(files)
  {
    hide SortedKeys, Frame;
    var names := JsonPrinter.SortStrings(walked);
    IncreasingUnique(names, SortedKeys(files.Keys));
    assert forall n :: n in names ==> n in Elements(names);
    fed := [];
    ghost var all := Listing(files, names);
    for i := 0 to |names|
      invariant fed == Stream(all[..i])
    {
      StreamGrows(all[..i], all[i]);
      assert all[..i + 1] == all[..i] + [all[i]];
      var name := names[i];
      var data := files[name];
      FrameParts(name, data);
      ghost var before := fed;
      fed := fed + (FormatNat(|name|) + [COLON] + name + [COLON] + FormatNat(|data|) + [COLON]);
      fed := fed + data;
      assert fed == before + (FormatNat(|name|) + [COLON] + name + [COLON] + FormatNat(|data|) + [COLON] + data);
    }
    assert all[..|names|] == all;
  }

  lemma {:induction false} FrameParts(name: Bytes, data: Bytes)
    ensures FormatNat(|name|) + [COLON] + name + [COLON] + FormatNat(|data|) + [COLON] + data
            == Frame(Entry(name, data))
  {
  }

  lemma {:induction false} StreamGrows(entries: seq<Entry>, e: Entry)
    ensures Stream(entries + [e]) == Stream(entries) + Frame(e)
  {
    hide Frame;
    if entries == [] {
      assert [e][1..] == [] && Stream([e]) == Frame(e) + [];
    } else {
      assert (entries + [e])[1..] == entries[1..] + [e];
      StreamGrows(entries[1..], e);
      var head, tail := Frame(entries[0]), Stream(entries[1..]);
      assert head + (tail + Frame(e)) == head + tail + Frame(e);
    }
  }

  /** Different trees give different streams. */
  lemma {:induction false} TreesDiffer(a: map<Bytes, Bytes>, b: map<Bytes, Bytes>)
    ensures TreeStream(a) == TreeStream(b) <==> a == b
  {
    if TreeStream(a) == TreeStream(b) {
      var na, nb := SortedKeys(a.Keys), SortedKeys(b.Keys);
      assert forall n :: n in na ==> n in Elements(na);
      assert forall n :: n in nb ==> n in Elements(nb);
      var la, lb := Listing(a, na), Listing(b, nb);
      StreamInjective(la, lb);
      assert na == nb by {
        assert forall i :: 0 <= i < |la| ==> na[i] == la[i].name == nb[i];
      }
      assert a.Keys == b.Keys;
      forall n | n in a ensures a[n] == b[n] {
        assert n in Elements(na);
        var i :| 0 <= i < |na| && na[i] == n;
        assert la[i].data == lb[i].data;
      }
    }
  }
}
