/** The sealed ledger: one canonical record to a line. */
module Ledger {
  import opened ByteStrings
  import opened Lines
  import opened Floats
  import opened JsonValues
  import opened JsonParser
  import opened JsonDecoder
  import opened JsonPrinter
  import opened JsonRoundTrip

  type Fields = map<Bytes, Value>

  const CR: byte := 0x0d

  datatype LedgerError = BadLine(index: nat, failure: Failure) | NotCanonical(index: nat) | NotObject(index: nat)

  // ---- records ----

  ghost predicate AllPrintable(rs: seq<Fields>) {
    forall r :: r in rs ==> Printable(Object(r))
  }

  ghost predicate AllCarried(nearest: Rounding, rs: seq<Fields>): (carried: bool)
    ensures carried ==> AllPrintable(rs)
  {
    forall r :: r in rs ==> Carried(nearest, Object(r))
  }

  ghost function LineOf(r: Fields): Bytes
    requires Printable(Object(r))
  {
    Canonical(Object(r))
  }

  ghost function LinesOf(rs: seq<Fields>): (lines: seq<Bytes>)
    requires AllPrintable(rs)
    ensures |lines| == |rs| && forall i :: 0 <= i < |rs| ==> lines[i] == LineOf(rs[i])
  {
    seq(|rs|, i requires 0 <= i < |rs| => LineOf(rs[i]))
  }

  /** The bytes whose digest is the root of the ledger. */
  ghost function RootBytes(rs: seq<Fields>): Bytes
    requires AllPrintable(rs)
  {
    Join(LinesOf(rs)) + [LF]
  }

  /** The bytes that are written to the ledger file. */
  ghost function FileBytes(rs: seq<Fields>): Bytes
    requires AllPrintable(rs)
  {
    if rs == [] then [] else LineOf(rs[0]) + [LF] + FileBytes(rs[1..])
  }

  method LedgerRootInput(rs: seq<Fields>) returns (text: Bytes)
    requires AllPrintable(rs)
    ensures text == RootBytes(rs)
  {
    var lines: seq<Bytes> := [];
    for i := 0 to |rs|
      invariant |lines| == i && forall k :: 0 <= k < i ==> lines[k] == LineOf(rs[k])
    {
      var line := CanonicalText(Object(rs[i]));
      lines := lines + [line];
    }
    assert lines == LinesOf(rs);
    text := Join(lines) + [LF];
  }

  method WriteLedger(rs: seq<Fields>) returns (text: Bytes)
    requires AllPrintable(rs)
    ensures text == FileBytes(rs)
  {
    hide Canonical, Printable;
    text := [];
    assert rs[0..] == rs;
    for i := 0 to |rs|
      invariant text + FileBytes(rs[i..]) == FileBytes(rs)
    {
      var line := CanonicalText(Object(rs[i]));
      assert rs[i..][1..] == rs[i + 1..];
      assert text + (line + [LF] + FileBytes(rs[i + 1..])) == text + line + [LF] + FileBytes(rs[i + 1..]);
      text := text + line + [LF];
    }
    assert text + [] == text;
  }

  // ---- reading ----

  function TrimLast(text: Bytes, c: byte): Bytes {
    if text != [] && text[|text| - 1] == c then text[..|text| - 1] else text
  }

  ghost function AcceptLine(nearest: Rounding, index: nat, line: Bytes): Result<Fields, LedgerError> {
    var text := TrimLast(line, CR);
    match ParseJson(nearest, text)
    case Err(f) => Err(BadLine(index, f))
    case Ok(v) =>
      if !(Printable(v) && Canonical(v) == text) then Err(NotCanonical(index))
      else if !v.Object? then Err(NotObject(index))
      else Ok(v.fields)
  }

  /** The records of the lines from `index` on, or the first error among them. */
  ghost function AcceptLines(nearest: Rounding, lines: seq<Bytes>, index: nat): Result<seq<Fields>, LedgerError>
    requires index <= |lines|
    decreases |lines| - index
  {
    if index == |lines| then Ok([])
    else
      match AcceptLine(nearest, index, lines[index])
      case Err(e) => Err(e)
      case Ok(r) =>
        match AcceptLines(nearest, lines, index + 1)
        case Err(e) => Err(e)
        case Ok(rs) => Ok([r] + rs)
  }

  ghost function Accepted(nearest: Rounding, data: Bytes): Result<seq<Fields>, LedgerError> {
    var text := TrimLast(data, LF);
    if text == [] then Ok([]) else AcceptLines(nearest, Split(text), 0)
  }

  /** The records read so far, put before what the remaining lines give. */
  ghost function Resume(records: seq<Fields>, rest: Result<seq<Fields>, LedgerError>)
    : Result<seq<Fields>, LedgerError>
  {
    match rest
    case Err(e) => Err(e)
    case Ok(rs) => Ok(records + rs)
  }

  method ReadLedger(nearest: Rounding, data: Bytes) returns (r: Result<seq<Fields>, LedgerError>)
    ensures r == Accepted(nearest, data)
  {
    hide ParseJson, Canonical;
    var records: seq<Fields> := [];
    var text := TrimLast(data, LF);
    if text == [] {
      return Ok(records);
    }
    var lines := Split(text);
    assert forall rs: seq<Fields> :: [] + rs == rs;
    for i := 0 to |lines|
      invariant Resume(records, AcceptLines(nearest, lines, i)) == AcceptLines(nearest, lines, 0)
    {
      var line := TrimLast(lines[i], CR);
      var parsed := ParseJsonText(nearest, line);
      if parsed.Err? {
        return Err(BadLine(i, parsed.error));
      }
      ParsedIsPrintable(nearest, line, parsed.value);
      var again := CanonicalText(parsed.value);
      if again != line {
        return Err(NotCanonical(i));
      }
      if !parsed.value.Object? {
        return Err(NotObject(i));
      }
      ghost var rest := AcceptLines(nearest, lines, i + 1);
      assert rest.Ok? ==>
        records + ([parsed.value.fields] + rest.value) == records + [parsed.value.fields] + rest.value;
      records := records + [parsed.value.fields];
    }
    assert records + [] == records;
    return Ok(records);
  }

  lemma {:induction false} ParsedIsPrintable(nearest: Rounding, text: Bytes, v: Value)
    requires ParseJson(nearest, text) == Ok(v)
    ensures Printable(v)
  {
    hide ParseValue;
    ParsedIsStorable(Config(nearest, false), text, SkipSpace(text, 0), []);
  }

  // ---- the laws of the ledger ----

  /** A line of a ledger is a record's canonical text, with or without a carriage return. */
  ghost predicate LineForm(r: Fields, line: Bytes) {
    Printable(Object(r)) && (line == LineOf(r) || line == LineOf(r) + [CR])
  }

  lemma {:induction false} AcceptLineExactly(nearest: Rounding, index: nat, line: Bytes, r: Fields)
    requires RoundsToFloats(nearest)
    ensures AcceptLine(nearest, index, line) == Ok(r) <==> Carried(nearest, Object(r)) && LineForm(r, line)
  {
    hide ParseJson, Canonical;
    var text := TrimLast(line, CR);
    if AcceptLine(nearest, index, line) == Ok(r) {
      PrintingNormalizes(nearest, text, Object(r));
      if text != line {
        assert line == text + [CR];
      }
    }
    if Carried(nearest, Object(r)) && LineForm(r, line) {
      var c := LineOf(r);
      CanonicalIsOneLine(Object(r));
      DecodingUndoesPrinting(nearest, Object(r));
      assert text == c by {
        if line == c { assert c[|c| - 1] >= 0x20; }
      }
    }
  }

  /** Reading succeeds exactly when every line does, and the records are those of the lines. */
  lemma {:induction false} AcceptLinesEach(nearest: Rounding, lines: seq<Bytes>, index: nat, rs: seq<Fields>)
    requires index <= |lines|
    ensures AcceptLines(nearest, lines, index) == Ok(rs) <==>
              |rs| == |lines| - index &&
              forall j :: index <= j < |lines| ==> AcceptLine(nearest, j, lines[j]) == Ok(rs[j - index])
    decreases |lines| - index
  {
    hide AcceptLine;
    if index < |lines| && rs != [] {
      var tail := rs[1..];
      assert rs == [rs[0]] + tail;
      AcceptLinesEach(nearest, lines, index + 1, tail);
      if AcceptLines(nearest, lines, index) == Ok(rs) {
        forall j | index <= j < |lines| ensures AcceptLine(nearest, j, lines[j]) == Ok(rs[j - index]) {
          if j > index { assert rs[j - index] == tail[j - (index + 1)]; }
        }
      }
      if |rs| == |lines| - index
         && forall j :: index <= j < |lines| ==> AcceptLine(nearest, j, lines[j]) == Ok(rs[j - index])
      {
        assert AcceptLine(nearest, index, lines[index]) == Ok(rs[0]);
        forall j | index + 1 <= j < |lines| ensures AcceptLine(nearest, j, lines[j]) == Ok(tail[j - (index + 1)]) {
          assert rs[j - index] == tail[j - (index + 1)];
        }
      }
    }
  }

  /** `text` is the canonical text of `rs`, up to the form of its line ends. */
  ghost predicate LedgerForm(rs: seq<Fields>, data: Bytes) {
    exists lines: seq<Bytes> ::
      && |lines| == |rs|
      && (forall i :: 0 <= i < |rs| ==> LineForm(rs[i], lines[i]))
      && (data == Join(lines) || data == Join(lines) + [LF])
  }

  lemma {:induction false} FormsAreClean(rs: seq<Fields>, lines: seq<Bytes>)
    requires |lines| == |rs| && forall i :: 0 <= i < |rs| ==> LineForm(rs[i], lines[i])
    ensures forall l :: l in lines ==> l != [] && LF !in l
  {
    forall l | l in lines ensures l != [] && LF !in l {
      var i :| 0 <= i < |lines| && lines[i] == l;
      CanonicalIsOneLine(Object(rs[i]));
    }
  }

  /** A file is read as `rs` exactly when it spells `rs` canonically, up to line ends. */
  lemma {:induction false} ReadExactly(nearest: Rounding, data: Bytes, rs: seq<Fields>)
    requires RoundsToFloats(nearest)
    ensures Accepted(nearest, data) == Ok(rs) <==> AllCarried(nearest, rs) && LedgerForm(rs, data)
  {
    if Accepted(nearest, data) == Ok(rs) {
      ReadIsForm(nearest, data, rs);
    }
    if AllCarried(nearest, rs) && LedgerForm(rs, data) {
      FormIsRead(nearest, data, rs);
    }
  }

  lemma {:induction false} ReadIsForm(nearest: Rounding, data: Bytes, rs: seq<Fields>)
    requires RoundsToFloats(nearest) && Accepted(nearest, data) == Ok(rs)
    ensures AllCarried(nearest, rs) && LedgerForm(rs, data)
  {
    hide AcceptLine, AcceptLines, LineForm, Carried;
    var text := TrimLast(data, LF);
    if text == [] {
      assert Join([]) == [];
      assert data == Join([]) || data == Join([]) + [LF];
    } else {
      var lines := Split(text);
      AcceptLinesEach(nearest, lines, 0, rs);
      JoinUndoesSplit(text);
      forall i | 0 <= i < |rs| ensures LineForm(rs[i], lines[i]) && Carried(nearest, Object(rs[i])) {
        assert AcceptLine(nearest, i, lines[i]) == Ok(rs[i - 0]);
        AcceptLineExactly(nearest, i, lines[i], rs[i]);
      }
      assert data == Join(lines) || data == Join(lines) + [LF];
    }
  }

  lemma {:induction false} CleanLinesSplit(lines: seq<Bytes>, data: Bytes)
    requires lines != [] && forall l :: l in lines ==> l != [] && LF !in l
    requires data == Join(lines) || data == Join(lines) + [LF]
    ensures TrimLast(data, LF) != [] && Split(TrimLast(data, LF)) == lines
  {
    JoinEnds(lines);
    SplitUndoesJoin(lines);
    hide Join, Split;
    assert TrimLast(data, LF) == Join(lines);
  }

  lemma {:induction false} FormIsRead(nearest: Rounding, data: Bytes, rs: seq<Fields>)
    requires RoundsToFloats(nearest) && AllCarried(nearest, rs) && LedgerForm(rs, data)
    ensures Accepted(nearest, data) == Ok(rs)
  {
    hide AcceptLine, AcceptLines, LineForm, Carried, AllPrintable, RoundsToFloats, Split;
    var lines: seq<Bytes> :|
      && |lines| == |rs|
      && (forall i :: 0 <= i < |rs| ==> LineForm(rs[i], lines[i]))
      && (data == Join(lines) || data == Join(lines) + [LF]);
    if rs != [] {
      FormsAreClean(rs, lines);
      CleanLinesSplit(lines, data);
      forall j | 0 <= j < |lines| ensures AcceptLine(nearest, j, lines[j]) == Ok(rs[j - 0]) {
        assert LineForm(rs[j], lines[j]);
        AcceptLineExactly(nearest, j, lines[j], rs[j]);
      }
      AcceptLinesEach(nearest, lines, 0, rs);
    }
  }

  lemma {:induction false} FileIsJoin(rs: seq<Fields>)
    requires AllPrintable(rs) && rs != []
    ensures FileBytes(rs) == Join(LinesOf(rs)) + [LF]
  {
    if |rs| > 1 {
      FileIsJoin(rs[1..]);
      assert LinesOf(rs)[1..] == LinesOf(rs[1..]);
    }
  }

  /** Reading what was written returns the same records. */
  lemma {:induction false} ReadUndoesWrite(nearest: Rounding, rs: seq<Fields>)
    requires RoundsToFloats(nearest) && AllCarried(nearest, rs)
    ensures Accepted(nearest, FileBytes(rs)) == Ok(rs)
  {
    hide Carried, Printable, Accepted;
    var lines := LinesOf(rs);
    if rs == [] {
      assert FileBytes(rs) == Join(lines);
    } else {
      FileIsJoin(rs);
    }
    assert LedgerForm(rs, FileBytes(rs)) by {
      assert forall i :: 0 <= i < |rs| ==> LineForm(rs[i], lines[i]);
    }
    ReadExactly(nearest, FileBytes(rs), rs);
  }

  /** Different record lists have different root bytes. */
  lemma {:induction false} RootInjective(nearest: Rounding, a: seq<Fields>, b: seq<Fields>)
    requires RoundsToFloats(nearest)
    requires AllCarried(nearest, a) && AllCarried(nearest, b)
    ensures RootBytes(a) == RootBytes(b) <==> a == b
  {
    if RootBytes(a) == RootBytes(b) {
      RootIsForm(a);
      RootIsForm(b);
      ReadExactly(nearest, RootBytes(a), a);
      ReadExactly(nearest, RootBytes(b), b);
    }
  }

  lemma {:induction false} RootIsForm(rs: seq<Fields>)
    requires AllPrintable(rs)
    ensures LedgerForm(rs, RootBytes(rs))
  {
    hide Printable;
    assert forall i :: 0 <= i < |rs| ==> LineForm(rs[i], LinesOf(rs)[i]);
  }

  /** The root is taken over the very bytes of the file, except for an empty ledger. */
  lemma {:induction false} RootIsFileUnlessEmpty(rs: seq<Fields>)
    requires AllPrintable(rs)
    ensures RootBytes(rs) == FileBytes(rs) <==> rs != []
  {
    if rs != [] { FileIsJoin(rs); }
  }
}
