/** The source-map acceptor: bases, markers and positions of an emitted map. */
module SourceMap {
  import opened ByteStrings
  import opened Coordinates
  import opened Digits

  datatype Source = Source(name: Bytes, base: int, size: int)

  datatype Entry = Entry(goLine: int, goCol: int, sourceLine: int, sourceCol: int, sourceOffset: int,
                         file: Bytes, fileOffset: int, node: Bytes)

  datatype Map = Map(origin: Bytes, sources: seq<Source>, entries: seq<Entry>)

  // ---- emitted lines ----

  const MARKER: Bytes := [0x2f, 0x2f, 0x20, 0x6c, 0x6f, 0x77, 0x65, 0x72, 0x3a] // "// lower:"

  predicate IsMarker(line: Bytes) {
    MARKER <= Strip(line)
  }

  predicate IsNumberedMarker(line: Bytes) {
    IsMarker(line) && |Strip(line)| > |MARKER| && AllDigits(Strip(line)[|MARKER|..])
  }

  predicate IsBlank(line: Bytes) {
    Strip(line) == []
  }

  /** The tabs and spaces that a line starts with. */
  function Indent(line: Bytes): nat {
    if line != [] && (line[0] == 0x09 || line[0] == 0x20) then 1 + Indent(line[1..]) else 0
  }

  /** A line is a marker when, spaces apart, it starts with these letters; it is numbered when digits complete it. */
  lemma {:induction false} MarkersSpell(line: Bytes)
    ensures IsMarker(line) <==> exists a, rest :: White(a) && line == a + Ascii("// lower:") + rest
    ensures IsNumberedMarker(line) <==>
              exists a, ds, c :: White(a) && White(c) && IsNumber(ds) && line == a + (Ascii("// lower:") + ds) + c
    ensures IsBlank(line) <==> White(line)
  {
    hide Strip, White;
    assert MARKER == Ascii("// lower:");
    MarkerSpells(line);
    NumberedSpells(line);
    StripsExactly(line, []);
    WhiteJoins(line);
  }

  predicate IsNumber(ds: Bytes) {
    ds != [] && forall c :: c in ds ==> '0' <= c as char <= '9'
  }

  lemma {:induction false} WhiteJoins(line: Bytes)
    ensures White(line) <==> exists a, c :: White(a) && White(c) && line == a + [] + c
    ensures Trimmed([])
  {
    if White(line) { assert line == line + [] + [] && White([]); }
    if a, c :| White(a) && White(c) && line == a + [] + c {
      assert forall x :: x in line ==> x in a || x in c;
    }
  }

  lemma {:induction false} MarkerTrims(ds: Bytes)
    ensures !White((MARKER + ds)[..1])
    ensures ds == [] || IsNumber(ds) ==> Trimmed(MARKER + ds)
  {
    var t := MARKER + ds;
    assert t[..1] == [0x2f] && 0x2f in t[..1];
    if IsNumber(ds) {
      var last := t[|t| - 1..];
      assert last == [ds[|ds| - 1]] && ds[|ds| - 1] in ds && ds[|ds| - 1] in last;
    } else if ds == [] {
      assert t[|t| - 1..] == [0x3a] && 0x3a in t[|t| - 1..];
    }
  }

  lemma {:induction false} MarkerSpells(line: Bytes)
    ensures IsMarker(line) <==> exists a, rest :: White(a) && line == a + MARKER + rest
  {
    hide White, StripLeft, StripRight;
    var s := Strip(line);
    StripsExactly(line, s);
    if IsMarker(line) {
      var a, c :| White(a) && White(c) && line == a + s + c;
      assert s == MARKER + s[|MARKER|..];
      assert line == a + MARKER + (s[|MARKER|..] + c);
    }
    if exists a, rest :: White(a) && line == a + MARKER + rest {
      var a, rest :| White(a) && line == a + MARKER + rest;
      MarkerTrims(rest);
      assert line == a + (MARKER + rest);
      StripLeftOf(a, MARKER + rest);
      StripKeepsMarker(rest);
    }
  }

  /** Stripping on the right does not reach the colon. */
  lemma {:induction false} StripKeepsMarker(rest: Bytes)
    ensures MARKER <= StripRight(MARKER + rest)
    decreases |rest|
  {
    var t := MARKER + rest;
    if rest == [] {
      assert t[|t| - 1] == 0x3a;
    } else {
      assert t[..|t| - 1] == MARKER + rest[..|rest| - 1];
      StripKeepsMarker(rest[..|rest| - 1]);
    }
  }

  lemma {:induction false} DigitsAre(ds: Bytes)
    ensures AllDigits(ds) && ds != [] <==> IsNumber(ds)
  {
    assert forall k :: 0 <= k < |ds| ==> ds[k] in ds;
  }

  lemma {:induction false} NumberedSpells(line: Bytes)
    ensures IsNumberedMarker(line) <==>
              exists a, ds, c :: White(a) && White(c) && IsNumber(ds) && line == a + (MARKER + ds) + c
  {
    hide Strip, White, IsNumber, AllDigits;
    var s := Strip(line);
    if IsNumberedMarker(line) {
      StripsExactly(line, s);
      var ds := s[|MARKER|..];
      DigitsAre(ds);
      assert s == MARKER + ds;
    }
    if exists a, ds, c :: White(a) && White(c) && IsNumber(ds) && line == a + (MARKER + ds) + c {
      var a, ds, c :| White(a) && White(c) && IsNumber(ds) && line == a + (MARKER + ds) + c;
      MarkerTrims(ds);
      StripsExactly(line, MARKER + ds);
      DigitsAre(ds);
      assert (MARKER + ds)[|MARKER|..] == ds;
    }
  }

  /** The indentation is the longest run of tabs and spaces at the start. */
  lemma {:induction false} IndentSpells(line: Bytes, n: nat)
    ensures Indent(line) == n <==>
              && n <= |line| && (forall k :: 0 <= k < n ==> line[k] as char == '\t' || line[k] as char == ' ')
              && (n < |line| ==> line[n] as char != '\t' && line[n] as char != ' ')
    decreases |line|
  {
    if line != [] && (line[0] == 0x09 || line[0] == 0x20) && n > 0 {
      IndentSpells(line[1..], n - 1);
      assert forall k :: 0 < k < |line| ==> line[k] == line[1..][k - 1];
    }
  }

  /** A marker stands before line `i` and nothing but markers and blank lines between them. */
  ghost predicate Awaited(lines: seq<Bytes>, i: nat) {
    exists m: nat :: m < i && Awaiting(lines, m, i)
  }

  ghost predicate Awaiting(lines: seq<Bytes>, m: nat, i: nat) {
    m < i <= |lines| && IsMarker(lines[m]) && forall k :: m < k < i ==> IsMarker(lines[k]) || IsBlank(lines[k])
  }

  /** Line `i` is the first line of code after a run of markers. */
  ghost predicate Mapped(lines: seq<Bytes>, i: nat) {
    i < |lines| && Awaited(lines, i) && !IsMarker(lines[i]) && !IsBlank(lines[i])
  }

  /** The positions of the mapped lines among the first `n`. */
  ghost function Marks(lines: seq<Bytes>, n: nat): seq<Position>
    requires n <= |lines|
  {
    if n == 0 then []
    else Marks(lines, n - 1) + if Mapped(lines, n - 1) then [Position(n, Indent(lines[n - 1]) + 1)] else []
  }

  lemma {:induction false} AwaitedStep(lines: seq<Bytes>, i: nat)
    requires i < |lines|
    ensures Awaited(lines, i + 1) <==> IsMarker(lines[i]) || (Awaited(lines, i) && IsBlank(lines[i]))
  {
    if IsMarker(lines[i]) {
      assert Awaiting(lines, i, i + 1);
    }
    if m: nat :| m < i && Awaiting(lines, m, i) {
      assert IsBlank(lines[i]) ==> Awaiting(lines, m, i + 1);
    }
    if Awaited(lines, i + 1) {
      var m: nat :| m < i + 1 && Awaiting(lines, m, i + 1);
      assert m < i ==> Awaiting(lines, m, i);
    }
  }

  /** The marked positions, or nothing when a marker is malformed or the last one marks no line. */
  method ExpectedPositions(lines: seq<Bytes>) returns (r: Option<seq<Position>>)
    ensures r == if Coherent(lines) then Some(Marks(lines, |lines|)) else None
  {
    hide Strip, Indent, Awaited, IsBlank, IsMarker, IsNumberedMarker;
    var expected: seq<Position> := [];
    var pending := false;
    NothingAwaited(lines);
    for i := 0 to |lines|
      invariant pending <==> Awaited(lines, i)
      invariant expected == Marks(lines, i)
      invariant forall k :: 0 <= k < i && IsMarker(lines[k]) ==> IsNumberedMarker(lines[k])
    {
      var line := lines[i];
      AwaitedStep(lines, i);
      if IsMarker(line) {
        if !IsNumberedMarker(line) { return None; }
        pending := true;
      } else if pending && !IsBlank(line) {
        expected := expected + [Position(i + 1, Indent(line) + 1)];
        pending := false;
      }
    }
    return if pending then None else Some(expected);
  }

  lemma {:induction false} NothingAwaited(lines: seq<Bytes>)
    ensures !Awaited(lines, 0)
  {
  }

  /** Every marker is numbered, and each run of them is followed by a line of code. */
  ghost predicate Coherent(lines: seq<Bytes>) {
    && (forall k :: 0 <= k < |lines| && IsMarker(lines[k]) ==> IsNumberedMarker(lines[k]))
    && !Awaited(lines, |lines|)
  }

  // ---- sources ----

  /** The sources lie end to end in one address space, each followed by one more offset. */
  function BaseOf(sources: seq<Source>, i: nat): int
    requires i <= |sources|
  {
    if i == 0 then 0 else BaseOf(sources, i - 1) + sources[i - 1].size + 1
  }

  ghost predicate LaidOut(sources: seq<Source>, files: map<Bytes, Bytes>, n: nat)
    requires n <= |sources|
  {
    forall i: nat :: i < n ==> Fits(sources, files, i)
  }

  ghost predicate Fits(sources: seq<Source>, files: map<Bytes, Bytes>, i: nat)
    requires i < |sources|
  {
    sources[i].name in files && sources[i].size == |files[sources[i].name]| && sources[i].base == BaseOf(sources, i)
  }

  method CheckSources(sources: seq<Source>, files: map<Bytes, Bytes>) returns (ok: bool)
    ensures ok <==> LaidOut(sources, files, |sources|)
  {
    var base := 0;
    for i := 0 to |sources|
      invariant base == BaseOf(sources, i) && LaidOut(sources, files, i)
    {
      var src := sources[i];
      assert Fits(sources, files, i) <==>
               src.name in files && src.size == |files[src.name]| && src.base == base;
      if src.name !in files { return false; }
      if src.size != |files[src.name]| { return false; }
      if src.base != base { return false; }
      base := base + src.size + 1;
    }
    return true;
  }

  // ---- entries ----

  /** Where a source of that name is first listed. */
  function Find(sources: seq<Source>, name: Bytes): (i: Option<nat>)
    ensures i.Some? ==> i.value < |sources| && sources[i.value].name == name
    ensures i.None? ==> forall k :: 0 <= k < |sources| ==> sources[k].name != name
  {
    if sources == [] then None
    else if sources[0].name == name then Some(0)
    else
      match Find(sources[1..], name)
      case None => None
      case Some(k) => Some(k + 1)
  }

  /** The offset falls on source `i`. */
  predicate Within(sources: seq<Source>, i: nat, offset: int) {
    i < |sources| && sources[i].base <= offset <= sources[i].base + sources[i].size
  }

  /** The global offset of the entry falls on source `i`, the entry names that source, and gives the offset in it. */
  ghost predicate Decodes(e: Entry, sources: seq<Source>, i: nat) {
    Within(sources, i, e.sourceOffset) && sources[i].name == e.file && e.fileOffset == e.sourceOffset - sources[i].base
  }

  /**
   The entry leads from a place of the emitted lines to a place of a source: its global offset decodes to
   its file and local offset, and walking that file to its line and column leads to the same offset.
   */
  ghost predicate Located(e: Entry, sources: seq<Source>, files: map<Bytes, Bytes>, lines: seq<Bytes>) {
    && e.node != [] && e.file in files && (exists i: nat :: Decodes(e, sources, i))
    && LeadsTo(files[e.file], e.sourceLine, e.sourceCol, e.fileOffset)
    && e.goLine >= 1 && e.goCol >= 1 && IsCoordinate(lines, Position(e.goLine, e.goCol))
  }

  function Names(sources: seq<Source>): (ns: seq<Bytes>)
    ensures |ns| == |sources| && forall i :: 0 <= i < |ns| ==> ns[i] == sources[i].name
  {
    seq(|sources|, i requires 0 <= i < |sources| => sources[i].name)
  }

  lemma {:induction false} NamesAreKnown(sources: seq<Source>, files: map<Bytes, Bytes>)
    requires Names(sources) == SortedKeys(files.Keys)
    ensures forall k :: k in files ==> Find(sources, k).Some?
  {
    forall k | k in files ensures Find(sources, k).Some? {
      assert k in Elements(Names(sources));
      var i :| 0 <= i < |sources| && Names(sources)[i] == k;
      assert sources[i].name == k;
    }
  }

  /** A name stands once among the sources, so that the first source of that name is the only one. */
  lemma {:induction false} NamedOnce(sources: seq<Source>, files: map<Bytes, Bytes>, i: nat, j: nat)
    requires Names(sources) == SortedKeys(files.Keys)
    requires i < |sources| && j < |sources| && sources[i].name == sources[j].name
    ensures i == j
  {
    hide SortedKeys;
    var names := Names(sources);
    assert names[i] == names[j];
    LessTotal(names[i], names[j]);
  }

  /** Looking the file up and adding its base decides whether the global offset decodes to the entry's own. */
  lemma {:induction false} DecodesByFind(e: Entry, sources: seq<Source>, files: map<Bytes, Bytes>)
    requires LaidOut(sources, files, |sources|) && Names(sources) == SortedKeys(files.Keys)
    requires e.file in files && Find(sources, e.file).Some?
    ensures (exists i: nat :: Decodes(e, sources, i)) <==>
              e.fileOffset + sources[Find(sources, e.file).value].base == e.sourceOffset
              && 0 <= e.fileOffset <= |files[e.file]|
    ensures (exists i: nat :: Decodes(e, sources, i)) ==> e.sourceOffset >= 0
  {
    hide SortedKeys, Find, Names;
    var f := Find(sources, e.file).value;
    assert Fits(sources, files, f);
    BaseIsNatural(sources, files, f);
    if i: nat :| Decodes(e, sources, i) {
      NamedOnce(sources, files, i, f);
    }
    if e.fileOffset + sources[f].base == e.sourceOffset && 0 <= e.fileOffset <= |files[e.file]| {
      assert Decodes(e, sources, f);
    }
  }

  lemma {:induction false} BaseIsNatural(sources: seq<Source>, files: map<Bytes, Bytes>, i: nat)
    requires LaidOut(sources, files, |sources|) && i < |sources|
    ensures sources[i].base >= 0
  {
    assert Fits(sources, files, i);
    if i > 0 {
      BaseIsNatural(sources, files, i - 1);
      assert Fits(sources, files, i - 1);
    }
  }

  method CheckEntry(e: Entry, sources: seq<Source>, files: map<Bytes, Bytes>, lines: seq<Bytes>) returns (ok: bool)
    requires LaidOut(sources, files, |sources|) && Names(sources) == SortedKeys(files.Keys)
    ensures ok <==> Located(e, sources, files, lines)
  {
    hide LeadsTo, CountLf, LineStart, LaidOut, SortedKeys;
    NamesAreKnown(sources, files);
    if e.file in files {
      DecodesByFind(e, sources, files);
      LeadsToExactly(files[e.file], e.sourceLine, e.sourceCol, e.fileOffset);
    }
    if !(e.goLine > 0 && e.goCol > 0 && e.sourceLine > 0 && e.sourceCol > 0) { return false; }
    if !(e.sourceOffset >= 0 && e.node != []) { return false; }
    if e.file !in files { return false; }
    var meta := sources[Find(sources, e.file).value];
    if e.fileOffset + meta.base != e.sourceOffset { return false; }
    var content := files[e.file];
    if !(e.fileOffset >= 0 && e.fileOffset <= |content|) { return false; }
    var prefix := content[..e.fileOffset];
    var expectedLine := CountLf(prefix) + 1;
    var lineStart := LineStart(prefix);
    var expectedCol := e.fileOffset - lineStart + 1;
    if e.sourceLine != expectedLine { return false; }
    if e.sourceCol != expectedCol { return false; }
    if e.goLine > |lines| { return false; }
    return e.goCol <= |lines[e.goLine - 1]| + 1;
  }

  // ---- the whole map ----

  /** A map of the emitted lines that fits its sources, its markers and its files. */
  ghost predicate Acceptable(m: Map, lines: seq<Bytes>, files: map<Bytes, Bytes>) {
    && m.origin != [] && files.Keys != {}
    && Names(m.sources) == SortedKeys(files.Keys)
    && LaidOut(m.sources, files, |m.sources|)
    && Coherent(lines)
    && Positions(m.entries, Marks(lines, |lines|))
    && (forall e :: e in m.entries ==> Located(e, m.sources, files, lines))
  }

  /** The emitted positions of the entries are these, one by one. */
  ghost predicate Positions(entries: seq<Entry>, at: seq<Position>) {
    |entries| == |at| && forall i :: 0 <= i < |at| ==> entries[i].goLine == at[i].line && entries[i].goCol == at[i].col
  }

  method PositionsMatch(entries: seq<Entry>, at: seq<Position>) returns (ok: bool)
    ensures ok <==> Positions(entries, at)
  {
    if |entries| != |at| { return false; }
    for i := 0 to |at|
      invariant forall k :: 0 <= k < i ==> entries[k].goLine == at[k].line && entries[k].goCol == at[k].col
    {
      if entries[i].goLine != at[i].line || entries[i].goCol != at[i].col { return false; }
    }
    return true;
  }

  /** `valid_source_map?` on a decoded map; `names` are the record names in sorted order. */
  method ValidSourceMap(m: Map, generated: Bytes, files: map<Bytes, Bytes>, names: seq<Bytes>) returns (ok: bool)
    requires names == SortedKeys(files.Keys)
    ensures ok <==> Acceptable(m, LinesOf(generated), files)
  {
    hide LinesOf, Coherent, Marks, Located, LaidOut, SortedKeys, Positions;
    if m.origin == [] || |files| == 0 { return false; }
    var lines := LinesOf(generated);
    if Names(m.sources) != names { return false; }
    var laid := CheckSources(m.sources, files);
    if !laid { return false; }
    var expected := ExpectedPositions(lines);
    if expected.None? { return false; }
    var same := PositionsMatch(m.entries, expected.value);
    if !same { return false; }
    ok := CheckEntries(m.entries, m.sources, files, lines);
  }

  method CheckEntries(entries: seq<Entry>, sources: seq<Source>, files: map<Bytes, Bytes>, lines: seq<Bytes>)
    returns (ok: bool)
    requires LaidOut(sources, files, |sources|) && Names(sources) == SortedKeys(files.Keys)
    ensures ok <==> forall e :: e in entries ==> Located(e, sources, files, lines)
  {
    hide Located, Find, LaidOut, SortedKeys;
    for i := 0 to |entries|
      invariant forall k :: 0 <= k < i ==> Located(entries[k], sources, files, lines)
    {
      var here := CheckEntry(entries[i], sources, files, lines);
      if !here { return false; }
    }
    return true;
  }

  // ---- what acceptance means ----

  lemma {:induction false} BasesGrow(sources: seq<Source>, files: map<Bytes, Bytes>, i: nat, j: nat)
    requires LaidOut(sources, files, |sources|) && i < j < |sources|
    ensures sources[i].base + sources[i].size < sources[j].base
    decreases j
  {
    assert Fits(sources, files, j - 1) && Fits(sources, files, j);
    if i + 1 < j { BasesGrow(sources, files, i, j - 1); }
  }

  /** A global offset falls on one source at most, so it decodes to one file and one local offset. */
  lemma {:induction false} OffsetDecodesOnce(sources: seq<Source>, files: map<Bytes, Bytes>, i: nat, j: nat,
                                             offset: int)
    requires LaidOut(sources, files, |sources|) && Within(sources, i, offset) && Within(sources, j, offset)
    ensures i == j
  {
    if i < j { BasesGrow(sources, files, i, j); }
    if j < i { BasesGrow(sources, files, j, i); }
  }

  /** Every offset below the end of the last source falls on some source. */
  lemma {:induction false} OffsetDecodes(sources: seq<Source>, files: map<Bytes, Bytes>, n: nat, offset: int)
    returns (i: nat)
    requires LaidOut(sources, files, |sources|) && n <= |sources| && 0 <= offset < BaseOf(sources, n)
    ensures i < n && Within(sources, i, offset)
  {
    assert Fits(sources, files, n - 1);
    if offset >= BaseOf(sources, n - 1) {
      i := n - 1;
    } else {
      i := OffsetDecodes(sources, files, n - 1, offset);
    }
  }

  /** In an accepted map every entry names the one source that its global offset falls on, and the offset in it. */
  lemma {:induction false} EntriesDecode(m: Map, lines: seq<Bytes>, files: map<Bytes, Bytes>, e: Entry) returns (i: nat)
    requires Acceptable(m, lines, files) && e in m.entries
    ensures Within(m.sources, i, e.sourceOffset)
    ensures m.sources[i].name == e.file && e.fileOffset == e.sourceOffset - m.sources[i].base
    ensures forall j: nat :: Within(m.sources, j, e.sourceOffset) ==> j == i
  {
    hide SortedKeys, Marks, Coherent, LeadsTo, LaidOut;
    assert Located(e, m.sources, files, lines);
    i :| Decodes(e, m.sources, i);
    forall j: nat | Within(m.sources, j, e.sourceOffset) ensures j == i {
      OffsetDecodesOnce(m.sources, files, i, j, e.sourceOffset);
    }
  }

  /** Every mark belongs to a mapped line among the first `n`. */
  lemma {:induction false} MarkIsMapped(lines: seq<Bytes>, n: nat, a: nat)
    requires n <= |lines| && a < |Marks(lines, n)|
    ensures 1 <= Marks(lines, n)[a].line <= n && Mapped(lines, Marks(lines, n)[a].line - 1)
    ensures Marks(lines, n)[a].col == Indent(lines[Marks(lines, n)[a].line - 1]) + 1
  {
    hide Mapped, Indent;
    if n > 0 && a < |Marks(lines, n - 1)| {
      MarkIsMapped(lines, n - 1, a);
    }
  }

  lemma {:induction false} MarksRise(lines: seq<Bytes>, n: nat, a: nat, b: nat)
    requires n <= |lines| && a < b < |Marks(lines, n)|
    ensures Marks(lines, n)[a].line < Marks(lines, n)[b].line
  {
    hide Mapped, Indent;
    if n > 0 {
      MarkIsMapped(lines, n - 1, a);
      if b < |Marks(lines, n - 1)| { MarksRise(lines, n - 1, a, b); }
    }
  }

  /** Every mapped line among the first `n` has a mark. */
  lemma {:induction false} MappedHasMark(lines: seq<Bytes>, n: nat, i: nat) returns (a: nat)
    requires i < n <= |lines| && Mapped(lines, i)
    ensures a < |Marks(lines, n)| && Marks(lines, n)[a].line == i + 1
  {
    hide Mapped, Indent;
    if i == n - 1 {
      a := |Marks(lines, n - 1)|;
    } else {
      a := MappedHasMark(lines, n - 1, i);
    }
  }

  ghost predicate HasEntryOn(entries: seq<Entry>, line: int) {
    exists a :: 0 <= a < |entries| && entries[a].goLine == line
  }

  /** The entry points at the first character of its emitted line that is no indentation. */
  ghost predicate OnCode(e: Entry, lines: seq<Bytes>) {
    1 <= e.goLine <= |lines| && e.goCol == Indent(lines[e.goLine - 1]) + 1
  }

  /** The entries follow the emitted lines upwards, one for the first line of code after each run of markers. */
  lemma {:induction false} EntriesFollowMarkers(m: Map, lines: seq<Bytes>, files: map<Bytes, Bytes>)
    requires Acceptable(m, lines, files)
    ensures forall a, b :: 0 <= a < b < |m.entries| ==> m.entries[a].goLine < m.entries[b].goLine
    ensures forall i: nat :: Mapped(lines, i) <==> HasEntryOn(m.entries, i + 1)
    ensures forall e :: e in m.entries ==> OnCode(e, lines)
  {
    assert Positions(m.entries, Marks(lines, |lines|)) by {
      hide SortedKeys, Marks, Coherent, LaidOut, Located, Positions, Names;
    }
    PositionsRise(m.entries, lines);
    PositionsOnCode(m.entries, lines);
    forall i: nat ensures Mapped(lines, i) <==> HasEntryOn(m.entries, i + 1) {
      PositionsCover(m.entries, lines, i);
    }
  }

  lemma {:induction false} PositionsRise(entries: seq<Entry>, lines: seq<Bytes>)
    requires Positions(entries, Marks(lines, |lines|))
    ensures forall a, b :: 0 <= a < b < |entries| ==> entries[a].goLine < entries[b].goLine
  {
    hide Marks;
    forall a, b | 0 <= a < b < |entries| ensures entries[a].goLine < entries[b].goLine {
      MarksRise(lines, |lines|, a, b);
    }
  }

  lemma {:induction false} PositionsOnCode(entries: seq<Entry>, lines: seq<Bytes>)
    requires Positions(entries, Marks(lines, |lines|))
    ensures forall e :: e in entries ==> OnCode(e, lines)
  {
    hide Marks, Mapped, Indent;
    forall e | e in entries ensures OnCode(e, lines) {
      var a :| 0 <= a < |entries| && entries[a] == e;
      MarkIsMapped(lines, |lines|, a);
    }
  }

  lemma {:induction false} PositionsCover(entries: seq<Entry>, lines: seq<Bytes>, i: nat)
    requires Positions(entries, Marks(lines, |lines|))
    ensures Mapped(lines, i) <==> HasEntryOn(entries, i + 1)
  {
    hide Marks, Mapped;
    if Mapped(lines, i) {
      MappedInRange(lines, i);
      var a := MappedHasMark(lines, |lines|, i);
      assert entries[a].goLine == i + 1;
    }
    if HasEntryOn(entries, i + 1) {
      var a :| 0 <= a < |entries| && entries[a].goLine == i + 1;
      MarkIsMapped(lines, |lines|, a);
    }
  }

  lemma {:induction false} MappedInRange(lines: seq<Bytes>, i: nat)
    requires Mapped(lines, i)
    ensures i < |lines|
  {
  }

  /** The other coordinate checker agrees with an accepted entry, wherever the source is not empty and the place not
      inside a character. */
  lemma {:induction false} CheckersAgree(m: Map, lines: seq<Bytes>, files: map<Bytes, Bytes>, e: Entry, utf8: bool)
    requires Acceptable(m, lines, files) && e in m.entries
    ensures e.file in files && e.sourceLine >= 1 && e.sourceCol >= 1 && e.fileOffset >= 0
    ensures var content := files[e.file];
            Accepts(content, e.sourceLine, e.sourceCol, e.fileOffset, utf8) <==>
              content != [] && !(utf8 && Continuation(content, e.fileOffset))
  {
    hide SortedKeys, Marks, Coherent, PositionOf, LaidOut, Names;
    assert Located(e, m.sources, files, lines);
    LeadsToExactly(files[e.file], e.sourceLine, e.sourceCol, e.fileOffset);
  }
}
