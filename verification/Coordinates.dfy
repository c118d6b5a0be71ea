/** Lines, columns and offsets of an artifact, computed from both ends. */
module Coordinates {
  import opened ByteStrings
  import opened Lines
  import opened Utf8

  // ---- from an offset to its line and column ----

  function CountLf(b: Bytes): nat {
    if b == [] then 0 else CountLf(b[..|b| - 1]) + if b[|b| - 1] == LF then 1 else 0
  }

  /** Just past the last line feed of `b`, or 0. */
  function LineStart(b: Bytes): (n: nat)
    ensures n <= |b|
  {
    if b == [] then 0 else if b[|b| - 1] == LF then |b| else LineStart(b[..|b| - 1])
  }

  datatype Position = Position(line: nat, col: nat)

  /** The line feeds before the offset give the line; the distance to the last of them gives the column. */
  function PositionOf(content: Bytes, offset: nat): Position
    requires offset <= |content|
  {
    var prefix := content[..offset];
    Position(CountLf(prefix) + 1, offset - LineStart(prefix) + 1)
  }

  // ---- from a line and a column to an offset ----

  /** The lines as Ruby splits them: an empty artifact has none at all. */
  function LinesOf(bytes: Bytes): seq<Bytes> {
    if bytes == [] then [] else Split(bytes)
  }

  method ByteLineIndex(bytes: Bytes) returns (lines: seq<Bytes>, starts: seq<nat>)
    ensures lines == LinesOf(bytes) && |starts| == |lines|
    ensures forall i :: 0 <= i < |lines| ==> starts[i] == Start(lines, i)
    ensures forall i :: 0 <= i < |lines| ==> StandsIn(bytes, lines, i)
  {
    hide Split, StandsIn;
    lines := LinesOf(bytes);
    starts := [];
    var offset := 0;
    for i := 0 to |lines|
      invariant |starts| == i && offset == Start(lines, i)
      invariant forall k :: 0 <= k < i ==> starts[k] == Start(lines, k)
    {
      var start := offset;
      offset := offset + |lines[i]| + 1;
      starts := starts + [start];
    }
    forall i | 0 <= i < |lines| ensures StandsIn(bytes, lines, i) { LinesStand(bytes, i); }
  }

  /** The byte is the middle of a UTF-8 sequence. */
  predicate Continuation(bytes: Bytes, offset: nat) {
    offset < |bytes| && bytes[offset] / 0x40 == 2
  }

  /** In any text around it, the bytes of a character after its first are continuations, and its first is not. */
  lemma {:induction false} ContinuesInside(before: Bytes, r: Scalar, after: Bytes, k: nat)
    requires k < |Encode(r)|
    ensures Continuation(before + Encode(r) + after, |before| + k) <==> k > 0
  {
    EncodeIsGrammar(r);
    var text := before + Encode(r) + after;
    assert text[|before| + k] == (before + Encode(r))[|before| + k] == Encode(r)[k];
  }

  datatype Problem =
    | LinePastEnd(line: nat, lines: nat)
    | ColumnPastEnd(col: nat, line: nat, width: nat)
    | OffsetPastEnd(offset: nat, size: nat)
    | OffsetDiffers(offset: nat, expected: nat)
    | InsideCharacter(position: nat)

  /**
   The one problem with a place, if any: the first thing that keeps it from being a place of the artifact.
   Without an offset the place is where the line and the column lead.
   */
  ghost predicate IsProblem(bytes: Bytes, line: nat, col: nat, offset: Option<nat>, utf8: bool, p: Problem)
    requires line >= 1 && col >= 1
  {
    var lines := LinesOf(bytes);
    match p
    case LinePastEnd(l, n) => l == line > |lines| == n
    case ColumnPastEnd(c, l, w) => l == line <= |lines| && w == |lines[l - 1]| && c == col > w + 1
    case OffsetPastEnd(o, n) => IsCoordinate(lines, Position(line, col)) && offset == Some(o) && o > |bytes| == n
    case OffsetDiffers(o, e) =>
      && IsCoordinate(lines, Position(line, col)) && offset == Some(o) && o <= |bytes|
      && e <= |bytes| && PositionOf(bytes, e) == Position(line, col) && PositionOf(bytes, o) != Position(line, col)
    case InsideCharacter(at) =>
      && at <= |bytes| && bytes != [] && PositionOf(bytes, at) == Position(line, col) && offset.GetOr(at) == at
      && utf8 && Continuation(bytes, at)
  }

  method CoordinateProblems(bytes: Bytes, line: nat, col: nat, offset: Option<nat>, utf8: bool)
    returns (problems: seq<Problem>)
    requires line >= 1 && col >= 1
    ensures offset.Some? ==> (problems == [] <==> Accepts(bytes, line, col, offset.value, utf8))
    ensures offset.None? ==> (problems == [] <==> exists at :: Accepts(bytes, line, col, at, utf8))
    ensures |problems| <= 1 && forall p :: p in problems <==> IsProblem(bytes, line, col, offset, utf8, p)
  {
    hide LinesOf, PositionOf, Start, StandsIn;
    var lines, starts := ByteLineIndex(bytes);
    problems := [];
    NoLines(bytes);
    if line > |lines| {
      UnknownLine(bytes, line);
      NotInside(bytes, line, col, offset, utf8);
      return [LinePastEnd(line, |lines|)];
    }
    var width := |lines[line - 1]|;
    if col > width + 1 {
      problems := problems + [ColumnPastEnd(col, line, width)];
    }
    UnknownColumn(bytes, line, col);
    if problems != [] {
      NotInside(bytes, line, col, offset, utf8);
      return;
    }
    var expected := starts[line - 1] + (col - 1);
    OffsetIsPosition(bytes, line, col);
    forall at: nat | at <= |bytes| && PositionOf(bytes, at) == Position(line, col) ensures at == expected {
      PositionsDiffer(bytes, expected, at);
    }
    if offset.Some? {
      if offset.value > |bytes| {
        problems := problems + [OffsetPastEnd(offset.value, |bytes|)];
      }
      if problems == [] && offset.value != expected {
        problems := problems + [OffsetDiffers(offset.value, expected)];
      }
    }
    if problems != [] { return; }
    var position := offset.GetOr(expected);
    if utf8 && Continuation(bytes, position) {
      problems := problems + [InsideCharacter(position)];
    }
    assert problems == [] ==> Accepts(bytes, line, col, position, utf8);
  }

  /** Where there is no such line or column no character is split. */
  lemma {:induction false} NotInside(bytes: Bytes, line: nat, col: nat, offset: Option<nat>, utf8: bool)
    requires line >= 1 && col >= 1 && !IsCoordinate(LinesOf(bytes), Position(line, col))
    ensures forall at :: !IsProblem(bytes, line, col, offset, utf8, InsideCharacter(at))
  {
    hide LinesOf, PositionOf;
    forall at | IsProblem(bytes, line, col, offset, utf8, InsideCharacter(at)) ensures false {
      PositionIsCoordinate(bytes, at);
    }
  }

  lemma {:induction false} NoLines(bytes: Bytes)
    ensures LinesOf(bytes) == [] <==> bytes == []
  {
  }

  /** The triple names one place of a non-empty artifact, and in UTF-8 text that place is between characters. */
  ghost predicate Accepts(bytes: Bytes, line: nat, col: nat, offset: nat, utf8: bool) {
    && bytes != [] && offset <= |bytes| && PositionOf(bytes, offset) == Position(line, col)
    && !(utf8 && Continuation(bytes, offset))
  }

  // ---- the two computations are inverse ----

  ghost predicate IsCoordinate(lines: seq<Bytes>, p: Position) {
    1 <= p.line <= |lines| && 1 <= p.col <= |lines[p.line - 1]| + 1
  }

  function OffsetOf(lines: seq<Bytes>, p: Position): nat
    requires 1 <= p.line <= |lines| && 1 <= p.col
  {
    Start(lines, p.line - 1) + (p.col - 1)
  }

  /** An offset has a line and a column, and they lead back to the offset. */
  lemma {:induction false} PositionIsCoordinate(bytes: Bytes, offset: nat)
    requires bytes != [] && offset <= |bytes|
    ensures IsCoordinate(LinesOf(bytes), PositionOf(bytes, offset))
    ensures OffsetOf(LinesOf(bytes), PositionOf(bytes, offset)) == offset
    decreases offset
  {
    var lines := Split(bytes);
    var p := PositionOf(bytes, offset);
    if offset > 0 {
      PositionIsCoordinate(bytes, offset - 1);
      var q := PositionOf(bytes, offset - 1);
      assert bytes[..offset][..offset - 1] == bytes[..offset - 1];
      LinesStand(bytes, q.line - 1);
      StepOn(bytes, lines, q, offset - 1);
    }
  }

  /** Walking to the line and on to the column leads to the offset; an empty artifact has its one empty line here. */
  ghost predicate LeadsTo(bytes: Bytes, line: int, col: int, offset: int) {
    line >= 1 && col >= 1
    && var lines, p := Split(bytes), Position(line, col);
       IsCoordinate(lines, p) && OffsetOf(lines, p) == offset
  }

  /** Counting line feeds up to an offset finds the line and column from which walking leads back to it. */
  lemma {:induction false} LeadsToExactly(bytes: Bytes, line: int, col: int, offset: int)
    ensures LeadsTo(bytes, line, col, offset) <==>
              0 <= offset <= |bytes| && var p := PositionOf(bytes, offset); p.line == line && p.col == col
  {
    if bytes == [] {
      assert Split(bytes) == [[]] && PositionOf(bytes, 0) == Position(1, 1);
    } else {
      if LeadsTo(bytes, line, col, offset) {
        OffsetIsPosition(bytes, line, col);
      }
      if 0 <= offset <= |bytes| {
        PositionIsCoordinate(bytes, offset);
      }
    }
  }

  /** One byte on: past the end of the line only at its line feed. */
  lemma {:induction false} StepOn(bytes: Bytes, lines: seq<Bytes>, q: Position, offset: nat)
    requires offset < |bytes| && IsCoordinate(lines, q) && OffsetOf(lines, q) == offset
    requires StandsIn(bytes, lines, q.line - 1)
    ensures bytes[offset] == LF ==> q.col == |lines[q.line - 1]| + 1 && q.line < |lines|
    ensures bytes[offset] != LF ==> q.col <= |lines[q.line - 1]|
  {
    var l, from := lines[q.line - 1], Start(lines, q.line - 1);
    assert q.col <= |l| ==> bytes[from..from + |l|][q.col - 1] == bytes[offset];
  }

  /** A line and a column of the artifact have an offset, and it leads back to them. */
  lemma {:induction false} OffsetIsPosition(bytes: Bytes, line: nat, col: nat)
    requires IsCoordinate(LinesOf(bytes), Position(line, col))
    ensures var at := OffsetOf(LinesOf(bytes), Position(line, col));
            at <= |bytes| && PositionOf(bytes, at) == Position(line, col)
  {
    var lines := Split(bytes);
    var p := Position(line, col);
    var at := OffsetOf(lines, p);
    LinesStand(bytes, line - 1);
    PositionIsCoordinate(bytes, at);
    CoordinateUnique(lines, p, PositionOf(bytes, at));
  }

  lemma {:induction false} StartGrows(lines: seq<Bytes>, i: nat, j: nat)
    requires i < j <= |lines|
    ensures Start(lines, i) + |lines[i]| < Start(lines, j)
    decreases j
  {
    if i + 1 < j { StartGrows(lines, i, j - 1); }
  }

  lemma {:induction false} CoordinateUnique(lines: seq<Bytes>, p: Position, q: Position)
    requires IsCoordinate(lines, p) && IsCoordinate(lines, q) && OffsetOf(lines, p) == OffsetOf(lines, q)
    ensures p == q
  {
    if p.line < q.line { StartGrows(lines, p.line - 1, q.line - 1); }
    if q.line < p.line { StartGrows(lines, q.line - 1, p.line - 1); }
  }

  /** Different offsets have different positions. */
  lemma {:induction false} PositionsDiffer(bytes: Bytes, a: nat, b: nat)
    requires bytes != []
    ensures a <= |bytes| && b <= |bytes| && PositionOf(bytes, a) == PositionOf(bytes, b) ==> a == b
  {
    if a <= |bytes| && b <= |bytes| {
      PositionIsCoordinate(bytes, a);
      PositionIsCoordinate(bytes, b);
    }
  }

  lemma {:induction false} UnknownLine(bytes: Bytes, line: nat)
    requires line > |LinesOf(bytes)|
    ensures forall col, at, utf8 :: !Accepts(bytes, line, col, at, utf8)
  {
    forall col, at, utf8 | Accepts(bytes, line, col, at, utf8) ensures false { PositionIsCoordinate(bytes, at); }
  }

  lemma {:induction false} UnknownColumn(bytes: Bytes, line: nat, col: nat)
    requires 1 <= line <= |LinesOf(bytes)|
    ensures col > |LinesOf(bytes)[line - 1]| + 1 ==> forall at, utf8 :: !Accepts(bytes, line, col, at, utf8)
  {
    if col > |LinesOf(bytes)[line - 1]| + 1 {
      forall at, utf8 | Accepts(bytes, line, col, at, utf8) ensures false { PositionIsCoordinate(bytes, at); }
    }
  }

  /** The offsets of a non-empty artifact and its lines and columns correspond one to one. */
  lemma {:induction false} Bijection(bytes: Bytes, p: Position)
    requires bytes != []
    ensures IsCoordinate(LinesOf(bytes), p) <==> exists at :: 0 <= at <= |bytes| && PositionOf(bytes, at) == p
    ensures forall a, b ::
              0 <= a <= |bytes| && 0 <= b <= |bytes| && PositionOf(bytes, a) == PositionOf(bytes, b) ==> a == b
  {
    if IsCoordinate(LinesOf(bytes), p) {
      OffsetIsPosition(bytes, p.line, p.col);
      var at := OffsetOf(LinesOf(bytes), p);
      assert PositionOf(bytes, at) == p;
    }
    if at: nat :| at <= |bytes| && PositionOf(bytes, at) == p {
      PositionIsCoordinate(bytes, at);
    }
    forall a: nat, b: nat | a <= |bytes| && b <= |bytes| && PositionOf(bytes, a) == PositionOf(bytes, b)
      ensures a == b
    {
      PositionsDiffer(bytes, a, b);
    }
  }

  /** On an empty artifact the two part: the offset 0 has a position, and no coordinate is accepted. */
  lemma {:induction false} EmptyArtifact(line: nat, col: nat, offset: nat, utf8: bool)
    ensures PositionOf([], 0) == Position(1, 1) && !Accepts([], line, col, offset, utf8)
  {
  }
}
