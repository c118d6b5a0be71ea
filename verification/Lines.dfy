/** Text as lines: splitting at line feeds and joining with them. */
module Lines {
  import opened ByteStrings

  const LF: byte := 0x0a

  /** `strings.Join(lines, "\n")`. */
  function Join(lines: seq<Bytes>): Bytes {
    if lines == [] then [] else if |lines| == 1 then lines[0] else lines[0] + [LF] + Join(lines[1..])
  }

  /** `strings.Split(text, "\n")`. */
  function Split(text: Bytes): (lines: seq<Bytes>)
    ensures lines != []
  {
    if text == [] then [[]]
    else
      var rest := Split(text[1..]);
      if text[0] == LF then [[]] + rest else [[text[0]] + rest[0]] + rest[1..]
  }

  lemma {:induction false} JoinUndoesSplit(text: Bytes)
    ensures Join(Split(text)) == text
  {
    if text != [] {
      JoinUndoesSplit(text[1..]);
      var rest := Split(text[1..]);
      if text[0] == LF {
        assert ([[]] + rest)[1..] == rest;
        assert Join([[]] + rest) == [] + [LF] + Join(rest);
      } else {
        var lines := [[text[0]] + rest[0]] + rest[1..];
        assert lines[1..] == rest[1..];
        assert Join(lines) == [text[0]] + Join(rest);
      }
    }
  }

  lemma {:induction false} SplitOneLine(line: Bytes, text: Bytes)
    requires LF !in line
    ensures Split(line) == [line]
    ensures Split(line + [LF] + text) == [line] + Split(text)
  {
    if line == [] {
      assert line + [LF] + text == [LF] + text;
      assert ([LF] + text)[1..] == text;
    } else {
      SplitOneLine(line[1..], text);
      assert (line + [LF] + text)[1..] == line[1..] + [LF] + text;
      assert [line[0]] + line[1..] == line;
    }
  }

  lemma {:induction false} SplitUndoesJoin(lines: seq<Bytes>)
    requires lines != [] && forall l :: l in lines ==> LF !in l
    ensures Split(Join(lines)) == lines
  {
    assert lines[0] in lines;
    if |lines| == 1 {
      SplitOneLine(lines[0], []);
    } else {
      SplitUndoesJoin(lines[1..]);
      SplitOneLine(lines[0], Join(lines[1..]));
    }
  }

  /** Joined lines end as their last line does, so that no line end is left over. */
  lemma {:induction false} JoinEnds(lines: seq<Bytes>)
    requires lines != [] && forall l :: l in lines ==> l != [] && LF !in l
    ensures Join(lines) != [] && Join(lines)[|Join(lines)| - 1] != LF
  {
    var l := lines[0];
    assert l in lines && l[|l| - 1] in l;
    if |lines| > 1 {
      assert forall t :: t in lines[1..] ==> t in lines;
      JoinEnds(lines[1..]);
    }
  }

  lemma {:induction false} SplitIsClean(text: Bytes)
    ensures forall l :: l in Split(text) ==> LF !in l
  {
    if text != [] {
      SplitIsClean(text[1..]);
      var rest := Split(text[1..]);
      assert rest[0] in rest;
      if text[0] != LF {
        assert LF !in [text[0]] + rest[0];
      }
    }
  }

  /** Where line `i` starts: after the lines before it, each with its line feed. */
  function Start(lines: seq<Bytes>, i: nat): nat
    requires i <= |lines|
  {
    if i == 0 then 0 else Start(lines, i - 1) + |lines[i - 1]| + 1
  }

  /** Line `i` stands at its start, holds no line feed, and ends at one or at the end of the text. */
  ghost predicate StandsIn(text: Bytes, lines: seq<Bytes>, i: nat)
    requires i < |lines|
  {
    var from, width := Start(lines, i), |lines[i]|;
    && from + width <= |text| && text[from..from + width] == lines[i] && LF !in lines[i]
    && (if i + 1 < |lines| then from + width < |text| && text[from + width] == LF else from + width == |text|)
  }

  lemma {:induction false} StartOfTail(lines: seq<Bytes>, i: nat)
    requires 0 < i <= |lines|
    ensures Start(lines, i) == |lines[0]| + 1 + Start(lines[1..], i - 1)
  {
    if i > 1 { StartOfTail(lines, i - 1); }
  }

  lemma {:induction false} JoinedStand(lines: seq<Bytes>, i: nat)
    requires i < |lines| && forall l :: l in lines ==> LF !in l
    ensures StandsIn(Join(lines), lines, i)
    decreases |lines|
  {
    assert lines[0] in lines;
    if i > 0 {
      assert forall l :: l in lines[1..] ==> l in lines;
      JoinedStand(lines[1..], i - 1);
      StartOfTail(lines, i);
      var from, width := Start(lines[1..], i - 1), |lines[i]|;
      var text, head := Join(lines), |lines[0]| + 1;
      assert text[head..] == Join(lines[1..]);
      assert text[head + from..head + from + width] == text[head..][from..from + width];
    }
  }

  lemma {:induction false} LinesStand(text: Bytes, i: nat)
    requires i < |Split(text)|
    ensures StandsIn(text, Split(text), i)
  {
    SplitIsClean(text);
    JoinUndoesSplit(text);
    JoinedStand(Split(text), i);
  }
}
