/** Splitting a recipe line into arguments: one state machine, written twice. */
module SplitQuoted {
  import opened ByteStrings

  /** A Unicode code point, as both languages iterate over a string. */
  type Rune = r: int | 0 <= r < 0x11_0000

  type Text = seq<Rune>

  const BACKSLASH: Rune := 0x5c
  const DOUBLE: Rune := 0x22
  const SINGLE: Rune := 0x27

  // ---- the state machine ----

  datatype State = State(args: seq<Text>, arg: Text, escaped: bool, quoted: bool, quote: Option<Rune>)

  const START := State([], [], false, false, None)

  function Take(s: State, r: Rune): State {
    s.(arg := s.arg + [r])
  }

  function EndArgument(s: State): State {
    if s.quoted || s.arg != [] then s.(args := s.args + [s.arg], arg := [], quoted := false) else s
  }

  function Step(s: State, r: Rune, isSpace: Rune -> bool): State {
    if s.escaped then Take(s.(escaped := false), r)
    else if r == BACKSLASH then s.(escaped := true)
    else if s.quote.Some? then
      if r == s.quote.value then s.(quote := None) else Take(s, r)
    else if r == DOUBLE || r == SINGLE then s.(quoted := true, quote := Some(r))
    else if isSpace(r) then EndArgument(s)
    else Take(s, r)
  }

  function Run(s: State, t: Text, isSpace: Rune -> bool): State
    decreases |t|
  {
    if t == [] then s else Run(Step(s, t[0], isSpace), t[1..], isSpace)
  }

  /** The arguments, unless a quote stays open or a backslash stands last. */
  function Finish(s: State): Option<seq<Text>> {
    if s.quote.Some? || s.escaped then None else Some(EndArgument(s).args)
  }

  function Arguments(t: Text, isSpace: Rune -> bool): Option<seq<Text>> {
    Finish(Run(START, t, isSpace))
  }

  // ---- the two programs ----

  /** What one step of Go's range loop takes from the string: a code point, and the bytes it was read from. */
  datatype Decoded = Decoded(rune: Rune, width: nat)

  function ByteLength(s: seq<Decoded>): nat {
    if s == [] then 0 else ByteLength(s[..|s| - 1]) + s[|s| - 1].width
  }

  function Runes(s: seq<Decoded>): (t: Text)
    ensures |t| == |s| && forall i :: 0 <= i < |t| ==> t[i] == s[i].rune
  {
    seq(|s|, i requires 0 <= i < |s| => s[i].rune)
  }

  lemma {:induction false} RunesFit(s: seq<Decoded>, n: nat)
    requires n <= |s| && forall i :: 0 <= i < |s| ==> s[i].width >= 1
    ensures n <= ByteLength(s[..n]) <= ByteLength(s)
    decreases |s|
  {
    if n < |s| {
      RunesFit(s[..|s| - 1], n);
      assert s[..|s| - 1][..n] == s[..n];
    } else if n > 0 {
      RunesFit(s[..n - 1], n - 1);
      assert s[..n] == s && s[..n - 1][..n - 1] == s[..n - 1];
    }
  }

  /** `splitQuoted`: the buffer has as many runes as the string has bytes. */
  method SplitInGo(s: seq<Decoded>, isSpace: Rune -> bool) returns (r: Option<seq<Text>>)
    requires forall i :: 0 <= i < |s| ==> s[i].width >= 1
    ensures r == Arguments(Runes(s), isSpace)
  {
    hide ByteLength, Runes;
    var args: seq<Text> := [];
    var arg := new Rune[ByteLength(s)](_ => 0);
    var escaped, quoted := false, false;
    var quote: Option<Rune> := None;
    var i := 0;
    ghost var t := Runes(s);
    RunesFit(s, |s|);
    assert t[0..] == t && s[..|s|] == s;
    var n := 0;
    while n < |s|
      invariant i <= n <= |s| <= arg.Length
      invariant Run(State(args, arg[..i], escaped, quoted, quote), t[n..], isSpace) == Run(START, t, isSpace)
    {
      var c := s[n].rune;
      ghost var before := State(args, arg[..i], escaped, quoted, quote);
      assert t[n..][0] == c && t[n..][1..] == t[n + 1..];
      n := n + 1;
      if escaped {
        escaped := false;
      } else if c == BACKSLASH {
        escaped := true;
        continue;
      } else if quote.Some? {
        if c == quote.value {
          quote := None;
          continue;
        }
      } else if c == DOUBLE || c == SINGLE {
        quoted := true;
        quote := Some(c);
        continue;
      } else if isSpace(c) {
        if quoted || i > 0 {
          quoted := false;
          args := args + [arg[..i]];
          i := 0;
        }
        continue;
      }
      arg[i] := c;
      i := i + 1;
      assert arg[..i] == before.arg + [c];
    }
    assert t[n..] == [];
    if quoted || i > 0 {
      args := args + [arg[..i]];
    }
    if quote.Some? { return None; }
    if escaped { return None; }
    return Some(args);
  }

  /** `split_quoted`, which builds lists and refuses before the last argument is closed. */
  method SplitInPython(t: Text, isSpace: Rune -> bool) returns (r: Option<seq<Text>>)
    ensures r == Arguments(t, isSpace)
  {
    var out: seq<Text> := [];
    var arg: Text := [];
    var quote: Option<Rune> := None;
    var quoted, escaped := false, false;
    assert t[0..] == t;
    var n := 0;
    while n < |t|
      invariant n <= |t|
      invariant Run(State(out, arg, escaped, quoted, quote), t[n..], isSpace) == Run(START, t, isSpace)
    {
      var ch := t[n];
      assert t[n..][0] == ch && t[n..][1..] == t[n + 1..];
      n := n + 1;
      if escaped {
        escaped := false;
      } else if ch == BACKSLASH {
        escaped := true;
        continue;
      } else if quote.Some? {
        if ch == quote.value {
          quote := None;
          continue;
        }
      } else if ch == DOUBLE || ch == SINGLE {
        quote, quoted := Some(ch), true;
        continue;
      } else if isSpace(ch) {
        if quoted || arg != [] {
          out := out + [arg];
          arg, quoted := [], false;
        }
        continue;
      }
      arg := arg + [ch];
    }
    assert t[n..] == [];
    if quote.Some? || escaped { return None; }
    if quoted || arg != [] {
      out := out + [arg];
    }
    return Some(out);
  }

  // ---- whose spaces ----

  predicate IsSpecial(r: Rune) {
    r == BACKSLASH || r == DOUBLE || r == SINGLE
  }

  ghost predicate SameSpaces(f: Rune -> bool, g: Rune -> bool) {
    forall r: Rune :: !IsSpecial(r) ==> f(r) == g(r)
  }

  /** Two splitters agree on every line exactly when they agree on what space is, quotes and backslashes apart. */
  lemma {:induction false} AgreeIffSameSpaces(f: Rune -> bool, g: Rune -> bool)
    ensures (forall t :: Arguments(t, f) == Arguments(t, g)) <==> SameSpaces(f, g)
  {
    if SameSpaces(f, g) {
      forall t ensures Arguments(t, f) == Arguments(t, g) {
        SameRun(START, t, f, g);
      }
    } else {
      var r: Rune :| !IsSpecial(r) && f(r) != g(r);
      OneRune(r, f);
      OneRune(r, g);
      assert Arguments([r], f) != Arguments([r], g);
    }
  }

  lemma {:induction false} OneRune(r: Rune, isSpace: Rune -> bool)
    requires !IsSpecial(r)
    ensures Arguments([r], isSpace) == Some(if isSpace(r) then [] else [[r]])
  {
    var s := Step(START, r, isSpace);
    assert [r][1..] == [];
    assert Run(START, [r], isSpace) == Run(s, [], isSpace) == s;
    assert s == if isSpace(r) then START else Take(START, r);
    assert [] + [r] == [r] && [] + [[r]] == [[r]];
  }

  lemma {:induction false} SameRun(s: State, t: Text, f: Rune -> bool, g: Rune -> bool)
    requires SameSpaces(f, g)
    ensures Run(s, t, f) == Run(s, t, g)
    decreases |t|
  {
    if t != [] {
      assert !IsSpecial(t[0]) ==> f(t[0]) == g(t[0]);
      SameRun(Step(s, t[0], f), t[1..], f, g);
    }
  }

  // ---- quoting ----

  /** An argument between quotes, and the space that follows it. */
  datatype Piece = Piece(arg: Text, quote: Rune, gap: Text)

  /** Backslashes stand before the quote, before backslashes, and wherever else the writer likes them. */
  function Escaped(arg: Text, quote: Rune, also: Rune -> bool): Text {
    if arg == [] then []
    else
      (if arg[0] == quote || arg[0] == BACKSLASH || also(arg[0]) then [BACKSLASH, arg[0]] else [arg[0]])
      + Escaped(arg[1..], quote, also)
  }

  function Quoted(arg: Text, quote: Rune, also: Rune -> bool): Text {
    [quote] + (Escaped(arg, quote, also) + [quote])
  }

  function Line(pieces: seq<Piece>, also: Rune -> bool): Text {
    if pieces == [] then []
    else Quoted(pieces[0].arg, pieces[0].quote, also) + pieces[0].gap + Line(pieces[1..], also)
  }

  /** Every gap is space, and only the last may be empty. */
  ghost predicate WellSpaced(pieces: seq<Piece>, isSpace: Rune -> bool) {
    && (forall p :: p in pieces ==> p.quote == DOUBLE || p.quote == SINGLE)
    && (forall p :: p in pieces ==> forall r :: r in p.gap ==> isSpace(r) && !IsSpecial(r))
    && forall i :: 0 <= i < |pieces| - 1 ==> pieces[i].gap != []
  }

  function ArgsOf(pieces: seq<Piece>): seq<Text> {
    if pieces == [] then [] else [pieces[0].arg] + ArgsOf(pieces[1..])
  }

  lemma {:induction false} RunAppend(s: State, a: Text, b: Text, isSpace: Rune -> bool)
    ensures Run(s, a + b, isSpace) == Run(Run(s, a, isSpace), b, isSpace)
    decreases |a|
  {
    if a == [] {
      assert a + b == b;
    } else {
      assert (a + b)[1..] == a[1..] + b;
      RunAppend(Step(s, a[0], isSpace), a[1..], b, isSpace);
    }
  }

  lemma {:induction false} EscapedIsTaken(s: State, arg: Text, quote: Rune, also: Rune -> bool, isSpace: Rune -> bool)
    requires !s.escaped && s.quote == Some(quote) && (quote == DOUBLE || quote == SINGLE)
    ensures Run(s, Escaped(arg, quote, also), isSpace) == s.(arg := s.arg + arg)
    decreases |arg|
  {
    if arg == [] {
      assert s.arg + arg == s.arg;
    } else {
      var r, rest := arg[0], Escaped(arg[1..], quote, also);
      assert s.arg + arg == s.arg + [r] + arg[1..];
      EscapedIsTaken(Take(s, r), arg[1..], quote, also, isSpace);
      if r == quote || r == BACKSLASH || also(r) {
        TwoSteps(s, BACKSLASH, r, rest, isSpace);
      } else {
        assert ([r] + rest)[1..] == rest;
      }
    }
  }

  lemma {:induction false} TwoSteps(s: State, a: Rune, b: Rune, rest: Text, isSpace: Rune -> bool)
    ensures Run(s, [a, b] + rest, isSpace) == Run(Step(Step(s, a, isSpace), b, isSpace), rest, isSpace)
  {
    assert ([a, b] + rest)[1..] == [b] + rest && ([b] + rest)[1..] == rest;
  }

  lemma {:induction false} QuotedIsTaken(s: State, arg: Text, quote: Rune, also: Rune -> bool, isSpace: Rune -> bool)
    requires s.arg == [] && !s.escaped && s.quote == None && (quote == DOUBLE || quote == SINGLE)
    ensures Run(s, Quoted(arg, quote, also), isSpace) == s.(arg := arg, quoted := true)
  {
    var body := Escaped(arg, quote, also);
    var open := Step(s, quote, isSpace);
    assert ([quote] + (body + [quote]))[1..] == body + [quote];
    RunAppend(open, body, [quote], isSpace);
    EscapedIsTaken(open, arg, quote, also, isSpace);
    assert [] + arg == arg && [quote][1..] == [];
  }

  lemma {:induction false} GapEnds(s: State, gap: Text, isSpace: Rune -> bool)
    requires !s.escaped && s.quote == None && forall r :: r in gap ==> isSpace(r) && !IsSpecial(r)
    ensures Run(s, gap, isSpace) == if gap == [] then s else EndArgument(s)
    decreases |gap|
  {
    if gap != [] {
      assert gap[0] in gap;
      GapEnds(EndArgument(s), gap[1..], isSpace);
    }
  }

  lemma {:induction false} PieceIsTaken(s: State, p: Piece, also: Rune -> bool, isSpace: Rune -> bool)
    requires s.arg == [] && !s.escaped && s.quote == None && (p.quote == DOUBLE || p.quote == SINGLE)
    requires forall r :: r in p.gap ==> isSpace(r) && !IsSpecial(r)
    ensures var taken := s.(arg := p.arg, quoted := true);
            Run(s, Quoted(p.arg, p.quote, also) + p.gap, isSpace) == if p.gap == [] then taken else EndArgument(taken)
  {
    hide Quoted, Run, EndArgument;
    RunAppend(s, Quoted(p.arg, p.quote, also), p.gap, isSpace);
    QuotedIsTaken(s, p.arg, p.quote, also, isSpace);
    GapEnds(s.(arg := p.arg, quoted := true), p.gap, isSpace);
  }

  lemma {:induction false} LineIsTaken(s: State, pieces: seq<Piece>, also: Rune -> bool, isSpace: Rune -> bool)
    requires s.arg == [] && !s.escaped && !s.quoted && s.quote == None && WellSpaced(pieces, isSpace)
    ensures Finish(Run(s, Line(pieces, also), isSpace)) == Some(s.args + ArgsOf(pieces))
    decreases |pieces|
  {
    hide Quoted, Run;
    RunNothing(s, isSpace);
    if pieces == [] {
      assert s.args + [] == s.args;
    } else {
      var p, rest := pieces[0], pieces[1..];
      assert p in pieces;
      PieceIsTaken(s, p, also, isSpace);
      RunAppend(s, Quoted(p.arg, p.quote, also) + p.gap, Line(rest, also), isSpace);
      var ended := EndArgument(s.(arg := p.arg, quoted := true));
      assert ended.args == s.args + [p.arg];
      if rest != [] {
        LineIsTaken(ended, rest, also, isSpace);
        assert s.args + [p.arg] + ArgsOf(rest) == s.args + ([p.arg] + ArgsOf(rest));
      } else {
        RunNothing(ended, isSpace);
        RunNothing(s.(arg := p.arg, quoted := true), isSpace);
        assert ended.args + [] == ended.args && [p.arg] + [] == [p.arg];
      }
    }
  }

  lemma {:induction false} RunNothing(s: State, isSpace: Rune -> bool)
    ensures Run(s, [], isSpace) == s
  {
  }

  /** Splitting recovers every list of arguments, empty ones too, from its quoted and escaped rendering. */
  lemma {:induction false} SplittingUndoesQuoting(pieces: seq<Piece>, also: Rune -> bool, isSpace: Rune -> bool)
    requires WellSpaced(pieces, isSpace)
    ensures Arguments(Line(pieces, also), isSpace) == Some(ArgsOf(pieces))
  {
    LineIsTaken(START, pieces, also, isSpace);
    assert [] + ArgsOf(pieces) == ArgsOf(pieces);
  }
}
