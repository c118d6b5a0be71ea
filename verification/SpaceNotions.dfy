/** What Go and Python take for space, and the recipe lines that they therefore split differently. */
module SpaceNotions {
  import opened ByteStrings
  import opened SplitQuoted
  import opened QuotingGrammar

  /** `unicode.IsSpace`: the White_Space property of Unicode. */
  predicate GoSpace(r: Rune) {
    || 0x09 <= r <= 0x0d || r == 0x20 || r == 0x85 || r == 0xa0 || r == 0x1680 || 0x2000 <= r <= 0x200a
    || r == 0x2028 || r == 0x2029 || r == 0x202f || r == 0x205f || r == 0x3000
  }

  /** The twenty-five code points with that property. */
  lemma {:induction false} GoSpaceSpells(r: Rune)
    ensures GoSpace(r) <==>
              r in [9, 10, 11, 12, 13, 32, 133, 160, 5760, 8192, 8193, 8194, 8195, 8196, 8197, 8198, 8199, 8200, 8201,
                    8202, 8232, 8233, 8239, 8287, 12288]
  {
  }

  /** The information separators, whose bidirectional class makes them space for Python. */
  predicate IsSeparator(r: Rune) {
    0x1c <= r <= 0x1f
  }

  /** `str.isspace`. */
  predicate PythonSpace(r: Rune) {
    GoSpace(r) || IsSeparator(r)
  }

  /** A line that is one argument for the one and none for the other. */
  lemma {:induction false} SeparatorTellsThemApart()
    ensures Arguments([0x1c], GoSpace) == Some([[0x1c]]) && Arguments([0x1c], PythonSpace) == Some([])
  {
    OneRune(0x1c, GoSpace);
    OneRune(0x1c, PythonSpace);
  }

  // ---- a narrower and a wider notion ----

  ghost predicate Narrower(f: Rune -> bool, g: Rune -> bool) {
    forall r: Rune :: f(r) ==> g(r)
  }

  /** A token that only the wider notion takes for a gap. */
  predicate IsDisputed(k: Token, g: Rune -> bool) {
    k.Plain? && g(k.rune)
  }

  predicate Disputes(ks: seq<Token>, g: Rune -> bool) {
    exists k :: k in ks && IsDisputed(k, g)
  }

  /** The same tokens, as the wider notion sees them. */
  function Widened(ks: seq<Token>, g: Rune -> bool): (w: seq<Token>)
    ensures |w| == |ks|
    ensures forall i :: 0 <= i < |ks| ==> w[i] == if IsDisputed(ks[i], g) then Gap(ks[i].rune) else ks[i]
  {
    if ks == [] then [] else [if IsDisputed(ks[0], g) then Gap(ks[0].rune) else ks[0]] + Widened(ks[1..], g)
  }

  lemma {:induction false} WidenedReads(t: Text, ks: seq<Token>, f: Rune -> bool, g: Rune -> bool)
    requires Narrower(f, g) && Reads(t, ks, f)
    ensures Reads(t, Widened(ks, g), g)
    decreases |ks|
  {
    if ks != [] {
      var w := Widened(ks, g);
      assert ks[0] in ks && forall k :: k in ks[1..] ==> k in ks;
      WidenedReads(LineText(ks[1..]), ks[1..], f, g);
      assert w[1..] == Widened(ks[1..], g) && TokenText(w[0]) == TokenText(ks[0]);
      assert WellFormed(w[0], g);
      assert forall k :: k in w ==> k == w[0] || k in w[1..];
    }
  }

  /** How many runes a list of arguments holds. */
  function Size(args: seq<Text>): nat {
    if args == [] then 0 else |args[0]| + Size(args[1..])
  }

  function MeaningSize(ks: seq<Token>): nat {
    if ks == [] then 0 else (if ks[0].Gap? then 0 else |Meaning(ks[0])|) + MeaningSize(ks[1..])
  }

  lemma {:induction false} WordsHoldMeanings(ks: seq<Token>, before: Option<Text>)
    ensures Size(Words(ks, before)) == |before.GetOr([])| + MeaningSize(ks)
    decreases |ks|
  {
    if ks == [] {
      if before.Some? { assert [before.value][1..] == []; }
    } else if ks[0].Gap? {
      WordsHoldMeanings(ks[1..], None);
      var rest := Words(ks[1..], None);
      assert before.Some? ==> ([before.value] + rest)[1..] == rest;
      assert before.None? ==> [] + rest == rest;
    } else {
      WordsHoldMeanings(ks[1..], Some(before.GetOr([]) + Meaning(ks[0])));
    }
  }

  /** Every disputed rune is lost from the arguments. */
  lemma {:induction false} WideningLoses(ks: seq<Token>, g: Rune -> bool)
    ensures MeaningSize(Widened(ks, g)) <= MeaningSize(ks)
    ensures Disputes(ks, g) ==> MeaningSize(Widened(ks, g)) < MeaningSize(ks)
    ensures !Disputes(ks, g) ==> Widened(ks, g) == ks
    decreases |ks|
  {
    if ks != [] {
      WideningLoses(ks[1..], g);
      var w := Widened(ks, g);
      assert w[1..] == Widened(ks[1..], g);
      assert ks[0] in ks && forall k :: k in ks[1..] ==> k in ks;
      assert Disputes(ks, g) ==> IsDisputed(ks[0], g) || Disputes(ks[1..], g);
    }
  }

  /** Quotes and backslashes do not depend on the spaces, so a line is refused by both or by none. */
  lemma {:induction false} RefusedAlike(s: State, p: State, t: Text, f: Rune -> bool, g: Rune -> bool)
    requires s.escaped == p.escaped && s.quote == p.quote
    ensures Finish(Run(s, t, f)).None? <==> Finish(Run(p, t, g)).None?
    decreases |t|
  {
    if t != [] {
      RefusedAlike(Step(s, t[0], f), Step(p, t[0], g), t[1..], f, g);
    }
  }

  /** The notions split a line differently exactly when it reads with a rune outside quotes that only one takes for
      space. */
  lemma {:induction false} DifferExactly(t: Text, f: Rune -> bool, g: Rune -> bool)
    requires Narrower(f, g)
    ensures Arguments(t, f) != Arguments(t, g) <==> exists ks :: Reads(t, ks, f) && Disputes(ks, g)
  {
    hide Run, Reads, Words, LineText, Finish, Disputes, Narrower;
    RefusedAlike(START, START, t, f, g);
    if ks :| Reads(t, ks, f) && Disputes(ks, g) {
      BothReadings(t, ks, f, g);
    }
    if Arguments(t, f) != Arguments(t, g) {
      var ks := AcceptedIsLine(START, t, f);
      BothReadings(t, ks, f, g);
    }
  }

  lemma {:induction false} BothReadings(t: Text, ks: seq<Token>, f: Rune -> bool, g: Rune -> bool)
    requires Narrower(f, g) && Reads(t, ks, f)
    ensures Arguments(t, f) != Arguments(t, g) <==> Disputes(ks, g)
  {
    hide Run, Reads, Words, LineText, Finish, Disputes, Narrower, Arguments, Widened, MeaningSize, Size;
    var w := Widened(ks, g);
    WidenedReads(t, ks, f, g);
    LineHasWords(t, ks, f);
    LineHasWords(t, w, g);
    WideningLoses(ks, g);
    WordsHoldMeanings(ks, None);
    WordsHoldMeanings(w, None);
  }

  /** Go and Python split a line differently exactly when a separator stands in it outside quotes and without a
      backslash. */
  lemma {:induction false} LanguagesDifferExactly(t: Text)
    ensures Arguments(t, GoSpace) != Arguments(t, PythonSpace) <==>
              exists ks: seq<Token>, k: Token :: Reads(t, ks, GoSpace) && k in ks && k.Plain? && IsSeparator(k.rune)
  {
    hide Run, LineText, Finish;
    assert Narrower(GoSpace, PythonSpace);
    DifferExactly(t, GoSpace, PythonSpace);
    if ks :| Reads(t, ks, GoSpace) && Disputes(ks, PythonSpace) {
      var k :| k in ks && IsDisputed(k, PythonSpace);
      assert WellFormed(k, GoSpace);
    }
    if ks: seq<Token>, k: Token :| Reads(t, ks, GoSpace) && k in ks && k.Plain? && IsSeparator(k.rune) {
      assert IsDisputed(k, PythonSpace);
      assert Disputes(ks, PythonSpace);
    }
  }
}
