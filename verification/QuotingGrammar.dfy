/** The grammar of a recipe line, written without a state machine: words of tokens between gaps. */
module QuotingGrammar {
  import opened ByteStrings
  import opened SplitQuoted

  /** A rune between quotes, perhaps behind a backslash. */
  datatype Inner = Inner(rune: Rune, escaped: bool)

  datatype Token =
    | Gap(rune: Rune)
    | Plain(rune: Rune)
    | Escape(rune: Rune)
    | Section(quote: Rune, body: seq<Inner>)

  function BodyText(body: seq<Inner>): Text {
    if body == [] then []
    else (if body[0].escaped then [BACKSLASH, body[0].rune] else [body[0].rune]) + BodyText(body[1..])
  }

  function BodyRunes(body: seq<Inner>): Text {
    if body == [] then [] else [body[0].rune] + BodyRunes(body[1..])
  }

  function TokenText(k: Token): (t: Text)
    ensures t != []
  {
    match k
    case Gap(r) => [r]
    case Plain(r) => [r]
    case Escape(r) => [BACKSLASH, r]
    case Section(q, body) => [q] + (BodyText(body) + [q])
  }

  ghost predicate WellFormed(k: Token, isSpace: Rune -> bool) {
    match k
    case Gap(r) => !IsSpecial(r) && isSpace(r)
    case Plain(r) => !IsSpecial(r) && !isSpace(r)
    case Escape(_) => true
    case Section(q, body) => (q == DOUBLE || q == SINGLE) && WellQuoted(body, q)
  }

  ghost predicate WellQuoted(body: seq<Inner>, q: Rune) {
    forall i :: i in body ==> i.escaped || (i.rune != q && i.rune != BACKSLASH)
  }

  function LineText(ks: seq<Token>): Text {
    if ks == [] then [] else TokenText(ks[0]) + LineText(ks[1..])
  }

  /** What a token adds to the word that it belongs to. */
  function Meaning(k: Token): Text
    requires !k.Gap?
  {
    match k
    case Plain(r) => [r]
    case Escape(r) => [r]
    case Section(_, body) => BodyRunes(body)
  }

  /** The words of a line; `open` is the part before it of a word that has begun. */
  function Words(ks: seq<Token>, open: Option<Text>): seq<Text>
    decreases |ks|
  {
    if ks == [] then if open.Some? then [open.value] else []
    else if ks[0].Gap? then (if open.Some? then [open.value] else []) + Words(ks[1..], None)
    else Words(ks[1..], Some(open.GetOr([]) + Meaning(ks[0])))
  }

  // ---- one way to read a line ----

  ghost predicate Reads(t: Text, ks: seq<Token>, isSpace: Rune -> bool) {
    t == LineText(ks) && forall k :: k in ks ==> WellFormed(k, isSpace)
  }

  /** The word under way in a state between two tokens. */
  function OpenWord(s: State): Option<Text> {
    if s.quoted || s.arg != [] then Some(s.arg) else None
  }

  predicate Between(s: State) {
    !s.escaped && s.quote == None
  }

  lemma {:induction false} BodyIsTaken(s: State, body: seq<Inner>, q: Rune, isSpace: Rune -> bool)
    requires !s.escaped && s.quote == Some(q) && WellQuoted(body, q)
    requires q == DOUBLE || q == SINGLE
    ensures Run(s, BodyText(body), isSpace) == s.(arg := s.arg + BodyRunes(body))
    decreases |body|
  {
    if body == [] {
      assert s.arg + [] == s.arg;
    } else {
      var i, rest := body[0], BodyText(body[1..]);
      assert i in body;
      assert s.arg + ([i.rune] + BodyRunes(body[1..])) == s.arg + [i.rune] + BodyRunes(body[1..]);
      BodyIsTaken(Take(s, i.rune), body[1..], q, isSpace);
      if i.escaped {
        TwoSteps(s, BACKSLASH, i.rune, rest, isSpace);
      } else {
        assert ([i.rune] + rest)[1..] == rest;
      }
    }
  }

  /** After a token the machine stands between tokens again, with the word that the token leaves. */
  lemma {:induction false} TokenIsTaken(s: State, k: Token, isSpace: Rune -> bool)
    requires Between(s) && WellFormed(k, isSpace)
    ensures var after := Run(s, TokenText(k), isSpace);
            Between(after)
            && (if k.Gap? then
                  after.args == s.args + (if OpenWord(s).Some? then [s.arg] else []) && OpenWord(after) == None
                else after.args == s.args && OpenWord(after) == Some(OpenWord(s).GetOr([]) + Meaning(k)))
  {
    match k
    case Gap(r) =>
      RunOne(s, r, isSpace);
      assert s.args + [] == s.args;
    case Plain(r) =>
      RunOne(s, r, isSpace);
    case Escape(r) =>
      assert [BACKSLASH, r] + [] == [BACKSLASH, r];
      TwoSteps(s, BACKSLASH, r, [], isSpace);
      RunNothing(Step(Step(s, BACKSLASH, isSpace), r, isSpace), isSpace);
    case Section(q, body) =>
      var text := BodyText(body);
      assert ([q] + (text + [q]))[1..] == text + [q];
      var open := Step(s, q, isSpace);
      BodyIsTaken(open, body, q, isSpace);
      RunAppend(open, text, [q], isSpace);
      RunOne(open.(arg := s.arg + BodyRunes(body)), q, isSpace);
      assert s.arg == [] ==> s.arg + BodyRunes(body) == BodyRunes(body);
  }

  lemma {:induction false} RunOne(s: State, r: Rune, isSpace: Rune -> bool)
    ensures Run(s, [r], isSpace) == Step(s, r, isSpace)
  {
    assert [r][1..] == [];
    RunNothing(Step(s, r, isSpace), isSpace);
  }

  /** A line of well-formed tokens is accepted, and its arguments are its words. */
  lemma {:induction false} LineIsRead(s: State, ks: seq<Token>, isSpace: Rune -> bool)
    requires Between(s) && forall k :: k in ks ==> WellFormed(k, isSpace)
    ensures Finish(Run(s, LineText(ks), isSpace)) == Some(s.args + Words(ks, OpenWord(s)))
    decreases |ks|
  {
    hide Run, TokenText, WellFormed, Meaning;
    if ks == [] {
      RunNothing(s, isSpace);
      assert s.args + [] == s.args;
    } else {
      assert ks[0] in ks;
      TokenIsTaken(s, ks[0], isSpace);
      RunAppend(s, TokenText(ks[0]), LineText(ks[1..]), isSpace);
      var after := Run(s, TokenText(ks[0]), isSpace);
      LineIsRead(after, ks[1..], isSpace);
      if ks[0].Gap? {
        var ended := if OpenWord(s).Some? then [s.arg] else [];
        assert s.args + ended + Words(ks[1..], None) == s.args + (ended + Words(ks[1..], None));
      }
    }
  }

  /** A section that is closed somewhere has a body and a rest. */
  lemma {:induction false} FindClose(s: State, t: Text, q: Rune, isSpace: Rune -> bool)
    returns (body: seq<Inner>, rest: Text)
    requires !s.escaped && s.quote == Some(q) && (q == DOUBLE || q == SINGLE)
    requires Finish(Run(s, t, isSpace)).Some?
    ensures t == BodyText(body) + [q] + rest && WellQuoted(body, q)
    decreases |t|
  {
    if t[0] == q {
      body, rest := [], t[1..];
      assert t == [] + [q] + rest;
    } else if t[0] == BACKSLASH {
      var more;
      assert t == [BACKSLASH, t[1]] + t[2..];
      TwoSteps(s, BACKSLASH, t[1], t[2..], isSpace);
      more, rest := FindClose(Take(s, t[1]), t[2..], q, isSpace);
      body := [Inner(t[1], true)] + more;
      assert body[1..] == more;
      assert t == [BACKSLASH, t[1]] + (BodyText(more) + [q] + rest) == BodyText(body) + [q] + rest;
    } else {
      var more;
      more, rest := FindClose(Take(s, t[0]), t[1..], q, isSpace);
      body := [Inner(t[0], false)] + more;
      assert body[1..] == more;
      assert t == [t[0]] + (BodyText(more) + [q] + rest) == BodyText(body) + [q] + rest;
    }
  }

  /** The first token of an accepted line. */
  lemma {:induction false} FirstToken(s: State, t: Text, isSpace: Rune -> bool) returns (k: Token, rest: Text)
    requires Between(s) && t != [] && Finish(Run(s, t, isSpace)).Some?
    ensures WellFormed(k, isSpace) && t == TokenText(k) + rest
  {
    var r := t[0];
    assert t == [r] + t[1..];
    if r == BACKSLASH {
      k, rest := Escape(t[1]), t[2..];
      assert t == [BACKSLASH, t[1]] + rest;
    } else if r == DOUBLE || r == SINGLE {
      var body;
      body, rest := FindClose(Step(s, r, isSpace), t[1..], r, isSpace);
      k := Section(r, body);
      assert t == [r] + (BodyText(body) + [r] + rest) == TokenText(k) + rest;
    } else {
      k, rest := if isSpace(r) then Gap(r) else Plain(r), t[1..];
    }
  }

  /** Every accepted line is a line of well-formed tokens. */
  lemma {:induction false} AcceptedIsLine(s: State, t: Text, isSpace: Rune -> bool) returns (ks: seq<Token>)
    requires Between(s) && Finish(Run(s, t, isSpace)).Some?
    ensures Reads(t, ks, isSpace)
    decreases |t|
  {
    hide Run, TokenText, WellFormed, Finish;
    if t == [] {
      ks := [];
    } else {
      var k, rest := FirstToken(s, t, isSpace);
      TokenIsTaken(s, k, isSpace);
      RunAppend(s, TokenText(k), rest, isSpace);
      var more := AcceptedIsLine(Run(s, TokenText(k), isSpace), rest, isSpace);
      ks := [k] + more;
      assert ks[1..] == more;
    }
  }

  /** A line has these arguments exactly when it reads as tokens whose words they are; any other line is refused. */
  lemma {:induction false} AcceptsExactly(t: Text, isSpace: Rune -> bool, args: seq<Text>)
    ensures Arguments(t, isSpace) == Some(args) <==> exists ks :: Reads(t, ks, isSpace) && Words(ks, None) == args
  {
    hide Run, Reads, LineText, Words, Finish;
    if ks :| Reads(t, ks, isSpace) && Words(ks, None) == args {
      LineHasWords(t, ks, isSpace);
    }
    if Arguments(t, isSpace) == Some(args) {
      var ks := AcceptedIsLine(START, t, isSpace);
      LineHasWords(t, ks, isSpace);
    }
  }

  lemma {:induction false} LineHasWords(t: Text, ks: seq<Token>, isSpace: Rune -> bool)
    requires Reads(t, ks, isSpace)
    ensures Arguments(t, isSpace) == Some(Words(ks, None))
  {
    hide Run, Words, LineText, Finish;
    LineIsRead(START, ks, isSpace);
    assert [] + Words(ks, None) == Words(ks, None);
  }
}
