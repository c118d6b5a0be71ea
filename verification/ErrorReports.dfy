/** What each report says of the diagnostics and the annotations, letter by letter. */
module ErrorReports {
  import opened ByteStrings
  import opened Digits
  import opened ErrorCheck

  // ---- what an annotation claims ----

  /** The diagnostic stands where the annotation does; one for generated code stands at `<autogenerated>`. */
  predicate AtPlace(w: Wanted, m: Bytes) {
    MatchPrefix(m, if w.auto then Ascii("<autogenerated>") else w.file + Ascii(":") + FormatNat(w.line))
  }

  /** The message is what follows the first space, or the whole when there is none. */
  ghost predicate Says(m: Bytes, text: Bytes) {
    (text == m && Spaceless(m)) || exists word :: Spaceless(word) && m == word + Ascii(" ") + text
  }

  predicate Spaceless(t: Bytes) {
    forall c :: c in t ==> c as char != ' '
  }

  ghost predicate Claims(w: Wanted, m: Bytes, matches: Matcher) {
    AtPlace(w, m) && exists text :: Says(m, text) && matches(w.pattern, text)
  }

  lemma {:induction false} TextSpells(m: Bytes, text: Bytes)
    ensures TextOf(m) == text <==> Says(m, text)
  {
    hide Spaceless, IndexOf;
    NoSpaceAt(m);
    if exists word :: Spaceless(word) && m == word + Ascii(" ") + text {
      var word :| Spaceless(word) && m == word + Ascii(" ") + text;
      FirstSpace(word, text);
    }
    TextIsSaid(m);
  }

  lemma {:induction false} NoSpaceAt(m: Bytes)
    ensures Spaceless(m) <==> IndexOf(m, SPACE) == |m|
  {
    var i := IndexOf(m, SPACE);
    if i < |m| { assert m[i] in m; }
  }

  lemma {:induction false} TextIsSaid(m: Bytes)
    ensures Says(m, TextOf(m))
  {
    hide Spaceless, IndexOf;
    NoSpaceAt(m);
    var i := IndexOf(m, SPACE);
    if i < |m| {
      assert Ascii(" ") == [SPACE];
      assert m == m[..i] + Ascii(" ") + m[i + 1..];
      assert Spaceless(m[..i]) by { HeadIsSpaceless(m, i); }
    }
  }

  lemma {:induction false} HeadIsSpaceless(m: Bytes, i: nat)
    requires i <= IndexOf(m, SPACE)
    ensures Spaceless(m[..i])
  {
  }

  lemma {:induction false} FirstSpace(word: Bytes, text: Bytes)
    requires Spaceless(word)
    ensures var m := word + Ascii(" ") + text; IndexOf(m, SPACE) == |word| && m[|word| + 1..] == text
  {
    var m := word + Ascii(" ") + text;
    assert m[|word|] == SPACE && forall k :: 0 <= k < |word| ==> m[k] == word[k];
    forall k | 0 <= k < |word| ensures m[k] != SPACE { assert word[k] in word; }
  }

  lemma {:induction false} PlaceSpells(w: Wanted)
    ensures PrefixOf(w) == if w.auto then Ascii("<autogenerated>") else w.file + Ascii(":") + FormatNat(w.line)
  {
    assert AUTOGENERATED == Ascii("<autogenerated>");
    assert Ascii(":") == [COLON];
  }

  /** Directory, place, mark and rest of a diagnostic. */
  ghost predicate Written(m: Bytes, w: Wanted, dir: Bytes, mark: byte, rest: Bytes) {
    && m == dir + (w.file + Ascii(":") + FormatNat(w.line)) + [mark] + rest
    && (dir == [] || dir[|dir| - 1] as char == '/') && (forall c :: c in dir ==> c as char != ':')
    && (mark as char == ':' || mark as char == '[')
  }

  /** A diagnostic stands at the place of a plainly named file when a directory without a colon, file, line and a mark
      start it. */
  lemma {:induction false} AtPlaceSpells(w: Wanted, m: Bytes)
    requires !w.auto && forall c :: c in w.file ==> c as char != ':' && c as char != '/'
    ensures AtPlace(w, m) <==> exists dir, mark, rest :: Written(m, w, dir, mark, rest)
  {
    hide MatchPrefix, Written, At;
    assert Ascii(":") == [COLON] && IsBaseName(w.file);
    var prefix := Place(w.file, w.line);
    assert prefix == w.file + Ascii(":") + FormatNat(w.line);
    MatchesAsDocumented(m, w.file, w.line);
    if n: nat :| StandsAt(m, n, prefix) && COLON !in m[..n] {
      StandingIsWritten(m, w, n);
    }
    if exists dir, mark, rest :: Written(m, w, dir, mark, rest) {
      var dir, mark, rest :| Written(m, w, dir, mark, rest);
      WrittenStands(m, w, dir, mark, rest);
    }
  }

  lemma {:induction false} StandingIsWritten(m: Bytes, w: Wanted, n: nat)
    requires StandsAt(m, n, Place(w.file, w.line)) && COLON !in m[..n]
    ensures exists dir, mark, rest :: Written(m, w, dir, mark, rest)
  {
    hide FormatNat, At;
    var prefix := Place(w.file, w.line);
    var end := n + |prefix|;
    assert prefix == w.file + Ascii(":") + FormatNat(w.line);
    AtSlice(m, n, prefix);
    assert m == m[..n] + m[n..end] + [m[end]] + m[end + 1..];
    assert n > 0 ==> m[..n][n - 1] == m[n - 1];
    assert Written(m, w, m[..n], m[end], m[end + 1..]);
  }

  lemma {:induction false} WrittenStands(m: Bytes, w: Wanted, dir: Bytes, mark: byte, rest: Bytes)
    requires Written(m, w, dir, mark, rest)
    ensures StandsAt(m, |dir|, Place(w.file, w.line)) && COLON !in m[..|dir|]
  {
    hide FormatNat, At;
    var prefix := Place(w.file, w.line);
    assert prefix == w.file + Ascii(":") + FormatNat(w.line);
    assert m == dir + prefix + ([mark] + rest);
    AtParts(m, dir, prefix, [mark] + rest);
    assert m[|dir + prefix|] == ([mark] + rest)[0] && m[..|dir|] == dir;
    assert dir != [] ==> m[|dir| - 1] == dir[|dir| - 1];
  }

  predicate Plain(t: Bytes) {
    forall c :: c in t ==> c as char != ':' && c as char != '/'
  }

  /** A diagnostic for generated code: up to its first colon there is a mark behind the word, and no slash. */
  ghost predicate Generated(m: Bytes, dir: Bytes, mid: Bytes, tail: Bytes) {
    && m == dir + Ascii("<autogenerated>") + (mid + (Ascii(":") + tail))
    && (dir == [] || dir[|dir| - 1] as char == '/') && (forall c :: c in dir ==> c as char != ':')
    && Plain(mid) && (mid == [] || mid[0] as char == '[')
  }

  lemma {:induction false} FirstColon(s: Bytes, i: nat)
    requires i < |s| && s[i] == COLON && COLON !in s[..i]
    ensures IndexOf(s, COLON) == i
  {
    assert forall k :: 0 <= k < i ==> s[k] == s[..i][k] != COLON;
  }

  lemma {:induction false} LastSlash(s: Bytes, i: nat)
    requires i <= |s| && (i > 0 ==> s[i - 1] == SLASH) && SLASH !in s[i..]
    ensures AfterLast(s, SLASH) == i
  {
    forall k | i <= k < |s| ensures s[k] != SLASH { assert s[k] == s[i..][k - i]; }
  }

  /** An annotation for generated code looks for these diagnostics. */
  lemma {:induction false} GeneratedSpells(w: Wanted, m: Bytes)
    requires w.auto
    ensures AtPlace(w, m) <==> exists dir, mid, tail :: Generated(m, dir, mid, tail)
  {
    hide Generated, MatchPrefix;
    if AtPlace(w, m) { GeneratedFound(m); }
    if exists dir, mid, tail :: Generated(m, dir, mid, tail) {
      var dir, mid, tail :| Generated(m, dir, mid, tail);
      GeneratedMatches(m, dir, mid, tail);
    }
  }

  lemma {:induction false} GeneratedMatches(m: Bytes, dir: Bytes, mid: Bytes, tail: Bytes)
    requires Generated(m, dir, mid, tail)
    ensures MatchPrefix(m, Ascii("<autogenerated>"))
  {
    hide IndexOf, AfterLast, Ascii, Plain;
    var p := Ascii("<autogenerated>");
    WordIsPlain(p);
    OneColon();
    var head := dir + p + mid;
    HeadParts(m, dir, p, mid, tail);
    NoColonBefore(dir, p, mid);
    FirstColon(m, |head|);
    LastSlash(head, |dir|);
  }

  lemma {:induction false} HeadParts(m: Bytes, dir: Bytes, p: Bytes, mid: Bytes, tail: Bytes)
    requires m == dir + p + (mid + ([COLON] + tail))
    ensures var head := dir + p + mid;
            |head| < |m| && m[..|head|] == head && m[|head|] == COLON
    ensures var base := m[|dir|..];
            |base| > |p| && base[..|p|] == p && base[|p|] == if mid == [] then COLON else mid[0]
    ensures dir != [] ==> (dir + p + mid)[|dir| - 1] == dir[|dir| - 1]
  {
    var head, rest := dir + p + mid, mid + ([COLON] + tail);
    assert m == head + ([COLON] + tail);
    assert m[|dir|..] == p + rest && (p + rest)[|p|] == rest[0];
  }

  lemma {:induction false} NoColonBefore(dir: Bytes, p: Bytes, mid: Bytes)
    requires Plain(p) && Plain(mid) && forall c :: c in dir ==> c as char != ':'
    ensures var head := dir + p + mid; COLON !in head && head[|dir|..] == p + mid && SLASH !in head[|dir|..]
  {
    var head := dir + p + mid;
    assert head[|dir|..] == p + mid;
    assert forall c :: c in head ==> c in dir || c in p || c in mid;
    assert forall c :: c in p + mid ==> c in p || c in mid;
  }

  lemma {:induction false} WordIsPlain(p: Bytes)
    requires p == Ascii("<autogenerated>")
    ensures Plain(p)
  {
  }

  lemma {:induction false} GeneratedFound(m: Bytes)
    requires MatchPrefix(m, Ascii("<autogenerated>"))
    ensures exists dir, mid, tail :: Generated(m, dir, mid, tail)
  {
    hide IndexOf, AfterLast, Ascii, Plain, StandsAt, MatchPrefix, Generated;
    var p := Ascii("<autogenerated>");
    WordIsPlain(p);
    var i := IndexOf(m, COLON);
    var j := AfterLast(m[..i], SLASH);
    PlaceFound(m, p, i, j);
    PlainEnds(m, j, j + |p|, i);
    MidIsPlain(m, j + |p|, i, j);
    HeadEnds(m, i, j);
    assert Ascii(":") == [COLON] by { OneColon(); }
    CutInFour(m, j, j + |p|, i);
    GeneratedIs(m, p, m[..j], m[j + |p|..i], m[i + 1..]);
  }

  lemma {:induction false} GeneratedIs(m: Bytes, p: Bytes, dir: Bytes, mid: Bytes, tail: Bytes)
    requires p == Ascii("<autogenerated>") && m == dir + p + (mid + ([COLON] + tail))
    requires (dir != [] ==> dir[|dir| - 1] as char == '/') && forall c :: c in dir ==> c as char != ':'
    requires Plain(mid) && (mid != [] ==> mid[0] as char == '[')
    ensures Generated(m, dir, mid, tail)
  {
    OneColon();
  }

  lemma {:induction false} PlaceFound(m: Bytes, p: Bytes, i: nat, j: nat)
    requires MatchPrefix(m, p) && i == IndexOf(m, COLON) && j == AfterLast(m[..i], SLASH)
    ensures i < |m| && m[i] == COLON && j <= i && j + |p| < |m| && m[j..j + |p|] == p
    ensures m[j + |p|] as char == '[' || m[j + |p|] as char == ':'
  {
    hide IndexOf, AfterLast;
    BaseStands(m, p);
    AtSlice(m, j, p);
  }

  lemma {:induction false} CutInFour(m: Bytes, j: nat, end: nat, i: nat)
    requires j <= end <= i < |m|
    ensures m == m[..j] + m[j..end] + (m[end..i] + ([m[i]] + m[i + 1..]))
    ensures end < i ==> m[end..i][0] == m[end]
  {
  }

  lemma {:induction false} OneColon()
    ensures Ascii(":") == [COLON]
  {
  }

  /** A word without a colon ends before the first colon. */
  lemma {:induction false} PlainEnds(m: Bytes, j: nat, end: nat, i: nat)
    requires j <= i < |m| && j <= end <= |m| && m[i] == COLON && Plain(m[j..end])
    ensures end <= i
  {
    var word := m[j..end];
    forall k | j <= k < end ensures m[k] != COLON {
      assert word[k - j] == m[k] && word[k - j] in word;
    }
  }

  lemma {:induction false} HeadEnds(m: Bytes, i: nat, j: nat)
    requires i == IndexOf(m, COLON) && j == AfterLast(m[..i], SLASH)
    ensures j <= i <= |m| && (forall c :: c in m[..j] ==> c as char != ':')
    ensures j > 0 ==> m[..j][j - 1] as char == '/'
  {
    assert j > 0 ==> m[..j][j - 1] == m[..i][j - 1];
  }

  lemma {:induction false} MidIsPlain(m: Bytes, end: nat, i: nat, j: nat)
    requires j <= end <= i <= |m| && i == IndexOf(m, COLON) && j == AfterLast(m[..i], SLASH)
    ensures Plain(m[end..i])
  {
    forall c | c in m[end..i] ensures c != COLON && c != SLASH {
      var k :| 0 <= k < i - end && m[end..i][k] == c;
      assert m[end + k] == c && m[..i][end + k] == c;
    }
  }

  lemma {:induction false} AtParts(m: Bytes, a: Bytes, b: Bytes, c: Bytes)
    requires m == a + b + c
    ensures At(m, |a|, b)
  {
    forall k | 0 <= k < |b| ensures b[k] == m[|a| + k] { assert (a + b)[|a| + k] == b[k]; }
  }

  /** An annotation takes what it claims: what stands at its place with a message that its pattern matches. */
  lemma {:induction false} HitsSpell(w: Wanted, m: Bytes, matches: Matcher)
    ensures Hits(w, m, RuleOf(matches)) <==> Claims(w, m, matches)
    ensures RuleOf(matches).near(w, m) <==> AtPlace(w, m)
  {
    hide MatchPrefix, Says, TextOf, PrefixOf;
    PlaceSpells(w);
    TextSpells(m, TextOf(m));
    forall text | Says(m, text) ensures text == TextOf(m) { TextSpells(m, text); }
  }

  // ---- which reports are made ----

  /** No annotation before the `k`-th claims the diagnostic. */
  ghost predicate Open(want: seq<Wanted>, k: nat, m: Bytes, out: seq<Bytes>, matches: Matcher)
    requires k <= |want|
  {
    m in out && forall j :: 0 <= j < k ==> !Claims(want[j], m, matches)
  }

  lemma {:induction false} PendingIsOpen(want: seq<Wanted>, k: nat, m: Bytes, out: seq<Bytes>, matches: Matcher)
    requires k <= |want|
    ensures m in Pending(want[..k], out, RuleOf(matches)) <==> Open(want, k, m, out, matches)
  {
    hide Claims, Hits, Left;
    var rule := RuleOf(matches);
    PendingCounts(want[..k], out, rule, m);
    forall j | 0 <= j < k ensures Hits(want[..k][j], m, rule) <==> Claims(want[j], m, matches) {
      HitsSpell(want[j], m, matches);
    }
    var f := FirstHit(want[..k], m, rule);
    assert f < k ==> Hits(want[..k][f], m, rule);
  }

  /** The complaint about an annotation in its turn. */
  function TurnOf(want: seq<Wanted>, k: nat, out: seq<Bytes>, matches: Matcher): seq<Report>
    requires k < |want|
  {
    Complaint(want[k], Pending(want[..k], out, RuleOf(matches)), RuleOf(matches))
  }

  lemma {:induction false} ComplaintsByTurn(want: seq<Wanted>, out: seq<Bytes>, rule: Rule, r: Report)
    ensures r in Complaints(want, out, rule) <==>
              exists k: nat :: k < |want| && r in Complaint(want[k], Pending(want[..k], out, rule), rule)
    decreases |want|
  {
    hide Complaint, Left;
    if want != [] {
      var left := Left(want[0], out, rule);
      ComplaintsByTurn(want[1..], left, rule, r);
      assert want[..0] == [] && Pending([], out, rule) == out;
      forall k: nat | 0 < k < |want|
        ensures want[k] == want[1..][k - 1] && Pending(want[..k], out, rule) == Pending(want[1..][..k - 1], left, rule)
      {
        assert want[..k][0] == want[0] && want[..k][1..] == want[1..][..k - 1];
      }
      if k: nat :| k < |want| && r in Complaint(want[k], Pending(want[..k], out, rule), rule) {
        if k > 0 {
          assert r in Complaint(want[1..][k - 1], Pending(want[1..][..k - 1], left, rule), rule);
        }
      }
      if r in Complaints(want[1..], left, rule) {
        var k: nat :|
          k < |want[1..]| && r in Complaint(want[1..][k], Pending(want[1..][..k], left, rule), rule);
        assert r in Complaint(want[k + 1], Pending(want[..k + 1], out, rule), rule);
      }
    }
  }

  /** What is said about annotation `k`: nothing stood at its place, or nothing there matched, or nothing. */
  lemma {:induction false} TurnTells(want: seq<Wanted>, k: nat, out: seq<Bytes>, matches: Matcher)
    requires k < |want|
    ensures var w, turn := want[k], TurnOf(want, k, out, matches);
            var near := exists m :: Open(want, k, m, out, matches) && AtPlace(w, m);
            var hit := exists m :: Open(want, k, m, out, matches) && Claims(w, m, matches);
            && (!near ==> turn == [Missing(w)])
            && (hit ==> turn == [])
            && (near && !hit ==> exists shown ::
                  turn == [NoMatch(w, shown)] &&
                  forall m :: m in shown <==> Open(want, k, m, out, matches) && AtPlace(w, m))
  {
    hide Filter, MatchPrefix, TextOf, PrefixOf, RuleOf, AtPlace, Claims, Pending, Open;
    var w, rule := want[k], RuleOf(matches);
    var rest := Pending(want[..k], out, rule);
    var near := Filter(rest, Near(w, rule));
    forall m
      ensures m in near <==> Open(want, k, m, out, matches) && AtPlace(w, m)
      ensures m in Filter(near, Like(w, rule)) <==> Open(want, k, m, out, matches) && Claims(w, m, matches)
      ensures m in Filter(near, Unlike(w, rule)) <==> m in near && m !in Filter(near, Like(w, rule))
    {
      PendingIsOpen(want, k, m, out, matches);
      HitsSpell(w, m, matches);
      FilterCounts(rest, Near(w, rule), m);
      FilterCounts(near, Like(w, rule), m);
      FilterCounts(near, Unlike(w, rule), m);
    }
    if near != [] { assert near[0] in near; }
    var liked := Filter(near, Like(w, rule));
    if liked != [] { assert liked[0] in liked; }
  }

  /** The diagnostic starts with the name of one of the files, in either form, and a colon. */
  ghost predicate OfFiles(m: Bytes, fullshort: seq<(Bytes, Bytes)>) {
    exists j, rest :: 0 <= j < |fullshort| && (m == fullshort[j].0 + Ascii(":") + rest ||
                                               m == fullshort[j].1 + Ascii(":") + rest)
  }

  lemma {:induction false} LocalSpells(m: Bytes, fullshort: seq<(Bytes, Bytes)>)
    ensures IsLocal(m, fullshort) <==> OfFiles(m, fullshort)
  {
    assert Ascii(":") == [COLON];
    if IsLocal(m, fullshort) {
      var j :| 0 <= j < |fullshort| && (fullshort[j].0 + [COLON] <= m || fullshort[j].1 + [COLON] <= m);
      var head := if fullshort[j].0 + [COLON] <= m then fullshort[j].0 else fullshort[j].1;
      assert m == head + Ascii(":") + m[|head| + 1..];
    }
  }

  lemma {:induction false} StraysTell(local: seq<Bytes>, r: Report)
    ensures r in Strays(local) <==>
              (r == UnmatchedErrors && local != []) || (r.Unmatched? && r.msg in local)
  {
    if local != [] {
      LinesTell(local, r);
    }
  }

  lemma {:induction false} LinesTell(msgs: seq<Bytes>, r: Report)
    ensures r in Lines(msgs) <==> r.Unmatched? && r.msg in msgs
  {
    if msgs != [] {
      LinesTell(msgs[..|msgs| - 1], r);
      assert msgs == msgs[..|msgs| - 1] + [msgs[|msgs| - 1]];
    }
  }

  ghost function AllReports(want: seq<Wanted>, out: seq<Bytes>, matches: Matcher, fullshort: seq<(Bytes, Bytes)>)
    : seq<Report>
  {
    Complaints(want, out, RuleOf(matches)) + Strays(Filter(Pending(want, out, RuleOf(matches)), Local(fullshort)))
  }

  /** The list that `ErrorCheck` returns, report by report. */
  lemma {:induction false} ReportsTell(want: seq<Wanted>, out: seq<Bytes>, matches: Matcher,
                                       fullshort: seq<(Bytes, Bytes)>, r: Report)
    ensures r.Missing? || r.NoMatch? ==>
              (r in AllReports(want, out, matches, fullshort) <==>
                 exists k: nat :: k < |want| && r in TurnOf(want, k, out, matches))
    ensures r.Unmatched? ==>
              (r in AllReports(want, out, matches, fullshort) <==>
                 Open(want, |want|, r.msg, out, matches) && OfFiles(r.msg, fullshort))
    ensures r.UnmatchedErrors? ==>
              (r in AllReports(want, out, matches, fullshort) <==>
                 exists m :: Open(want, |want|, m, out, matches) && OfFiles(m, fullshort))
  {
    hide Complaint, Complaints, Pending, Filter, IsLocal, OfFiles, Claims, Open, RuleOf, Strays;
    var rule := RuleOf(matches);
    ComplaintsByTurn(want, out, rule, r);
    forall k: nat | k < |want|
      ensures TurnOf(want, k, out, matches) == Complaint(want[k], Pending(want[..k], out, rule), rule)
    {
    }
    var pending := Pending(want, out, rule);
    var local := Filter(pending, Local(fullshort));
    assert want[..|want|] == want;
    StraysTell(local, r);
    forall m ensures m in local <==> Open(want, |want|, m, out, matches) && OfFiles(m, fullshort) {
      PendingIsOpen(want, |want|, m, out, matches);
      FilterCounts(pending, Local(fullshort), m);
      LocalSpells(m, fullshort);
    }
    if local != [] { assert local[0] in local; }
    if r in Complaints(want, out, rule) { ComplaintKinds(want, out, rule, r); }
  }

  lemma {:induction false} ComplaintKinds(want: seq<Wanted>, out: seq<Bytes>, rule: Rule, r: Report)
    requires r in Complaints(want, out, rule)
    ensures r.Missing? || r.NoMatch?
    decreases |want|
  {
    hide Left, Filter;
    if r !in Complaint(want[0], out, rule) { ComplaintKinds(want[1..], Left(want[0], out, rule), rule, r); }
  }
}
