/** Matching compiler diagnostics against the annotations that announce them. */
module ErrorCheck {
  import opened ByteStrings
  import opened Digits

  const COLON: byte := 0x3a
  const SLASH: byte := 0x2f
  const BRACKET: byte := 0x5b
  const SPACE: byte := 0x20
  const AUTOGENERATED: Bytes := // "<autogenerated>"
    [0x3c, 0x61, 0x75, 0x74, 0x6f, 0x67, 0x65, 0x6e, 0x65, 0x72, 0x61, 0x74, 0x65, 0x64, 0x3e]

  /** An annotation; the regular expression is known by its text only. */
  datatype Wanted = Wanted(file: Bytes, line: nat, pattern: Bytes, auto: bool)

  type Matcher = (Bytes, Bytes) -> bool

  // ---- where a diagnostic stands ----

  /** Where `c` comes first, or the length. */
  function IndexOf(s: Bytes, c: byte): (i: nat)
    ensures i <= |s| && (i < |s| ==> s[i] == c) && forall k :: 0 <= k < i ==> s[k] != c
  {
    if s == [] || s[0] == c then 0
    else
      assert forall k :: 0 < k < |s| ==> s[k] == s[1..][k - 1];
      1 + IndexOf(s[1..], c)
  }

  /** One past where `c` comes last, or zero. */
  function AfterLast(s: Bytes, c: byte): (i: nat)
    ensures i <= |s| && (i > 0 ==> s[i - 1] == c) && forall k :: i <= k < |s| ==> s[k] != c
  {
    if s == [] then 0 else if s[|s| - 1] == c then |s| else AfterLast(s[..|s| - 1], c)
  }

  /** `matchPrefix`, where no path has a volume name. */
  predicate MatchPrefix(s: Bytes, prefix: Bytes) {
    var i := IndexOf(s, COLON);
    i < |s|
    && var base := s[AfterLast(s[..i], SLASH)..];
       |base| > |prefix| && base[..|prefix|] == prefix && (base[|prefix|] == BRACKET || base[|prefix|] == COLON)
  }

  /** The prefix stands at `n`, at the start or after a slash, with a colon or a bracket behind it. */
  predicate StandsAt(s: Bytes, n: nat, prefix: Bytes) {
    && n + |prefix| < |s| && (n == 0 || s[n - 1] == SLASH)
    && At(s, n, prefix)
    && (s[n + |prefix|] == BRACKET || s[n + |prefix|] == COLON)
  }

  /** `file:line`. */
  function Place(file: Bytes, line: nat): Bytes {
    file + ([COLON] + FormatNat(line))
  }

  predicate IsBaseName(file: Bytes) {
    COLON !in file && SLASH !in file
  }

  lemma {:induction false} BaseStands(s: Bytes, prefix: Bytes)
    requires MatchPrefix(s, prefix)
    ensures var n := AfterLast(s[..IndexOf(s, COLON)], SLASH);
            StandsAt(s, n, prefix) && COLON !in s[..n]
  {
    var n := AfterLast(s[..IndexOf(s, COLON)], SLASH);
    var base := s[n..];
    forall k | 0 <= k < |prefix| ensures prefix[k] == s[n + k] {
      assert base[..|prefix|][k] == base[k] == s[n + k];
    }
    assert base[|prefix|] == s[n + |prefix|];
  }

  /** The first colon is the one of the place, and the last slash before it ends the directory. */
  lemma {:induction false} BaseFound(s: Bytes, n: nat, file: Bytes, line: nat)
    requires IsBaseName(file) && StandsAt(s, n, Place(file, line)) && COLON !in s[..n]
    ensures IndexOf(s, COLON) == n + |file| && AfterLast(s[..n + |file|], SLASH) == n
  {
    hide FormatNat, IndexOf, AfterLast;
    var prefix := Place(file, line);
    var i := n + |file|;
    forall k | 0 <= k < |file| ensures s[n + k] == file[k] {
      assert prefix[k] == file[k];
    }
    assert prefix[|file|] == COLON && s[i] == COLON;
    forall k | 0 <= k < i ensures s[k] != COLON {
      assert if k < n then s[..n][k] == s[k] else s[k] == file[k - n];
    }
    forall k | n <= k < i ensures s[..i][k] != SLASH { assert s[k] == file[k - n]; }
    assert n > 0 ==> s[..i][n - 1] == SLASH;
  }

  lemma {:induction false} StandingMatches(s: Bytes, n: nat, file: Bytes, line: nat)
    requires IsBaseName(file) && StandsAt(s, n, Place(file, line)) && COLON !in s[..n]
    ensures MatchPrefix(s, Place(file, line))
  {
    hide FormatNat, IndexOf, AfterLast;
    var prefix := Place(file, line);
    BaseFound(s, n, file, line);
    AtSlice(s, n, prefix);
    var base := s[n..];
    assert base[..|prefix|] == s[n..n + |prefix|];
    assert base[|prefix|] == s[n + |prefix|];
  }

  /** The documented form, `^(.*\/)?prefix(:|\[)`, holds of what matches, and is enough where the directory has no
      colon. */
  lemma {:induction false} MatchesAsDocumented(s: Bytes, file: Bytes, line: nat)
    requires IsBaseName(file)
    ensures MatchPrefix(s, Place(file, line)) <==>
              exists n: nat :: StandsAt(s, n, Place(file, line)) && COLON !in s[..n]
  {
    var prefix := Place(file, line);
    if MatchPrefix(s, prefix) {
      BaseStands(s, prefix);
    }
    if n: nat :| StandsAt(s, n, prefix) && COLON !in s[..n] {
      StandingMatches(s, n, file, line);
    }
  }

  /** A colon in the directory hides a diagnostic of the documented form. */
  lemma {:induction false} ColonInDirectoryHides()
    ensures var s := [0x61, COLON, SLASH, 0x66, COLON, 0x31, COLON]; // "a:/f:1:"
            StandsAt(s, 3, Place([0x66], 1)) && !MatchPrefix(s, Place([0x66], 1))
  {
    var s: Bytes := [0x61, COLON, SLASH, 0x66, COLON, 0x31, COLON];
    assert FormatNat(1) == [0x31];
    assert IndexOf(s, COLON) == 1;
    assert s[..1] == [0x61] && AfterLast([0x61], SLASH) == 0;
    assert s[0..][..3] == s[..3];
    assert s[..3][0] == 0x61 && Place([0x66], 1)[0] == 0x66;
  }

  /** Diagnostics of two places are never the same. */
  lemma {:induction false} PlacesExclude(s: Bytes, f: Bytes, m: nat, g: Bytes, n: nat)
    requires COLON !in f && COLON !in g && MatchPrefix(s, Place(f, m)) && MatchPrefix(s, Place(g, n))
    ensures f == g && m == n
  {
    var base := s[AfterLast(s[..IndexOf(s, COLON)], SLASH)..];
    BaseSplits(base, f, m);
    BaseSplits(base, g, n);
    assert f == base[..IndexOf(base, COLON)] == g;
    var d, e := FormatNat(m), FormatNat(n);
    var rest := base[|f| + 1..];
    RunsAreEqual(rest, d, e);
    NatInjective(m, n);
  }

  lemma {:induction false} RunsAreEqual(rest: Bytes, d: Bytes, e: Bytes)
    requires AllDigits(d) && AllDigits(e)
    requires |rest| > |d| && rest[..|d|] == d && !IsDigit(rest[|d|])
    requires |rest| > |e| && rest[..|e|] == e && !IsDigit(rest[|e|])
    ensures d == e
  {
    assert forall k :: 0 <= k < |d| ==> rest[k] == d[k];
    assert forall k :: 0 <= k < |e| ==> rest[k] == e[k];
  }

  lemma {:induction false} BaseSplits(base: Bytes, f: Bytes, m: nat)
    requires COLON !in f && |base| > |Place(f, m)| && base[..|Place(f, m)|] == Place(f, m)
    requires base[|Place(f, m)|] == BRACKET || base[|Place(f, m)|] == COLON
    ensures IndexOf(base, COLON) == |f| && base[..|f|] == f
    ensures var d := FormatNat(m);
            var rest := base[|f| + 1..];
            |rest| > |d| && rest[..|d|] == d && !IsDigit(rest[|d|])
  {
    var p, d := Place(f, m), FormatNat(m);
    assert forall k :: 0 <= k < |f| ==> base[k] == p[k] == f[k];
    assert base[|f|] == p[|f|] == COLON;
    assert forall k :: 0 <= k < |d| ==> base[|f| + 1 + k] == p[|f| + 1 + k] == d[k];
  }

  // ---- what an annotation takes ----

  function PrefixOf(w: Wanted): Bytes {
    if w.auto then AUTOGENERATED else Place(w.file, w.line)
  }

  /** A diagnostic without its first word. */
  function TextOf(msg: Bytes): Bytes {
    var i := IndexOf(msg, SPACE);
    if i == |msg| then msg else msg[i + 1..]
  }

  /** When a diagnostic stands at an annotation's place, and when its text is what the annotation announces. */
  datatype Rule = Rule(near: (Wanted, Bytes) -> bool, like: (Wanted, Bytes) -> bool)

  function RuleOf(matches: Matcher): Rule {
    Rule((w: Wanted, m: Bytes) => MatchPrefix(m, PrefixOf(w)), (w: Wanted, m: Bytes) => matches(w.pattern, TextOf(m)))
  }

  predicate Hits(w: Wanted, msg: Bytes, rule: Rule) {
    rule.near(w, msg) && rule.like(w, msg)
  }

  // The tests that a diagnostic is put to.

  function Prefixed(prefix: Bytes): Bytes -> bool {
    m => MatchPrefix(m, prefix)
  }

  function Unprefixed(prefix: Bytes): Bytes -> bool {
    m => !MatchPrefix(m, prefix)
  }

  function Near(w: Wanted, rule: Rule): Bytes -> bool {
    m => rule.near(w, m)
  }

  function Far(w: Wanted, rule: Rule): Bytes -> bool {
    m => !rule.near(w, m)
  }

  function Like(w: Wanted, rule: Rule): Bytes -> bool {
    m => rule.like(w, m)
  }

  function Unlike(w: Wanted, rule: Rule): Bytes -> bool {
    m => !rule.like(w, m)
  }

  function Hit(w: Wanted, rule: Rule): Bytes -> bool {
    m => Hits(w, m, rule)
  }

  function Local(fullshort: seq<(Bytes, Bytes)>): Bytes -> bool {
    m => IsLocal(m, fullshort)
  }

  function Filter(msgs: seq<Bytes>, p: Bytes -> bool): (r: seq<Bytes>)
    ensures |r| <= |msgs|
  {
    if msgs == [] then []
    else Filter(msgs[..|msgs| - 1], p) + if p(msgs[|msgs| - 1]) then [msgs[|msgs| - 1]] else []
  }

  lemma {:induction false} FilterCounts(msgs: seq<Bytes>, p: Bytes -> bool, m: Bytes)
    ensures multiset(Filter(msgs, p))[m] == if p(m) then multiset(msgs)[m] else 0
  {
    if msgs != [] {
      FilterCounts(msgs[..|msgs| - 1], p, m);
      assert msgs == msgs[..|msgs| - 1] + [msgs[|msgs| - 1]];
    }
  }

  /** The diagnostics that an annotation leaves: the others first, then its own that it does not match. */
  function Left(w: Wanted, out: seq<Bytes>, rule: Rule): seq<Bytes> {
    Filter(out, Far(w, rule))
    + Filter(Filter(out, Near(w, rule)), Unlike(w, rule))
  }

  lemma {:induction false} LeftCounts(w: Wanted, out: seq<Bytes>, rule: Rule, m: Bytes)
    ensures multiset(Left(w, out, rule))[m] == if Hits(w, m, rule) then 0 else multiset(out)[m]
  {
    var near := Near(w, rule);
    var far := Far(w, rule);
    var unlike := Unlike(w, rule);
    FilterCounts(out, far, m);
    FilterCounts(out, near, m);
    FilterCounts(Filter(out, near), unlike, m);
  }

  /** What is still unclaimed when every annotation has had its turn. */
  function Pending(want: seq<Wanted>, out: seq<Bytes>, rule: Rule): seq<Bytes>
    decreases |want|
  {
    if want == [] then out else Pending(want[1..], Left(want[0], out, rule), rule)
  }

  /** What the annotations take, each in its turn. */
  function Consumed(want: seq<Wanted>, out: seq<Bytes>, rule: Rule): (c: seq<seq<Bytes>>)
    ensures |c| == |want|
    decreases |want|
  {
    if want == [] then []
    else [Filter(out, Hit(want[0], rule))] + Consumed(want[1..], Left(want[0], out, rule), rule)
  }

  // ---- the two loops ----

  method PartitionStrings(prefix: Bytes, strs: seq<Bytes>) returns (matched: seq<Bytes>, unmatched: seq<Bytes>)
    ensures matched == Filter(strs, Prefixed(prefix))
    ensures unmatched == Filter(strs, Unprefixed(prefix))
  {
    hide MatchPrefix;
    var near, far := Prefixed(prefix), Unprefixed(prefix);
    matched, unmatched := [], [];
    for i := 0 to |strs|
      invariant matched == Filter(strs[..i], near)
      invariant unmatched == Filter(strs[..i], far)
    {
      assert strs[..i + 1][..i] == strs[..i];
      if MatchPrefix(strs[i], prefix) {
        matched := matched + [strs[i]];
      } else {
        unmatched := unmatched + [strs[i]];
      }
    }
    assert strs[..|strs|] == strs;
  }

  datatype Report =
    | Missing(want: Wanted)
    | NoMatch(want: Wanted, shown: seq<Bytes>)
    | UnmatchedErrors
    | Unmatched(msg: Bytes)

  /** The complaint about an annotation that takes nothing. */
  function Complaint(w: Wanted, out: seq<Bytes>, rule: Rule): seq<Report> {
    var near := Filter(out, Near(w, rule));
    if near == [] then [Missing(w)]
    else if Filter(near, Like(w, rule)) == [] then
      [NoMatch(w, Filter(near, Unlike(w, rule)))]
    else []
  }

  function Complaints(want: seq<Wanted>, out: seq<Bytes>, rule: Rule): seq<Report>
    decreases |want|
  {
    if want == [] then []
    else Complaint(want[0], out, rule) + Complaints(want[1..], Left(want[0], out, rule), rule)
  }

  /** The diagnostic belongs to one of the files under test. */
  predicate IsLocal(msg: Bytes, fullshort: seq<(Bytes, Bytes)>) {
    exists j | 0 <= j < |fullshort| :: fullshort[j].0 + [COLON] <= msg || fullshort[j].1 + [COLON] <= msg
  }

  function Strays(local: seq<Bytes>): seq<Report> {
    if local == [] then [] else [UnmatchedErrors] + Lines(local)
  }

  function Lines(msgs: seq<Bytes>): seq<Report> {
    if msgs == [] then [] else Lines(msgs[..|msgs| - 1]) + [Unmatched(msgs[|msgs| - 1])]
  }

  lemma {:induction false} FilterSame(msgs: seq<Bytes>, p: Bytes -> bool, q: Bytes -> bool)
    requires forall m :: p(m) == q(m)
    ensures Filter(msgs, p) == Filter(msgs, q)
  {
    if msgs != [] { FilterSame(msgs[..|msgs| - 1], p, q); }
  }

  lemma {:induction false} NearIsPrefixed(w: Wanted, msgs: seq<Bytes>, matches: Matcher)
    ensures Filter(msgs, Prefixed(PrefixOf(w))) == Filter(msgs, Near(w, RuleOf(matches)))
    ensures Filter(msgs, Unprefixed(PrefixOf(w))) == Filter(msgs, Far(w, RuleOf(matches)))
  {
    hide MatchPrefix, PrefixOf, Filter;
    FilterSame(msgs, Prefixed(PrefixOf(w)), Near(w, RuleOf(matches)));
    FilterSame(msgs, Unprefixed(PrefixOf(w)), Far(w, RuleOf(matches)));
  }

  /** The inner loop: what the pattern does not match goes back behind what was left. */
  method Sift(we: Wanted, errmsgs: seq<Bytes>, left: seq<Bytes>, matches: Matcher)
    returns (out: seq<Bytes>, matched: bool)
    ensures out == left + Filter(errmsgs, Unlike(we, RuleOf(matches)))
    ensures matched <==> Filter(errmsgs, Like(we, RuleOf(matches))) != []
  {
    hide TextOf;
    out, matched := left, false;
    for i := 0 to |errmsgs|
      invariant matched <==> Filter(errmsgs[..i], Like(we, RuleOf(matches))) != []
      invariant out == left + Filter(errmsgs[..i], Unlike(we, RuleOf(matches)))
    {
      assert errmsgs[..i + 1][..i] == errmsgs[..i];
      var text := TextOf(errmsgs[i]);
      if matches(we.pattern, text) {
        matched := true;
      } else {
        out := out + [errmsgs[i]];
      }
    }
    assert errmsgs[..|errmsgs|] == errmsgs;
  }

  /** One turn of the outer loop. */
  method CheckOne(we: Wanted, out: seq<Bytes>, matches: Matcher) returns (rest: seq<Bytes>, errs: seq<Report>)
    ensures rest == Left(we, out, RuleOf(matches)) && errs == Complaint(we, out, RuleOf(matches))
  {
    hide TextOf, Near, Far, Like, Unlike, AUTOGENERATED, Place, Filter, RuleOf, Prefixed, Unprefixed;
    NearIsPrefixed(we, out, matches);
    var errmsgs, others;
    if we.auto {
      errmsgs, others := PartitionStrings(AUTOGENERATED, out);
    } else {
      errmsgs, others := PartitionStrings(Place(we.file, we.line), out);
    }
    if |errmsgs| == 0 {
      assert others + Filter(errmsgs, Unlike(we, RuleOf(matches))) == others;
      return others, [Missing(we)];
    }
    var matched;
    rest, matched := Sift(we, errmsgs, others, matches);
    errs := if matched then [] else [NoMatch(we, rest[|others|..])];
  }

  /** The loop over the annotations. */
  method CheckAll(diagnostics: seq<Bytes>, want: seq<Wanted>, matches: Matcher)
    returns (out: seq<Bytes>, errs: seq<Report>)
    ensures out == Pending(want, diagnostics, RuleOf(matches)) && errs == Complaints(want, diagnostics, RuleOf(matches))
  {
    hide Left, Complaint;
    out, errs := diagnostics, [];
    ghost var all := Complaints(want, diagnostics, RuleOf(matches));
    assert want[0..] == want;
    for i := 0 to |want|
      invariant errs + Complaints(want[i..], out, RuleOf(matches)) == all
      invariant Pending(want[i..], out, RuleOf(matches)) == Pending(want, diagnostics, RuleOf(matches))
    {
      assert want[i..][0] == want[i] && want[i..][1..] == want[i + 1..];
      ghost var told := errs;
      var more;
      out, more := CheckOne(want[i], out, matches);
      errs := errs + more;
      ghost var rest := Complaints(want[i + 1..], out, RuleOf(matches));
      assert told + (more + rest) == errs + rest;
    }
    assert want[|want|..] == [];
  }

  method KeepLocal(out: seq<Bytes>, fullshort: seq<(Bytes, Bytes)>) returns (localOut: seq<Bytes>)
    ensures localOut == Filter(out, Local(fullshort))
  {
    hide IsLocal;
    localOut := [];
    for i := 0 to |out|
      invariant localOut == Filter(out[..i], Local(fullshort))
    {
      assert out[..i + 1][..i] == out[..i];
      if IsLocal(out[i], fullshort) {
        localOut := localOut + [out[i]];
      }
    }
    assert out[..|out|] == out;
  }

  method ReportStrays(out: seq<Bytes>) returns (errs: seq<Report>)
    ensures errs == Strays(out)
  {
    errs := [];
    if |out| > 0 {
      errs := errs + [UnmatchedErrors];
      for i := 0 to |out|
        invariant errs == [UnmatchedErrors] + Lines(out[..i])
      {
        assert out[..i + 1][..i] == out[..i];
        errs := errs + [Unmatched(out[i])];
      }
      assert out[..|out|] == out;
    }
  }

  /** `errorCheck` on the diagnostics and the annotations that were read; nothing to report is `nil`. */
  method ErrorCheck(diagnostics: seq<Bytes>, want: seq<Wanted>, matches: Matcher, fullshort: seq<(Bytes, Bytes)>)
    returns (errs: seq<Report>)
    ensures errs == Complaints(want, diagnostics, RuleOf(matches))
                    + Strays(Filter(Pending(want, diagnostics, RuleOf(matches)), Local(fullshort)))
    ensures errs == [] <==> Passes(want, diagnostics, RuleOf(matches), fullshort)
  {
    hide Complaints, Pending, Filter, Passes, Strays, RuleOf;
    NilMeansPasses(want, diagnostics, RuleOf(matches), fullshort);
    var out;
    out, errs := CheckAll(diagnostics, want, matches);
    out := KeepLocal(out, fullshort);
    var strays := ReportStrays(out);
    errs := errs + strays;
  }

  // ---- nothing is lost, and nothing is taken twice ----

  /** Where `p` holds first, or the length. */
  function FirstWhere(want: seq<Wanted>, p: Wanted -> bool): (k: nat)
    ensures k <= |want|
    ensures k < |want| ==> p(want[k])
    ensures forall j :: 0 <= j < k ==> !p(want[j])
  {
    if want == [] || p(want[0]) then 0
    else
      assert forall j :: 0 < j < |want| ==> want[j] == want[1..][j - 1];
      1 + FirstWhere(want[1..], p)
  }

  /** The first annotation that claims a diagnostic, or the number of annotations. */
  function FirstHit(want: seq<Wanted>, m: Bytes, rule: Rule): (k: nat)
    ensures k <= |want|
    ensures k < |want| ==> Hits(want[k], m, rule)
    ensures forall j :: 0 <= j < k ==> !Hits(want[j], m, rule)
  {
    FirstWhere(want, w => Hits(w, m, rule))
  }

  /** Each annotation takes exactly the diagnostics that no earlier one claims, as often as they were reported. */
  lemma {:induction false} ConsumedCounts(want: seq<Wanted>, out: seq<Bytes>, rule: Rule, k: nat, m: Bytes)
    requires k < |want|
    ensures multiset(Consumed(want, out, rule)[k])[m] ==
            if FirstHit(want, m, rule) == k then multiset(out)[m] else 0
    decreases k
  {
    hide Hits, Left;
    if k == 0 {
      FilterCounts(out, Hit(want[0], rule), m);
    } else {
      ConsumedCounts(want[1..], Left(want[0], out, rule), rule, k - 1, m);
      LeftCounts(want[0], out, rule, m);
    }
  }

  lemma {:induction false} PendingCounts(want: seq<Wanted>, out: seq<Bytes>, rule: Rule, m: Bytes)
    ensures multiset(Pending(want, out, rule))[m] ==
            if FirstHit(want, m, rule) == |want| then multiset(out)[m] else 0
    decreases |want|
  {
    hide Hits, Left;
    if want != [] {
      PendingCounts(want[1..], Left(want[0], out, rule), rule, m);
      LeftCounts(want[0], out, rule, m);
    }
  }

  function Total(parts: seq<seq<Bytes>>): multiset<Bytes> {
    if parts == [] then multiset{} else multiset(parts[0]) + Total(parts[1..])
  }

  /** Through the whole loop every diagnostic is still pending or was taken by one annotation. */
  lemma {:induction false} DiagnosticsAreConserved(want: seq<Wanted>, out: seq<Bytes>, rule: Rule)
    ensures multiset(out) == multiset(Pending(want, out, rule)) + Total(Consumed(want, out, rule))
    decreases |want|
  {
    hide Hits, Left;
    if want != [] {
      var left := Left(want[0], out, rule);
      DiagnosticsAreConserved(want[1..], left, rule);
      var taken := Filter(out, Hit(want[0], rule));
      forall m ensures multiset(out)[m] == multiset(taken)[m] + multiset(left)[m] {
        FilterCounts(out, Hit(want[0], rule), m);
        LeftCounts(want[0], out, rule, m);
      }
      var all := Consumed(want, out, rule);
      assert all == [taken] + Consumed(want[1..], left, rule) && all[1..] == Consumed(want[1..], left, rule);
    }
  }

  /** An annotation takes only diagnostics at its place and of its pattern. */
  lemma {:induction false} TakenAreHits(want: seq<Wanted>, out: seq<Bytes>, rule: Rule, k: nat, m: Bytes)
    requires k < |want| && m in Consumed(want, out, rule)[k]
    ensures m in out && Hits(want[k], m, rule)
  {
    ConsumedCounts(want, out, rule, k, m);
    assert multiset(Consumed(want, out, rule)[k])[m] > 0;
  }

  // ---- what passing means ----

  /** Some diagnostic is claimed first by annotation `k`. */
  ghost predicate Served(want: seq<Wanted>, out: seq<Bytes>, rule: Rule, k: nat) {
    exists m :: m in out && FirstHit(want, m, rule) == k
  }

  ghost predicate Passes(want: seq<Wanted>, out: seq<Bytes>, rule: Rule, fullshort: seq<(Bytes, Bytes)>) {
    && (forall k: nat :: k < |want| ==> Served(want, out, rule, k))
    && (forall m :: m in out && FirstHit(want, m, rule) == |want| ==> !IsLocal(m, fullshort))
  }

  lemma {:induction false} FilterEmpty(msgs: seq<Bytes>, p: Bytes -> bool)
    ensures Filter(msgs, p) == [] <==> forall m :: m in msgs ==> !p(m)
  {
    forall m ensures m in Filter(msgs, p) <==> m in msgs && p(m) {
      FilterCounts(msgs, p, m);
    }
    if Filter(msgs, p) != [] {
      assert Filter(msgs, p)[0] in Filter(msgs, p);
    }
  }

  lemma {:induction false} ComplaintIffNoHit(w: Wanted, out: seq<Bytes>, rule: Rule)
    ensures Complaint(w, out, rule) == [] <==> exists m :: m in out && Hits(w, m, rule)
  {
    hide MatchPrefix, PrefixOf, TextOf, Filter;
    var near := Filter(out, Near(w, rule));
    FilterEmpty(out, Near(w, rule));
    FilterEmpty(near, Like(w, rule));
    forall m ensures m in near <==> m in out && rule.near(w, m) {
      FilterCounts(out, Near(w, rule), m);
    }
  }

  lemma {:induction false} ComplaintsIffUnserved(want: seq<Wanted>, out: seq<Bytes>, rule: Rule)
    ensures Complaints(want, out, rule) == [] <==> forall k: nat :: k < |want| ==> Served(want, out, rule, k)
    decreases |want|
  {
    hide Hits, Left, Complaint;
    if want != [] {
      var left := Left(want[0], out, rule);
      ComplaintIffNoHit(want[0], out, rule);
      ComplaintsIffUnserved(want[1..], left, rule);
      assert Served(want, out, rule, 0) <==> exists m :: m in out && Hits(want[0], m, rule);
      forall k: nat | 0 < k < |want| ensures Served(want, out, rule, k) <==> Served(want[1..], left, rule, k - 1) {
        ServedLater(want, out, rule, k - 1);
      }
      assert (forall k: nat :: k < |want| - 1 ==> Served(want[1..], left, rule, k))
        <==> (forall k: nat :: 0 < k < |want| ==> Served(want, out, rule, k)) by {
        forall k: nat | k < |want| - 1 ensures Served(want[1..], left, rule, k) <==> Served(want, out, rule, k + 1) {
          ServedLater(want, out, rule, k);
        }
      }
    }
  }

  lemma {:induction false} ServedLater(want: seq<Wanted>, out: seq<Bytes>, rule: Rule, k: nat)
    requires want != []
    ensures Served(want[1..], Left(want[0], out, rule), rule, k) <==> Served(want, out, rule, k + 1)
  {
    hide Hits, Left;
    var left := Left(want[0], out, rule);
    forall m ensures m in left <==> m in out && !Hits(want[0], m, rule) {
      LeftCounts(want[0], out, rule, m);
    }
  }

  /** No report is made exactly when every annotation is served and no local diagnostic is left over. */
  lemma {:induction false} NilMeansPasses(want: seq<Wanted>, out: seq<Bytes>, rule: Rule,
                                          fullshort: seq<(Bytes, Bytes)>)
    ensures Complaints(want, out, rule) + Strays(Filter(Pending(want, out, rule), Local(fullshort))) == []
            <==> Passes(want, out, rule, fullshort)
  {
    hide FirstHit, IsLocal, Complaints, Pending;
    ComplaintsIffUnserved(want, out, rule);
    var pending := Pending(want, out, rule);
    FilterEmpty(pending, Local(fullshort));
    forall m ensures m in pending <==> m in out && FirstHit(want, m, rule) == |want| {
      PendingCounts(want, out, rule, m);
    }
  }

  // ---- the order of the annotations ----

  /** No two annotations stand on one line of one file, and none is for generated code. */
  ghost predicate DistinctPlaces(want: seq<Wanted>) {
    && (forall i :: 0 <= i < |want| ==> !want[i].auto && COLON !in want[i].file)
    && (forall i, j :: 0 <= i < j < |want| ==> want[i].file != want[j].file || want[i].line != want[j].line)
  }

  /** No diagnostic is one that two annotations would claim. */
  ghost predicate Exclusive(want: seq<Wanted>, rule: Rule) {
    forall i, j, m :: 0 <= i < j < |want| && Hits(want[i], m, rule) ==> !Hits(want[j], m, rule)
  }

  lemma {:induction false} DistinctIsExclusive(want: seq<Wanted>, matches: Matcher)
    requires DistinctPlaces(want)
    ensures Exclusive(want, RuleOf(matches))
  {
    hide MatchPrefix, Place;
    forall i, j, m | 0 <= i < j < |want| && MatchPrefix(m, PrefixOf(want[i])) && MatchPrefix(m, PrefixOf(want[j]))
      ensures false
    {
      PlacesExclude(m, want[i].file, want[i].line, want[j].file, want[j].line);
    }
  }

  lemma {:induction false} OneHitOnly(want: seq<Wanted>, rule: Rule, m: Bytes, k: nat)
    requires Exclusive(want, rule) && k < |want| && Hits(want[k], m, rule)
    ensures FirstHit(want, m, rule) == k
  {
    hide Hits;
    var j := FirstHit(want, m, rule);
    assert j <= k && Hits(want[j], m, rule);
  }

  ghost predicate Claimed(want: seq<Wanted>, m: Bytes, rule: Rule) {
    exists w :: w in want && Hits(w, m, rule)
  }

  ghost predicate Answered(w: Wanted, out: seq<Bytes>, rule: Rule) {
    exists m :: m in out && Hits(w, m, rule)
  }

  /** On distinct lines an annotation passes by what it claims itself, whatever stands before it. */
  lemma {:induction false} PassesByPlace(want: seq<Wanted>, out: seq<Bytes>, rule: Rule, fullshort: seq<(Bytes, Bytes)>)
    requires Exclusive(want, rule)
    ensures Passes(want, out, rule, fullshort) <==>
              (forall w :: w in want ==> Answered(w, out, rule))
              && forall m :: m in out && !Claimed(want, m, rule) ==> !IsLocal(m, fullshort)
  {
    hide Hits, IsLocal, FirstHit, Exclusive;
    forall k: nat | k < |want| ensures Served(want, out, rule, k) <==> Answered(want[k], out, rule) {
      if m :| m in out && Hits(want[k], m, rule) {
        OneHitOnly(want, rule, m, k);
      }
    }
    assert (forall w :: w in want ==> Answered(w, out, rule))
      <==> (forall k: nat :: k < |want| ==> Answered(want[k], out, rule)) by { hide Answered; }
    forall m ensures Claimed(want, m, rule) <==> FirstHit(want, m, rule) < |want| {
      if w :| w in want && Hits(w, m, rule) {
        var k :| 0 <= k < |want| && want[k] == w;
        assert FirstHit(want, m, rule) <= k;
      }
    }
  }

  lemma {:induction false} OrderOfExclusive(a: seq<Wanted>, b: seq<Wanted>, out: seq<Bytes>, rule: Rule,
                                            fullshort: seq<(Bytes, Bytes)>)
    requires Exclusive(a, rule) && Exclusive(b, rule) && multiset(a) == multiset(b)
    ensures Passes(a, out, rule, fullshort) <==> Passes(b, out, rule, fullshort)
  {
    hide Exclusive, Passes, Hits, IsLocal, Answered;
    PassesByPlace(a, out, rule, fullshort);
    PassesByPlace(b, out, rule, fullshort);
    assert forall w :: w in a <==> w in multiset(a);
    assert forall w :: w in b <==> w in multiset(b);
    assert forall m :: Claimed(a, m, rule) <==> Claimed(b, m, rule);
  }

  /** On distinct lines the verdict does not depend on the order of the annotations. */
  lemma {:induction false} OrderDoesNotMatter(a: seq<Wanted>, b: seq<Wanted>, out: seq<Bytes>, matches: Matcher,
                                              fullshort: seq<(Bytes, Bytes)>)
    requires DistinctPlaces(a) && multiset(a) == multiset(b)
    ensures Passes(a, out, RuleOf(matches), fullshort) <==> Passes(b, out, RuleOf(matches), fullshort)
  {
    hide DistinctPlaces, Exclusive, Passes, RuleOf;
    PlacesStayDistinct(a, b);
    DistinctIsExclusive(a, matches);
    DistinctIsExclusive(b, matches);
    OrderOfExclusive(a, b, out, RuleOf(matches), fullshort);
  }

  lemma {:induction false} PlacesStayDistinct(a: seq<Wanted>, b: seq<Wanted>)
    requires DistinctPlaces(a) && multiset(a) == multiset(b)
    ensures DistinctPlaces(b)
  {
    forall i | 0 <= i < |b| ensures !b[i].auto && COLON !in b[i].file {
      assert b[i] in multiset(b);
    }
    forall i, j | 0 <= i < j < |b| ensures b[i].file != b[j].file || b[i].line != b[j].line {
      var x, y := b[i], b[j];
      assert x in multiset(b) && y in multiset(b);
      NotRepeated(a, x);
      if x == y {
        Repeated(b, i, j);
      } else {
        var p :| 0 <= p < |a| && a[p] == x;
        var q :| 0 <= q < |a| && a[q] == y;
        assert a[p].file != a[q].file || a[p].line != a[q].line;
      }
    }
  }

  lemma {:induction false} NotRepeated(a: seq<Wanted>, x: Wanted)
    requires DistinctPlaces(a)
    ensures multiset(a)[x] <= 1
  {
    if multiset(a)[x] >= 2 {
      var p, q := FindTwice(a, x);
    }
  }

  lemma {:induction false} Repeated(s: seq<Wanted>, i: nat, j: nat)
    requires i < j < |s| && s[i] == s[j]
    ensures multiset(s)[s[i]] >= 2
  {
    assert s == s[..j] + s[j..];
    assert s[..j][i] == s[i] && s[j..][0] == s[i];
    assert s[i] in multiset(s[..j]) && s[i] in multiset(s[j..]);
  }

  lemma {:induction false} FindTwice(s: seq<Wanted>, x: Wanted) returns (i: nat, j: nat)
    requires multiset(s)[x] >= 2
    ensures i < j < |s| && s[i] == x == s[j]
  {
    assert s == [s[0]] + s[1..];
    if s[0] == x {
      i := 0;
      assert x in multiset(s[1..]);
      var k :| 0 <= k < |s[1..]| && s[1..][k] == x;
      j := k + 1;
    } else {
      i, j := FindTwice(s[1..], x);
      i, j := i + 1, j + 1;
    }
  }

  // ---- two annotations on one line ----

  /** A pattern matches a text that ends with it. */
  function EndsWith(): Matcher {
    (pattern: Bytes, text: Bytes) => |pattern| <= |text| && text[|text| - |pattern|..] == pattern
  }

  function Rightmost(): Rule {
    RuleOf(EndsWith())
  }

  /** Two annotations of one line: the first takes what the second needs, unless they change places. */
  lemma {:induction false} OrderMattersOnOneLine()
    ensures var any, narrow := Wanted([0x66], 1, [], false), Wanted([0x66], 1, [0x78], false);
            var out := [LineOne(0x78), LineOne(0x79)]; // f:1:x and f:1:y
            Passes([narrow, any], out, Rightmost(), []) && !Passes([any, narrow], out, Rightmost(), [])
  {
    hide Hits, Rightmost;
    var any, narrow := Wanted([0x66], 1, [], false), Wanted([0x66], 1, [0x78], false);
    var x, y := LineOne(0x78), LineOne(0x79);
    OnLineOne(0x78, 0x78);
    OnLineOne(0x79, 0x78);
    assert !Hits([narrow, any][0], y, Rightmost()) && Hits([narrow, any][1], y, Rightmost());
    assert Hits([narrow, any][0], x, Rightmost()) && Hits([any, narrow][0], x, Rightmost()) &&
           Hits([any, narrow][0], y, Rightmost());
    assert x in [x, y] && y in [x, y];
    assert FirstHit([narrow, any], y, Rightmost()) == 1;
    assert !Served([any, narrow], [x, y], Rightmost(), 1);
  }

  function LineOne(c: byte): Bytes {
    [0x66, COLON, 0x31, COLON, c]
  }

  lemma {:induction false} OnLineOne(c: byte, d: byte)
    requires c != COLON && c != SPACE
    ensures Hits(Wanted([0x66], 1, [], false), LineOne(c), Rightmost())
    ensures Hits(Wanted([0x66], 1, [d], false), LineOne(c), Rightmost()) <==> c == d
  {
    hide MatchPrefix, TextOf;
    LineOneMatches(c);
    var m := LineOne(c);
    assert m[|m| - 0..] == [] && m[|m| - 1..] == [c];
    var any, narrow := Wanted([0x66], 1, [], false), Wanted([0x66], 1, [d], false);
    assert PrefixOf(any) == Place([0x66], 1) == PrefixOf(narrow);
    assert Rightmost().near(any, m) == MatchPrefix(m, PrefixOf(any));
    assert Rightmost().near(narrow, m) == MatchPrefix(m, PrefixOf(narrow));
    assert Rightmost().like(any, m) == EndsWith()(any.pattern, m);
    assert Rightmost().like(narrow, m) == EndsWith()(narrow.pattern, m);
    assert [c] == [d] <==> c == d by { assert [c][0] == c && [d][0] == d; }
  }

  lemma {:induction false} LineOneMatches(c: byte)
    requires c != COLON && c != SPACE
    ensures MatchPrefix(LineOne(c), Place([0x66], 1)) && TextOf(LineOne(c)) == LineOne(c)
  {
    var m := LineOne(c);
    assert FormatNat(1) == [0x31];
    assert m[..1] == [0x66] && AfterLast([0x66], SLASH) == 0;
    assert m[0..] == m && m[..3] == [0x66, COLON, 0x31];
    assert IndexOf(m, SPACE) == 5;
  }
}
