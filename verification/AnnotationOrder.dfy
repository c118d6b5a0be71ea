/** When the order of the annotations matters: some order can pass, and two annotations would claim one diagnostic. */
module AnnotationOrder {
  import opened ByteStrings
  import opened Digits
  import opened ErrorCheck

  // ---- for patterns of one meaning ----

  /** Every order of the annotations gives the same verdict, whatever is reported; `fullshort` names the files. */
  ghost predicate OrderFree(want: seq<Wanted>, rule: Rule, fullshort: seq<(Bytes, Bytes)>) {
    forall other, out :: multiset(other) == multiset(want) ==>
      (Passes(other, out, rule, fullshort) <==> Passes(want, out, rule, fullshort))
  }

  /** Some order of the annotations passes on some output. */
  ghost predicate SomeOrderPasses(want: seq<Wanted>, rule: Rule, fullshort: seq<(Bytes, Bytes)>) {
    exists other, out :: multiset(other) == multiset(want) && Passes(other, out, rule, fullshort)
  }

  /** Annotation `k` hits a text that no earlier one hits. */
  ghost predicate HasOwnText(order: seq<Wanted>, rule: Rule, k: nat)
    requires k < |order|
  {
    exists m :: Hits(order[k], m, rule) && forall j: nat :: j < k ==> !Hits(order[j], m, rule)
  }

  /** In some order every annotation has a text of its own. */
  ghost predicate Separable(want: seq<Wanted>, rule: Rule) {
    exists order: seq<Wanted> :: multiset(order) == multiset(want) &&
                                 forall k: nat :: k < |order| ==> HasOwnText(order, rule, k)
  }

  lemma {:induction false} OwnTexts(order: seq<Wanted>, rule: Rule, n: nat) returns (out: seq<Bytes>)
    requires n <= |order| && forall k: nat :: k < n ==> HasOwnText(order, rule, k)
    ensures |out| == n && forall k: nat :: k < n ==> FirstHit(order, out[k], rule) == k
  {
    hide Hits, FirstHit;
    if n == 0 {
      out := [];
    } else {
      var before := OwnTexts(order, rule, n - 1);
      assert HasOwnText(order, rule, n - 1);
      var m :| Hits(order[n - 1], m, rule) && forall j: nat :: j < n - 1 ==> !Hits(order[j], m, rule);
      FirstIs(order, m, rule, n - 1);
      out := before + [m];
    }
  }

  /** What passes on some output depends on the annotations and the meaning of their patterns alone. */
  lemma {:induction false} PassesIfSeparable(want: seq<Wanted>, rule: Rule, fullshort: seq<(Bytes, Bytes)>)
    ensures SomeOrderPasses(want, rule, fullshort) <==> Separable(want, rule)
  {
    hide Hits, IsLocal;
    if SomeOrderPasses(want, rule, fullshort) {
      var order, out :| multiset(order) == multiset(want) && Passes(order, out, rule, fullshort);
      forall k: nat | k < |order| ensures HasOwnText(order, rule, k) {
        assert Served(order, out, rule, k);
        var m :| m in out && FirstHit(order, m, rule) == k;
        assert Hits(order[k], m, rule);
      }
    }
    if Separable(want, rule) {
      var order: seq<Wanted> :|
        multiset(order) == multiset(want) && forall k: nat :: k < |order| ==> HasOwnText(order, rule, k);
      OwnTextsPass(order, rule, fullshort);
    }
  }

  lemma {:induction false} OwnTextsPass(order: seq<Wanted>, rule: Rule, fullshort: seq<(Bytes, Bytes)>)
    requires forall k: nat :: k < |order| ==> HasOwnText(order, rule, k)
    ensures exists out :: Passes(order, out, rule, fullshort)
  {
    hide Hits, IsLocal, FirstHit, HasOwnText;
    var out := OwnTexts(order, rule, |order|);
    forall k: nat | k < |order| ensures Served(order, out, rule, k) {
      assert out[k] in out;
    }
    assert Passes(order, out, rule, fullshort);
  }

  ghost predicate HitBy(want: seq<Wanted>, rule: Rule, m: Bytes, i: nat, j: nat) {
    i < j < |want| && Hits(want[i], m, rule) && Hits(want[j], m, rule)
  }

  /** Two annotations would claim the diagnostic. */
  ghost predicate Contested(want: seq<Wanted>, rule: Rule, m: Bytes) {
    exists i: nat, j: nat :: HitBy(want, rule, m, i, j)
  }

  lemma {:induction false} UncontestedIsExclusive(want: seq<Wanted>, rule: Rule)
    ensures (forall m :: !Contested(want, rule, m)) <==> Exclusive(want, rule)
  {
    hide Hits;
    if Exclusive(want, rule) {
      forall m ensures !Contested(want, rule, m) {
      }
    }
    if forall m :: !Contested(want, rule, m) {
      forall i, j, m | 0 <= i < j < |want| && Hits(want[i], m, rule) ensures !Hits(want[j], m, rule) {
        assert !Contested(want, rule, m);
        assert !HitBy(want, rule, m, i, j);
      }
    }
  }

  lemma {:induction false} ContestStays(a: seq<Wanted>, b: seq<Wanted>, rule: Rule, m: Bytes)
    requires multiset(a) == multiset(b) && Contested(a, rule, m)
    ensures Contested(b, rule, m)
  {
    hide Hits;
    var i: nat, j: nat :| HitBy(a, rule, m, i, j);
    var x, y := a[i], a[j];
    assert x in multiset(b) && y in multiset(b);
    if x == y {
      Repeated(a, i, j);
      var p, q := FindTwice(b, x);
      assert HitBy(b, rule, m, p, q);
    } else {
      var p: nat :| p < |b| && b[p] == x;
      var q: nat :| q < |b| && b[q] == y;
      assert HitBy(b, rule, m, if p < q then p else q, if p < q then q else p);
    }
  }

  /** The diagnostics that annotation `i` is not the first to claim. */
  function Others(out: seq<Bytes>, want: seq<Wanted>, rule: Rule, i: nat): seq<Bytes> {
    Filter(out, m => FirstHit(want, m, rule) != i)
  }

  lemma {:induction false} OthersAre(out: seq<Bytes>, want: seq<Wanted>, rule: Rule, i: nat, m: Bytes)
    ensures m in Others(out, want, rule, i) <==> m in out && FirstHit(want, m, rule) != i
  {
    hide FirstHit;
    var test := (x: Bytes) => FirstHit(want, x, rule) != i;
    FilterCounts(out, test, m);
    assert Others(out, want, rule, i) == Filter(out, test);
  }

  /** The order with annotation `j` put first. */
  function Promoted(want: seq<Wanted>, j: nat): (p: seq<Wanted>)
    requires j < |want|
    ensures |p| == |want| && p[0] == want[j]
    ensures forall k :: 0 <= k < j ==> p[k + 1] == want[k]
  {
    [want[j]] + want[..j] + want[j + 1..]
  }

  lemma {:induction false} PromotionKeeps(want: seq<Wanted>, j: nat)
    requires j < |want|
    ensures multiset(Promoted(want, j)) == multiset(want)
  {
    assert want == want[..j] + [want[j]] + want[j + 1..];
  }

  /** With only one diagnostic left for `i`, contested by `j`, a passing order still passes. */
  lemma {:induction false} StillPasses(s: seq<Wanted>, out: seq<Bytes>, rule: Rule, fullshort: seq<(Bytes, Bytes)>,
                                       m: Bytes)
    requires Passes(s, out, rule, fullshort) && FirstHit(s, m, rule) < |s|
    ensures Passes(s, [m] + Others(out, s, rule, FirstHit(s, m, rule)), rule, fullshort)
  {
    hide FirstHit, Others, IsLocal;
    var i := FirstHit(s, m, rule);
    var few := [m] + Others(out, s, rule, i);
    assert few[0] == m;
    forall k: nat | k < |s| ensures Served(s, few, rule, k) {
      if k != i {
        assert Served(s, out, rule, k);
        var x :| x in out && FirstHit(s, x, rule) == k;
        OthersAre(out, s, rule, i, x);
        assert x in few;
      } else {
        assert m in few;
      }
    }
    forall x | x in few && FirstHit(s, x, rule) == |s| ensures !IsLocal(x, fullshort) {
      assert x in Others(out, s, rule, i);
      OthersAre(out, s, rule, i, x);
    }
  }

  /** Put first, `j` takes the diagnostic, and nothing is left for `i`. */
  lemma {:induction false} PromotedFails(s: seq<Wanted>, out: seq<Bytes>, rule: Rule, fullshort: seq<(Bytes, Bytes)>,
                                         m: Bytes, j: nat)
    requires FirstHit(s, m, rule) < j < |s| && Hits(s[j], m, rule)
    ensures !Passes(Promoted(s, j), [m] + Others(out, s, rule, FirstHit(s, m, rule)), rule, fullshort)
  {
    hide FirstHit, Others, Hits, Promoted;
    var i := FirstHit(s, m, rule);
    var few, p := [m] + Others(out, s, rule, i), Promoted(s, j);
    assert p[i + 1] == s[i];
    forall x | x in few ensures FirstHit(p, x, rule) != i + 1 {
      if FirstHit(p, x, rule) == i + 1 {
        assert Hits(s[i], x, rule) && !Hits(p[0], x, rule);
        forall k | 0 <= k < i ensures !Hits(s[k], x, rule) { assert p[k + 1] == s[k]; }
        FirstIs(s, x, rule, i);
        OthersAre(out, s, rule, i, x);
      }
    }
    assert !Served(p, few, rule, i + 1);
  }

  lemma {:induction false} FirstIs(want: seq<Wanted>, m: Bytes, rule: Rule, x: nat)
    requires x < |want| && forall y: nat :: y <= x ==> (Hits(want[y], m, rule) <==> y == x)
    ensures FirstHit(want, m, rule) == x
  {
    hide Hits;
    var f := FirstHit(want, m, rule);
    assert Hits(want[x], m, rule);
    assert f <= x;
  }

  /** The order matters exactly when some order gives every annotation a text, and some text is contested. */
  lemma {:induction false} OrderMattersExactly(want: seq<Wanted>, rule: Rule, fullshort: seq<(Bytes, Bytes)>)
    ensures !OrderFree(want, rule, fullshort) <==>
              Separable(want, rule) && exists m :: Contested(want, rule, m)
  {
    hide Passes, Contested, Exclusive, Hits, Separable;
    PassesIfSeparable(want, rule, fullshort);
    if m :| Contested(want, rule, m) {
      if SomeOrderPasses(want, rule, fullshort) {
        ContestTells(want, rule, fullshort, m);
      }
    } else {
      UncontestedIsExclusive(want, rule);
      forall other, out | multiset(other) == multiset(want)
        ensures Passes(other, out, rule, fullshort) <==> Passes(want, out, rule, fullshort)
      {
        forall m ensures !Contested(other, rule, m) {
          if Contested(other, rule, m) { ContestStays(other, want, rule, m); }
        }
        UncontestedIsExclusive(other, rule);
        OrderOfExclusive(other, want, out, rule, fullshort);
      }
    }
  }

  lemma {:induction false} ContestTells(want: seq<Wanted>, rule: Rule, fullshort: seq<(Bytes, Bytes)>, m: Bytes)
    requires SomeOrderPasses(want, rule, fullshort) && Contested(want, rule, m)
    ensures !OrderFree(want, rule, fullshort)
  {
    hide Passes, Hits, FirstHit, Promoted, Others;
    var s, out :| multiset(s) == multiset(want) && Passes(s, out, rule, fullshort);
    ContestStays(want, s, rule, m);
    var a: nat, j: nat :| HitBy(s, rule, m, a, j);
    var i := FirstHit(s, m, rule);
    assert i <= a;
    var few, p := [m] + Others(out, s, rule, i), Promoted(s, j);
    StillPasses(s, out, rule, fullshort, m);
    PromotedFails(s, out, rule, fullshort, m, j);
    PromotionKeeps(s, j);
    assert Passes(s, few, rule, fullshort) && !Passes(p, few, rule, fullshort);
  }

  // ---- for all meanings of the patterns ----

  /** The annotations of ordinary files: not for generated code, and of files named without colon and slash. */
  ghost predicate PlainNames(want: seq<Wanted>) {
    forall i :: 0 <= i < |want| ==> !want[i].auto && IsBaseName(want[i].file)
  }

  ghost predicate Repeats(want: seq<Wanted>) {
    exists i, j :: 0 <= i < j < |want| && want[i] == want[j]
  }

  /** The order does not matter, whatever the patterns mean. */
  ghost predicate AlwaysOrderFree(want: seq<Wanted>, fullshort: seq<(Bytes, Bytes)>) {
    forall matches: Matcher :: OrderFree(want, RuleOf(matches), fullshort)
  }

  ghost predicate SamePlace(a: Wanted, b: Wanted) {
    a.file == b.file && a.line == b.line
  }

  // ---- a diagnostic for each annotation ----

  /** A diagnostic at the annotation's place, with the number `k` as its message. */
  function Numbered(w: Wanted, k: nat): Bytes {
    Place(w.file, w.line) + ([COLON] + FormatNat(k))
  }

  function Diagnostics(want: seq<Wanted>): (out: seq<Bytes>)
    ensures |out| == |want| && forall k :: 0 <= k < |want| ==> out[k] == Numbered(want[k], k)
  {
    seq(|want|, k requires 0 <= k < |want| => Numbered(want[k], k))
  }

  /** The text of diagnostic `k`, after the first space if its file name has one, still ends with the number. */
  lemma {:induction false} TextEndsWithNumber(w: Wanted, k: nat)
    ensures var t, d := TextOf(Numbered(w, k)), FormatNat(k);
            |t| > |d| && t[|t| - |d| - 1] == COLON && t[|t| - |d|..] == d
  {
    hide IndexOf, FormatNat;
    var m, d := Numbered(w, k), FormatNat(k);
    var n := |m| - |d|;
    assert m[n - 1] == COLON && m[n..] == d;
    var line := FormatNat(w.line);
    assert forall i :: |w.file| < i < n - 1 ==> m[i] == line[i - |w.file| - 1];
    assert m[|w.file|] == COLON;
    assert forall i :: n <= i < |m| ==> m[i] == d[i - n];
    var i := IndexOf(m, SPACE);
    assert i < |m| ==> i < |w.file|;
    var t := TextOf(m);
    assert i < |m| ==> t[|t| - |d| - 1] == m[n - 1] && t[|t| - |d|..] == m[n..];
  }

  lemma {:induction false} TextsDiffer(v: Wanted, k: nat, w: Wanted, l: nat)
    requires TextOf(Numbered(v, k)) == TextOf(Numbered(w, l))
    ensures k == l
  {
    hide FormatNat, TextOf, Numbered;
    TextEndsWithNumber(v, k);
    TextEndsWithNumber(w, l);
    var t, d, e := TextOf(Numbered(v, k)), FormatNat(k), FormatNat(l);
    assert forall i :: 0 <= i < |d| ==> t[|t| - |d| + i] == t[|t| - |d|..][i] == d[i];
    assert forall i :: 0 <= i < |e| ==> t[|t| - |e| + i] == t[|t| - |e|..][i] == e[i];
    SameTail(t, d, e);
    NatInjective(k, l);
  }

  lemma {:induction false} SameTail(t: Bytes, d: Bytes, e: Bytes)
    requires AllDigits(d) && AllDigits(e) && |t| > |d| && |t| > |e|
    requires t[|t| - |d| - 1] == COLON && t[|t| - |d|..] == d
    requires t[|t| - |e| - 1] == COLON && t[|t| - |e|..] == e
    ensures d == e
  {
    assert forall i :: |t| - |d| <= i < |t| ==> t[i] == d[i - (|t| - |d|)];
    assert forall i :: |t| - |e| <= i < |t| ==> t[i] == e[i - (|t| - |e|)];
  }

  lemma {:induction false} NumberedStands(w: Wanted, k: nat)
    requires !w.auto && IsBaseName(w.file)
    ensures MatchPrefix(Numbered(w, k), PrefixOf(w))
  {
    hide FormatNat, MatchPrefix;
    var m, p := Numbered(w, k), Place(w.file, w.line);
    assert forall i :: 0 <= i < |p| ==> m[0 + i] == p[i];
    assert m[|p|] == COLON;
    assert m[..0] == [];
    StandingMatches(m, 0, w.file, w.line);
  }

  /** A pattern matches the text of its own annotation; the pattern of `i` also matches the text of `j`. */
  function Greedy(want: seq<Wanted>, i: nat, j: nat): Matcher
    requires i < |want| && j < |want|
  {
    (pattern: Bytes, text: Bytes) =>
      exists k: nat | k < |want| :: TextOf(Numbered(want[k], k)) == text && PatternFits(want, i, j, pattern, k)
  }

  predicate PatternFits(want: seq<Wanted>, i: nat, j: nat, pattern: Bytes, k: nat)
    requires i < |want| && j < |want| && k < |want|
  {
    pattern == want[k].pattern || (k == j && pattern == want[i].pattern)
  }

  lemma {:induction false} GreedyFits(want: seq<Wanted>, i: nat, j: nat, pattern: Bytes, k: nat)
    requires i < |want| && j < |want| && k < |want|
    ensures Greedy(want, i, j)(pattern, TextOf(Numbered(want[k], k))) <==> PatternFits(want, i, j, pattern, k)
  {
    hide TextOf, Numbered, PatternFits;
    var text := TextOf(Numbered(want[k], k));
    if l: nat :| l < |want| && TextOf(Numbered(want[l], l)) == text && PatternFits(want, i, j, pattern, l) {
      TextsDiffer(want[l], l, want[k], k);
    }
  }

  /** Annotation `x` claims its own diagnostic, and `i` also that of `j`. */
  lemma {:induction false} WhoClaims(want: seq<Wanted>, i: nat, j: nat, x: nat, k: nat)
    requires PlainNames(want) && !Repeats(want) && i < |want| && j < |want| && x < |want| && k < |want|
    requires SamePlace(want[i], want[j])
    ensures Hits(want[x], Numbered(want[k], k), RuleOf(Greedy(want, i, j))) <==> x == k || (x == i && k == j)
  {
    hide MatchPrefix, TextOf, Numbered, Greedy;
    var m := Numbered(want[k], k);
    var rule := RuleOf(Greedy(want, i, j));
    assert rule.near(want[x], m) == MatchPrefix(m, PrefixOf(want[x]));
    assert rule.like(want[x], m) == Greedy(want, i, j)(want[x].pattern, TextOf(m));
    GreedyFits(want, i, j, want[x].pattern, k);
    NumberedStands(want[k], k);
    if MatchPrefix(m, PrefixOf(want[x])) {
      PlacesExclude(m, want[x].file, want[x].line, want[k].file, want[k].line);
      assert want[x].pattern == want[k].pattern ==> want[x] == want[k];
      assert k == j && want[x].pattern == want[i].pattern ==> want[x] == want[i];
    }
  }

  // ---- two orders, two verdicts ----

  function Swapped(want: seq<Wanted>, i: nat, j: nat): (b: seq<Wanted>)
    requires i < |want| && j < |want|
    ensures |b| == |want|
  {
    want[i := want[j]][j := want[i]]
  }

  lemma {:induction false} SwapKeeps(want: seq<Wanted>, i: nat, j: nat)
    requires i < j < |want|
    ensures multiset(Swapped(want, i, j)) == multiset(want)
  {
  }

  /** With `i` and `j` changed over, each annotation finds the diagnostic that is left for it. */
  lemma {:induction false} GreedyLastPasses(want: seq<Wanted>, fullshort: seq<(Bytes, Bytes)>, i: nat, j: nat)
    requires PlainNames(want) && !Repeats(want) && i < j < |want| && SamePlace(want[i], want[j])
    ensures Passes(Swapped(want, i, j), Diagnostics(want), RuleOf(Greedy(want, i, j)), fullshort)
  {
    hide Hits, RuleOf, Greedy, Numbered, Repeats, PlainNames;
    var b, rule, out := Swapped(want, i, j), RuleOf(Greedy(want, i, j)), Diagnostics(want);
    forall x: nat | x < |want| ensures Served(b, out, rule, x) {
      var k := if x == i then j else if x == j then i else x;
      assert b[x] == want[k];
      assert out[k] in out;
      FirstOfSwapped(want, i, j, x, k);
    }
    forall m | m in out ensures FirstHit(b, m, rule) < |b| {
      var k: nat :| k < |out| && out[k] == m;
      FirstOfSwapped(want, i, j, if k == i then j else if k == j then i else k, k);
    }
  }

  lemma {:induction false} FirstOfSwapped(want: seq<Wanted>, i: nat, j: nat, x: nat, k: nat)
    requires PlainNames(want) && !Repeats(want) && i < j < |want| && SamePlace(want[i], want[j])
    requires x < |want| && k == if x == i then j else if x == j then i else x
    ensures FirstHit(Swapped(want, i, j), Numbered(want[k], k), RuleOf(Greedy(want, i, j))) == x
  {
    hide Hits, RuleOf, Greedy, Numbered, Repeats, PlainNames, FirstHit;
    var b, rule, m := Swapped(want, i, j), RuleOf(Greedy(want, i, j)), Numbered(want[k], k);
    forall y: nat | y <= x ensures Hits(b[y], m, rule) <==> y == x {
      var l := if y == i then j else if y == j then i else y;
      assert b[y] == want[l];
      WhoClaims(want, i, j, l, k);
    }
    assert Hits(b[x], m, rule);
    FirstIs(b, m, rule, x);
  }

  // ---- a repeated annotation ----

  lemma {:induction false} RepeatedFails(want: seq<Wanted>, out: seq<Bytes>, rule: Rule, fullshort: seq<(Bytes, Bytes)>)
    requires Repeats(want)
    ensures !Passes(want, out, rule, fullshort)
  {
    hide Hits, FirstHit;
    var i: nat, j: nat :| i < j < |want| && want[i] == want[j];
    assert !Served(want, out, rule, j);
  }

  lemma {:induction false} RepeatsStay(a: seq<Wanted>, b: seq<Wanted>)
    requires Repeats(a) && multiset(a) == multiset(b)
    ensures Repeats(b)
  {
    var i: nat, j: nat :| i < j < |a| && a[i] == a[j];
    Repeated(a, i, j);
    var p, q := FindTwice(b, a[i]);
  }

  /** Whatever the patterns mean: when an annotation is repeated, so that no order passes, or no two share a line. */
  lemma {:induction false} AlwaysOrderFreeExactly(want: seq<Wanted>, fullshort: seq<(Bytes, Bytes)>)
    requires PlainNames(want)
    ensures AlwaysOrderFree(want, fullshort) <==> Repeats(want) || DistinctPlaces(want)
  {
    hide Passes, RuleOf, Greedy, OrderFree, Hits, Separable;
    if Repeats(want) || DistinctPlaces(want) {
      forall matches: Matcher ensures OrderFree(want, RuleOf(matches), fullshort) {
        OrderMattersExactly(want, RuleOf(matches), fullshort);
        PassesIfSeparable(want, RuleOf(matches), fullshort);
        if Repeats(want) {
          RepeatsNeverPass(want, RuleOf(matches), fullshort);
        } else {
          DistinctIsExclusive(want, matches);
          UncontestedIsExclusive(want, RuleOf(matches));
        }
      }
    } else {
      var i: nat, j: nat :| i < j < |want| && SamePlace(want[i], want[j]);
      var rule := RuleOf(Greedy(want, i, j));
      SwapKeeps(want, i, j);
      GreedyLastPasses(want, fullshort, i, j);
      WhoClaims(want, i, j, i, j);
      WhoClaims(want, i, j, j, j);
      assert HitBy(want, rule, Numbered(want[j], j), i, j);
      var other, out := Swapped(want, i, j), Diagnostics(want);
      assert multiset(other) == multiset(want) && Passes(other, out, rule, fullshort);
      assert SomeOrderPasses(want, rule, fullshort);
      ContestTells(want, rule, fullshort, Numbered(want[j], j));
    }
  }

  lemma {:induction false} RepeatsNeverPass(want: seq<Wanted>, rule: Rule, fullshort: seq<(Bytes, Bytes)>)
    requires Repeats(want)
    ensures !SomeOrderPasses(want, rule, fullshort)
  {
    hide Passes;
    forall other, out | multiset(other) == multiset(want) ensures !Passes(other, out, rule, fullshort) {
      RepeatsStay(want, other);
      RepeatedFails(other, out, rule, fullshort);
    }
  }
}
