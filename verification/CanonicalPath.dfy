/** Resolving paths through symbolic links, and when two resolved paths overlap. */
module CanonicalPath {
  import opened ByteStrings

  const SLASH: byte := 0x2f

  /** One component; a name has at least one byte, none of them a slash, and is neither `.` nor `..`. */
  type Path = seq<Bytes>

  const DOT: Bytes := [0x2e]
  const DOTS: Bytes := [0x2e, 0x2e]

  predicate IsName(c: Bytes) {
    c != [] && SLASH !in c && c != DOT && c != DOTS
  }

  predicate IsPath(p: Path) {
    forall c :: c in p ==> IsName(c)
  }

  /** A path as it is written: its components between slashes, some perhaps empty. */
  datatype Written = Written(absolute: bool, parts: seq<Bytes>)

  /** `File.expand_path`: lexical, from a directory that is already plain; `..` stays at the root. */
  function Expand(base: Path, parts: seq<Bytes>): Path
    decreases |parts|
  {
    if parts == [] then base else Expand(Enter(base, parts[0]), parts[1..])
  }

  function Enter(base: Path, c: Bytes): Path {
    if c == [] || c == DOT then base
    else if c == DOTS then if base == [] then [] else base[..|base| - 1]
    else base + [c]
  }

  predicate NoSlashes(parts: seq<Bytes>) {
    forall c :: c in parts ==> SLASH !in c
  }

  lemma {:induction false} ExpandIsPath(base: Path, parts: seq<Bytes>)
    requires IsPath(base) && NoSlashes(parts)
    ensures IsPath(Expand(base, parts))
    decreases |parts|
  {
    if parts != [] {
      assert parts[0] in parts;
      ExpandIsPath(Enter(base, parts[0]), parts[1..]);
    }
  }

  lemma {:induction false} ExpandPlain(base: Path, more: Path)
    requires IsPath(more)
    ensures Expand(base, more) == base + more
    decreases |more|
  {
    if more == [] {
      assert base + more == base;
    } else {
      assert more[0] in more;
      ExpandPlain(base + [more[0]], more[1..]);
      assert base + more == base + [more[0]] + more[1..];
    }
  }

  /** The symbolic links of a file system that stands still: where each lies, and what is written in it. */
  type Links = map<Path, Written>

  ghost predicate WellFormed(links: Links) {
    forall p :: p in links ==> p != [] && IsPath(p) && NoSlashes(links[p].parts)
  }

  /** What the link at `at` stands for, read from the directory that it lies in. */
  function Target(links: Links, at: Path): Path
    requires at in links && at != []
  {
    Expand(if links[at].absolute then [] else at[..|at| - 1], links[at].parts)
  }

  const DEPTH := 40

  // ---- resolution ----

  /** `canonical_path` on an expanded path: `None` when links are nested too deeply. */
  function Canonical(links: Links, path: Path, depth: nat): Option<Path>
    requires WellFormed(links)
    decreases DEPTH + 1 - depth, 1
  {
    if depth > DEPTH then None else Follow(links, [], path, depth)
  }

  /** The loop over the components that are left. */
  function Follow(links: Links, resolved: Path, rest: Path, depth: nat): Option<Path>
    requires WellFormed(links) && depth <= DEPTH
    decreases DEPTH + 1 - depth, 0, |rest|
  {
    if rest == [] then Some(resolved)
    else
      var candidate := resolved + [rest[0]];
      if candidate in links then
        match Canonical(links, Target(links, candidate), depth + 1)
        case None => None
        case Some(r) => Follow(links, r, rest[1..], depth)
      else Follow(links, candidate, rest[1..], depth)
  }

  method CanonicalPath(links: Links, path: Path, depth: nat) returns (r: Option<Path>)
    requires WellFormed(links)
    ensures r == Canonical(links, path, depth)
    decreases DEPTH + 1 - depth
  {
    if depth > DEPTH { return None; }
    var resolved: Path := [];
    assert path[0..] == path;
    for i := 0 to |path|
      invariant Follow(links, resolved, path[i..], depth) == Follow(links, [], path, depth)
    {
      assert path[i..][0] == path[i] && path[i..][1..] == path[i + 1..];
      var candidate := resolved + [path[i]];
      if candidate in links {
        var target := CanonicalPath(links, Target(links, candidate), depth + 1);
        if target.None? { return None; }
        resolved := target.value;
      } else {
        resolved := candidate;
      }
    }
    return Some(resolved);
  }

  // ---- what a resolved path is ----

  /** No prefix of the path is a link. */
  ghost predicate LinkFree(links: Links, p: Path) {
    forall k :: 0 < k <= |p| ==> p[..k] !in links
  }

  lemma {:induction false} LinkFreeStep(links: Links, p: Path, c: Bytes)
    requires LinkFree(links, p) && p + [c] !in links
    ensures LinkFree(links, p + [c])
  {
    var q := p + [c];
    forall k | 0 < k <= |q| ensures q[..k] !in links {
      if k == |q| { assert q[..k] == q; } else { assert q[..k] == p[..k]; }
    }
  }

  lemma {:induction false} FollowIsLinkFree(links: Links, resolved: Path, rest: Path, depth: nat)
    requires WellFormed(links) && depth <= DEPTH && LinkFree(links, resolved)
    ensures Follow(links, resolved, rest, depth).Some? ==> LinkFree(links, Follow(links, resolved, rest, depth).value)
    decreases DEPTH + 1 - depth, |rest|
  {
    if rest != [] {
      var candidate := resolved + [rest[0]];
      if candidate !in links {
        LinkFreeStep(links, resolved, rest[0]);
        FollowIsLinkFree(links, candidate, rest[1..], depth);
      } else if depth < DEPTH {
        FollowIsLinkFree(links, [], Target(links, candidate), depth + 1);
        var r := Canonical(links, Target(links, candidate), depth + 1);
        if r.Some? { FollowIsLinkFree(links, r.value, rest[1..], depth); }
      }
    }
  }

  lemma {:induction false} LinkFreeStays(links: Links, resolved: Path, rest: Path, depth: nat)
    requires WellFormed(links) && depth <= DEPTH && LinkFree(links, resolved + rest)
    ensures Follow(links, resolved, rest, depth) == Some(resolved + rest)
    decreases |rest|
  {
    if rest == [] {
      assert resolved + rest == resolved;
    } else {
      var candidate := resolved + [rest[0]];
      assert (resolved + rest)[..|candidate|] == candidate;
      assert candidate + rest[1..] == resolved + rest;
      LinkFreeStays(links, candidate, rest[1..], depth);
    }
  }

  /** A resolved path has no link in it, and resolves to itself; the paths that do are the ones without links. */
  lemma {:induction false} ResolvedIsFixed(links: Links, path: Path, depth: nat)
    requires WellFormed(links) && depth <= DEPTH
    ensures Canonical(links, path, depth).Some? ==>
              var r := Canonical(links, path, depth).value;
              LinkFree(links, r) && Canonical(links, r, depth) == Some(r)
    ensures Canonical(links, path, depth) == Some(path) <==> LinkFree(links, path)
  {
    FollowIsLinkFree(links, [], path, depth);
    var c := Canonical(links, path, depth);
    if c.Some? {
      assert [] + c.value == c.value;
      LinkFreeStays(links, [], c.value, depth);
    }
    if LinkFree(links, path) {
      assert [] + path == path;
      LinkFreeStays(links, [], path, depth);
    }
  }

  lemma {:induction false} FollowIsPath(links: Links, resolved: Path, rest: Path, depth: nat)
    requires WellFormed(links) && depth <= DEPTH && IsPath(resolved) && IsPath(rest)
    ensures Follow(links, resolved, rest, depth).Some? ==> IsPath(Follow(links, resolved, rest, depth).value)
    decreases DEPTH + 1 - depth, |rest|
  {
    if rest != [] {
      var candidate := resolved + [rest[0]];
      assert rest[0] in rest;
      if candidate !in links {
        FollowIsPath(links, candidate, rest[1..], depth);
      } else if depth < DEPTH {
        var at := links[candidate];
        ExpandIsPath(if at.absolute then [] else candidate[..|candidate| - 1], at.parts);
        FollowIsPath(links, [], Target(links, candidate), depth + 1);
        var r := Canonical(links, Target(links, candidate), depth + 1);
        if r.Some? { FollowIsPath(links, r.value, rest[1..], depth); }
      }
    }
  }

  /** Expanding a resolved path changes nothing, so resolving it again starts from the path itself. */
  lemma {:induction false} ResolvedIsExpanded(links: Links, path: Path, depth: nat)
    requires WellFormed(links) && IsPath(path) && Canonical(links, path, depth).Some?
    ensures var r := Canonical(links, path, depth).value;
            IsPath(r) && Expand([], r) == r
  {
    FollowIsPath(links, [], path, depth);
    var r := Canonical(links, path, depth).value;
    ExpandPlain([], r);
    assert [] + r == r;
  }

  // ---- resolution as rewriting ----

  /** The length of the shortest prefix that is a link. */
  ghost predicate FirstLink(links: Links, p: Path, k: nat) {
    0 < k <= |p| && p[..k] in links && forall j :: 0 < j < k ==> p[..j] !in links
  }

  /** Replacing the first link in `p` by what it stands for leaves `q`. */
  ghost predicate Rewritten(links: Links, p: Path, q: Path)
    requires WellFormed(links)
  {
    exists k: nat :: FirstLink(links, p, k) && q == Target(links, p[..k]) + p[k..]
  }

  ghost predicate Rewrites(links: Links, p: Path, q: Path, n: nat)
    requires WellFormed(links)
    decreases n
  {
    if n == 0 then p == q else exists m :: Rewritten(links, p, m) && Rewrites(links, m, q, n - 1)
  }

  lemma {:induction false} FirstLinkUnique(links: Links, p: Path, k: nat, j: nat)
    requires FirstLink(links, p, k) && FirstLink(links, p, j)
    ensures k == j
  {
  }

  lemma {:induction false} FirstLinkExists(links: Links, p: Path, bound: nat) returns (k: nat)
    requires 0 < bound <= |p| && p[..bound] in links
    ensures FirstLink(links, p, k)
  {
    if j: nat :| 0 < j < bound && p[..j] in links {
      k := FirstLinkExists(links, p, j);
    } else {
      k := bound;
    }
  }

  lemma {:induction false} LinkFreeIsDone(links: Links, p: Path, q: Path, n: nat)
    requires WellFormed(links) && LinkFree(links, p) && Rewrites(links, p, q, n)
    ensures n == 0 && p == q
  {
  }

  /** Rewriting has one outcome. */
  lemma {:induction false} RewritingIsDeterministic(links: Links, p: Path, q: Path, n: nat, r: Path, m: nat)
    requires WellFormed(links) && Rewrites(links, p, q, n) && Rewrites(links, p, r, m)
    requires LinkFree(links, q) && LinkFree(links, r)
    ensures q == r && n == m
    decreases n
  {
    if n == 0 {
      LinkFreeIsDone(links, p, r, m);
    } else if m == 0 {
      LinkFreeIsDone(links, p, q, n);
    } else {
      var a :| Rewritten(links, p, a) && Rewrites(links, a, q, n - 1);
      var b :| Rewritten(links, p, b) && Rewrites(links, b, r, m - 1);
      RewrittenUnique(links, p, a, b);
      RewritingIsDeterministic(links, a, q, n - 1, r, m - 1);
    }
  }

  lemma {:induction false} RewrittenUnique(links: Links, p: Path, a: Path, b: Path)
    requires WellFormed(links) && Rewritten(links, p, a) && Rewritten(links, p, b)
    ensures a == b
  {
    var k: nat :| FirstLink(links, p, k) && a == Target(links, p[..k]) + p[k..];
    var j: nat :| FirstLink(links, p, j) && b == Target(links, p[..j]) + p[j..];
    FirstLinkUnique(links, p, k, j);
  }

  lemma {:induction false} EmptyIsLinkFree(links: Links)
    ensures LinkFree(links, [])
  {
  }

  // ---- how deeply the links are nested ----

  /** A component, and how many links it was read through. */
  datatype Part = Part(name: Bytes, level: nat)

  type Parts = seq<Part>

  function Names(p: Parts): (names: Path)
    ensures |names| == |p| && forall i :: 0 <= i < |p| ==> names[i] == p[i].name
  {
    seq(|p|, i requires 0 <= i < |p| => p[i].name)
  }

  function AtLevel(p: Path, level: nat): (parts: Parts)
    ensures |parts| == |p| && Names(parts) == p && forall i :: 0 <= i < |p| ==> parts[i] == Part(p[i], level)
  {
    seq(|p|, i requires 0 <= i < |p| => Part(p[i], level))
  }

  lemma {:induction false} NamesJoin(p: Parts, q: Parts)
    ensures Names(p + q) == Names(p) + Names(q)
  {
  }

  lemma {:induction false} NamesCut(p: Parts, k: nat)
    requires k <= |p|
    ensures Names(p[..k]) == Names(p)[..k] && Names(p[k..]) == Names(p)[k..]
  {
  }

  lemma {:induction false} LevelCut(p: Path, level: nat, k: nat)
    requires k <= |p|
    ensures AtLevel(p, level)[k..] == AtLevel(p[k..], level)
  {
  }

  /** The first link is replaced by what it stands for, one level below its own last component. */
  ghost predicate UnfoldedAt(links: Links, p: Parts, q: Parts, bound: nat, k: nat)
    requires WellFormed(links)
  {
    && FirstLink(links, Names(p), k) && p[k - 1].level < bound
    && q == AtLevel(Target(links, Names(p)[..k]), p[k - 1].level + 1) + p[k..]
  }

  ghost predicate Unfolded(links: Links, p: Parts, q: Parts, bound: nat)
    requires WellFormed(links)
  {
    exists k: nat :: UnfoldedAt(links, p, q, bound, k)
  }

  /** Rewriting during which no component is read through more than `bound` links. */
  ghost predicate Unfolds(links: Links, p: Parts, q: Parts, n: nat, bound: nat)
    requires WellFormed(links)
    decreases n
  {
    if n == 0 then p == q else exists m :: Unfolded(links, p, m, bound) && Unfolds(links, m, q, n - 1, bound)
  }

  lemma {:induction false} NothingUnfolds(links: Links, p: Parts, bound: nat)
    requires WellFormed(links)
    ensures Unfolds(links, p, p, 0, bound)
  {
  }

  lemma {:induction false} OneMore(links: Links, p: Parts, m: Parts, q: Parts, n: nat, bound: nat)
    requires WellFormed(links) && Unfolded(links, p, m, bound) && Unfolds(links, m, q, n, bound)
    ensures Unfolds(links, p, q, n + 1, bound)
  {
  }

  /** Without the levels it is the rewriting of paths. */
  lemma {:induction false} UnfoldingRewrites(links: Links, p: Parts, q: Parts, n: nat, bound: nat)
    requires WellFormed(links) && Unfolds(links, p, q, n, bound)
    ensures Rewrites(links, Names(p), Names(q), n)
    decreases n
  {
    hide Unfolded, Rewritten, Names;
    if n > 0 {
      var m :| Unfolded(links, p, m, bound) && Unfolds(links, m, q, n - 1, bound);
      UnfoldedIsRewritten(links, p, m, bound);
      UnfoldingRewrites(links, m, q, n - 1, bound);
    }
  }

  lemma {:induction false} UnfoldedIsRewritten(links: Links, p: Parts, q: Parts, bound: nat)
    requires WellFormed(links) && Unfolded(links, p, q, bound)
    ensures Rewritten(links, Names(p), Names(q))
  {
    hide Target;
    var k: nat :| UnfoldedAt(links, p, q, bound, k);
    NamesJoin(AtLevel(Target(links, Names(p)[..k]), p[k - 1].level + 1), p[k..]);
    NamesCut(p, k);
  }

  ghost predicate Within(p: Parts, level: nat) {
    forall i :: 0 <= i < |p| ==> p[i].level <= level
  }

  /** Each replacement adds one level at most. */
  lemma {:induction false} RewrittenUnfolds(links: Links, p: Parts, m: Path, level: nat, bound: nat)
    returns (next: Parts)
    requires WellFormed(links) && Rewritten(links, Names(p), m) && Within(p, level) && level < bound
    ensures Unfolded(links, p, next, bound) && Names(next) == m && Within(next, level + 1)
  {
    hide Target;
    var k: nat :| FirstLink(links, Names(p), k) && m == Target(links, Names(p)[..k]) + Names(p)[k..];
    var front := AtLevel(Target(links, Names(p)[..k]), p[k - 1].level + 1);
    next := front + p[k..];
    NamesJoin(front, p[k..]);
    NamesCut(p, k);
    assert UnfoldedAt(links, p, next, bound, k);
  }

  lemma {:induction false} RewritingUnfolds(links: Links, p: Parts, r: Path, n: nat, level: nat, bound: nat)
    returns (q: Parts)
    requires WellFormed(links) && Rewrites(links, Names(p), r, n) && Within(p, level) && level + n <= bound
    ensures Unfolds(links, p, q, n, bound) && Names(q) == r
    decreases n
  {
    hide Rewritten, Unfolded, Names, Within;
    if n == 0 {
      q := p;
    } else {
      var m :| Rewritten(links, Names(p), m) && Rewrites(links, m, r, n - 1);
      var next := RewrittenUnfolds(links, p, m, level, bound);
      q := RewritingUnfolds(links, next, r, n - 1, level + 1, bound);
    }
  }

  lemma {:induction false} FirstLinkInContext(links: Links, p: Path, rest: Path, k: nat)
    requires FirstLink(links, p, k)
    ensures FirstLink(links, p + rest, k) && (p + rest)[..k] == p[..k] && (p + rest)[k..] == p[k..] + rest
  {
    assert forall j :: 0 <= j <= |p| ==> (p + rest)[..j] == p[..j];
  }

  lemma {:induction false} UnfoldedInContext(links: Links, p: Parts, q: Parts, rest: Parts, bound: nat)
    requires WellFormed(links) && Unfolded(links, p, q, bound)
    ensures Unfolded(links, p + rest, q + rest, bound)
  {
    hide Target, FirstLink;
    var k: nat :| UnfoldedAt(links, p, q, bound, k);
    assert 0 < k <= |p| by { FirstLinkIsInside(links, Names(p), k); }
    NamesJoin(p, rest);
    FirstLinkInContext(links, Names(p), Names(rest), k);
    assert (p + rest)[k..] == p[k..] + rest;
    assert UnfoldedAt(links, p + rest, q + rest, bound, k);
  }

  lemma {:induction false} FirstLinkIsInside(links: Links, p: Path, k: nat)
    requires FirstLink(links, p, k)
    ensures 0 < k <= |p|
  {
  }

  lemma {:induction false} UnfoldsInContext(links: Links, p: Parts, q: Parts, n: nat, rest: Parts, bound: nat)
    requires WellFormed(links) && Unfolds(links, p, q, n, bound)
    ensures Unfolds(links, p + rest, q + rest, n, bound)
    decreases n
  {
    hide Unfolded;
    if n > 0 {
      var m :| Unfolded(links, p, m, bound) && Unfolds(links, m, q, n - 1, bound);
      UnfoldedInContext(links, p, m, rest, bound);
      UnfoldsInContext(links, m, q, n - 1, rest, bound);
    }
  }

  lemma {:induction false} UnfoldsJoin(links: Links, p: Parts, q: Parts, n: nat, r: Parts, m: nat, bound: nat)
    requires WellFormed(links) && Unfolds(links, p, q, n, bound) && Unfolds(links, q, r, m, bound)
    ensures Unfolds(links, p, r, n + m, bound)
    decreases n
  {
    hide Unfolded;
    if n > 0 {
      var a :| Unfolded(links, p, a, bound) && Unfolds(links, a, q, n - 1, bound);
      UnfoldsJoin(links, a, q, n - 1, r, m, bound);
    }
  }

  /** The loop stops at the candidate when it is the first link of the whole path. */
  lemma {:induction false} CandidateIsFirst(links: Links, resolved: Path, rest: Path)
    requires LinkFree(links, resolved) && rest != [] && resolved + [rest[0]] in links
    ensures var whole, k := resolved + rest, |resolved| + 1;
            FirstLink(links, whole, k) && whole[..k] == resolved + [rest[0]] && whole[k..] == rest[1..]
  {
    var whole, candidate := resolved + rest, resolved + [rest[0]];
    assert whole[..|candidate|] == candidate;
    assert forall j :: 0 <= j <= |resolved| ==> whole[..j] == resolved[..j];
  }

  /** From there, one step replaces it, if it is not nested too deeply. */
  lemma {:induction false} CandidateUnfolds(links: Links, resolved: Parts, rest: Path, depth: nat, next: Parts)
    requires WellFormed(links) && LinkFree(links, Names(resolved))
    requires rest != [] && Names(resolved) + [rest[0]] in links
    ensures var t := Target(links, Names(resolved) + [rest[0]]);
            Unfolded(links, resolved + AtLevel(rest, depth), next, DEPTH) <==>
            depth < DEPTH && next == AtLevel(t, depth + 1) + AtLevel(rest[1..], depth)
  {
    hide Target, FirstLink;
    var whole, k := resolved + AtLevel(rest, depth), |resolved| + 1;
    NamesJoin(resolved, AtLevel(rest, depth));
    CandidateIsFirst(links, Names(resolved), rest);
    LevelCut(rest, depth, 1);
    assert whole[k - 1] == Part(rest[0], depth) && whole[k..] == AtLevel(rest, depth)[1..];
    if j: nat :| UnfoldedAt(links, whole, next, DEPTH, j) {
      FirstLinkUnique(links, Names(whole), j, k);
    }
    var t := Target(links, Names(resolved) + [rest[0]]);
    if depth < DEPTH && next == AtLevel(t, depth + 1) + AtLevel(rest[1..], depth) {
      assert UnfoldedAt(links, whole, next, DEPTH, k);
    }
  }

  lemma {:induction false} OntoResolved(resolved: Parts, rest: Path, depth: nat)
    requires rest != []
    ensures resolved + AtLevel(rest, depth) == (resolved + [Part(rest[0], depth)]) + AtLevel(rest[1..], depth)
    ensures Names(resolved + [Part(rest[0], depth)]) == Names(resolved) + [rest[0]]
  {
    hide Names, AtLevel;
    var first, tail := Part(rest[0], depth), AtLevel(rest[1..], depth);
    assert AtLevel(rest, depth) == [first] + tail;
    assert resolved + ([first] + tail) == resolved + [first] + tail;
    NamesJoin(resolved, [first]);
    assert Names([first]) == [rest[0]];
  }

  /** What the loop returns is reached by replacing first links, none of them nested too deeply. */
  lemma {:induction false} FollowUnfolds(links: Links, resolved: Parts, rest: Path, depth: nat)
    returns (end: Parts, n: nat)
    requires WellFormed(links) && depth <= DEPTH && LinkFree(links, Names(resolved))
    requires Follow(links, Names(resolved), rest, depth).Some?
    ensures Names(end) == Follow(links, Names(resolved), rest, depth).value
    ensures Unfolds(links, resolved + AtLevel(rest, depth), end, n, DEPTH)
    decreases DEPTH + 1 - depth, |rest|
  {
    hide Unfolds, Unfolded, LinkFree, Target, Names, AtLevel;
    var whole := resolved + AtLevel(rest, depth);
    if rest == [] {
      assert whole == resolved;
      end, n := resolved, 0;
      NothingUnfolds(links, resolved, DEPTH);
    } else {
      var candidate := Names(resolved) + [rest[0]];
      if candidate in links {
        var t := Target(links, candidate);
        EmptyIsLinkFree(links);
        assert Names([]) == [] && [] + AtLevel(t, depth + 1) == AtLevel(t, depth + 1);
        FollowIsLinkFree(links, [], t, depth + 1);
        var r, inner := FollowUnfolds(links, [], t, depth + 1);
        UnfoldsInContext(links, AtLevel(t, depth + 1), r, inner, AtLevel(rest[1..], depth), DEPTH);
        var outer;
        end, outer := FollowUnfolds(links, r, rest[1..], depth);
        var next, middle := AtLevel(t, depth + 1) + AtLevel(rest[1..], depth), r + AtLevel(rest[1..], depth);
        UnfoldsJoin(links, next, middle, inner, end, outer, DEPTH);
        CandidateUnfolds(links, resolved, rest, depth, next);
        OneMore(links, whole, next, end, inner + outer, DEPTH);
        n := inner + outer + 1;
      } else {
        LinkFreeStep(links, Names(resolved), rest[0]);
        OntoResolved(resolved, rest, depth);
        end, n := FollowUnfolds(links, resolved + [Part(rest[0], depth)], rest[1..], depth);
      }
    }
  }

  lemma {:induction false} LinkFreeStandsStill(links: Links, p: Parts, q: Parts, n: nat, bound: nat)
    requires WellFormed(links) && LinkFree(links, Names(p)) && Unfolds(links, p, q, n, bound)
    ensures n == 0 && p == q
  {
    UnfoldingRewrites(links, p, q, n, bound);
    LinkFreeIsDone(links, Names(p), Names(q), n);
  }

  lemma {:induction false} FrontLink(links: Links, a: Parts, b: Parts, k: nat)
    requires !LinkFree(links, Names(a)) && FirstLink(links, Names(a + b), k)
    ensures 0 < k <= |a| && FirstLink(links, Names(a), k)
    ensures Names(a + b)[..k] == Names(a)[..k] && Names(a)[..k] in links
  {
    hide Names;
    var cut :| 0 < cut <= |a| && Names(a)[..cut] in links;
    var j := FirstLinkExists(links, Names(a), cut);
    NamesJoin(a, b);
    FirstLinkInContext(links, Names(a), Names(b), j);
    FirstLinkUnique(links, Names(a + b), k, j);
  }

  /** While the front part has a link, the step is one of the front part. */
  lemma {:induction false} FrontStep(links: Links, a: Parts, b: Parts, m: Parts, bound: nat) returns (next: Parts)
    requires WellFormed(links) && !LinkFree(links, Names(a)) && Unfolded(links, a + b, m, bound)
    ensures Unfolded(links, a, next, bound) && m == next + b
  {
    hide Target, FirstLink, LinkFree, Names, AtLevel;
    var k: nat :| UnfoldedAt(links, a + b, m, bound, k);
    FrontLink(links, a, b, k);
    var front := AtLevel(Target(links, Names(a)[..k]), a[k - 1].level + 1);
    next := front + a[k..];
    assert UnfoldedAt(links, a, next, bound, k);
    assert (a + b)[k - 1] == a[k - 1] && (a + b)[k..] == a[k..] + b;
    assert front + (a[k..] + b) == next + b;
  }

  /** A rewriting to the end first brings the front part to its own end. */
  lemma {:induction false} UnfoldsSplit(links: Links, a: Parts, b: Parts, r: Parts, n: nat, bound: nat)
    returns (end: Parts, i: nat)
    requires WellFormed(links) && Unfolds(links, a + b, r, n, bound) && LinkFree(links, Names(r))
    ensures i <= n && LinkFree(links, Names(end))
    ensures Unfolds(links, a, end, i, bound) && Unfolds(links, end + b, r, n - i, bound)
    decreases n
  {
    hide Unfolded, Target, LinkFree, Names;
    if LinkFree(links, Names(a)) {
      end, i := a, 0;
    } else {
      if n == 0 { FrontHasLink(links, a, b); }
      var m :| Unfolded(links, a + b, m, bound) && Unfolds(links, m, r, n - 1, bound);
      var next := FrontStep(links, a, b, m, bound);
      end, i := UnfoldsSplit(links, next, b, r, n - 1, bound);
      OneMore(links, a, next, end, i, bound);
      i := i + 1;
    }
  }

  lemma {:induction false} FrontHasLink(links: Links, a: Parts, b: Parts)
    requires !LinkFree(links, Names(a))
    ensures !LinkFree(links, Names(a + b))
  {
    var k :| 0 < k <= |a| && Names(a)[..k] in links;
    assert Names(a + b)[..k] == Names(a)[..k];
  }

  /** Links that end within the depth bound are followed to the end. */
  lemma {:induction false} FollowCompletes(links: Links, resolved: Parts, rest: Path, depth: nat, r: Parts, n: nat)
    requires WellFormed(links) && depth <= DEPTH && LinkFree(links, Names(resolved)) && LinkFree(links, Names(r))
    requires Unfolds(links, resolved + AtLevel(rest, depth), r, n, DEPTH)
    ensures Follow(links, Names(resolved), rest, depth) == Some(Names(r))
    decreases n, |rest|
  {
    hide Unfolds, Unfolded, LinkFree, Target, Names, AtLevel;
    var whole := resolved + AtLevel(rest, depth);
    if rest == [] {
      assert whole == resolved;
      LinkFreeStandsStill(links, whole, r, n, DEPTH);
    } else {
      var candidate := Names(resolved) + [rest[0]];
      if candidate in links {
        var t := Target(links, candidate);
        var next := FirstUnfolding(links, resolved, rest, depth, r, n);
        var end, i := UnfoldsSplit(links, AtLevel(t, depth + 1), AtLevel(rest[1..], depth), r, n - 1, DEPTH);
        EmptyIsLinkFree(links);
        assert Names([]) == [] && [] + AtLevel(t, depth + 1) == AtLevel(t, depth + 1);
        FollowCompletes(links, [], t, depth + 1, end, i);
        FollowCompletes(links, end, rest[1..], depth, r, n - 1 - i);
      } else {
        LinkFreeStep(links, Names(resolved), rest[0]);
        OntoResolved(resolved, rest, depth);
        FollowCompletes(links, resolved + [Part(rest[0], depth)], rest[1..], depth, r, n);
      }
    }
  }

  /** At a candidate that is a link, the rewriting starts with it. */
  lemma {:induction false} FirstUnfolding(links: Links, resolved: Parts, rest: Path, depth: nat, r: Parts, n: nat)
    returns (next: Parts)
    requires WellFormed(links) && LinkFree(links, Names(resolved)) && LinkFree(links, Names(r))
    requires rest != [] && Names(resolved) + [rest[0]] in links
    requires Unfolds(links, resolved + AtLevel(rest, depth), r, n, DEPTH)
    ensures n > 0 && depth < DEPTH && Unfolds(links, next, r, n - 1, DEPTH)
    ensures next == AtLevel(Target(links, Names(resolved) + [rest[0]]), depth + 1) + AtLevel(rest[1..], depth)
  {
    hide Unfolded, Target;
    var whole := resolved + AtLevel(rest, depth);
    if n == 0 {
      NamesJoin(resolved, AtLevel(rest, depth));
      CandidateIsFirst(links, Names(resolved), rest);
    }
    var m :| Unfolded(links, whole, m, DEPTH) && Unfolds(links, m, r, n - 1, DEPTH);
    CandidateUnfolds(links, resolved, rest, depth, m);
    next := m;
  }

  /** Replacing first links leads to `r`, and no component is read through more than forty links. */
  ghost predicate EndsAt(links: Links, path: Path, depth: nat, r: Path)
    requires WellFormed(links)
  {
    LinkFree(links, r) && exists q, n: nat :: Unfolds(links, AtLevel(path, depth), q, n, 40) && Names(q) == r
  }

  /** A path is returned exactly when the rewriting ends there and links are nested forty deep at most. */
  lemma {:induction false} ResolvesExactly(links: Links, path: Path, depth: nat, r: Path)
    requires WellFormed(links) && depth <= DEPTH
    ensures Canonical(links, path, depth) == Some(r) <==> EndsAt(links, path, depth, r)
  {
    hide Unfolds, Follow;
    EmptyIsLinkFree(links);
    assert Names([]) == [] && [] + AtLevel(path, depth) == AtLevel(path, depth);
    if Canonical(links, path, depth) == Some(r) {
      FollowIsLinkFree(links, [], path, depth);
      var q, n := FollowUnfolds(links, [], path, depth);
    }
    if EndsAt(links, path, depth, r) {
      var q, n: nat :| Unfolds(links, AtLevel(path, depth), q, n, DEPTH) && Names(q) == r;
      FollowCompletes(links, [], path, depth, q, n);
    }
  }

  /** Whatever is returned is the one end of the rewriting, and every end within forty rewritings is returned. */
  lemma {:induction false} ResolvesByRewriting(links: Links, path: Path)
    requires WellFormed(links)
    ensures forall r :: Canonical(links, path, 0) == Some(r) ==>
              LinkFree(links, r) && exists n :: Rewrites(links, path, r, n)
    ensures forall r, n: nat :: n <= 40 && Rewrites(links, path, r, n) && LinkFree(links, r) ==>
              Canonical(links, path, 0) == Some(r)
  {
    hide Unfolds, Rewrites, LinkFree, Follow;
    var c := Canonical(links, path, 0);
    if c.Some? {
      ResolvesExactly(links, path, 0, c.value);
      var q, n: nat :| Unfolds(links, AtLevel(path, 0), q, n, DEPTH) && Names(q) == c.value;
      UnfoldingRewrites(links, AtLevel(path, 0), q, n, DEPTH);
      assert Rewrites(links, path, c.value, n);
    }
    forall r, n: nat | n <= DEPTH && Rewrites(links, path, r, n) && LinkFree(links, r)
      ensures Canonical(links, path, 0) == Some(r)
    {
      var q := RewritingUnfolds(links, AtLevel(path, 0), r, n, 0, DEPTH);
      ResolvesExactly(links, path, 0, r);
    }
  }

  // ---- where a link leads ----

  lemma {:induction false} ExpandJoin(base: Path, a: seq<Bytes>, b: seq<Bytes>)
    ensures Expand(base, a + b) == Expand(Expand(base, a), b)
    decreases |a|
  {
    if a == [] {
      assert a + b == b;
    } else {
      assert (a + b)[1..] == a[1..] + b;
      ExpandJoin(Enter(base, a[0]), a[1..], b);
    }
  }

  /** As many `..` as asked for. */
  function Ups(n: nat): seq<Bytes> {
    seq(n, _ => [0x2e, 0x2e])
  }

  lemma {:induction false} ExpandUps(base: Path, n: nat)
    ensures Expand(base, Ups(n)) == if n <= |base| then base[..|base| - n] else []
    decreases n
  {
    if n == 0 {
      assert base[..|base|] == base;
    } else {
      assert Ups(n)[1..] == Ups(n - 1);
      ExpandUps(if base == [] then [] else base[..|base| - 1], n - 1);
    }
  }

  /** Names that are followed without a link on the way. */
  lemma {:induction false} FollowFree(links: Links, resolved: Path, names: Path, rest: Path, depth: nat)
    requires WellFormed(links) && depth <= DEPTH && LinkFree(links, resolved + names)
    ensures Follow(links, resolved, names + rest, depth) == Follow(links, resolved + names, rest, depth)
    decreases |names|
  {
    if names == [] {
      assert resolved + names == resolved && names + rest == rest;
    } else {
      var candidate := resolved + [names[0]];
      assert (resolved + names)[..|candidate|] == candidate;
      assert candidate + names[1..] == resolved + names && (names + rest)[1..] == names[1..] + rest;
      FollowFree(links, candidate, names[1..], rest, depth);
    }
  }

  /**
   A link in the directory `d`, with no link on the way to it or behind it. Its text goes up `n` times and
   then down the names `t`: from the root if it is absolute, otherwise from `d`, and never above the root.
   */
  lemma {:induction false} LinkLeads(links: Links, d: Path, name: Bytes, absolute: bool, n: nat, t: Path, more: Path,
                                     depth: nat)
    requires WellFormed(links) && depth < 40 && LinkFree(links, d)
    requires d + [name] in links && links[d + [name]] == Written(absolute, Ups(n) + t)
    requires forall c :: c in t ==> c != [] && c != [0x2e] && c != [0x2e, 0x2e]
    requires LinkFree(links, (if absolute || n > |d| then [] else d[..|d| - n]) + t + more)
    ensures Canonical(links, d + [name] + more, depth)
         == Some((if absolute || n > |d| then [] else d[..|d| - n]) + t + more)
  {
    var at, from := d + [name], if absolute || n > |d| then [] else d[..|d| - n];
    var e := from + t;
    assert at[..|at| - 1] == d;
    ExpandJoin(if absolute then [] else d, Ups(n), t);
    ExpandUps(if absolute then [] else d, n);
    assert forall c :: c in t ==> SLASH !in c by {
      assert NoSlashes(Ups(n) + t);
      assert forall c :: c in t ==> c in Ups(n) + t;
    }
    ExpandPlain(from, t);
    assert Target(links, at) == e;
    assert [] + d == d && d + [name] + more == d + ([name] + more);
    FollowFree(links, [], d, [name] + more, depth);
    assert ([name] + more)[1..] == more;
    LinkFreePrefix(links, e, more);
    ResolvedIsFixed(links, e, depth + 1);
    LinkFreeStays(links, e, more, depth);
  }

  lemma {:induction false} LinkFreePrefix(links: Links, p: Path, more: Path)
    requires LinkFree(links, p + more)
    ensures LinkFree(links, p)
  {
    forall k | 0 < k <= |p| ensures p[..k] !in links {
      assert (p + more)[..k] == p[..k];
    }
  }

  /** Two file systems whose links lead to the same places resolve every path alike. */
  lemma {:induction false} SameTargets(a: Links, b: Links, resolved: Path, rest: Path, depth: nat)
    requires WellFormed(a) && WellFormed(b) && depth <= DEPTH && a.Keys == b.Keys
    requires forall p :: p in a ==> Target(a, p) == Target(b, p)
    ensures Follow(a, resolved, rest, depth) == Follow(b, resolved, rest, depth)
    decreases DEPTH + 1 - depth, |rest|
  {
    hide Target;
    if rest != [] {
      var candidate := resolved + [rest[0]];
      if candidate in a {
        if depth < DEPTH { SameTargets(a, b, [], Target(a, candidate), depth + 1); }
        var r := Canonical(a, Target(a, candidate), depth + 1);
        if r.Some? { SameTargets(a, b, r.value, rest[1..], depth); }
      } else {
        SameTargets(a, b, candidate, rest[1..], depth);
      }
    }
  }

  /** What a link's text may hold besides names and leading `..`: it says nothing, or takes a name back. */
  predicate Idle(parts: seq<Bytes>) {
    || parts == [[]] || parts == [[0x2e]]
    || (|parts| == 2 && parts[0] != [] && parts[0] != [0x2e] && parts[0] != [0x2e, 0x2e] && parts[1] == [0x2e, 0x2e])
  }

  /** An empty part, a `.`, or a name with `..` after it may be left out of a link's text. */
  lemma {:induction false} IdlePartsVanish(links: Links, at: Path, absolute: bool, a: seq<Bytes>, idle: seq<Bytes>,
                                           b: seq<Bytes>, path: Path, depth: nat)
    requires WellFormed(links[at := Written(absolute, a + idle + b)]) && Idle(idle)
    ensures WellFormed(links[at := Written(absolute, a + b)])
    ensures Canonical(links[at := Written(absolute, a + idle + b)], path, depth)
         == Canonical(links[at := Written(absolute, a + b)], path, depth)
  {
    var long, short := links[at := Written(absolute, a + idle + b)], links[at := Written(absolute, a + b)];
    forall p | p in short
      ensures p != [] && IsPath(p) && NoSlashes(short[p].parts) && Target(long, p) == Target(short, p)
    {
      assert p in long;
      if p == at {
        assert forall c :: c in a + b ==> c in a + idle + b;
        var base := if absolute then [] else at[..|at| - 1];
        ExpandJoin(base, a, b);
        ExpandJoin(base, a + idle, b);
        ExpandJoin(base, a, idle);
        IdleExpands(Expand(base, a), idle);
      }
    }
    if depth <= DEPTH { SameTargets(long, short, [], path, depth); }
  }

  lemma {:induction false} IdleExpands(base: Path, idle: seq<Bytes>)
    requires Idle(idle)
    ensures Expand(base, idle) == base
  {
    if |idle| == 2 {
      var inside := base + [idle[0]];
      assert idle[1..] == [idle[1]] && idle[1..][1..] == [];
      assert Expand(base, idle) == Expand(inside, [idle[1]]) == Enter(inside, idle[1]) == inside[..|base|] == base;
    } else {
      assert idle[1..] == [];
    }
  }

  // ---- overlap ----

  /** A path as text. */
  function Text(p: Path): Bytes {
    if p == [] then [SLASH] else Components(p)
  }

  function Components(p: Path): Bytes {
    if p == [] then [] else [SLASH] + (p[0] + Components(p[1..]))
  }

  /** `overlapping?`, on texts. */
  predicate Overlapping(evidence: Bytes, root: Bytes) {
    evidence == root || root + [SLASH] <= evidence || evidence + [SLASH] <= root
  }

  lemma {:induction false} ComponentsJoin(p: Path, q: Path)
    ensures Components(p + q) == Components(p) + Components(q)
    decreases |p|
  {
    if p == [] {
      assert p + q == q;
    } else {
      assert (p + q)[1..] == p[1..] + q;
      ComponentsJoin(p[1..], q);
      assert [SLASH] + (p[0] + (Components(p[1..]) + Components(q))) == Components(p) + Components(q);
    }
  }

  /** The first component ends where the next slash is. */
  lemma {:induction false} ComponentsStart(p: Path, q: Path, rest: Bytes)
    requires IsPath(p) && IsPath(q) && p != [] && q != []
    requires Components(p) + rest == Components(q) && (rest == [] || rest[0] == SLASH)
    ensures p[0] == q[0] && Components(p[1..]) + rest == Components(q[1..])
  {
    var a, b := p[0] + (Components(p[1..]) + rest), q[0] + Components(q[1..]);
    var l, r := Components(p) + rest, Components(q);
    assert l == [SLASH] + a && r == [SLASH] + b;
    assert l[1..] == a && r[1..] == b;
    assert p[0] in p && q[0] in q;
    NameEnds(p[0], Components(p[1..]) + rest, q[0], Components(q[1..]));
  }

  lemma {:induction false} NameEnds(c: Bytes, x: Bytes, d: Bytes, y: Bytes)
    requires SLASH !in c && SLASH !in d && c + x == d + y
    requires x == [] || x[0] == SLASH
    requires y == [] || y[0] == SLASH
    ensures c == d && x == y
  {
    var l, r := c + x, d + y;
    assert forall k :: 0 <= k < |c| ==> l[k] == c[k];
    assert forall k :: 0 <= k < |d| ==> r[k] == d[k];
    assert x != [] ==> l[|c|] == SLASH;
    assert y != [] ==> r[|d|] == SLASH;
    assert |c| == |d|;
    assert c == l[..|c|] == r[..|d|] == d && x == l[|c|..] == r[|d|..] == y;
  }

  lemma {:induction false} ComponentsPrefix(p: Path, q: Path, rest: Bytes)
    requires IsPath(p) && IsPath(q)
    requires Components(p) + rest == Components(q) && (rest == [] || rest[0] == SLASH)
    ensures p <= q && (p == q <==> rest == [])
    decreases |p|
  {
    if p == [] {
      assert [] + rest == rest;
    } else {
      assert Components(p)[0] == SLASH && (Components(p) + rest)[0] == SLASH;
      ComponentsStart(p, q, rest);
      assert forall c :: c in p[1..] ==> c in p;
      assert forall c :: c in q[1..] ==> c in q;
      ComponentsPrefix(p[1..], q[1..], rest);
      assert p == [p[0]] + p[1..] && q == [q[0]] + q[1..];
    }
  }

  /** The text of a path followed by a slash starts the text of another exactly when the one is a part of the other. */
  lemma {:induction false} PrefixByComponents(p: Path, q: Path)
    requires IsPath(p) && IsPath(q)
    ensures Components(p) + [SLASH] <= Components(q) <==> p < q
    ensures Components(p) == Components(q) <==> p == q
  {
    var a, b := Components(p), Components(q);
    if a + [SLASH] <= b {
      var rest := b[|a|..];
      assert b == a + rest && rest[0] == (a + [SLASH])[|a|] == SLASH;
      ComponentsPrefix(p, q, rest);
    }
    if a == b {
      assert a + [] == b;
      ComponentsPrefix(p, q, []);
    }
    if p < q {
      var tail := q[|p|..];
      assert q == p + tail;
      ComponentsJoin(p, tail);
      assert Components(tail)[0] == SLASH;
      assert b[..|a| + 1] == a + [SLASH];
    }
  }

  /** A name is not empty, has no slash in it, and is neither `.` nor `..`. */
  lemma {:induction false} NamesSpell(c: Bytes)
    ensures IsName(c) <==> c != [] && (forall x :: x in c ==> x as char != '/') && c != Ascii(".") && c != Ascii("..")
  {
    assert Ascii(".") == DOT && Ascii("..") == DOTS;
  }

  /** The text of a path: a slash before each name, and one slash for the root. */
  lemma {:induction false} TextSpells(p: Path, c: Bytes)
    ensures Text([]) == Ascii("/") && Text([c]) == Ascii("/") + c
    ensures p != [] ==> Text(p + [c]) == Text(p) + Ascii("/") + c
  {
    assert Ascii("/") == [SLASH];
    ComponentsJoin(p, [c]);
    assert [c][1..] == [] && Components([c]) == [SLASH] + (c + []) && c + [] == c;
    assert Components(p) + ([SLASH] + c) == Components(p) + [SLASH] + c;
  }

  lemma {:induction false} ComponentsAreLong(p: Path)
    requires IsPath(p) && p != []
    ensures |Components(p)| >= 2 && Components(p)[0] == SLASH && Components(p)[1] != SLASH
  {
    assert p[0] in p;
  }

  /** `overlapping?` says that one path is the other or lies below it, unless one of them is the root. */
  lemma {:induction false} OverlapsExactly(p: Path, q: Path)
    requires IsPath(p) && IsPath(q)
    ensures Overlapping(Text(p), Text(q)) <==> p == q || (p != [] && q != [] && (p <= q || q <= p))
    ensures Overlapping(Text(p), Text(q)) <==> Overlapping(Text(q), Text(p))
  {
    hide Components;
    PrefixByComponents(p, q);
    PrefixByComponents(q, p);
    if p != [] { ComponentsAreLong(p); }
    if q != [] { ComponentsAreLong(q); }
  }
}
