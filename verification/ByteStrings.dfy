/** Bytes, byte strings and the bytewise order that sorting in Go and Ruby uses. */
module ByteStrings {
  type byte = i: int | 0 <= i < 256
  type Bytes = seq<byte>

  datatype Option<+T> = None | Some(value: T) {
    function GetOr(default: T): T {
      if Some? then value else default
    }
  }

  datatype Result<+T, +E> = Ok(value: T) | Err(error: E)

  /** A text of ASCII characters. */
  function Ascii(s: string): (t: Bytes)
    requires forall i :: 0 <= i < |s| ==> s[i] as int < 0x80
    ensures |t| == |s| && forall i :: 0 <= i < |s| ==> t[i] == s[i] as int
  {
    seq(|s|, i requires 0 <= i < |s| => s[i] as int)
  }

  /** `text` stands in `data` from position `pos` on. */
  predicate At(data: Bytes, pos: int, text: Bytes) {
    0 <= pos && pos + |text| <= |data| && forall k :: 0 <= k < |text| ==> text[k] == data[pos + k]
  }

  lemma {:induction false} AtSplit(data: Bytes, pos: int, a: Bytes, b: Bytes)
    ensures At(data, pos, a + b) <==> At(data, pos, a) && At(data, pos + |a|, b)
  {
    var ab := a + b;
    if At(data, pos, ab) {
      forall k | 0 <= k < |a| ensures a[k] == data[pos + k] { assert ab[k] == a[k]; }
      forall k | 0 <= k < |b| ensures b[k] == data[pos + |a| + k] { assert ab[|a| + k] == b[k]; }
    }
  }

  lemma {:induction false} AtSlice(data: Bytes, pos: int, text: Bytes)
    requires At(data, pos, text)
    ensures data[pos..pos + |text|] == text
  {
  }

  // ---- stripping ----

  /** What `String#strip` takes away at either end. */
  predicate IsBlankByte(c: byte) {
    c == 0 || 0x09 <= c <= 0x0d || c == 0x20
  }

  function StripLeft(t: Bytes): Bytes {
    if t != [] && IsBlankByte(t[0]) then StripLeft(t[1..]) else t
  }

  function StripRight(t: Bytes): Bytes {
    if t != [] && IsBlankByte(t[|t| - 1]) then StripRight(t[..|t| - 1]) else t
  }

  function Strip(t: Bytes): Bytes {
    StripRight(StripLeft(t))
  }

  /** Nothing but zero bytes, tabs, line feeds, vertical tabs, form feeds, carriage returns and spaces. */
  predicate White(t: Bytes) {
    forall c :: c in t ==> c == 0 || c == 9 || c == 10 || c == 11 || c == 12 || c == 13 || c == 32
  }

  /** Neither the first nor the last byte is white. */
  predicate Trimmed(t: Bytes) {
    t != [] ==> !White(t[..1]) && !White(t[|t| - 1..])
  }

  lemma {:induction false} BlankIsWhite(c: byte)
    ensures IsBlankByte(c) <==> White([c])
  {
    assert [c][0] in [c];
  }

  lemma {:induction false} StripLeftOf(a: Bytes, b: Bytes)
    requires White(a) && (b != [] ==> !White(b[..1]))
    ensures StripLeft(a + b) == b
    decreases |a|
  {
    if a == [] {
      assert a + b == b;
      if b != [] {
        assert b[..1] == [b[0]];
        BlankIsWhite(b[0]);
      }
    } else {
      assert a[0] in a && forall c :: c in a[1..] ==> c in a;
      assert (a + b)[1..] == a[1..] + b;
      StripLeftOf(a[1..], b);
    }
  }

  lemma {:induction false} StripRightOf(b: Bytes, c: Bytes)
    requires White(c) && (b != [] ==> !White(b[|b| - 1..]))
    ensures StripRight(b + c) == b
    decreases |c|
  {
    if c == [] {
      assert b + c == b;
      if b != [] {
        assert b[|b| - 1..] == [b[|b| - 1]];
        BlankIsWhite(b[|b| - 1]);
      }
    } else {
      var shorter := c[..|c| - 1];
      assert c[|c| - 1] in c && forall x :: x in shorter ==> x in c;
      assert (b + c)[..|b + c| - 1] == b + shorter;
      StripRightOf(b, shorter);
    }
  }

  lemma {:induction false} FindLeft(t: Bytes) returns (a: Bytes)
    ensures White(a) && t == a + StripLeft(t) && (StripLeft(t) != [] ==> !White(StripLeft(t)[..1]))
    decreases |t|
  {
    if t != [] {
      BlankIsWhite(t[0]);
      assert t[..1] == [t[0]];
    }
    if t != [] && IsBlankByte(t[0]) {
      var rest := FindLeft(t[1..]);
      a := [t[0]] + rest;
      assert t == [t[0]] + t[1..];
    } else {
      a := [];
    }
  }

  lemma {:induction false} FindRight(t: Bytes) returns (c: Bytes)
    ensures White(c) && t == StripRight(t) + c
    ensures StripRight(t) != [] ==> !White(StripRight(t)[|StripRight(t)| - 1..])
    decreases |t|
  {
    if t != [] {
      BlankIsWhite(t[|t| - 1]);
      assert t[|t| - 1..] == [t[|t| - 1]];
    }
    if t != [] && IsBlankByte(t[|t| - 1]) {
      var rest := FindRight(t[..|t| - 1]);
      c := rest + [t[|t| - 1]];
      assert t == t[..|t| - 1] + [t[|t| - 1]];
    } else {
      c := [];
      assert t + [] == t;
    }
  }

  /** Stripping takes the white bytes at both ends, and nothing else. */
  lemma {:induction false} StripsExactly(t: Bytes, b: Bytes)
    ensures Strip(t) == b <==> Trimmed(b) && exists a, c :: White(a) && White(c) && t == a + b + c
  {
    hide StripLeft, StripRight, White;
    var a := FindLeft(t);
    var c := FindRight(StripLeft(t));
    var s := Strip(t);
    if Strip(t) == b {
      assert t == a + (s + c) == a + s + c;
      StripKeepsHead(StripLeft(t), c);
    }
    if Trimmed(b) && exists a, c :: White(a) && White(c) && t == a + b + c {
      var a', c' :| White(a') && White(c') && t == a' + b + c';
      StripParts(a', b, c');
    }
  }

  lemma {:induction false} StripKeepsHead(u: Bytes, c: Bytes)
    requires u == StripRight(u) + c && (u != [] ==> !White(u[..1]))
    ensures StripRight(u) != [] ==> !White(StripRight(u)[..1])
  {
    if StripRight(u) != [] { assert u[..1] == StripRight(u)[..1]; }
  }

  lemma {:induction false} StripParts(a: Bytes, b: Bytes, c: Bytes)
    requires White(a) && White(c) && Trimmed(b)
    ensures Strip(a + b + c) == b
  {
    hide StripRight, StripLeft;
    if b == [] {
      assert a + b + c == (a + c) + b && forall x :: x in a + c ==> x in a || x in c;
      StripLeftOf(a + c, b);
      StripRightOf(b, b);
      assert b + b == b;
    } else {
      assert a + b + c == a + (b + c) && (b + c)[..1] == b[..1];
      StripLeftOf(a, b + c);
      StripRightOf(b, c);
    }
  }

  // ---- bytewise order ----

  predicate Less(a: Bytes, b: Bytes) {
    b != [] && (a == [] || a[0] < b[0] || (a[0] == b[0] && Less(a[1..], b[1..])))
  }

  lemma {:induction false} LessTotal(a: Bytes, b: Bytes)
    ensures a == b || Less(a, b) || Less(b, a)
    ensures !(Less(a, b) && Less(b, a))
    ensures !Less(a, a)
  {
    if a != [] && b != [] && a[0] == b[0] {
      LessTotal(a[1..], b[1..]);
      LessTotal(a[1..], a[1..]);
      assert a == [a[0]] + a[1..] && b == [b[0]] + b[1..];
    } else if a != [] {
      LessTotal(a[1..], a[1..]);
    }
  }

  lemma {:induction false} LessTransitive(a: Bytes, b: Bytes, c: Bytes)
    requires Less(a, b) && Less(b, c)
    ensures Less(a, c)
  {
    if a != [] && a[0] == b[0] == c[0] {
      LessTransitive(a[1..], b[1..], c[1..]);
    }
  }

  ghost predicate Increasing(ks: seq<Bytes>) {
    forall i, j :: 0 <= i < j < |ks| ==> Less(ks[i], ks[j])
  }

  ghost function Elements(ks: seq<Bytes>): set<Bytes> {
    set k | k in ks
  }

  ghost predicate IsLeast(m: Bytes, s: set<Bytes>) {
    m in s && forall k :: k in s && k != m ==> Less(m, k)
  }

  lemma {:induction false} LeastExists(s: set<Bytes>)
    requires s != {}
    ensures exists m :: IsLeast(m, s)
  {
    var x :| x in s;
    if s == {x} {
      assert IsLeast(x, s);
    } else {
      var rest := s - {x};
      LeastExists(rest);
      var n :| IsLeast(n, rest);
      LessTotal(x, n);
      if Less(x, n) {
        forall k | k in s && k != x ensures Less(x, k) {
          if k != n { LessTransitive(x, n, k); }
        }
        assert IsLeast(x, s);
      } else {
        assert IsLeast(n, s);
      }
    }
  }

  /** The keys of a set in increasing bytewise order: what `sort.Strings` leaves behind. */
  ghost function SortedKeys(s: set<Bytes>): (ks: seq<Bytes>)
    ensures Increasing(ks) && Elements(ks) == s
  {
    if s == {} then []
    else
      LeastExists(s);
      var m :| IsLeast(m, s);
      var rest := SortedKeys(s - {m});
      assert Elements([m] + rest) == {m} + Elements(rest) == s;
      [m] + rest
  }

  /** A set has one increasing listing, so sorting its keys has one possible outcome. */
  lemma {:induction false} IncreasingUnique(a: seq<Bytes>, b: seq<Bytes>)
    requires Increasing(a) && Increasing(b) && Elements(a) == Elements(b)
    ensures a == b
  {
    EmptyElements(a);
    EmptyElements(b);
    if a != [] {
      assert a[0] in Elements(b) && b[0] in Elements(a);
      LessTotal(a[0], b[0]);
      assert a[0] == b[0];
      HeadDistinct(a);
      HeadDistinct(b);
      IncreasingUnique(a[1..], b[1..]);
      assert a == [a[0]] + a[1..] && b == [b[0]] + b[1..];
    }
  }

  lemma {:induction false} EmptyElements(a: seq<Bytes>)
    ensures Elements(a) == {} <==> a == []
  {
    if a != [] { assert a[0] in Elements(a); }
  }

  lemma {:induction false} HeadDistinct(a: seq<Bytes>)
    requires a != [] && Increasing(a)
    ensures Elements(a[1..]) == Elements(a) - {a[0]}
  {
    forall k | k in a[1..] ensures k != a[0] {
      var i :| 0 <= i < |a[1..]| && a[1..][i] == k;
      LessTotal(a[0], a[i + 1]);
    }
    forall k | k in a && k != a[0] ensures k in a[1..] {
      var i :| 0 <= i < |a| && a[i] == k;
      assert a[1..][i - 1] == k;
    }
  }
}
