/** The independent stream normalizer that audits recorded streams. */
module Normalizer {
  import opened ByteStrings
  import opened Utf8

  const CR: byte := 0x0d
  const LF: byte := 0x0a
  const ADDRESS: Bytes := [0x30, 0x78, 0x41, 0x44, 0x44, 0x52] // 0xADDR

  predicate IsWord(c: byte) {
    c == 0x5f || 0x30 <= c <= 0x39 || 0x61 <= c <= 0x7a || 0x41 <= c <= 0x5a
  }

  predicate IsHex(c: byte) {
    0x30 <= c <= 0x39 || 0x61 <= c <= 0x66 || 0x41 <= c <= 0x46
  }

  method ValidUtf8Strict(b: Bytes) returns (ok: bool)
    ensures ok <==> Utf8Octets(b)
  {
    ValidIsGrammar(b);
    assert b[0..] == b;
    var i := 0;
    while i < |b|
      invariant 0 <= i <= |b|
      invariant Valid(b) <==> Valid(b[i..])
    {
      var rest := b[i..];
      var c := b[i];
      assert forall k :: 0 <= k < |rest| ==> rest[k] == b[i + k];
      ghost var n := CharLength(rest);
      assert n > 0 ==> rest[n..] == b[i + n..];
      if c < 0x80 {
        i := i + 1;
      } else if c >= 0xC2 && c <= 0xDF {
        if i + 1 >= |b| || b[i + 1] / 0x40 != 2 { return false; }
        i := i + 2;
      } else if c >= 0xE0 && c <= 0xEF {
        if i + 2 >= |b| || b[i + 1] / 0x40 != 2 || b[i + 2] / 0x40 != 2 { return false; }
        if (c == 0xE0 && b[i + 1] < 0xA0) || (c == 0xED && b[i + 1] >= 0xA0) { return false; }
        i := i + 3;
      } else if c >= 0xF0 && c <= 0xF4 {
        if i + 3 >= |b| || b[i + 1] / 0x40 != 2 || b[i + 2] / 0x40 != 2 || b[i + 3] / 0x40 != 2 { return false; }
        if (c == 0xF0 && b[i + 1] < 0x90) || (c == 0xF4 && b[i + 1] >= 0x90) { return false; }
        i := i + 4;
      } else {
        return false;
      }
    }
    return true;
  }

  // ---- rule 2: CRLF and CR become LF ----

  function FoldLines(s: Bytes): Bytes
    decreases |s|
  {
    if s == [] then []
    else if s[0] != CR then [s[0]] + FoldLines(s[1..])
    else [LF] + FoldLines(if |s| > 1 && s[1] == LF then s[2..] else s[1..])
  }

  // ---- rule 3: \b0x[0-9a-fA-F]{8,}\b becomes 0xADDR ----

  /**
   An address heads `t` and ends at `j`: `0x`, eight or more hex digits, and a word boundary on
   each side. `afterWord` says whether a word byte stands just before `t`.
   */
  predicate Address(afterWord: bool, t: Bytes, j: int) {
    !afterWord && 10 <= j <= |t| && t[0] == 0x30 && t[1] == 0x78 &&
    (forall k :: 2 <= k < j ==> IsHex(t[k])) && (j == |t| || !IsWord(t[j]))
  }

  /** Leftmost replacement of every address; word boundaries are those of the text itself. */
  ghost function Replace(afterWord: bool, t: Bytes): (r: Bytes)
    ensures t == [] ==> r == []
    decreases |t|
  {
    if t == [] then []
    else if exists j :: Address(afterWord, t, j) then
      var j :| Address(afterWord, t, j);
      ADDRESS + Replace(true, t[j..])
    else [t[0]] + Replace(IsWord(t[0]), t[1..])
  }

  /** The declared normalization of a stream that is valid UTF-8. */
  ghost function Normalized(raw: Bytes): Bytes {
    Replace(false, FoldLines(raw))
  }

  lemma {:induction false} AddressUnique(w: bool, t: Bytes, j: int, j': int)
    requires Address(w, t, j) && Address(w, t, j')
    ensures j == j'
  {
    assert forall k :: 2 <= k < j ==> IsWord(t[k]);
    assert forall k :: 2 <= k < j' ==> IsWord(t[k]);
  }

  method AuditNormalize(raw: Bytes) returns (out: Bytes, ok: bool)
    ensures ok <==> Utf8Octets(raw)
    ensures out == if ok then Normalized(raw) else []
  {
    out := [];
    ok := ValidUtf8Strict(raw);
    if ok {
      var lf := FoldCarriageReturns(raw);
      out := MaskAddresses(lf);
    }
  }

  method FoldCarriageReturns(raw: Bytes) returns (lf: Bytes)
    ensures lf == FoldLines(raw)
  {
    lf := [];
    assert raw[0..] == raw;
    var i := 0;
    while i < |raw|
      invariant 0 <= i <= |raw|
      invariant lf + FoldLines(raw[i..]) == FoldLines(raw)
    {
      FoldStep(raw, i, lf);
      if raw[i] == CR {
        lf := lf + [LF];
        if i + 1 < |raw| && raw[i + 1] == LF {
          i := i + 1;
        }
      } else {
        lf := lf + [raw[i]];
      }
      i := i + 1;
    }
    assert lf + [] == lf;
  }

  lemma {:induction false} FoldStep(raw: Bytes, i: nat, lf: Bytes)
    requires i < |raw|
    ensures var (c, k) :=
              if raw[i] != CR then (raw[i], 1) else (LF, if i + 1 < |raw| && raw[i + 1] == LF then 2 else 1);
            i + k <= |raw| && lf + FoldLines(raw[i..]) == lf + [c] + FoldLines(raw[i + k..])
  {
    var rest := raw[i..];
    assert rest[1..] == raw[i + 1..] && (|rest| > 1 ==> rest[2..] == raw[i + 2..] && rest[1] == raw[i + 1]);
  }

  method MaskAddresses(lf: Bytes) returns (out: Bytes)
    ensures out == Replace(false, lf)
  {
    out := [];
    hide Replace;
    assert lf[0..] == lf;
    var i := 0;
    while i < |lf|
      invariant 0 <= i <= |lf|
      invariant out + Replace(i > 0 && IsWord(lf[i - 1]), lf[i..]) == Replace(false, lf)
    {
      ghost var afterWord := i > 0 && IsWord(lf[i - 1]);
      if lf[i] == 0x30 && i + 1 < |lf| && lf[i + 1] == 0x78 && (i == 0 || !IsWord(lf[i - 1])) {
        var j := i + 2;
        while j < |lf| && IsHex(lf[j])
          invariant i + 2 <= j <= |lf|
          invariant forall k :: i + 2 <= k < j ==> IsHex(lf[k])
        {
          j := j + 1;
        }
        RunDecides(lf, i, j);
        if j - (i + 2) >= 8 && (j == |lf| || !IsWord(lf[j])) {
          ReplaceAddress(lf[i..], j - i, out);
          assert lf[i..][j - i..] == lf[j..];
          assert IsHex(lf[j - 1]);
          out := out + ADDRESS;
          i := j;
          continue;
        }
      }
      ReplaceNothing(afterWord, lf[i..], out);
      assert lf[i..][1..] == lf[i + 1..];
      out := out + [lf[i]];
      i := i + 1;
    }
    assert out + [] == out;
  }

  lemma {:induction false} ReplaceAddress(t: Bytes, j: int, out: Bytes)
    requires Address(false, t, j)
    ensures out + Replace(false, t) == out + ADDRESS + Replace(true, t[j..])
  {
    var j' :| Address(false, t, j') && Replace(false, t) == ADDRESS + Replace(true, t[j'..]);
    AddressUnique(false, t, j, j');
  }

  lemma {:induction false} ReplaceNothing(w: bool, t: Bytes, out: Bytes)
    requires t != [] && !exists j :: Address(w, t, j)
    ensures out + Replace(w, t) == out + [t[0]] + Replace(IsWord(t[0]), t[1..])
  {
  }

  /** The longest hex run after `0x` decides whether there is an address at all. */
  lemma {:induction false} RunDecides(s: Bytes, i: nat, j: nat)
    requires i + 2 <= j <= |s| && s[i] == 0x30 && s[i + 1] == 0x78
    requires forall k :: i + 2 <= k < j ==> IsHex(s[k])
    requires j == |s| || !IsHex(s[j])
    ensures Address(false, s[i..], j - i) <==> j - (i + 2) >= 8 && (j == |s| || !IsWord(s[j]))
    ensures (exists n :: Address(false, s[i..], n)) <==> Address(false, s[i..], j - i)
  {
    var t := s[i..];
    assert forall k :: 0 <= k < |t| ==> t[k] == s[i + k];
    if n :| Address(false, t, n) {
      assert forall k :: 2 <= k < j - i ==> IsHex(t[k]) && IsWord(t[k]);
      assert j - i < |t| ==> t[j - i] == s[j];
    }
  }

  // ---- what is replaced, letter by letter ----

  lemma {:induction false} BytesSpell(c: byte)
    ensures var x := c as char;
            && (IsHex(c) <==> '0' <= x <= '9' || 'a' <= x <= 'f' || 'A' <= x <= 'F')
            && (IsWord(c) <==> '0' <= x <= '9' || 'a' <= x <= 'z' || 'A' <= x <= 'Z' || x == '_')
  {
  }

  /** Where no word goes on across the seam, the two parts are replaced apart. */
  lemma {:induction false} ReplaceSplits(w: bool, a: Bytes, b: Bytes)
    requires a != [] && (b == [] || !IsWord(a[|a| - 1]) || !IsWord(b[0]))
    ensures Replace(w, a + b) == Replace(w, a) + Replace(IsWord(a[|a| - 1]), b)
    decreases |a|
  {
    hide Replace, Address;
    if exists j :: Address(w, a, j) {
      var j :| Address(w, a, j);
      SplitsAtAddress(w, a, b, j);
    } else {
      forall j ensures !Address(w, a + b, j) { AddressAtSeam(w, a, b, j); }
      ReplaceOne(w, a + b);
      ReplaceOne(w, a);
      SplitsBehind(w, a, b);
    }
  }

  lemma {:induction false} ReplaceOne(w: bool, t: Bytes)
    requires t != [] && !exists j :: Address(w, t, j)
    ensures Replace(w, t) == [t[0]] + Replace(IsWord(t[0]), t[1..])
  {
    hide Address;
  }

  lemma {:induction false} SplitsAtAddress(w: bool, a: Bytes, b: Bytes, j: int)
    requires a != [] && (b == [] || !IsWord(a[|a| - 1]) || !IsWord(b[0])) && Address(w, a, j)
    ensures Replace(w, a + b) == Replace(w, a) + Replace(IsWord(a[|a| - 1]), b)
    decreases |a|, 0
  {
    hide Replace, Address;
    AddressAtSeam(w, a, b, j);
    ReplaceAt(w, a + b, j);
    ReplaceAt(w, a, j);
    AddressInside(w, a, j);
    var last := IsWord(a[|a| - 1]);
    if j < |a| {
      assert (a + b)[j..] == a[j..] + b;
      ReplaceSplits(true, a[j..], b);
      assert ADDRESS + (Replace(true, a[j..]) + Replace(last, b)) == ADDRESS + Replace(true, a[j..]) + Replace(last, b);
    } else {
      assert (a + b)[j..] == b && a[j..] == [] && Replace(true, []) == [];
      assert ADDRESS + [] + Replace(true, b) == ADDRESS + Replace(true, b);
    }
  }

  lemma {:induction false} AddressInside(w: bool, t: Bytes, j: int)
    requires Address(w, t, j)
    ensures 10 <= j <= |t| && IsWord(t[j - 1])
  {
    assert IsHex(t[j - 1]);
  }

  lemma {:induction false} SplitsBehind(w: bool, a: Bytes, b: Bytes)
    requires a != [] && (b == [] || !IsWord(a[|a| - 1]) || !IsWord(b[0]))
    requires Replace(w, a + b) == [(a + b)[0]] + Replace(IsWord((a + b)[0]), (a + b)[1..])
    requires Replace(w, a) == [a[0]] + Replace(IsWord(a[0]), a[1..])
    ensures Replace(w, a + b) == Replace(w, a) + Replace(IsWord(a[|a| - 1]), b)
    decreases |a|, 0
  {
    hide Replace;
    assert (a + b)[0] == a[0] && (a + b)[1..] == a[1..] + b;
    if |a| == 1 {
      assert a[1..] == [] && [] + b == b && Replace(IsWord(a[0]), []) == [];
    } else {
      ReplaceSplits(IsWord(a[0]), a[1..], b);
      assert [a[0]] + (Replace(IsWord(a[0]), a[1..]) + Replace(IsWord(a[|a| - 1]), b))
          == [a[0]] + Replace(IsWord(a[0]), a[1..]) + Replace(IsWord(a[|a| - 1]), b);
    }
  }

  lemma {:induction false} ReplaceAt(w: bool, t: Bytes, j: int)
    requires Address(w, t, j)
    ensures Replace(w, t) == ADDRESS + Replace(true, t[j..])
  {
    var j' :| Address(w, t, j') && Replace(w, t) == ADDRESS + Replace(true, t[j'..]);
    AddressUnique(w, t, j, j');
  }

  /** An address does not reach across the seam. */
  lemma {:induction false} AddressAtSeam(w: bool, a: Bytes, b: Bytes, j: int)
    requires a != [] && (b == [] || !IsWord(a[|a| - 1]) || !IsWord(b[0]))
    ensures Address(w, a + b, j) <==> Address(w, a, j)
  {
    var t := a + b;
    assert forall k :: 0 <= k < |a| ==> t[k] == a[k];
    assert b != [] ==> t[|a|] == b[0];
    if Address(w, t, j) && j > |a| {
      assert IsWord(t[|a|]) && IsWord(t[|a| - 1]);
    }
  }

  /** `0x` and eight or more hex digits with no word byte on either side become `0xADDR`; the rest is replaced apart. */
  lemma {:induction false} AddressSpells(before: Bytes, hex: Bytes, after: Bytes)
    requires before == [] || !IsWord(before[|before| - 1])
    requires after == [] || !IsWord(after[0])
    requires |hex| >= 8 && forall c :: c in hex ==> IsHex(c)
    ensures Replace(false, before + (Ascii("0x") + hex + after))
         == Replace(false, before) + (Ascii("0xADDR") + Replace(true, after))
  {
    hide Replace;
    var t := Ascii("0x") + hex + after;
    assert ADDRESS == Ascii("0xADDR");
    AddressWritten(hex, after);
    ReplaceAt(false, t, 2 + |hex|);
    assert t[2 + |hex|..] == after;
    if before == [] {
      assert before + t == t && Replace(false, before) == [];
      assert [] + (ADDRESS + Replace(true, after)) == ADDRESS + Replace(true, after);
    } else {
      ReplaceSplits(false, before, t);
    }
  }

  lemma {:induction false} AddressWritten(hex: Bytes, after: Bytes)
    requires after == [] || !IsWord(after[0])
    requires |hex| >= 8 && forall c :: c in hex ==> IsHex(c)
    ensures Address(false, Ascii("0x") + hex + after, 2 + |hex|)
  {
    var t := Ascii("0x") + hex + after;
    assert forall k :: 2 <= k < 2 + |hex| ==> t[k] == hex[k - 2];
    assert after != [] ==> t[2 + |hex|] == after[0];
  }

  /** Text in which no word starts with `0x` and is long enough is left as it is. */
  lemma {:induction false} NothingReplaced(w: bool, t: Bytes)
    requires forall i, j :: 0 <= i < |t| ==> !Address(false, t[i..], j)
    ensures Replace(w, t) == t
    decreases |t|
  {
    if t != [] {
      assert t[0..] == t;
      forall j ensures !Address(w, t, j) {
        assert !Address(false, t[0..], j);
      }
      forall i, j | 0 <= i < |t[1..]| ensures !Address(false, t[1..][i..], j) {
        assert t[1..][i..] == t[i + 1..];
      }
      ReplaceNothing(w, t, []);
      NothingReplaced(IsWord(t[0]), t[1..]);
      assert t == [t[0]] + t[1..] == [] + [t[0]] + t[1..];
    }
  }

  /** CRLF and CR become LF, one for one, and everything else stays. */
  lemma {:induction false} FoldSpells(a: Bytes, b: Bytes)
    requires forall c :: c in a ==> c as char != '\r'
    ensures FoldLines(a) == a
    ensures FoldLines(a + Ascii("\r\n") + b) == a + Ascii("\n") + FoldLines(b)
    ensures b == [] || b[0] as char != '\n' ==> FoldLines(a + Ascii("\r") + b) == a + Ascii("\n") + FoldLines(b)
    decreases |a|
  {
    var crlf, cr, lf := Ascii("\r\n"), Ascii("\r"), Ascii("\n");
    assert crlf == [CR, LF] && cr == [CR] && lf == [LF];
    FoldBefore(a, [CR, LF] + b);
    FoldBefore(a, [CR] + b);
    FoldBefore(a, []);
    assert a + [] == a && a + crlf + b == a + ([CR, LF] + b) && a + cr + b == a + ([CR] + b);
    assert ([CR, LF] + b)[2..] == b && ([CR] + b)[1..] == b;
    assert a + lf + FoldLines(b) == a + ([LF] + FoldLines(b));
  }

  lemma {:induction false} FoldBefore(a: Bytes, b: Bytes)
    requires forall c :: c in a ==> c as char != '\r'
    ensures FoldLines(a + b) == a + FoldLines(b)
    decreases |a|
  {
    if a == [] {
      assert a + b == b;
    } else {
      assert a[0] in a && forall c :: c in a[1..] ==> c in a;
      FoldBefore(a[1..], b);
      assert (a + b)[1..] == a[1..] + b && a == [a[0]] + a[1..];
    }
  }

  // ---- what normalization keeps and removes ----

  function WordRun(t: Bytes): (u: Bytes)
    ensures |u| <= |t| && u == t[..|u|]
    ensures forall k :: 0 <= k < |u| ==> IsWord(t[k])
    ensures |u| == |t| || !IsWord(t[|u|])
  {
    if t == [] || !IsWord(t[0]) then [] else [t[0]] + WordRun(t[1..])
  }

  /** An address is a whole word of the text: `0x` and eight or more hex digits. */
  lemma {:induction false} AddressIsWord(w: bool, t: Bytes)
    ensures (exists j :: Address(w, t, j)) <==> Address(w, t, |WordRun(t)|)
    ensures Address(w, t, |WordRun(t)|) <==> Address(w, WordRun(t), |WordRun(t)|)
  {
    var u := WordRun(t);
    if j :| Address(w, t, j) {
      assert forall k :: 0 <= k < j ==> IsWord(t[k]);
      assert j == |u|;
    }
  }

  lemma {:induction false} WordRunKept(t: Bytes)
    ensures WordRun(Replace(true, t)) == WordRun(t)
    decreases |t|
  {
    if t != [] && IsWord(t[0]) {
      WordRunKept(t[1..]);
    }
  }

  lemma {:induction false} ReplaceIdempotent(w: bool, t: Bytes)
    ensures Replace(w, Replace(w, t)) == Replace(w, t)
    decreases |t|
  {
    if t == [] {
    } else if j :| Address(w, t, j) && Replace(w, t) == ADDRESS + Replace(true, t[j..]) {
      ReplaceIdempotent(true, t[j..]);
      SkipAddress(w, Replace(true, t[j..]));
    } else {
      var c, rest := t[0], Replace(IsWord(t[0]), t[1..]);
      ReplaceIdempotent(IsWord(c), t[1..]);
      assert ([c] + rest)[1..] == rest;
      if IsWord(c) {
        WordRunKept(t[1..]);
        AddressIsWord(w, t);
        AddressIsWord(w, [c] + rest);
      }
    }
  }

  /** Inside a word no address can start, so the word is copied. */
  lemma {:induction false} CopyWord(u: Bytes, rest: Bytes)
    requires forall k :: 0 <= k < |u| ==> IsWord(u[k])
    ensures Replace(true, u + rest) == u + Replace(true, rest)
  {
    if u == [] {
      assert u + rest == rest;
    } else {
      CopyWord(u[1..], rest);
      assert (u + rest)[1..] == u[1..] + rest;
      assert u == [u[0]] + u[1..];
    }
  }

  /** The replacement text is itself no address. */
  lemma {:induction false} SkipAddress(w: bool, rest: Bytes)
    ensures Replace(w, ADDRESS + rest) == ADDRESS + Replace(true, rest)
  {
    var t := ADDRESS + rest;
    assert t[5] == 0x52;
    assert !exists j :: Address(w, t, j);
    CopyWord(ADDRESS[1..], rest);
    assert t[1..] == ADDRESS[1..] + rest;
    assert ADDRESS == [t[0]] + ADDRESS[1..];
  }

  lemma {:induction false} FoldRemovesCr(s: Bytes)
    ensures CR !in FoldLines(s)
    decreases |s|
  {
    if s != [] {
      FoldRemovesCr(s[1..]);
      if |s| > 1 { FoldRemovesCr(s[2..]); }
    }
  }

  lemma {:induction false} FoldKeepsCrFree(s: Bytes)
    requires CR !in s
    ensures FoldLines(s) == s
    decreases |s|
  {
    if s != [] { FoldKeepsCrFree(s[1..]); }
  }

  lemma {:induction false} ReplaceKeepsCrFree(w: bool, t: Bytes)
    requires CR !in t
    ensures CR !in Replace(w, t)
    decreases |t|
  {
    if t == [] {
    } else if j :| Address(w, t, j) && Replace(w, t) == ADDRESS + Replace(true, t[j..]) {
      ReplaceKeepsCrFree(true, t[j..]);
    } else {
      ReplaceKeepsCrFree(IsWord(t[0]), t[1..]);
    }
  }

  lemma {:induction false} DropAscii(t: Bytes, j: nat)
    requires Valid(t) && j <= |t| && forall k :: 0 <= k < j ==> t[k] < 0x80
    ensures Valid(t[j..])
    decreases j
  {
    if j == 0 {
      assert t[0..] == t;
    } else {
      DropAscii(t[1..], j - 1);
      assert t[1..][j - 1..] == t[j..];
    }
  }

  lemma {:induction false} AsciiThenValid(c: Bytes, rest: Bytes)
    requires Valid(rest) && forall k :: 0 <= k < |c| ==> c[k] < 0x80
    ensures Valid(c + rest)
    decreases |c|
  {
    if c == [] {
      assert c + rest == rest;
    } else {
      AsciiThenValid(c[1..], rest);
      assert (c + rest)[1..] == c[1..] + rest;
    }
  }

  /** Bytes outside ASCII are copied: they are neither CR, nor word bytes, nor the head of an address. */
  lemma {:induction false} FoldCopies(t: Bytes, n: nat)
    requires n <= |t| && forall k :: 0 <= k < n ==> t[k] >= 0x80
    ensures FoldLines(t) == t[..n] + FoldLines(t[n..])
    decreases n
  {
    if n == 0 {
      assert t[0..] == t;
    } else {
      FoldCopies(t[1..], n - 1);
      assert t[1..][n - 1..] == t[n..];
      assert t[..n] == [t[0]] + t[1..][..n - 1];
    }
  }

  lemma {:induction false} ReplaceCopies(w: bool, t: Bytes, n: nat)
    requires 0 < n <= |t| && forall k :: 0 <= k < n ==> t[k] >= 0x80
    ensures Replace(w, t) == t[..n] + Replace(false, t[n..])
    decreases n
  {
    hide IsHex;
    assert Replace(w, t) == [t[0]] + Replace(false, t[1..]);
    if n == 1 {
      assert t[..1] == [t[0]];
    } else {
      ReplaceCopies(false, t[1..], n - 1);
      assert t[1..][n - 1..] == t[n..];
      assert t[..n] == [t[0]] + t[1..][..n - 1];
    }
  }

  lemma {:induction false} FoldKeepsValid(s: Bytes)
    requires Valid(s)
    ensures Valid(FoldLines(s))
    decreases |s|
  {
    if s != [] {
      var n := CharLength(s);
      if n > 1 {
        FoldCopies(s, n);
        FoldKeepsValid(s[n..]);
        CharLengthIsGrammar(s, n);
        CharThenValid(s[..n], FoldLines(s[n..]));
      } else {
        var k := if s[0] == CR && |s| > 1 && s[1] == LF then 2 else 1;
        DropAscii(s, k);
        FoldKeepsValid(s[k..]);
        AsciiThenValid([if s[0] == CR then LF else s[0]], FoldLines(s[k..]));
      }
    }
  }

  lemma {:induction false} ReplaceKeepsValid(w: bool, t: Bytes)
    requires Valid(t)
    ensures Valid(Replace(w, t))
    decreases |t|
  {
    if t == [] {
    } else if j :| Address(w, t, j) && Replace(w, t) == ADDRESS + Replace(true, t[j..]) {
      DropAddress(w, t, j);
      ReplaceKeepsValid(true, t[j..]);
      AsciiThenValid(ADDRESS, Replace(true, t[j..]));
    } else {
      var n := CharLength(t);
      ReplaceKeepsValid(n == 1 && IsWord(t[0]), t[n..]);
      hide CharLength, Utf8Char;
      if n > 1 {
        ReplaceCopies(w, t, n);
        CharLengthIsGrammar(t, n);
        CharThenValid(t[..n], Replace(false, t[n..]));
      } else {
        AsciiThenValid([t[0]], Replace(IsWord(t[0]), t[1..]));
      }
    }
  }

  lemma {:induction false} DropAddress(w: bool, t: Bytes, j: int)
    requires Valid(t) && Address(w, t, j)
    ensures Valid(t[j..])
  {
    forall k | 0 <= k < j ensures t[k] < 0x80 {
      assert k >= 2 ==> IsHex(t[k]);
    }
    DropAscii(t, j);
  }

  /** Normalized text is valid UTF-8, holds no CR, and normalizes to itself. */
  lemma {:induction false} NormalizedIsStable(raw: Bytes)
    requires Utf8Octets(raw)
    ensures Utf8Octets(Normalized(raw))
    ensures CR !in Normalized(raw)
    ensures Normalized(Normalized(raw)) == Normalized(raw)
  {
    var lf := FoldLines(raw);
    ValidIsGrammar(raw);
    FoldKeepsValid(raw);
    ReplaceKeepsValid(false, lf);
    ValidIsGrammar(Replace(false, lf));
    FoldRemovesCr(raw);
    ReplaceKeepsCrFree(false, lf);
    FoldKeepsCrFree(Replace(false, lf));
    ReplaceIdempotent(false, lf);
  }
}
