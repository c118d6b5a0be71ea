/** The acceptor of Go object archives. */
module ObjectArchive {
  import opened ByteStrings
  import opened Digits

  const MAGIC: Bytes := [0x21, 0x3c, 0x61, 0x72, 0x63, 0x68, 0x3e, 0x0a] // "!<arch>\n"
  const HEADER_END: Bytes := [0x60, 0x0a] // "`\n"
  const ENTRY_BYTES := 60
  const GO_OBJECT: Bytes := [0x67, 0x6f, 0x20, 0x6f, 0x62, 0x6a, 0x65, 0x63, 0x74, 0x20] // "go object "
  const EXPORTS: Bytes := [0x5f, 0x5f, 0x2e, 0x50, 0x4b, 0x47, 0x44, 0x45, 0x46] // "__.PKGDEF"
  const OBJECT: Bytes := [0x5f, 0x67, 0x6f, 0x5f, 0x2e, 0x6f] // "_go_.o"

  // ---- what an archive is ----

  /** A member as it lies in the file; the byte that pads an odd body may be any byte. */
  datatype Member = Member(header: Bytes, body: Bytes, pad: Bytes) {
    function Text(): (t: Bytes)
      ensures |t| == |header| + |body| + |pad|
    {
      header + body + pad
    }

    function Name(): Bytes {
      NameField(header)
    }
  }

  function NameField(header: Bytes): Bytes {
    StripRight(if |header| < 16 then header else header[..16])
  }

  ghost predicate WellFormed(m: Member) {
    && |m.header| == ENTRY_BYTES
    && m.header[58] == HEADER_END[0] && m.header[59] == HEADER_END[1]
    && IsNumber(SizeField(m.header)) && NatValue(SizeField(m.header)) == |m.body|
    && |m.pad| == |m.body| % 2
  }

  function SizeField(header: Bytes): Bytes
    requires |header| == ENTRY_BYTES
  {
    Strip(header[48..58])
  }

  function Render(ms: seq<Member>): Bytes {
    if ms == [] then [] else ms[0].Text() + Render(ms[1..])
  }

  ghost predicate Splits(data: Bytes, ms: seq<Member>) {
    data == Ascii("!<arch>\n") + Render(ms) && forall m :: m in ms ==> WellFormed(m)
  }

  ghost predicate Named(ms: seq<Member>) {
    && (forall i :: 0 <= i < |ms| ==> ms[i].Name() != [])
    && (forall i, j :: 0 <= i < j < |ms| ==> ms[i].Name() != ms[j].Name())
  }

  predicate IsNumber(t: Bytes) {
    t != [] && AllDigits(t)
  }

  /** Somewhere a zero byte, "go", one or more digits, "ld". */
  predicate HasObjectMagic(body: Bytes) {
    exists i: nat | i < |body| :: MagicAt(body, i)
  }

  predicate MagicAt(body: Bytes, i: nat) {
    exists j: nat | i + 3 < j < |body| - 1 :: MagicSpans(body, i, j)
  }

  predicate MagicSpans(body: Bytes, i: nat, j: nat)
    requires i + 3 < j < |body| - 1
  {
    && body[i] == 0 && body[i + 1] == 0x67 && body[i + 2] == 0x6f
    && (forall k :: i + 3 <= k < j ==> IsDigit(body[k]))
    && body[j] == 0x6c && body[j + 1] == 0x64
  }

  ghost predicate Holds(ms: seq<Member>, name: Bytes, i: nat) {
    i < |ms| && ms[i].Name() == name && Ascii("go object ") <= ms[i].body
  }

  ghost predicate GoObject(data: Bytes, ms: seq<Member>) {
    && Splits(data, ms) && Named(ms)
    && (exists i: nat :: Holds(ms, Ascii("__.PKGDEF"), i))
    && (exists i: nat :: Holds(ms, Ascii("_go_.o"), i) && HasObjectMagic(ms[i].body))
  }

  lemma {:induction false} Letters()
    ensures MAGIC == Ascii("!<arch>\n") && HEADER_END == Ascii("`\n") && GO_OBJECT == Ascii("go object ")
    ensures EXPORTS == Ascii("__.PKGDEF") && OBJECT == Ascii("_go_.o")
  {
  }

  // ---- how a header is written ----

  lemma {:induction false} NumbersAreTrimmed(ds: Bytes)
    requires IsNumber(ds)
    ensures Trimmed(ds)
  {
    assert ds[..1] == [ds[0]] && ds[0] in ds[..1];
    assert ds[|ds| - 1..] == [ds[|ds| - 1]] && ds[|ds| - 1] in ds[|ds| - 1..];
  }

  /** The header of a member of that size: 48 bytes, the size with white bytes around it in ten, and a mark of two. */
  ghost predicate HeaderOf(header: Bytes, size: nat, pre: Bytes, a: Bytes, ds: Bytes, c: Bytes) {
    && |pre| == 48 && White(a) && White(c) && |a| + |ds| + |c| == 10 && IsNumber(ds) && NatValue(ds) == size
    && header == pre + (a + ds + c) + Ascii("`\n")
  }

  /** A member is well formed exactly when its header says its size, and an odd body is padded with one byte. */
  lemma {:induction false} HeaderSpells(m: Member)
    ensures WellFormed(m) <==>
              && (exists pre, a, ds, c :: HeaderOf(m.header, |m.body|, pre, a, ds, c))
              && |m.pad| == if |m.body| % 2 == 1 then 1 else 0
  {
    hide Strip, White, NatValue, IsNumber, Trimmed;
    Letters();
    var h := m.header;
    if WellFormed(m) {
      var field, ds := h[48..58], SizeField(h);
      StripsExactly(field, ds);
      var a, c :| White(a) && White(c) && field == a + ds + c;
      assert h[58..] == [h[58], h[59]] == Ascii("`\n");
      assert h == h[..48] + field + h[58..];
      assert HeaderOf(h, |m.body|, h[..48], a, ds, c);
    }
    if exists pre, a, ds, c :: HeaderOf(h, |m.body|, pre, a, ds, c) {
      var pre, a, ds, c :| HeaderOf(h, |m.body|, pre, a, ds, c);
      var field, mark := a + ds + c, Ascii("`\n");
      assert h[48..58] == field && h[58] == mark[0] && h[59] == mark[1];
      NumbersAreTrimmed(ds);
      StripsExactly(field, ds);
    }
  }

  /** The name is the first sixteen bytes without the white bytes at their end. */
  lemma {:induction false} NameSpells(header: Bytes, name: Bytes)
    requires |header| >= 16
    ensures NameField(header) == name <==>
              && (name != [] ==> !White(name[|name| - 1..]))
              && exists c :: White(c) && header[..16] == name + c
  {
    hide White, StripRight;
    var c := FindRight(header[..16]);
    if exists c :: White(c) && header[..16] == name + c {
      var c' :| White(c') && header[..16] == name + c';
      if name != [] ==> !White(name[|name| - 1..]) { StripRightOf(name, c'); }
    }
  }

  /** The magic of an object: a zero byte, `go`, digits and `ld`, anywhere. */
  lemma {:induction false} MagicSpells(body: Bytes)
    ensures HasObjectMagic(body) <==>
              exists a, ds, b :: IsNumber(ds) && body == a + ([0] + Ascii("go") + ds + Ascii("ld")) + b
  {
    hide IsNumber, MagicSpans;
    if HasObjectMagic(body) {
      var i: nat :| i < |body| && MagicAt(body, i);
      var j: nat :| i + 3 < j < |body| - 1 && MagicSpans(body, i, j);
      MagicRead(body, i, j);
    }
    if exists a, ds, b :: IsNumber(ds) && body == a + ([0] + Ascii("go") + ds + Ascii("ld")) + b {
      var a, ds, b :| IsNumber(ds) && body == a + ([0] + Ascii("go") + ds + Ascii("ld")) + b;
      MagicWritten(a, ds, b);
    }
  }

  lemma {:induction false} MagicRead(body: Bytes, i: nat, j: nat)
    requires i + 3 < j < |body| - 1 && MagicSpans(body, i, j)
    ensures exists a, ds, b :: IsNumber(ds) && body == a + ([0] + Ascii("go") + ds + Ascii("ld")) + b
  {
    var ds := body[i + 3..j];
    assert forall k :: 0 <= k < |ds| ==> ds[k] == body[i + 3 + k];
    assert body[i..i + 3] == [0] + Ascii("go") && body[j..j + 2] == Ascii("ld");
    assert body == body[..i] + (body[i..i + 3] + ds + body[j..j + 2]) + body[j + 2..];
  }

  lemma {:induction false} MagicWritten(a: Bytes, ds: Bytes, b: Bytes)
    requires IsNumber(ds)
    ensures HasObjectMagic(a + ([0] + Ascii("go") + ds + Ascii("ld")) + b)
  {
    var mid := [0] + Ascii("go") + ds + Ascii("ld");
    var body, i, j := a + mid + b, |a|, |a| + 3 + |ds|;
    forall k | 0 <= k < |mid| ensures body[i + k] == mid[k] {
      assert body[i + k] == (a + mid)[i + k];
    }
    assert mid[0] == 0 && mid[1] == 0x67 && mid[2] == 0x6f && mid[3 + |ds|] == 0x6c && mid[4 + |ds|] == 0x64;
    assert body[i + 0] == 0 && body[i + 1] == 0x67 && body[i + 2] == 0x6f;
    assert body[i + (3 + |ds|)] == 0x6c && body[i + (4 + |ds|)] == 0x64;
    forall k | i + 3 <= k < j ensures IsDigit(body[k]) {
      assert body[i + (k - i)] == mid[k - i] == ds[k - i - 3];
    }
    assert MagicSpans(body, i, j);
    assert MagicAt(body, i);
  }

  // ---- reading one ----

  /** The member that starts at `offset`, if one does. */
  ghost function ReadMember(data: Bytes, offset: nat): Option<Member> {
    if offset + ENTRY_BYTES > |data| then None
    else
      var header := data[offset..offset + ENTRY_BYTES];
      if header[58] != HEADER_END[0] || header[59] != HEADER_END[1] || !IsNumber(SizeField(header)) then None
      else
        var size := NatValue(SizeField(header));
        var start := offset + ENTRY_BYTES;
        if start + size + size % 2 > |data| then None
        else Some(Member(header, data[start..start + size], data[start + size..start + size + size % 2]))
  }

  lemma {:induction false} ReadMemberStands(data: Bytes, offset: nat, m: Member)
    ensures ReadMember(data, offset) == Some(m) <==> WellFormed(m) && At(data, offset, m.Text())
  {
    hide Member.Text, SizeField, NatValue;
    TextStands(data, offset, m);
    var mid := offset + ENTRY_BYTES;
    if WellFormed(m) && At(data, offset, m.Text()) {
      AtSlice(data, offset, m.header);
      AtSlice(data, mid, m.body);
      AtSlice(data, mid + |m.body|, m.pad);
    }
  }

  lemma {:induction false} TextStands(data: Bytes, offset: nat, m: Member)
    ensures At(data, offset, m.Text()) <==>
              At(data, offset, m.header) && At(data, offset + |m.header|, m.body)
              && At(data, offset + |m.header| + |m.body|, m.pad)
  {
    hide At;
    AtSplit(data, offset, m.header + m.body, m.pad);
    AtSplit(data, offset, m.header, m.body);
  }

  /** The members from `offset` on, when they end at the last byte. */
  ghost function Parse(data: Bytes, offset: nat): Option<seq<Member>>
    decreases |data| - offset
  {
    if offset == |data| then Some([])
    else
      match ReadMember(data, offset)
      case None => None
      case Some(m) => Prepend([m], Parse(data, offset + |m.Text()|))
  }

  ghost function Prepend(ms: seq<Member>, rest: Option<seq<Member>>): Option<seq<Member>> {
    if rest.None? then None else Some(ms + rest.value)
  }

  /** The text of the members stands at `offset` and ends with the data. */
  ghost predicate Ends(data: Bytes, offset: nat, ms: seq<Member>) {
    At(data, offset, Render(ms)) && offset + |Render(ms)| == |data| && forall m :: m in ms ==> WellFormed(m)
  }

  lemma {:induction false} EndsStep(data: Bytes, offset: nat, ms: seq<Member>)
    requires ms != []
    ensures Ends(data, offset, ms) <==>
              ReadMember(data, offset) == Some(ms[0]) && Ends(data, offset + |ms[0].Text()|, ms[1..])
  {
    hide At, WellFormed, ReadMember, Member.Text;
    ReadMemberStands(data, offset, ms[0]);
    AtSplit(data, offset, ms[0].Text(), Render(ms[1..]));
    assert ms == [ms[0]] + ms[1..];
    assert (forall m :: m in ms ==> WellFormed(m)) <==> WellFormed(ms[0]) && forall m :: m in ms[1..] ==> WellFormed(m);
  }

  lemma {:induction false} EndsNothing(data: Bytes, offset: nat)
    ensures Ends(data, offset, []) <==> offset == |data|
  {
  }

  lemma {:induction false} MemberIsLong(data: Bytes, offset: nat, m: Member)
    requires ReadMember(data, offset) == Some(m)
    ensures ENTRY_BYTES <= |m.Text()| <= |data| - offset
  {
    hide SizeField, NatValue;
  }

  lemma {:induction false} ParseEnds(data: Bytes, offset: nat, ms: seq<Member>)
    ensures Parse(data, offset) == Some(ms) <==> Ends(data, offset, ms)
    decreases |ms|
  {
    hide ReadMember, WellFormed, Member.Text, At;
    if ms == [] {
      EndsNothing(data, offset);
    } else {
      EndsStep(data, offset, ms);
      var next := offset + |ms[0].Text()|;
      ParseEnds(data, next, ms[1..]);
      if ReadMember(data, offset) == Some(ms[0]) {
        MemberIsLong(data, offset, ms[0]);
        var rest := Parse(data, next);
        assert Parse(data, offset) == Prepend([ms[0]], rest);
        assert rest.Some? ==> ([ms[0]] + rest.value)[1..] == rest.value;
        assert ms == [ms[0]] + ms[1..];
      } else {
        assert Parse(data, offset).Some? && Parse(data, offset).value != [] ==>
          ReadMember(data, offset) == Some(Parse(data, offset).value[0]);
      }
    }
  }

  lemma {:induction false} SplitsEnd(data: Bytes, ms: seq<Member>)
    ensures Splits(data, ms) <==> MAGIC <= data && Ends(data, |MAGIC|, ms)
  {
    Letters();
    if MAGIC <= data && Ends(data, |MAGIC|, ms) {
      AtSlice(data, |MAGIC|, Render(ms));
      assert data == MAGIC + data[|MAGIC|..];
    }
  }

  /** An archive splits into members in one way only. */
  lemma {:induction false} SplitsOnce(data: Bytes, a: seq<Member>, b: seq<Member>)
    requires Splits(data, a) && Splits(data, b)
    ensures a == b
  {
    SplitsEnd(data, a);
    SplitsEnd(data, b);
    ParseEnds(data, |MAGIC|, a);
    ParseEnds(data, |MAGIC|, b);
  }

  // ---- the acceptor ----

  lemma {:induction false} ParseOne(data: Bytes, offset: nat, ms: seq<Member>, m: Member)
    requires ReadMember(data, offset) == Some(m)
    ensures Prepend(ms, Parse(data, offset)) == Prepend(ms + [m], Parse(data, offset + |m.Text()|))
  {
    hide ReadMember, Member.Text;
    MemberIsLong(data, offset, m);
    var rest := Parse(data, offset + |m.Text()|);
    assert rest.Some? ==> ms + ([m] + rest.value) == ms + [m] + rest.value;
  }

  /** The table lists exactly the members read, under their names. */
  ghost predicate Tabled(table: map<Bytes, Bytes>, ms: seq<Member>) {
    && Named(ms)
    && (forall i :: 0 <= i < |ms| ==> ms[i].Name() in table && table[ms[i].Name()] == ms[i].body)
    && (forall k :: k in table ==> exists i :: 0 <= i < |ms| && ms[i].Name() == k)
  }

  lemma {:induction false} TabledOne(table: map<Bytes, Bytes>, ms: seq<Member>, m: Member)
    requires Tabled(table, ms)
    ensures m.Name() != [] && m.Name() !in table ==> Tabled(table[m.Name() := m.body], ms + [m])
    ensures m.Name() == [] || m.Name() in table ==> forall rest :: !Named(ms + [m] + rest)
  {
    hide Member.Name;
    var more := ms + [m];
    if m.Name() != [] && m.Name() !in table {
      var after := table[m.Name() := m.body];
      forall k | k in after ensures exists i :: 0 <= i < |more| && more[i].Name() == k {
        if k == m.Name() {
          assert more[|ms|].Name() == k;
        } else {
          var i :| 0 <= i < |ms| && ms[i].Name() == k;
          assert more[i].Name() == k;
        }
      }
    } else {
      forall rest: seq<Member> ensures !Named(more + rest) {
        assert (more + rest)[|ms|].Name() == m.Name();
        if m.Name() in table {
          var i :| 0 <= i < |ms| && ms[i].Name() == m.Name();
          assert (more + rest)[i].Name() == m.Name();
        }
      }
    }
  }

  lemma {:induction false} ParseFails(data: Bytes, offset: nat, ms: seq<Member>)
    requires offset != |data| && ReadMember(data, offset) == None
    ensures Prepend(ms, Parse(data, offset)).None?
  {
  }

  lemma {:induction false} ParseDone(data: Bytes, ms: seq<Member>)
    ensures Prepend(ms, Parse(data, |data|)) == Some(ms)
    ensures forall r :: Prepend([], r) == r
  {
    hide ReadMember;
    assert ms + [] == ms;
    forall r: Option<seq<Member>> ensures Prepend([], r) == r {
      assert r.Some? ==> [] + r.value == r.value;
    }
  }

  /** The tests of the loop, one by one, decide whether a member starts here. */
  lemma {:induction false} ReadMemberBy(data: Bytes, offset: nat)
    ensures offset + ENTRY_BYTES > |data| ==> ReadMember(data, offset) == None
    ensures offset + ENTRY_BYTES <= |data| ==>
              var header := data[offset..offset + ENTRY_BYTES];
              if header[58..] != HEADER_END || !IsNumber(SizeField(header)) then ReadMember(data, offset) == None
              else
                var size := NatValue(SizeField(header));
                var end := offset + ENTRY_BYTES + size;
                if end + size % 2 > |data| then ReadMember(data, offset) == None
                else
                  var m := ReadMember(data, offset);
                  m.Some? && m.value.header == header && m.value.body == data[offset + ENTRY_BYTES..end]
                  && |m.value.Text()| == ENTRY_BYTES + size + size % 2
  {
    hide SizeField, NatValue, Member.Text, IsNumber;
    if offset + ENTRY_BYTES <= |data| {
      var header := data[offset..offset + ENTRY_BYTES];
      assert header[58..] == [header[58], header[59]];
    }
  }

  lemma {:induction false} NamedWhole(data: Bytes, some: seq<Member>, rest: Option<seq<Member>>)
    requires Parse(data, |MAGIC|) == Prepend(some, rest) && forall tail :: !Named(some + tail)
    ensures !exists ms :: GoObject(data, ms)
  {
    hide Named, Parse;
    Found(data);
  }

  lemma {:induction false} Verdict(data: Bytes, table: map<Bytes, Bytes>, ms: seq<Member>)
    requires MAGIC <= data && Parse(data, |MAGIC|) == Some(ms) && Tabled(table, ms)
    ensures GoObject(data, ms) <==>
              EXPORTS in table && GO_OBJECT <= table[EXPORTS] && OBJECT in table && GO_OBJECT <= table[OBJECT]
              && HasObjectMagic(table[OBJECT])
  {
    Letters();
    hide Parse, HasObjectMagic, Member.Name, WellFormed;
    SplitsEnd(data, ms);
    ParseEnds(data, |MAGIC|, ms);
    if EXPORTS in table && GO_OBJECT <= table[EXPORTS] {
      var i: nat :| i < |ms| && ms[i].Name() == EXPORTS;
      assert Holds(ms, EXPORTS, i);
    }
    if OBJECT in table && GO_OBJECT <= table[OBJECT] {
      var i: nat :| i < |ms| && ms[i].Name() == OBJECT;
      assert Holds(ms, OBJECT, i);
    }
  }

  lemma {:induction false} NothingTabled()
    ensures Tabled(map[], [])
  {
  }

  lemma {:induction false} Found(data: Bytes)
    ensures (exists ms :: GoObject(data, ms)) <==>
              MAGIC <= data && Parse(data, |MAGIC|).Some? && GoObject(data, Parse(data, |MAGIC|).value)
  {
    Letters();
    hide Render, Named, Parse;
    if ms :| GoObject(data, ms) {
      SplitsEnd(data, ms);
      ParseEnds(data, |MAGIC|, ms);
    }
  }

  /** `go_object_archive?` on the bytes of a plain file. */
  method GoObjectArchive(data: Bytes) returns (ok: bool)
    ensures ok <==> exists ms :: GoObject(data, ms)
  {
    hide NameField, SizeField, NatValue, HasObjectMagic, Parse, Named, Tabled, GoObject, WellFormed, ReadMember;
    Found(data);
    if !(MAGIC <= data) { return false; }
    var table: map<Bytes, Bytes> := map[];
    var offset: nat := |MAGIC|;
    ghost var ms: seq<Member> := [];
    ghost var whole := Parse(data, |MAGIC|);
    NothingTabled();
    ParseDone(data, ms);
    while offset < |data|
      invariant offset <= |data| ==> Prepend(ms, Parse(data, offset)) == whole
      invariant offset > |data| ==> whole.None?
      invariant offset <= |data| ==> Tabled(table, ms)
      decreases |data| - offset
    {
      var header := data[offset..if offset + ENTRY_BYTES <= |data| then offset + ENTRY_BYTES else |data|];
      ReadMemberBy(data, offset);
      if ReadMember(data, offset) == None {
        ParseFails(data, offset, ms);
      }
      if !(|header| == ENTRY_BYTES && header[58..] == HEADER_END) { return false; }
      var field := SizeField(header);
      if !IsNumber(field) { return false; }
      var size := NatValue(field);
      if offset + ENTRY_BYTES + size > |data| { return false; }
      var body := data[offset + ENTRY_BYTES..offset + ENTRY_BYTES + size];
      var name := NameField(header);
      ghost var next := offset + ENTRY_BYTES + size + size % 2;
      if next <= |data| {
        ghost var m := ReadMember(data, offset).value;
        ParseOne(data, offset, ms, m);
        TabledOne(table, ms, m);
        if name == [] || name in table { NamedWhole(data, ms + [m], Parse(data, next)); }
        ms := ms + [m];
      }
      if name == [] || name in table { return false; }
      table := table[name := body];
      offset := offset + ENTRY_BYTES + size + size % 2;
    }
    if offset != |data| { return false; }
    ParseDone(data, ms);
    Verdict(data, table, ms);
    if !(EXPORTS in table && GO_OBJECT <= table[EXPORTS]) { return false; }
    if !(OBJECT in table && GO_OBJECT <= table[OBJECT]) { return false; }
    return HasObjectMagic(table[OBJECT]);
  }
}
