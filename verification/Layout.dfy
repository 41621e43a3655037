/** Messages on the wire, octet by octet, in the format of section 4.1 of RFC 1035. */
module Layout {
  import opened Bytes
  import opened Names
  import opened WireName
  import opened Message
  import opened RoundTrip

  /** The number two octets stand for, the high one first. */
  function Pair(b: Text, i: nat): int
    requires i + 2 <= |b|
  {
    256 * b[i] as int + b[i + 1]
  }

  function Quad(b: Text, i: nat): int
    requires i + 4 <= |b|
  {
    0x1_0000 * Pair(b, i) + Pair(b, i + 2)
  }

  lemma {:induction false} Octets32(x: u32)
    ensures |U32(x)| == 4 && Quad(U32(x), 0) == x
  {
    Digits(x);
  }

  lemma {:induction false} PairWithin(b: Text, i: nat, f: Text, k: nat)
    requires i + |f| <= |b| && b[i..i + |f|] == f && k + 2 <= |f|
    ensures Pair(b, i + k) == Pair(f, k)
  {
    assert b[i + k] == b[i..i + |f|][k] && b[i + k + 1] == b[i..i + |f|][k + 1];
  }

  lemma {:induction false} HeaderIs(h: Header)
    ensures var f := HeaderBytes(h);
            && |f| == 12 && Pair(f, 0) == h.id && Pair(f, 2) == h.flags && Pair(f, 4) == h.qd && Pair(f, 6) == h.an
            && Pair(f, 8) == h.ns && Pair(f, 10) == h.ar
  {
  }

  /** The first twelve octets of a message: id, flags and the four counts. */
  lemma {:induction false} HeaderOctets(m: Message, b: Text)
    requires Encode(m) == Some(b)
    ensures |b| >= 12 && Pair(b, 0) == m.header.id && Pair(b, 2) == m.header.flags
    ensures Pair(b, 4) == |m.questions| % 65536 && Pair(b, 6) == |m.answers| % 65536
    ensures Pair(b, 8) == |m.authority| % 65536
    ensures Pair(b, 10) == (|m.additional| + if m.edns then 1 else 0) % 65536
  {
    var f := HeaderBytes(PackedHeader(m));
    HeaderIs(PackedHeader(m));
    FirstPairs(f, Body(m), b);
  }

  lemma {:induction false} FirstPairs(f: Text, rest: Text, b: Text)
    requires |f| == 12 && b == f + rest
    ensures |b| >= 12 && Pair(b, 0) == Pair(f, 0) && Pair(b, 2) == Pair(f, 2) && Pair(b, 4) == Pair(f, 4)
    ensures Pair(b, 6) == Pair(f, 6) && Pair(b, 8) == Pair(f, 8) && Pair(b, 10) == Pair(f, 10)
  {
    assert forall i :: 0 <= i < 12 ==> b[i] == f[i];
  }

  /** A question: its name, type and class. */
  lemma {:induction false} QuestionOctets(q: Question)
    ensures var b, k := QuestionBytes(q), |NameBytes(q.name)|;
            |b| == k + 4 && b[..k] == NameBytes(q.name) && Pair(b, k) == q.qtype && Pair(b, k + 2) == q.qclass
  {
  }

  lemma {:induction false} FixedOctets(r: RR)
    requires |r.rdata| < 0x1_0000
    ensures var f := RRFixed(r);
            && |f| == 10 && Pair(f, 0) == r.rtype && Pair(f, 2) == r.rclass && Quad(f, 4) == r.ttl
            && Pair(f, 8) == |r.rdata|
  {
    Octets32(r.ttl);
    var t := U32(r.ttl);
    assert RRFixed(r)[4..8] == t;
    PairWithin(RRFixed(r), 4, t, 0);
    PairWithin(RRFixed(r), 4, t, 2);
  }

  /** A record: its name, type, class, TTL, the length of its data, and the data. */
  lemma {:induction false} RecordOctets(r: RR)
    requires |r.rdata| < 0x1_0000
    ensures var b, k := RRBytes(r), |NameBytes(r.name)|;
            && |b| == k + 10 + |r.rdata| && b[..k] == NameBytes(r.name) && Pair(b, k) == r.rtype
            && Pair(b, k + 2) == r.rclass && Quad(b, k + 4) == r.ttl && Pair(b, k + 8) == |r.rdata|
            && b[k + 10..] == r.rdata
  {
    var b, k, f := RRBytes(r), |NameBytes(r.name)|, RRFixed(r);
    FixedOctets(r);
    assert b[k..k + 10] == f;
    PairWithin(b, k, f, 0);
    PairWithin(b, k, f, 2);
    PairWithin(b, k, f, 4);
    PairWithin(b, k, f, 6);
    PairWithin(b, k, f, 8);
  }

  /** Labels after their lengths, the final zero still to come. */
  function Prefixed(ls: seq<Text>): Text
    requires GoodLabels(ls)
  {
    if ls == [] then [] else [|ls[0]| as byte] + ls[0] + Prefixed(ls[1..])
  }

  lemma {:induction false} WireSplits(a: seq<Text>, b: seq<Text>)
    requires GoodLabels(a) && GoodLabels(b)
    ensures GoodLabels(a + b) && Wire(a + b) == Prefixed(a) + Wire(b)
  {
    if a == [] {
      assert a + b == b;
    } else {
      WireSplits(a[1..], b);
      assert (a + b)[1..] == a[1..] + b;
      Regroup([|a[0]| as byte] + a[0], Prefixed(a[1..]), Wire(b));
    }
  }

  lemma {:induction false} Regroup(x: Text, y: Text, z: Text)
    ensures x + (y + z) == x + y + z
  {
  }

  /** A name: each label after an octet with its length, and a zero octet at the end. */
  lemma {:induction false} LabelOctets(a: seq<Text>, l: Text, b: seq<Text>)
    requires GoodLabels(a) && GoodLabels(b) && 0 < |l| <= 63
    ensures var ls := a + [l] + b;
            && GoodLabels(ls) && Wire(ls) == Prefixed(a) + [|l| as byte] + l + Wire(b) && Wire([]) == [0]
  {
    var rest := [l] + b;
    assert rest[1..] == b;
    assert a + [l] + b == a + rest;
    WireSplits(a, rest);
    var p, n, w := Prefixed(a), [|l| as byte], Wire(b);
    assert Wire(rest) == n + l + w;
    assert p + (n + l + w) == p + n + l + w;
  }

  // ---- the order of things -----------------------------------------------------------

  function Joined(parts: seq<Text>): Text {
    if parts == [] then [] else parts[0] + Joined(parts[1..])
  }

  function QuestionParts(qs: seq<Question>): seq<Text> {
    if qs == [] then [] else [QuestionBytes(qs[0])] + QuestionParts(qs[1..])
  }

  function RecordParts(rs: seq<RR>): seq<Text>
    requires Fits(rs)
  {
    if rs == [] then [] else [RRBytes(rs[0])] + RecordParts(rs[1..])
  }

  lemma {:induction false} JoinedCons(p: Text, rest: seq<Text>)
    ensures Joined([p] + rest) == p + Joined(rest)
  {
    assert ([p] + rest)[1..] == rest;
  }

  lemma {:induction false} QuestionsJoined(qs: seq<Question>)
    ensures QuestionsBytes(qs) == Joined(QuestionParts(qs))
  {
    if qs != [] {
      QuestionsJoined(qs[1..]);
      JoinedCons(QuestionBytes(qs[0]), QuestionParts(qs[1..]));
    }
  }

  lemma {:induction false} RecordsJoined(rs: seq<RR>)
    requires Fits(rs)
    ensures RRsBytes(rs) == Joined(RecordParts(rs))
  {
    if rs != [] {
      RecordsJoined(rs[1..]);
      JoinedCons(RRBytes(rs[0]), RecordParts(rs[1..]));
    }
  }

  /** The eleven octets of EDNS: the root, type 41, the size, and the DO bit in the high half of what
      is the TTL of other records. */
  function EdnsOctets(size: u16, d: bool): Text {
    [0, 0, 41, size / 256, size % 256, 0, 0, if d then 128 else 0, 0, 0, 0]
  }

  lemma {:induction false} OptOctets(size: u16, d: bool)
    requires size != 0
    ensures RRBytes(OptRR(size, d)) == EdnsOctets(size, d)
  {
    var r := OptRR(size, d);
    assert TrimDot([DOT]) == [];
    assert NameBytes([DOT]) == [0];
    assert U16(41) == [0, 41] && U16(size) == [size / 256, size % 256] && U16(0) == [0, 0];
    assert U32(OptTtl(d)) == [0, 0, if d then 128 else 0, 0];
  }

  lemma {:induction false} AdditionalOctets(m: Message)
    requires Fits(m.additional) && (m.edns ==> m.ednsSize != 0)
    ensures RRsBytes(WithOpt(m)) ==
            Joined(RecordParts(m.additional)) + if m.edns then EdnsOctets(m.ednsSize, m.ednsDo) else []
  {
    RecordsJoined(m.additional);
    if m.edns {
      var opt := OptRR(m.ednsSize, m.ednsDo);
      OptOctets(m.ednsSize, m.ednsDo);
      RRsBytesAppend(m.additional, [opt]);
      assert [opt][1..] == [];
      assert RRsBytes([opt]) == RRBytes(opt) + [];
    } else {
      assert m.additional + [] == m.additional;
    }
  }

  lemma {:induction false} AfterHeader(h: Text, body: Text, b: Text)
    requires b == h + body && |h| == 12
    ensures |b| >= 12 && b[12..] == body
  {
  }

  lemma {:induction false} Regrouped(a: Text, b: Text, c: Text, d: Text, e: Text)
    ensures a + (b + (c + (d + e))) == a + b + c + d + e
  {
  }

  /** After the header come the questions, the answers, the authority and the additional records, each in
      order, and EDNS last. */
  lemma {:induction false} SectionOctets(m: Message, b: Text)
    requires Encode(m) == Some(b) && (m.edns ==> m.ednsSize != 0)
    ensures |b| >= 12
    ensures b[12..] == Joined(QuestionParts(m.questions)) + Joined(RecordParts(m.answers))
                       + Joined(RecordParts(m.authority)) + Joined(RecordParts(m.additional))
                       + if m.edns then EdnsOctets(m.ednsSize, m.ednsDo) else []
  {
    HeaderIs(PackedHeader(m));
    QuestionsJoined(m.questions);
    RecordsJoined(m.answers);
    RecordsJoined(m.authority);
    AdditionalOctets(m);
    AfterHeader(HeaderBytes(PackedHeader(m)), Body(m), b);
    Regrouped(QuestionsBytes(m.questions), RRsBytes(m.answers), RRsBytes(m.authority),
      Joined(RecordParts(m.additional)), if m.edns then EdnsOctets(m.ednsSize, m.ednsDo) else []);
  }

  // ---- reading -----------------------------------------------------------------------

  /** The header that is read is the first twelve octets. */
  lemma {:induction false} ReadHeader(b: Text, m: Message)
    requires Parse(b) == Some(m)
    ensures |b| >= 12 && m.header == Header(Pair(b, 0), Pair(b, 2), Pair(b, 4), Pair(b, 6), Pair(b, 8), Pair(b, 10))
  {
    HeaderRead(b);
    HeaderKept(b, m);
  }

  lemma {:induction false} HeaderKept(b: Text, m: Message)
    requires Parse(b) == Some(m)
    ensures |b| >= 12 && m.header == ParseHeader(b)
  {
  }

  lemma {:induction false} HeaderRead(b: Text)
    requires |b| >= 12
    ensures ParseHeader(b) == Header(Pair(b, 0), Pair(b, 2), Pair(b, 4), Pair(b, 6), Pair(b, 8), Pair(b, 10))
  {
  }

  /** A question that is read is a name and the two numbers behind it. */
  lemma {:induction false} ReadQuestion(b: Text, off: nat, q: Question, end: nat)
    requires ParseQuestion(b, off) == Some((q, end))
    ensures 4 <= end <= |b| && ParseName(b, off) == Some((q.name, end - 4))
    ensures Pair(b, end - 4) == q.qtype && Pair(b, end - 2) == q.qclass
  {
  }

  /** A record that is read is a name and the numbers and data behind it. */
  lemma {:induction false} ReadRecord(b: Text, off: nat, r: RR, end: nat) returns (k: nat)
    requires ParseRR(b, off) == Some((r, end))
    ensures ParseName(b, off) == Some((r.name, k)) && k + 10 <= end <= |b| && Pair(b, k) == r.rtype
    ensures Pair(b, k + 2) == r.rclass && Quad(b, k + 4) == r.ttl && end == k + 10 + Pair(b, k + 8)
    ensures r.rdata == b[k + 10..end]
  {
    k := ParseName(b, off).value.1;
  }

  // ---- two packets -------------------------------------------------------------------

  lemma {:induction false} RootRead(b: Text, i: nat, text: Text, end: Option<nat>, hops: nat, len: nat)
    requires i < |b| && b[i] == 0 && hops <= 16
    ensures ParseFrom(b, i, text, end, hops, len) ==
            Some((if text == [] then [46] else text, if end.Some? then end.value else i + 1))
  {
  }

  /** One label read: the text grows to `text'` and the length so far to `len'`. */
  lemma {:induction false} OneLabelRead(b: Text, i: nat, text: Text, end: Option<nat>, hops: nat, len: nat, l: Text,
                                        next: nat, text': Text, len': nat)
    requires 0 < |l| <= 63 && next == i + 1 + |l| <= |b| && b[i] == |l| && b[i + 1..next] == l
    requires hops <= 16 && len' == len + 1 + |l| <= 255 && text' == if text == [] then l else text + [46] + l
    ensures ParseFrom(b, i, text, end, hops, len) == ParseFrom(b, next, text', end, hops, len')
  {
    assert [] + l == l;
  }

  /** After sixteen pointers a further one is refused, so reading a name always ends. */
  lemma {:induction false} PointerLimit(b: Text, i: nat, text: Text, end: Option<nat>, hops: nat, len: nat, to: nat)
    requires i + 1 < |b| && b[i] >= 192 && to == (b[i] as int - 192) * 256 + b[i + 1] && hops <= 16
    ensures ParseFrom(b, i, text, end, hops, len) ==
            if hops == 16 then None
            else ParseFrom(b, to, text, if end.Some? then end else Some(i + 2), hops + 1, len)
  {
  }

  lemma {:induction false} OneLabel(b: Text, i: nat, end: Option<nat>, hops: nat, l: Text, next: nat)
    requires 0 < |l| <= 63 && next == i + 1 + |l| < |b| && b[i] == |l| && b[i + 1..next] == l && b[next] == 0
    requires hops <= 16
    ensures ParseFrom(b, i, [], end, hops, 1) == Some((l, if end.Some? then end.value else next + 1))
  {
    var len := 2 + |l|;
    OneLabelRead(b, i, [], end, hops, 1, l, next, l, len);
    RootRead(b, next, l, end, hops, len);
  }

  lemma {:induction false} LastLabel(b: Text, mid: nat, l: Text, len: nat, m: Text, next: nat, text: Text)
    requires 0 < |m| <= 63 && next == mid + 1 + |m| < |b| && b[mid] == |m| && b[mid + 1..next] == m && b[next] == 0
    requires l != [] && text == l + [46] + m && len <= 100
    ensures ParseFrom(b, mid, l, None, 0, len) == Some((text, next + 1))
  {
    var len' := len + 1 + |m|;
    OneLabelRead(b, mid, l, None, 0, len, m, next, text, len');
    RootRead(b, next, text, None, 0, len');
  }

  lemma {:induction false} TwoLabels(b: Text, i: nat, l: Text, mid: nat, m: Text, next: nat, text: Text)
    requires 0 < |l| <= 63 && mid == i + 1 + |l| < |b| && b[i] == |l| && b[i + 1..mid] == l
    requires 0 < |m| <= 63 && next == mid + 1 + |m| < |b| && b[mid] == |m| && b[mid + 1..next] == m && b[next] == 0
    requires text == l + [46] + m
    ensures ParseName(b, i) == Some((text, next + 1))
  {
    var len := 2 + |l|;
    OneLabelRead(b, i, [], None, 0, 1, l, mid, l, len);
    LastLabel(b, mid, l, len, m, next, text);
  }

  lemma {:induction false} OneSection(b: Text, off: nat, r: RR, next: nat, end: nat)
    requires ParseName(b, off) == Some((r.name, next)) && |r.rdata| < 0x1_0000 && off + 11 <= |b|
    requires end == next + 10 + |r.rdata| <= |b|
    requires Get16(b, next) == r.rtype && Get16(b, next + 2) == r.rclass && Get32(b, next + 4) == r.ttl
    requires Get16(b, next + 8) == |r.rdata| && b[next + 10..end] == r.rdata
    ensures ParseSection(b, off, 1) == Some(([r], end))
  {
    RRStep(b, off, r, next, end);
    RRsStep(b, off, 1, r, end, [], end);
    assert [r] + [] == [r];
  }

  lemma {:induction false} OneQuestion(b: Text, off: nat, q: Question, next: nat)
    requires ParseName(b, off) == Some((q.name, next)) && next + 4 <= |b|
    requires Get16(b, next) == q.qtype && Get16(b, next + 2) == q.qclass
    ensures ParseQuestions(b, off, 1) == Some(([q], next + 4))
  {
    QuestionStep(b, off, q, next, next + 4);
    QuestionsStep(b, off, 1, q, next + 4, [], next + 4);
    assert [q] + [] == [q];
  }

  /** A query for the addresses of "www.z", with EDNS, the size 1232 and the DO bit. */
  const QUERY: Text := [0x12, 0x34, 1, 0, 0, 1, 0, 0, 0, 0, 0, 1,
                        3, 119, 119, 119, 1, 122, 0, 0, 1, 0, 1,
                        0, 0, 41, 4, 208, 0, 0, 128, 0, 0, 0]

  lemma {:induction false} QueryName(b: Text)
    requires b == QUERY
    ensures ParseName(b, 12) == Some(([119, 119, 119, 46, 122], 19)) && ParseName(b, 23) == Some(([46], 24))
  {
    var l, m: Text := [119, 119, 119], [122];
    assert b[12] == 3 && b[16] == 1 && b[17] == 122 && b[18] == 0 && b[23] == 0 && |b| == 34;
    assert b[13..16] == l;
    assert b[17..18] == m;
    TwoLabels(b, 12, l, 16, m, 18, [119, 119, 119, 46, 122]);
    RootRead(b, 23, [], None, 0, 1);
  }

  lemma {:induction false} QuerySections(b: Text)
    requires b == QUERY
    ensures ParseQuestions(b, 12, 1) == Some(([Question([119, 119, 119, 46, 122], 1, 1)], 23))
    ensures ParseSection(b, 23, 1) == Some(([RR([46], 41, 1232, 0x8000, [])], 34))
  {
    QueryName(b);
    OneQuestion(b, 12, Question([119, 119, 119, 46, 122], 1, 1), 19);
    assert b[34..34] == [];
    OneSection(b, 23, RR([46], 41, 1232, 0x8000, []), 24, 34);
  }

  lemma {:induction false} OneOpt(opt: RR)
    requires opt.rtype == 41
    ensures WithoutOpt([opt]) == [] && LastOpt([opt]) == Some(opt)
  {
    assert [opt][..0] == [];
    assert WithoutOpt([]) == [];
  }

  lemma {:induction false} QueryHeader(b: Text)
    requires b == QUERY
    ensures |b| == 34 && ParseHeader(b) == Header(0x1234, 0x100, 1, 0, 0, 1)
  {
  }

  lemma {:induction false} NoRecords(b: Text, off: nat)
    ensures ParseSection(b, off, 0) == Some(([], off))
  {
  }

  lemma {:induction false} QueryAssembled(h: Header, qs: seq<Question>, opt: RR)
    requires opt == RR([46], 41, 1232, 0x8000, [])
    ensures Assembled(h, qs, [], [], [opt]) == Message(h, qs, [], [], [], true, true, 1232)
  {
    OneOpt(opt);
  }

  lemma {:induction false} QueryReadsAs(b: Text)
    requires b == QUERY
    ensures Parse(b) ==
            Some(Message(Header(0x1234, 0x100, 1, 0, 0, 1), [Question([119, 119, 119, 46, 122], 1, 1)], [], [], [],
                         true, true, 1232))
  {
    var h, opt := Header(0x1234, 0x100, 1, 0, 0, 1), RR([46], 41, 1232, 0x8000, []);
    var qs := [Question([119, 119, 119, 46, 122], 1, 1)];
    QueryHeader(b);
    QuerySections(b);
    NoRecords(b, 23);
    QueryAssembled(h, qs, opt);
    ParseStep(b, h, qs, 23, [], 23, [], 23, [opt], 34);
  }

  /** How that query is read. */
  lemma {:induction false} QueryReads()
    ensures Parse(QUERY) ==
            Some(Message(Header(0x1234, 0x100, 1, 0, 0, 1), [Question([119, 119, 119, 46, 122], 1, 1)], [], [], [],
                         true, true, 1232))
  {
    QueryReadsAs(QUERY);
  }

  /** A reply with one address of "z", whose owner is a pointer to the question. */
  const REPLY: Text := [0, 7, 133, 128, 0, 1, 0, 1, 0, 0, 0, 0,
                        1, 122, 0, 0, 1, 0, 1,
                        192, 12, 0, 1, 0, 1, 0, 1, 2, 3, 0, 4, 10, 0, 0, 1]

  lemma {:induction false} ReplyName(b: Text)
    requires b == REPLY
    ensures ParseName(b, 12) == Some(([122], 15)) && ParseName(b, 19) == Some(([122], 21))
  {
    var l: Text := [122];
    assert b[12] == 1 && b[13] == 122 && b[14] == 0 && b[19] == 192 && b[20] == 12 && |b| == 35;
    assert b[13..14] == l;
    OneLabel(b, 12, None, 0, l, 14);
    PointerLimit(b, 19, [], None, 0, 1, 12);
    OneLabel(b, 12, Some(21), 1, l, 14);
  }

  lemma {:induction false} ReplyHeader(b: Text)
    requires b == REPLY
    ensures |b| == 35 && ParseHeader(b) == Header(7, 0x8580, 1, 1, 0, 0)
  {
    assert b[0] == 0 && b[1] == 7 && b[2] == 133 && b[3] == 128 && b[4] == 0 && b[5] == 1 && b[6] == 0 && b[7] == 1;
    assert b[8] == 0 && b[9] == 0 && b[10] == 0 && b[11] == 0;
    HeaderRead(b);
  }

  lemma {:induction false} ReplyNumbers(b: Text)
    requires b == REPLY
    ensures |b| == 35 && Get16(b, 15) == 1 && Get16(b, 17) == 1
    ensures Get16(b, 21) == 1 && Get16(b, 23) == 1 && Get32(b, 25) == 0x10203 && Get16(b, 29) == 4
  {
  }

  lemma {:induction false} ReplyData(b: Text)
    requires b == REPLY
    ensures |b| == 35 && b[31..35] == [10, 0, 0, 1]
  {
  }

  lemma {:induction false} ReplyAnswer(b: Text)
    requires b == REPLY
    ensures ParseSection(b, 19, 1) == Some(([RR([122], 1, 1, 0x10203, [10, 0, 0, 1])], 35))
  {
    ReplyName(b);
    ReplyNumbers(b);
    ReplyData(b);
    OneSection(b, 19, RR([122], 1, 1, 0x10203, [10, 0, 0, 1]), 21, 35);
  }

  lemma {:induction false} ReplyQuestion(b: Text)
    requires b == REPLY
    ensures ParseQuestions(b, 12, 1) == Some(([Question([122], 1, 1)], 19))
  {
    ReplyName(b);
    ReplyNumbers(b);
    OneQuestion(b, 12, Question([122], 1, 1), 15);
  }

  lemma {:induction false} ReplyReadsAs(b: Text)
    requires b == REPLY
    ensures Parse(b) ==
            Some(Message(Header(7, 0x8580, 1, 1, 0, 0), [Question([122], 1, 1)],
                         [RR([122], 1, 1, 0x10203, [10, 0, 0, 1])], [], [], false, false, 0))
  {
    var h, qs, an := Header(7, 0x8580, 1, 1, 0, 0), [Question([122], 1, 1)], [RR([122], 1, 1, 0x10203, [10, 0, 0, 1])];
    ReplyHeader(b);
    ReplyQuestion(b);
    ReplyAnswer(b);
    NoRecords(b, 35);
    ParseStep(b, h, qs, 19, an, 35, [], 35, [], 35);
  }

  /** How that reply is read. */
  lemma {:induction false} ReplyReads()
    ensures Parse(REPLY) ==
            Some(Message(Header(7, 0x8580, 1, 1, 0, 0), [Question([122], 1, 1)],
                         [RR([122], 1, 1, 0x10203, [10, 0, 0, 1])], [], [], false, false, 0))
  {
    ReplyReadsAs(REPLY);
  }
}
