/** Packing a message and parsing it again. */
module RoundTrip {
  import opened Bytes
  import opened WireName
  import opened Message

  function CanonQuestion(q: Question): Question {
    q.(name := Canonical(q.name))
  }

  function CanonQuestions(qs: seq<Question>): seq<Question> {
    if qs == [] then [] else [CanonQuestion(qs[0])] + CanonQuestions(qs[1..])
  }

  function CanonRR(r: RR): RR {
    r.(name := Canonical(r.name))
  }

  function CanonRRs(rs: seq<RR>): seq<RR> {
    if rs == [] then [] else [CanonRR(rs[0])] + CanonRRs(rs[1..])
  }

  /** The message a packed message parses back to: names lose one trailing dot, the root reads
      ".", counts are filled in, and EDNS fields without EDNS read as zero. */
  function Canon(m: Message): Message {
    Message(PackedHeader(m), CanonQuestions(m.questions), CanonRRs(m.answers), CanonRRs(m.authority),
            CanonRRs(m.additional), m.edns, m.edns && m.ednsDo,
            if !m.edns then 0 else if m.ednsSize == 0 then MAX_EDNS else m.ednsSize)
  }

  predicate NamesPackable(rs: seq<RR>) {
    forall i :: 0 <= i < |rs| ==> Packable(rs[i].name)
  }

  /** Names packable, data and counts in range with the OPT included, no OPT of its own. */
  predicate Sendable(m: Message) {
    && FitsAll(m) && NamesPackable(m.answers) && NamesPackable(m.authority) && NamesPackable(m.additional)
    && (forall i :: 0 <= i < |m.questions| ==> Packable(m.questions[i].name))
    && |m.questions| < 0x1_0000 && |m.answers| < 0x1_0000 && |m.authority| < 0x1_0000 && |WithOpt(m)| < 0x1_0000
    && forall i :: 0 <= i < |m.additional| ==> m.additional[i].rtype != OPT
  }

  // ---- questions ---------------------------------------------------------------------

  lemma {:induction false} NameThen(buf: Text, off: nat, pre: Text, name: Text, rest: Text, post: Text, next: nat)
    requires Packable(name) && buf == pre + (NameBytes(name) + rest) + post
    requires off == |pre| && next == off + |NameBytes(name)|
    ensures ParseName(buf, off) == Some((Canonical(name), next))
    ensures next + |rest| <= |buf| && buf[next..next + |rest|] == rest
  {
    var w := NameBytes(name);
    Shift(pre, w, rest, post);
    ParsePacked(buf, pre, name, w, rest + post);
    Between(buf, pre + w, rest, post);
  }

  lemma {:induction false} Between(buf: Text, pre: Text, x: Text, post: Text)
    requires buf == pre + x + post
    ensures buf[|pre|..|pre| + |x|] == x
  {
  }

  /** A slice of a known slice. */
  lemma {:induction false} Within(buf: Text, i: nat, f: Text, a: nat, b: nat)
    requires i + |f| <= |buf| && buf[i..i + |f|] == f && a <= b <= |f|
    ensures buf[i + a..i + b] == f[a..b]
  {
    forall k | 0 <= k < b - a
      ensures buf[i + a..i + b][k] == f[a..b][k]
    {
      assert buf[i..i + |f|][a + k] == f[a + k];
    }
  }

  /** Two equal groupings of a run of bytes. */
  lemma {:induction false} Shift(pre: Text, x: Text, more: Text, post: Text)
    ensures pre + (x + more) + post == pre + x + (more + post)
    ensures pre + (x + more) + post == (pre + x) + more + post
  {
  }

  lemma {:induction false} NameBytesSize(name: Text)
    ensures 1 <= |NameBytes(name)| <= MAX_NAME
  {
    if Packable(name) { PackedForm(name); }
  }

  lemma {:induction false} QuestionStep(buf: Text, off: nat, q: Question, next: nat, end: nat)
    requires ParseName(buf, off) == Some((q.name, next)) && end == next + 4 <= |buf|
    requires Get16(buf, next) == q.qtype && Get16(buf, next + 2) == q.qclass
    ensures ParseQuestion(buf, off) == Some((q, end))
  {
  }

  lemma {:induction false} QuestionRoundTrip(buf: Text, off: nat, pre: Text, q: Question, post: Text, end: nat)
    requires Packable(q.name) && buf == pre + QuestionBytes(q) + post
    requires off == |pre| && end == off + |QuestionBytes(q)|
    ensures ParseQuestion(buf, off) == Some((CanonQuestion(q), end))
    ensures 5 <= end - off
  {
    NameBytesSize(q.name);
    var f := U16(q.qtype) + U16(q.qclass);
    var next := off + |NameBytes(q.name)|;
    NameThen(buf, off, pre, q.name, f, post, next);
    Within(buf, next, f, 0, 2);
    Within(buf, next, f, 2, 4);
    assert f[0..2] == U16(q.qtype) && f[2..4] == U16(q.qclass);
    Get16Of(buf, next, q.qtype);
    Get16Of(buf, next + 2, q.qclass);
    QuestionStep(buf, off, CanonQuestion(q), next, end);
  }

  lemma {:induction false} QuestionsStep(buf: Text, off: nat, count: nat, q: Question, next: nat, qs: seq<Question>,
                                         end: nat)
    requires count > 0 && ParseQuestion(buf, off) == Some((q, next))
    requires ParseQuestions(buf, next, count - 1) == Some((qs, end))
    ensures ParseQuestions(buf, off, count) == Some(([q] + qs, end))
  {
  }

  lemma {:induction false} QuestionsRoundTrip(buf: Text, off: nat, pre: Text, qs: seq<Question>, count: nat, post: Text,
                                              end: nat)
    requires buf == pre + QuestionsBytes(qs) + post && off == |pre|
    requires count == |qs| && end == off + |QuestionsBytes(qs)|
    requires forall i :: 0 <= i < |qs| ==> Packable(qs[i].name)
    ensures ParseQuestions(buf, off, count) == Some((CanonQuestions(qs), end))
    ensures 5 * count <= end - off
    decreases |qs|
  {
    if qs != [] {
      var one, more := QuestionBytes(qs[0]), QuestionsBytes(qs[1..]);
      var next := off + |one|;
      Shift(pre, one, more, post);
      QuestionRoundTrip(buf, off, pre, qs[0], more + post, next);
      QuestionsRoundTrip(buf, next, pre + one, qs[1..], count - 1, post, end);
      QuestionsStep(buf, off, count, CanonQuestion(qs[0]), next, CanonQuestions(qs[1..]), end);
    }
  }

  // ---- records -----------------------------------------------------------------------

  lemma {:induction false} FixedFields(r: RR, f: Text)
    requires |r.rdata| < 0x1_0000 && f == RRFixed(r)
    ensures |f| == 10 && f[0..2] == U16(r.rtype) && f[2..4] == U16(r.rclass)
    ensures f[4..8] == U32(r.ttl) && f[8..10] == U16(|r.rdata|)
  {
  }

  lemma {:induction false} RRFields(buf: Text, i: nat, r: RR)
    requires |r.rdata| < 0x1_0000 && i + 10 <= |buf| && buf[i..i + 10] == RRFixed(r)
    ensures Get16(buf, i) == r.rtype && Get16(buf, i + 2) == r.rclass
    ensures Get32(buf, i + 4) == r.ttl && Get16(buf, i + 8) == |r.rdata|
  {
    var f := RRFixed(r);
    FixedFields(r, f);
    Within(buf, i, f, 0, 2);
    Within(buf, i, f, 2, 4);
    Within(buf, i, f, 4, 8);
    Within(buf, i, f, 8, 10);
    Get16Of(buf, i, r.rtype);
    Get16Of(buf, i + 2, r.rclass);
    Get32Of(buf, i + 4, r.ttl);
    Get16Of(buf, i + 8, |r.rdata|);
  }

  lemma {:induction false} RRStep(buf: Text, off: nat, r: RR, next: nat, end: nat)
    requires ParseName(buf, off) == Some((r.name, next))
    requires |r.rdata| < 0x1_0000 && end == next + 10 + |r.rdata| <= |buf|
    requires Get16(buf, next) == r.rtype && Get16(buf, next + 2) == r.rclass
    requires Get32(buf, next + 4) == r.ttl && Get16(buf, next + 8) == |r.rdata|
    requires buf[next + 10..end] == r.rdata
    ensures ParseRR(buf, off) == Some((r, end))
  {
  }

  lemma {:induction false} RRRoundTrip(buf: Text, off: nat, pre: Text, r: RR, post: Text, end: nat)
    requires Packable(r.name) && |r.rdata| < 0x1_0000 && buf == pre + RRBytes(r) + post
    requires off == |pre| && end == off + |RRBytes(r)|
    ensures ParseRR(buf, off) == Some((CanonRR(r), end))
    ensures 11 <= end - off
  {
    NameBytesSize(r.name);
    var next := off + |NameBytes(r.name)|;
    var rest := RRFixed(r) + r.rdata;
    NameThen(buf, off, pre, r.name, rest, post, next);
    Within(buf, next, rest, 0, 10);
    Within(buf, next, rest, 10, 10 + |r.rdata|);
    assert rest[0..10] == RRFixed(r) && rest[10..10 + |r.rdata|] == r.rdata;
    RRFields(buf, next, r);
    RRStep(buf, off, CanonRR(r), next, end);
  }

  lemma {:induction false} RRsStep(buf: Text, off: nat, count: nat, r: RR, next: nat, rs: seq<RR>, end: nat)
    requires count > 0 && ParseRR(buf, off) == Some((r, next)) && ParseRRs(buf, next, count - 1) == Some((rs, end))
    ensures ParseRRs(buf, off, count) == Some(([r] + rs, end))
  {
  }

  lemma {:induction false} RRThenRest(buf: Text, off: nat, pre: Text, r: RR, post: Text, next: nat, count: nat,
                                      rest: seq<RR>, end: nat)
    requires Packable(r.name) && |r.rdata| < 0x1_0000 && buf == pre + RRBytes(r) + post
    requires off == |pre| && next == off + |RRBytes(r)| && count > 0
    requires ParseRRs(buf, next, count - 1) == Some((rest, end))
    ensures ParseRRs(buf, off, count) == Some(([CanonRR(r)] + rest, end))
  {
    RRRoundTrip(buf, off, pre, r, post, next);
    RRsStep(buf, off, count, CanonRR(r), next, rest, end);
  }

  lemma {:induction false} FirstRR(buf: Text, pre: Text, rs: seq<RR>, one: Text, more: Text, post: Text)
    requires rs != [] && Fits(rs) && one == RRBytes(rs[0])
    requires more == RRsBytes(rs[1..]) && buf == pre + RRsBytes(rs) + post
    ensures buf == pre + one + (more + post) && buf == (pre + one) + more + post && |RRsBytes(rs)| == |one| + |more|
  {
    Shift(pre, one, more, post);
  }

  lemma {:induction false} RRsRoundTrip(buf: Text, off: nat, pre: Text, rs: seq<RR>, count: nat, post: Text, end: nat)
    requires Fits(rs) && NamesPackable(rs) && buf == pre + RRsBytes(rs) + post
    requires off == |pre| && count == |rs| && end == off + |RRsBytes(rs)|
    ensures ParseRRs(buf, off, count) == Some((CanonRRs(rs), end))
    decreases |rs|
  {
    if rs != [] {
      var one, more := RRBytes(rs[0]), RRsBytes(rs[1..]);
      var next := off + |one|;
      FirstRR(buf, pre, rs, one, more, post);
      RRsRoundTrip(buf, next, pre + one, rs[1..], count - 1, post, end);
      RRThenRest(buf, off, pre, rs[0], more + post, next, count, CanonRRs(rs[1..]), end);
    }
  }

  /** A record takes at least eleven octets. */
  lemma {:induction false} RRsMinimum(rs: seq<RR>)
    requires Fits(rs)
    ensures 11 * |rs| <= |RRsBytes(rs)|
  {
    if rs != [] {
      NameBytesSize(rs[0].name);
      RRsMinimum(rs[1..]);
    }
  }

  /** The count guard never rejects a packed section. */
  lemma {:induction false} SectionRoundTrip(buf: Text, off: nat, pre: Text, rs: seq<RR>, count: nat, post: Text,
                                            end: nat)
    requires Fits(rs) && NamesPackable(rs) && buf == pre + RRsBytes(rs) + post
    requires off == |pre| && count == |rs| && end == off + |RRsBytes(rs)|
    ensures ParseSection(buf, off, count) == Some((CanonRRs(rs), end))
  {
    RRsRoundTrip(buf, off, pre, rs, count, post, end);
    RRsMinimum(rs);
  }

  // ---- EDNS --------------------------------------------------------------------------

  lemma {:induction false} CanonAppend(rs: seq<RR>, r: RR)
    ensures CanonRRs(rs + [r]) == CanonRRs(rs) + [CanonRR(r)]
  {
    if rs == [] {
      assert rs + [r] == [r] && [r][1..] == [];
    } else {
      assert (rs + [r])[1..] == rs[1..] + [r];
      CanonAppend(rs[1..], r);
    }
  }

  lemma {:induction false} CanonKeeps(rs: seq<RR>)
    ensures |CanonRRs(rs)| == |rs|
    ensures forall i :: 0 <= i < |rs| ==> CanonRRs(rs)[i].rtype == rs[i].rtype
  {
    if rs != [] { CanonKeeps(rs[1..]); }
  }

  lemma {:induction false} NoOptKept(rs: seq<RR>)
    requires forall i :: 0 <= i < |rs| ==> rs[i].rtype != OPT
    ensures WithoutOpt(rs) == rs && LastOpt(rs) == None
  {
    if rs != [] {
      NoOptKept(rs[..|rs| - 1]);
      assert rs == rs[..|rs| - 1] + [rs[|rs| - 1]];
    }
  }

  lemma {:induction false} OptIsRead(m: Message)
    requires Sendable(m)
    ensures var ar := CanonRRs(WithOpt(m));
            && WithoutOpt(ar) == CanonRRs(m.additional)
            && LastOpt(ar) == if m.edns then Some(OptRR(m.ednsSize, m.ednsDo)) else None
  {
    var rs := CanonRRs(m.additional);
    CanonKeeps(m.additional);
    NoOptKept(rs);
    if m.edns {
      var opt := OptRR(m.ednsSize, m.ednsDo);
      CanonAppend(m.additional, opt);
      assert CanonRR(opt) == opt;
      assert (rs + [opt])[..|rs|] == rs;
    } else {
      assert WithOpt(m) == m.additional;
    }
  }

  // ---- whole messages ----------------------------------------------------------------

  lemma {:induction false} HeaderRoundTrip(buf: Text, h: Header, post: Text)
    requires buf == HeaderBytes(h) + post
    ensures |buf| >= 12 && ParseHeader(buf) == h
  {
  }

  lemma {:induction false} WithOptSendable(m: Message)
    requires Sendable(m)
    ensures Fits(WithOpt(m)) && NamesPackable(WithOpt(m))
  {
  }

  lemma {:induction false} Spread(h: Text, q: Text, a: Text, n: Text, r: Text)
    ensures var buf := h + (q + (a + (n + r)));
            buf == h + q + (a + (n + r)) && buf == h + q + a + (n + r) && buf == h + q + a + n + r + []
  {
  }

  /** Where the sections of a packed message end. */
  ghost predicate Ends(m: Message, e1: nat, e2: nat, e3: nat, e4: nat)
    requires FitsAll(m)
  {
    && e1 == 12 + |QuestionsBytes(m.questions)| && e2 == e1 + |RRsBytes(m.answers)|
    && e3 == e2 + |RRsBytes(m.authority)| && e4 == e3 + |RRsBytes(WithOpt(m))|
  }

  /** The four sections of a packed message, each found where the one before it ended. */
  lemma {:induction false} SectionsRoundTrip(buf: Text, m: Message, head: Text, h: Header, e1: nat, e2: nat, e3: nat,
                                             e4: nat)
    requires Sendable(m) && |head| == 12 && buf == head + Body(m) && Ends(m, e1, e2, e3, e4)
    requires h.qd == |m.questions| && h.an == |m.answers| && h.ns == |m.authority| && h.ar == |WithOpt(m)|
    ensures h.qd * 5 <= |buf| - 12
    ensures ParseQuestions(buf, 12, h.qd) == Some((CanonQuestions(m.questions), e1))
    ensures ParseSection(buf, e1, h.an) == Some((CanonRRs(m.answers), e2))
    ensures ParseSection(buf, e2, h.ns) == Some((CanonRRs(m.authority), e3))
    ensures ParseSection(buf, e3, h.ar) == Some((CanonRRs(WithOpt(m)), e4))
  {
    WithOptSendable(m);
    var q, a, n, r := QuestionsBytes(m.questions), RRsBytes(m.answers), RRsBytes(m.authority), RRsBytes(WithOpt(m));
    Spread(head, q, a, n, r);
    QuestionsRoundTrip(buf, 12, head, m.questions, h.qd, a + (n + r), e1);
    SectionRoundTrip(buf, e1, head + q, m.answers, h.an, n + r, e2);
    SectionRoundTrip(buf, e2, head + q + a, m.authority, h.ns, r, e3);
    SectionRoundTrip(buf, e3, head + q + a + n, WithOpt(m), h.ar, [], e4);
  }

  lemma {:induction false} ParseStep(buf: Text, h: Header, qs: seq<Question>, e1: nat, an: seq<RR>, e2: nat,
                                     ns: seq<RR>, e3: nat, ar: seq<RR>, e4: nat)
    requires |buf| >= 12 && ParseHeader(buf) == h && h.qd * 5 <= |buf| - 12
    requires ParseQuestions(buf, 12, h.qd) == Some((qs, e1)) && ParseSection(buf, e1, h.an) == Some((an, e2))
    requires ParseSection(buf, e2, h.ns) == Some((ns, e3)) && ParseSection(buf, e3, h.ar) == Some((ar, e4))
    ensures Parse(buf) == Some(Assembled(h, qs, an, ns, ar))
  {
  }

  lemma {:induction false} AssembledIsCanon(m: Message, ar: seq<RR>)
    requires WithoutOpt(ar) == CanonRRs(m.additional)
    requires LastOpt(ar) == if m.edns then Some(OptRR(m.ednsSize, m.ednsDo)) else None
    ensures Assembled(PackedHeader(m), CanonQuestions(m.questions), CanonRRs(m.answers), CanonRRs(m.authority), ar)
            == Canon(m)
  {
    assert DoBit(OptTtl(true)) && !DoBit(OptTtl(false));
  }

  lemma {:induction false} CountsFit(m: Message, h: Header)
    requires Sendable(m) && h == PackedHeader(m)
    ensures h.qd == |m.questions| && h.an == |m.answers| && h.ns == |m.authority| && h.ar == |WithOpt(m)|
  {
  }

  lemma {:induction false} HeaderIsTwelve(h: Header)
    ensures |HeaderBytes(h)| == 12
  {
  }

  lemma {:induction false} ParsePackedMessage(m: Message, h: Header, buf: Text, e1: nat, e2: nat, e3: nat, e4: nat)
    requires Sendable(m) && h == PackedHeader(m) && buf == HeaderBytes(h) + Body(m) && Ends(m, e1, e2, e3, e4)
    ensures Parse(buf) == Some(Canon(m))
  {
    HeaderRoundTrip(buf, h, Body(m));
    HeaderIsTwelve(h);
    CountsFit(m, h);
    SectionsRoundTrip(buf, m, HeaderBytes(h), h, e1, e2, e3, e4);
    ParseStep(buf, h, CanonQuestions(m.questions), e1, CanonRRs(m.answers), e2, CanonRRs(m.authority), e3,
              CanonRRs(WithOpt(m)), e4);
    OptIsRead(m);
    AssembledIsCanon(m, CanonRRs(WithOpt(m)));
  }

  /** Packing then parsing is the identity on every sendable message, up to canonical names. */
  lemma {:induction false} ParseEncode(m: Message, buf: Text)
    requires Sendable(m) && Encode(m) == Some(buf)
    ensures Parse(buf) == Some(Canon(m))
  {
    var e1 := 12 + |QuestionsBytes(m.questions)|;
    var e2 := e1 + |RRsBytes(m.answers)|;
    var e3 := e2 + |RRsBytes(m.authority)|;
    ParsePackedMessage(m, PackedHeader(m), buf, e1, e2, e3, e3 + |RRsBytes(WithOpt(m))|);
  }
}
