/** DNS messages: packing, parsing, and UDP truncation. */
module Message {
  import opened Bytes
  import opened WireName

  const OPT: u16 := 41
  const MAX_UDP: u16 := 512
  const MAX_EDNS: u16 := 1232

  datatype Header = Header(id: u16, flags: u16, qd: u16, an: u16, ns: u16, ar: u16)
  datatype Question = Question(name: Text, qtype: u16, qclass: u16)
  datatype RR = RR(name: Text, rtype: u16, rclass: u16, ttl: u32, rdata: Text)
  datatype Message = Message(header: Header, questions: seq<Question>, answers: seq<RR>, authority: seq<RR>,
                             additional: seq<RR>, edns: bool, ednsDo: bool, ednsSize: u16)

  // ---- numbers -----------------------------------------------------------------------

  function U16(x: u16): Text {
    [x / 256, x % 256]
  }

  function U32(x: u32): Text {
    [x / 0x100_0000, x / 0x1_0000 % 256, x / 256 % 256, x % 256]
  }

  function Get16(buf: Text, i: nat): u16
    requires i + 2 <= |buf|
  {
    buf[i] as int * 256 + buf[i + 1]
  }

  function Get32(buf: Text, i: nat): u32
    requires i + 4 <= |buf|
  {
    buf[i] as int * 0x100_0000 + buf[i + 1] as int * 0x1_0000 + buf[i + 2] as int * 256 + buf[i + 3]
  }

  lemma {:induction false} Get16Of(buf: Text, i: nat, x: u16)
    requires i + 2 <= |buf| && buf[i..i + 2] == U16(x)
    ensures Get16(buf, i) == x
  {
  }

  lemma {:induction false} Digits(x: u32)
    ensures x == x / 0x100_0000 * 0x100_0000 + x / 0x1_0000 % 256 * 0x1_0000 + x / 256 % 256 * 256 + x % 256
  {
    assert x / 256 / 256 == x / 0x1_0000 && x / 0x1_0000 / 256 == x / 0x100_0000;
  }

  lemma {:induction false} Get32Of(buf: Text, i: nat, x: u32)
    requires i + 4 <= |buf| && buf[i..i + 4] == U32(x)
    ensures Get32(buf, i) == x
  {
    var b := buf[i..i + 4];
    assert buf[i] == b[0] && buf[i + 1] == b[1] && buf[i + 2] == b[2] && buf[i + 3] == b[3];
    Digits(x);
  }

  // ---- packing -----------------------------------------------------------------------

  /** `AppendName`: a name that cannot be packed is written as the root. */
  function NameBytes(name: Text): Text {
    if Packable(name) then Wire(NameLabels(name)) else [0]
  }

  function QuestionBytes(q: Question): Text {
    NameBytes(q.name) + (U16(q.qtype) + U16(q.qclass))
  }

  function QuestionsBytes(qs: seq<Question>): Text {
    if qs == [] then [] else QuestionBytes(qs[0]) + QuestionsBytes(qs[1..])
  }

  /** Type, class, TTL and data length. */
  function RRFixed(r: RR): Text
    requires |r.rdata| < 0x1_0000
  {
    U16(r.rtype) + U16(r.rclass) + U32(r.ttl) + U16(|r.rdata|)
  }

  function RRBytes(r: RR): Text
    requires |r.rdata| < 0x1_0000
  {
    NameBytes(r.name) + (RRFixed(r) + r.rdata)
  }

  predicate Fits(rs: seq<RR>) {
    forall i :: 0 <= i < |rs| ==> |rs[i].rdata| < 0x1_0000
  }

  function RRsBytes(rs: seq<RR>): Text
    requires Fits(rs)
  {
    if rs == [] then [] else RRBytes(rs[0]) + RRsBytes(rs[1..])
  }

  function OptTtl(d: bool): u32 {
    if d then 0x8000 else 0
  }

  /** The pseudo-record that carries EDNS. */
  function OptRR(size: u16, d: bool): RR {
    RR([DOT], OPT, if size == 0 then MAX_EDNS else size, OptTtl(d), [])
  }

  function WithOpt(m: Message): seq<RR> {
    m.additional + if m.edns then [OptRR(m.ednsSize, m.ednsDo)] else []
  }

  /** The header as `Pack` rewrites it: the counts, truncated to 16 bits. */
  function PackedHeader(m: Message): Header {
    Header(m.header.id, m.header.flags, |m.questions| % 0x1_0000, |m.answers| % 0x1_0000,
           |m.authority| % 0x1_0000, |WithOpt(m)| % 0x1_0000)
  }

  function HeaderBytes(h: Header): Text {
    U16(h.id) + U16(h.flags) + U16(h.qd) + U16(h.an) + U16(h.ns) + U16(h.ar)
  }

  predicate FitsAll(m: Message) {
    Fits(m.answers) && Fits(m.authority) && Fits(m.additional)
  }

  function Body(m: Message): Text
    requires FitsAll(m)
  {
    QuestionsBytes(m.questions) + (RRsBytes(m.answers) + (RRsBytes(m.authority) + RRsBytes(WithOpt(m))))
  }

  function Encode(m: Message): Option<Text> {
    if FitsAll(m) then Some(HeaderBytes(PackedHeader(m)) + Body(m)) else None
  }

  lemma {:induction false} QuestionsSnoc(qs: seq<Question>, q: Question)
    ensures QuestionsBytes(qs + [q]) == QuestionsBytes(qs) + QuestionBytes(q)
  {
    if qs == [] {
      assert qs + [q] == [q] && [q][1..] == [];
    } else {
      assert (qs + [q])[1..] == qs[1..] + [q];
      QuestionsSnoc(qs[1..], q);
    }
  }

  lemma {:induction false} RRsBytesAppend(a: seq<RR>, b: seq<RR>)
    requires Fits(a) && Fits(b)
    ensures RRsBytes(a + b) == RRsBytes(a) + RRsBytes(b)
  {
    if a == [] {
      assert a + b == b;
    } else {
      assert (a + b)[1..] == a[1..] + b;
      RRsBytesAppend(a[1..], b);
    }
  }

  lemma {:induction false} RRsSnoc(rs: seq<RR>, r: RR)
    requires Fits(rs) && |r.rdata| < 0x1_0000
    ensures RRsBytes(rs + [r]) == RRsBytes(rs) + RRBytes(r)
  {
    if rs == [] {
      assert rs + [r] == [r] && [r][1..] == [];
    } else {
      assert (rs + [r])[1..] == rs[1..] + [r];
      RRsSnoc(rs[1..], r);
    }
  }

  method AppendName(buf: Text, name: Text) returns (out: Text)
    ensures out == buf + NameBytes(name)
  {
    var packed, ok := AppendPacked(buf, name);
    if ok {
      return packed;
    }
    return buf + [0];
  }

  method AppendRR(buf: Text, r: RR) returns (out: Text)
    requires |r.rdata| < 0x1_0000
    ensures out == buf + RRBytes(r)
  {
    var named := AppendName(buf, r.name);
    out := named + (RRFixed(r) + r.rdata);
  }

  method AppendRRs(buf: Text, rs: seq<RR>) returns (out: Option<Text>)
    ensures out == if Fits(rs) then Some(buf + RRsBytes(rs)) else None
  {
    var b: Text := [];
    for i := 0 to |rs|
      invariant Fits(rs[..i]) && b == RRsBytes(rs[..i])
    {
      if |rs[i].rdata| > 0xFFFF {
        return None;
      }
      assert rs[..i + 1] == rs[..i] + [rs[i]];
      RRsSnoc(rs[..i], rs[i]);
      b := AppendRR(b, rs[i]);
    }
    assert rs[..|rs|] == rs;
    return Some(buf + b);
  }

  method AppendOpt(buf: Text, size: u16, d: bool) returns (out: Text)
    ensures out == buf + RRBytes(OptRR(size, d))
  {
    var s := if size == 0 then MAX_EDNS else size;
    out := buf + [0] + (U16(OPT) + U16(s) + U32(OptTtl(d)) + [0, 0]);
  }

  method AppendQuestions(buf: Text, qs: seq<Question>) returns (out: Text)
    ensures out == buf + QuestionsBytes(qs)
  {
    var b: Text := [];
    for i := 0 to |qs|
      invariant b == QuestionsBytes(qs[..i])
    {
      var q := qs[i];
      var named := AppendName(b, q.name);
      assert qs[..i + 1] == qs[..i] + [q];
      QuestionsSnoc(qs[..i], q);
      Assoc3(b, NameBytes(q.name), U16(q.qtype) + U16(q.qclass));
      b := named + (U16(q.qtype) + U16(q.qclass));
    }
    assert qs[..|qs|] == qs;
    return buf + b;
  }

  lemma {:induction false} Assoc3(a: Text, b: Text, c: Text)
    ensures a + b + c == a + (b + c)
  {
  }

  /** The additional section, with the OPT after it when EDNS is on. */
  method AppendAdditional(buf: Text, m: Message) returns (out: Option<Text>)
    ensures out == if Fits(m.additional) then Some(buf + RRsBytes(WithOpt(m))) else None
  {
    out := AppendRRs(buf, m.additional);
    if out.None? {
      return;
    }
    if m.edns {
      ghost var opt := OptRR(m.ednsSize, m.ednsDo);
      var b := AppendOpt(out.value, m.ednsSize, m.ednsDo);
      RRsSnoc(m.additional, opt);
      Assoc3(buf, RRsBytes(m.additional), RRBytes(opt));
      out := Some(b);
    } else {
      assert WithOpt(m) == m.additional;
    }
  }

  lemma {:induction false} Assoc5(a: Text, b: Text, c: Text, d: Text, e: Text)
    ensures a + b + c + d + e == a + (b + (c + (d + e)))
  {
  }

  lemma {:induction false} BodyIs(m: Message, head: Text, out: Text)
    requires FitsAll(m)
    requires out == head + QuestionsBytes(m.questions) + RRsBytes(m.answers) + RRsBytes(m.authority)
                    + RRsBytes(WithOpt(m))
    ensures out == head + Body(m)
  {
    Assoc5(head, QuestionsBytes(m.questions), RRsBytes(m.answers), RRsBytes(m.authority), RRsBytes(WithOpt(m)));
  }

  method AppendSections(head: Text, m: Message) returns (out: Option<Text>)
    ensures out == if FitsAll(m) then Some(head + Body(m)) else None
  {
    var buf := AppendQuestions(head, m.questions);
    var an := AppendRRs(buf, m.answers);
    if an.None? {
      return None;
    }
    var ns := AppendRRs(an.value, m.authority);
    if ns.None? {
      return None;
    }
    out := AppendAdditional(ns.value, m);
    if out.Some? {
      BodyIs(m, head, out.value);
    }
  }

  /** Packing the sections in order; the message's own header counts are rewritten. */
  method Pack(m: Message) returns (m': Message, out: Option<Text>)
    ensures m' == m.(header := PackedHeader(m)) && out == Encode(m)
  {
    m' := m.(header := Header(m.header.id, m.header.flags, |m.questions| % 0x1_0000, |m.answers| % 0x1_0000,
                              |m.authority| % 0x1_0000, (|m.additional| + if m.edns then 1 else 0) % 0x1_0000));
    out := AppendSections(HeaderBytes(m'.header), m);
  }

  // ---- parsing -----------------------------------------------------------------------

  function ParseQuestion(buf: Text, off: nat): Option<(Question, nat)> {
    var p := ParseName(buf, off);
    if p.None? || p.value.1 + 4 > |buf| then None
    else
      var next := p.value.1;
      Some((Question(p.value.0, Get16(buf, next), Get16(buf, next + 2)), next + 4))
  }

  function ParseQuestions(buf: Text, off: nat, count: nat): Option<(seq<Question>, nat)>
    decreases count
  {
    if count == 0 then Some(([], off))
    else
      var q := ParseQuestion(buf, off);
      if q.None? then None
      else
        var rest := ParseQuestions(buf, q.value.1, count - 1);
        if rest.None? then None else Some(([q.value.0] + rest.value.0, rest.value.1))
  }

  function ParseRR(buf: Text, off: nat): Option<(RR, nat)> {
    var p := ParseName(buf, off);
    if p.None? || p.value.1 + 10 > |buf| then None
    else
      var next := p.value.1;
      var len := Get16(buf, next + 8);
      if next + 10 + len > |buf| then None
      else
        Some((RR(p.value.0, Get16(buf, next), Get16(buf, next + 2), Get32(buf, next + 4),
                 buf[next + 10..next + 10 + len]),
              next + 10 + len))
  }

  function ParseRRs(buf: Text, off: nat, count: nat): Option<(seq<RR>, nat)>
    decreases count
  {
    if count == 0 then Some(([], off))
    else
      var r := ParseRR(buf, off);
      if r.None? then None
      else
        var rest := ParseRRs(buf, r.value.1, count - 1);
        if rest.None? then None else Some(([r.value.0] + rest.value.0, rest.value.1))
  }

  function ParseSection(buf: Text, off: nat, count: nat): Option<(seq<RR>, nat)> {
    if count == 0 then Some(([], off))
    else if count * 11 > |buf| - off then None
    else ParseRRs(buf, off, count)
  }

  /** The additional section with every OPT removed, and the EDNS state they leave behind. */
  function WithoutOpt(rs: seq<RR>): seq<RR> {
    if rs == [] then []
    else WithoutOpt(rs[..|rs| - 1]) + if rs[|rs| - 1].rtype == OPT then [] else [rs[|rs| - 1]]
  }

  function LastOpt(rs: seq<RR>): Option<RR> {
    if rs == [] then None
    else if rs[|rs| - 1].rtype == OPT then Some(rs[|rs| - 1])
    else LastOpt(rs[..|rs| - 1])
  }

  predicate DoBit(ttl: u32) {
    ttl / 0x8000 % 2 == 1
  }

  function Assembled(h: Header, qs: seq<Question>, an: seq<RR>, ns: seq<RR>, ar: seq<RR>): Message {
    var opt := LastOpt(ar);
    Message(h, qs, an, ns, WithoutOpt(ar), opt.Some?, opt.Some? && DoBit(opt.value.ttl),
            if opt.Some? then opt.value.rclass else 0)
  }

  function ParseHeader(buf: Text): Header
    requires |buf| >= 12
  {
    Header(Get16(buf, 0), Get16(buf, 2), Get16(buf, 4), Get16(buf, 6), Get16(buf, 8), Get16(buf, 10))
  }

  function Parse(buf: Text): Option<Message> {
    if |buf| < 12 then None
    else
      var h := ParseHeader(buf);
      if h.qd * 5 > |buf| - 12 then None
      else
        var qs := ParseQuestions(buf, 12, h.qd);
        if qs.None? then None
        else
          var an := ParseSection(buf, qs.value.1, h.an);
          if an.None? then None
          else
            var ns := ParseSection(buf, an.value.1, h.ns);
            if ns.None? then None
            else
              var ar := ParseSection(buf, ns.value.1, h.ar);
              if ar.None? then None
              else Some(Assembled(h, qs.value.0, an.value.0, ns.value.0, ar.value.0))
  }

  method DecodeRR(buf: Text, off: nat) returns (r: Option<(RR, nat)>)
    ensures r == ParseRR(buf, off)
  {
    var p := DecodeName(buf, off);
    if p.None? {
      return None;
    }
    var next := p.value.1;
    if next + 10 > |buf| {
      return None;
    }
    var len := Get16(buf, next + 8);
    if next + 10 + len > |buf| {
      return None;
    }
    return Some((RR(p.value.0, Get16(buf, next), Get16(buf, next + 2), Get32(buf, next + 4),
      buf[next + 10..next + 10 + len]),
                 next + 10 + len));
  }

  /** `rrs` has been read and `left` records are to come; `all` is the whole result. */
  ghost predicate RRsSoFar(buf: Text, off: nat, left: nat, rrs: seq<RR>, all: Option<(seq<RR>, nat)>) {
    var rest := ParseRRs(buf, off, left);
    all == if rest.None? then None else Some((rrs + rest.value.0, rest.value.1))
  }

  lemma {:induction false} FirstSoFar(buf: Text, off: nat, count: nat)
    ensures RRsSoFar(buf, off, count, [], ParseRRs(buf, off, count))
  {
    var all := ParseRRs(buf, off, count);
    if all.Some? { assert [] + all.value.0 == all.value.0; }
  }

  lemma {:induction false} NextSoFar(buf: Text, off: nat, left: nat, rrs: seq<RR>, all: Option<(seq<RR>, nat)>)
    requires left > 0 && RRsSoFar(buf, off, left, rrs, all)
    ensures var one := ParseRR(buf, off);
            if one.None? then all.None? else RRsSoFar(buf, one.value.1, left - 1, rrs + [one.value.0], all)
  {
    var one := ParseRR(buf, off);
    if one.Some? {
      var rest := ParseRRs(buf, one.value.1, left - 1);
      if rest.Some? { assert rrs + ([one.value.0] + rest.value.0) == (rrs + [one.value.0]) + rest.value.0; }
    }
  }

  method DecodeSection(buf: Text, off0: nat, count: nat) returns (r: Option<(seq<RR>, nat)>)
    ensures r == ParseSection(buf, off0, count)
  {
    if count == 0 {
      return Some(([], off0));
    }
    if count * 11 > |buf| - off0 {
      return None;
    }
    var rrs: seq<RR> := [];
    var off: nat := off0;
    ghost var all := ParseRRs(buf, off0, count);
    FirstSoFar(buf, off0, count);
    for i := 0 to count
      invariant RRsSoFar(buf, off, count - i, rrs, all)
    {
      var one := DecodeRR(buf, off);
      NextSoFar(buf, off, count - i, rrs, all);
      if one.None? {
        return None;
      }
      rrs := rrs + [one.value.0];
      off := one.value.1;
    }
    assert rrs + [] == rrs;
    return Some((rrs, off));
  }

  method DecodeQuestions(buf: Text, count: nat) returns (r: Option<(seq<Question>, nat)>)
    ensures r == ParseQuestions(buf, 12, count)
  {
    var qs: seq<Question> := [];
    var off: nat := 12;
    ghost var all := ParseQuestions(buf, 12, count);
    if all.Some? { assert qs + all.value.0 == all.value.0; }
    for i := 0 to count
      invariant var rest := ParseQuestions(buf, off, count - i);
                all == if rest.None? then None else Some((qs + rest.value.0, rest.value.1))
    {
      var p := DecodeName(buf, off);
      if p.None? {
        return None;
      }
      var next := p.value.1;
      if next + 4 > |buf| {
        return None;
      }
      ghost var rest := ParseQuestions(buf, next + 4, count - i - 1);
      var q := Question(p.value.0, Get16(buf, next), Get16(buf, next + 2));
      if rest.Some? { assert qs + ([q] + rest.value.0) == (qs + [q]) + rest.value.0; }
      qs := qs + [q];
      off := next + 4;
    }
    assert qs + [] == qs;
    return Some((qs, off));
  }

  /** Parsing never reads outside the buffer, whatever the bytes, and computes `Parse`. */
  method ParseMessage(buf: Text) returns (r: Option<Message>)
    ensures r == Parse(buf)
  {
    if |buf| < 12 {
      return None;
    }
    var h := ParseHeader(buf);
    if h.qd * 5 > |buf| - 12 {
      return None;
    }
    var qs := DecodeQuestions(buf, h.qd);
    if qs.None? { return None; }
    var an := DecodeSection(buf, qs.value.1, h.an);
    if an.None? { return None; }
    var ns := DecodeSection(buf, an.value.1, h.ns);
    if ns.None? { return None; }
    var ar := DecodeSection(buf, ns.value.1, h.ar);
    if ar.None? { return None; }
    var filtered: seq<RR> := [];
    var edns, ednsDo, ednsSize: u16 := false, false, 0;
    for i := 0 to |ar.value.0|
      invariant filtered == WithoutOpt(ar.value.0[..i])
      invariant var opt := LastOpt(ar.value.0[..i]);
                && edns == opt.Some? && ednsDo == (opt.Some? && DoBit(opt.value.ttl))
                && ednsSize == if opt.Some? then opt.value.rclass else 0
    {
      var rr := ar.value.0[i];
      assert ar.value.0[..i + 1][..i] == ar.value.0[..i];
      if rr.rtype == OPT {
        edns, ednsSize, ednsDo := true, rr.rclass, DoBit(rr.ttl);
        continue;
      }
      filtered := filtered + [rr];
    }
    assert ar.value.0[..|ar.value.0|] == ar.value.0;
    return Some(Message(h, qs.value.0, an.value.0, ns.value.0, filtered, edns, ednsDo, ednsSize));
  }
}
