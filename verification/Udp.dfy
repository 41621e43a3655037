/** Fitting a response into a UDP datagram. */
module Udp {
  import opened Bytes
  import opened Message
  import opened RoundTrip

  const FLAG_TC := 0x200
  const FLAG_RD := 0x100
  const FLAG_QR := 0x8000

  predicate HasTC(flags: u16) {
    flags / FLAG_TC % 2 == 1
  }

  function SetTC(flags: u16): u16 {
    if HasTC(flags) then flags else flags + FLAG_TC
  }

  function UdpSize(m: Message): u16 {
    if !m.edns || m.ednsSize < MAX_UDP then MAX_UDP
    else if m.ednsSize > MAX_EDNS then MAX_EDNS
    else m.ednsSize
  }

  /** The reply a request starts from: its questions, RD bit and opcode, and EDNS at the
      server's own size when the request used EDNS. */
  function NewResponse(req: Message): Message {
    var f := req.header.flags;
    Message(Header(req.header.id, FLAG_QR + f / FLAG_RD % 2 * FLAG_RD + f / 0x800 % 16 * 0x800, 0, 0, 0, 0),
            req.questions, [], [], [], req.edns, req.edns && req.ednsDo, if req.edns then MAX_EDNS else 0)
  }

  /** The size limit of a reply is the server's, not the requestor's: it stays within what the
      requestor advertised exactly when that is at least 1232, or EDNS is off. */
  lemma {:induction false} LimitHonoursRequestIff(req: Message)
    ensures UdpSize(NewResponse(req)) <= UdpSize(req) <==> !req.edns || req.ednsSize >= 1232
    ensures UdpSize(NewResponse(req)) == if req.edns then 1232 else 512
  {
  }

  function NoAdditional(m: Message): Message {
    m.(additional := [])
  }

  function TruncatedReply(m: Message): Message {
    Message(m.header.(flags := SetTC(m.header.flags)), m.questions, [], [], [], m.edns, m.ednsDo, m.ednsSize)
  }

  function Size(m: Message): nat
    requires FitsAll(m)
  {
    |Encode(m).value|
  }

  /** The message a datagram carries: whole, or without its additional section, or truncated. */
  function Sent(m: Message): Message
    requires FitsAll(m)
  {
    if Size(m) <= UdpSize(m) then m
    else if Size(NoAdditional(m)) <= UdpSize(m) then NoAdditional(m)
    else TruncatedReply(m)
  }

  method PackUdp(m: Message) returns (out: Option<Text>)
    ensures out == if FitsAll(m) then Encode(Sent(m)) else None
  {
    var limit := UdpSize(m);
    var packed, whole := Pack(m);
    if whole.None? {
      return None;
    }
    if |whole.value| <= limit {
      return whole;
    }
    if |m.additional| > 0 {
      var _, trimmed := Pack(packed.(additional := []));
      EncodeIgnoresCounts(NoAdditional(m), packed.(additional := []));
      if |trimmed.value| <= limit {
        return trimmed;
      }
    } else {
      assert m.additional == [] && NoAdditional(m) == m;
    }
    var tc := Message(packed.header.(flags := SetTC(packed.header.flags)), m.questions, [], [], [], m.edns, m.ednsDo,
      m.ednsSize);
    EncodeIgnoresCounts(TruncatedReply(m), tc);
    var _, short := Pack(tc);
    return short;
  }

  /** Counts already in a header do not matter: packing rewrites them. */
  lemma {:induction false} EncodeIgnoresCounts(a: Message, b: Message)
    requires b == a.(header := b.header) && b.header.id == a.header.id && b.header.flags == a.header.flags
    ensures Encode(a) == Encode(b)
  {
  }

  // ---- sizes -------------------------------------------------------------------------

  lemma {:induction false} SizeIs(m: Message)
    requires FitsAll(m)
    ensures Size(m) == 12 + |QuestionsBytes(m.questions)| + |RRsBytes(m.answers)| + |RRsBytes(m.authority)|
                       + |RRsBytes(WithOpt(m))|
  {
  }

  lemma {:induction false} OptSize(size: u16, d: bool)
    ensures |RRBytes(OptRR(size, d))| == 11 && |RRsBytes([OptRR(size, d)])| == 11
  {
  }

  /** A name takes at most 255 octets, so one question takes at most 259. */
  lemma {:induction false} OneQuestionSize(qs: seq<Question>)
    requires |qs| <= 1
    ensures |QuestionsBytes(qs)| <= 259
  {
    if qs != [] {
      NameBytesSize(qs[0].name);
      assert qs[1..] == [];
      assert QuestionsBytes(qs[1..]) == [];
    }
  }

  lemma {:induction false} TruncatedSize(m: Message)
    requires |m.questions| <= 1
    ensures Size(TruncatedReply(m)) <= 12 + 259 + 11
  {
    var t := TruncatedReply(m);
    SizeIs(t);
    OneQuestionSize(m.questions);
    OptSize(m.ednsSize, m.ednsDo);
    assert WithOpt(t) == if m.edns then [OptRR(m.ednsSize, m.ednsDo)] else [];
  }

  /** The datagram never exceeds the reply's limit when there is at most one question. */
  lemma {:induction false} SentFits(m: Message)
    requires FitsAll(m) && |m.questions| <= 1
    ensures FitsAll(Sent(m)) && Size(Sent(m)) <= UdpSize(m) <= 1232
    ensures UdpSize(m) == if !m.edns || m.ednsSize < 512 then 512 else if m.ednsSize > 1232 then 1232 else m.ednsSize
  {
    if Sent(m) == TruncatedReply(m) { TruncatedSize(m); }
  }

  lemma {:induction false} OptPart(m: Message)
    requires Fits(m.additional)
    ensures |RRsBytes(WithOpt(m))| == |RRsBytes(m.additional)| + |RRsBytes(WithOpt(NoAdditional(m)))|
  {
    var opt := if m.edns then [OptRR(m.ednsSize, m.ednsDo)] else [];
    assert WithOpt(NoAdditional(m)) == opt;
    RRsBytesAppend(m.additional, opt);
  }

  lemma {:induction false} DroppingAdditionalShrinks(m: Message)
    requires FitsAll(m)
    ensures Size(NoAdditional(m)) <= Size(m)
  {
    SizeIs(m);
    SizeIs(NoAdditional(m));
    OptPart(m);
  }

  lemma {:induction false} SetTCSets(f: u16)
    ensures HasTC(SetTC(f))
  {
  }

  /** For a reply without TC: the TC bit is set exactly when the message without its additional
      section is over the limit; then answers and authority are both empty, and otherwise both
      are complete. Only the additional section is ever dropped silently. */
  lemma {:induction false} TruncationIsAllOrNothing(m: Message)
    requires FitsAll(m) && !HasTC(m.header.flags)
    ensures HasTC(Sent(m).header.flags) <==> Size(NoAdditional(m)) > UdpSize(m)
    ensures HasTC(Sent(m).header.flags) ==> Sent(m).answers == [] && Sent(m).authority == [] && Sent(m).additional == []
    ensures !HasTC(Sent(m).header.flags) ==> Sent(m) == m || Sent(m) == NoAdditional(m)
    ensures Size(m) <= UdpSize(m) ==> Sent(m) == m
    ensures var s := Sent(m);
            && s.questions == m.questions && s.header.id == m.header.id && s.edns == m.edns && s.ednsDo == m.ednsDo
            && s.ednsSize == m.ednsSize
  {
    DroppingAdditionalShrinks(m);
    SetTCSets(m.header.flags);
  }

  lemma {:induction false} ShorterSendable(m: Message)
    requires Sendable(m)
    ensures Sendable(NoAdditional(m)) && Sendable(TruncatedReply(m))
  {
  }

  /** What the requestor parses out of the datagram is the sent message itself. */
  lemma {:induction false} DatagramParses(m: Message, buf: Text)
    requires Sendable(m) && Encode(Sent(m)) == Some(buf)
    ensures Parse(buf) == Some(Canon(Sent(m)))
  {
    ShorterSendable(m);
    ParseEncode(Sent(m), buf);
  }
}
