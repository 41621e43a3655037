/** Answering one query: the alias loop, referrals, negative answers and additional records. */
module Resolution {
  import opened Arithmetic
  import opened Bytes
  import opened Names
  import opened Tables
  import opened Message
  import opened WireName
  import opened RData
  import opened Lookup
  import opened Service
  import Udp

  const CLASS_IN: u16 := 1
  const CLASS_ANY: u16 := 255
  const TYPE_IXFR: u16 := 251
  const TYPE_AXFR: u16 := 252

  type Rcode = x: int | 0 <= x < 16
  const FORMERR: Rcode := 1
  const SERVFAIL: Rcode := 2
  const NXDOMAIN: Rcode := 3
  const NOTIMP: Rcode := 4
  const REFUSED: Rcode := 5
  const FLAG_AA := 0x400

  const MAX_CHAIN := 8
  const MAX_GLUE := 16
  const MAX_NEXT := 253

  datatype ZoneLookup = Held(zone: Zone) | Unheld | Unavailable

  /** What the handler reads through. Either call may fail. */
  datatype Resolver = Resolver(findZone: Text -> ZoneLookup, lookup: (Text, Text) -> Option<Found>) {
    function View(zone: Text): Lookups {
      n => lookup(zone, n)
    }
  }

  /** The parts of a response that resolving fills in. */
  datatype Reply = Reply(answers: seq<RR>, authority: seq<RR>, additional: seq<RR>, rcode: Rcode, aa: bool)

  function Mod32(x: int): u32 {
    x % 0x1_0000_0000
  }

  // ---- records -----------------------------------------------------------------------

  /** `wireOf`: nothing for a record that cannot be encoded. */
  function WireOf(encode: Encoder, r: Row): Text {
    if encode(r.rtype, r.rdata).Some? then encode(r.rtype, r.rdata).value else []
  }

  /** An unservable record is skipped. */
  function Emit(encode: Encoder, owner: Text, r: Row): seq<RR> {
    if r.rtype == 0 || encode(r.rtype, r.rdata).None? then []
    else [RR(owner, r.rtype, CLASS_IN, Mod32(r.ttl), WireOf(encode, r))]
  }

  function EmitAll(encode: Encoder, owner: Text, rs: seq<Row>): seq<RR> {
    if rs == [] then [] else EmitAll(encode, owner, rs[..|rs| - 1]) + Emit(encode, owner, rs[|rs| - 1])
  }

  /** The counter after serving a set of `n` records. */
  function Ticked(n: nat, rot: u32): u32 {
    if n > 1 then Mod32(rot + 1) else rot
  }

  /** The record that leads a set of `n`. */
  function Leader(n: nat, rot: u32): (k: nat)
    ensures k <= n
  {
    if n > 1 then Ticked(n, rot) % n else 0
  }

  function Rotated<T>(s: seq<T>, k: nat): seq<T>
    requires k <= |s|
  {
    s[k..] + s[..k]
  }

  function SetOf(encode: Encoder, owner: Text, rs: seq<Row>, rot: u32): seq<RR> {
    EmitAll(encode, owner, Rotated(rs, Leader(|rs|, rot)))
  }

  function TargetOf(encode: Encoder, r: Row): Text {
    TargetName(r.rtype, WireOf(encode, r))
  }

  // ---- additional records ------------------------------------------------------------

  /** The in-zone names whose addresses go with a set: distinct, and at most sixteen. */
  function GlueNames(encode: Encoder, zone: Text, rs: seq<Row>): seq<Text> {
    if rs == [] then []
    else
      var ts := GlueNames(encode, zone, rs[..|rs| - 1]);
      var t := Lower(TargetOf(encode, rs[|rs| - 1]));
      if |ts| >= MAX_GLUE || t == [] || !InZone(t, zone) || t in ts then ts else ts + [t]
  }

  function AddressRows(rs: seq<Row>): seq<Row> {
    if rs == [] then []
    else AddressRows(rs[..|rs| - 1]) + if rs[|rs| - 1].rtype in {TYPE_A, TYPE_AAAA} then [rs[|rs| - 1]] else []
  }

  function AddressesOf(encode: Encoder, look: Lookups, t: Text): seq<RR> {
    if look(t).None? then [] else EmitAll(encode, t, AddressRows(look(t).value.records))
  }

  function AddressesOfAll(encode: Encoder, look: Lookups, ts: seq<Text>): seq<RR> {
    if ts == [] then [] else AddressesOfAll(encode, look, ts[..|ts| - 1]) + AddressesOf(encode, look, ts[|ts| - 1])
  }

  function Glue(encode: Encoder, look: Lookups, zone: Text, rs: seq<Row>): seq<RR> {
    AddressesOfAll(encode, look, GlueNames(encode, zone, rs))
  }

  // ---- one turn of the loop ----------------------------------------------------------

  function SoaRR(z: Zone): Option<RR> {
    var w := SoaBytes(z.primaryNs, AtToDot(z.adminEmail),
                      [Mod32(z.serial), Mod32(z.refresh), Mod32(z.retry), Mod32(z.expire), Mod32(z.minTtl)]);
    if w.None? then None else Some(RR(z.name, TYPE_SOA, CLASS_IN, Mod32(z.minTtl), w.value))
  }

  function SoaList(z: Zone): seq<RR> {
    if SoaRR(z).Some? then [SoaRR(z).value] else []
  }

  function Negative(reply: Reply, z: Zone, present: bool): Reply {
    reply.(rcode := if present then reply.rcode else NXDOMAIN, authority := reply.authority + SoaList(z))
  }

  /** Where the loop stands: the reply so far, the rotation counter, the zone and name being
      looked up, and the owner its answers will carry. */
  datatype Place = Place(reply: Reply, rot: u32, zone: Zone, name: Text, owner: Text)

  datatype Turn =
    | Stop(reply: Reply, rot: u32)
    | Fail(rot: u32)
    | Hop(to: Place)
  {
    function Rot(): u32 {
      if Hop? then to.rot else rot
    }
  }

  /** After an alias the owner is the new name itself. */
  function Onward(w: Resolver, reply: Reply, rot: u32, next: Text): Turn {
    match w.findZone(next)
    case Held(z) => Hop(Place(reply, rot, z, next, next))
    case Unheld => Stop(reply, rot)
    case Unavailable => Fail(rot)
  }

  function Refer(w: Resolver, encode: Encoder, reply: Reply, zone: Zone, at: Text, ns: seq<Row>): Reply {
    reply.(aa := false, authority := reply.authority + EmitAll(encode, at, ns),
           additional := reply.additional + Glue(encode, w.View(zone.name), zone.name, ns))
  }

  /** The name with the redirected suffix replaced. */
  function Substituted(name: Text, at: Text, target: Text): Text {
    (if Below(name, at) then name[..|name| - |at| - 1] else name) + [DOT] + Lower(target)
  }

  function Synthesized(owner: Text, d: Row, cname: Text): RR {
    RR(owner, TYPE_CNAME, CLASS_IN, Mod32(d.ttl), cname)
  }

  function OnDname(w: Resolver, encode: Encoder, p: Place, at: Text, d: Row): Turn {
    var r := p.reply.(answers := p.reply.answers + Emit(encode, at, d));
    var target := TargetName(TYPE_DNAME, WireOf(encode, d));
    var next := Substituted(p.name, at, target);
    if target == [] then Stop(r, p.rot)
    else if |next| > MAX_NEXT then Stop(r.(rcode := SERVFAIL), p.rot)
    else if PackName(next).None? then Stop(r, p.rot)
    else Onward(w, r.(answers := r.answers + [Synthesized(p.owner, d, PackName(next).value)]), p.rot, next)
  }

  function OnAny(encode: Encoder, p: Place, rs: seq<Row>, present: bool): Turn {
    var apex := p.name == p.zone.name;
    var soa := if apex then SoaList(p.zone) else [];
    var r := p.reply.(answers := p.reply.answers + soa + SetOf(encode, p.owner, rs, p.rot));
    Stop(if r.answers == [] then Negative(r, p.zone, present || apex) else r, Ticked(|rs|, p.rot))
  }

  function OnMatched(w: Resolver, encode: Encoder, p: Place, qtype: u16, rs: seq<Row>): Turn {
    var view := w.View(p.zone.name);
    var glue := if qtype in {TYPE_MX, TYPE_NS, TYPE_SRV} then Glue(encode, view, p.zone.name, rs) else [];
    Stop(p.reply.(answers := p.reply.answers + SetOf(encode, p.owner, rs, p.rot),
                  additional := p.reply.additional + glue),
         Ticked(|rs|, p.rot))
  }

  function OnCname(w: Resolver, encode: Encoder, p: Place, cs: seq<Row>): Turn
    requires cs != []
  {
    var r := p.reply.(answers := p.reply.answers + SetOf(encode, p.owner, cs, p.rot));
    var target := Lower(TargetName(TYPE_CNAME, WireOf(encode, cs[0])));
    if target == [] then Stop(r, Ticked(|cs|, p.rot)) else Onward(w, r, Ticked(|cs|, p.rot), target)
  }

  function OnRecords(w: Resolver, encode: Encoder, p: Place, qtype: u16, rs: seq<Row>, present: bool): Turn {
    var apex := p.name == p.zone.name;
    if qtype == TYPE_ANY then OnAny(encode, p, rs, present)
    else if apex && qtype == TYPE_SOA then
      if SoaRR(p.zone).None? then Fail(p.rot) else Stop(p.reply.(answers := p.reply.answers + SoaList(p.zone)), p.rot)
    else if OfType(rs, qtype) != [] then OnMatched(w, encode, p, qtype, OfType(rs, qtype))
    else if qtype != TYPE_CNAME && OfType(rs, TYPE_CNAME) != [] then OnCname(w, encode, p, OfType(rs, TYPE_CNAME))
    else Stop(Negative(p.reply, p.zone, rs != [] || present || apex), p.rot)
  }

  function OnMatch(w: Resolver, encode: Encoder, qtype: u16, p: Place, m: Match): Turn {
    match m
    case Failed => Fail(p.rot)
    case Cut(at, ns) => Stop(Refer(w, encode, p.reply, p.zone, at, ns), p.rot)
    case Redirect(at, d) => OnDname(w, encode, p, at, d)
    case Answer(rs, present) => OnRecords(w, encode, p, qtype, rs, present)
  }

  /** What the walk finds for the current name. */
  function MatchAt(w: Resolver, qtype: u16, p: Place): Match {
    Walk(w.View(p.zone.name), p.zone.name, p.name, qtype)
  }

  /** One pass through the loop body. */
  function OneTurn(w: Resolver, encode: Encoder, qtype: u16, p: Place): Turn {
    OnMatch(w, encode, qtype, p, MatchAt(w, qtype, p))
  }

  type LoopBody = Place -> Turn

  function Turns(w: Resolver, encode: Encoder, qtype: u16): LoopBody {
    p => OneTurn(w, encode, qtype, p)
  }

  /** The loop with `left` turns to go; running out of turns keeps what was gathered. */
  function Loop(body: LoopBody, p: Place, left: nat): (Option<Reply>, u32)
    decreases left, p.rot
  {
    if left == 0 then (Some(p.reply), p.rot)
    else
      match body(p)
      case Stop(r, rot) => (Some(r), rot)
      case Fail(rot) => (None, rot)
      case Hop(to) => Loop(body, to, left - 1)
  }

  /** The places the loop passes through. */
  function Visits(body: LoopBody, p: Place, left: nat): (ps: seq<Place>)
    ensures |ps| <= left
    decreases left, p.rot
  {
    if left == 0 then []
    else [p] + if body(p).Hop? then Visits(body, body(p).to, left - 1) else []
  }

  // ---- a request ---------------------------------------------------------------------

  function Denied(rcode: Rcode): Reply {
    Reply([], [], [], rcode, false)
  }

  /** The reply resolving starts from. */
  const FRESH := Reply([], [], [], 0, true)

  /** A request that is turned away unread. */
  function TurnedAway(req: Message): Option<Rcode> {
    if req.header.flags / 0x800 % 16 != 0 then Some(NOTIMP)
    else if |req.questions| != 1 then Some(FORMERR)
    else
      var q := req.questions[0];
      if q.qclass != CLASS_IN && q.qclass != CLASS_ANY then Some(REFUSED)
      else if q.qtype == OPT then Some(FORMERR)
      else if q.qtype == TYPE_AXFR || q.qtype == TYPE_IXFR then Some(REFUSED)
      else if TrimDot(q.name) == [] then Some(REFUSED)
      else None
  }

  /** The outcome for one question: a failure on the way discards everything gathered. */
  function Answered(w: Resolver, encode: Encoder, q: Question, rot: u32): (Reply, u32) {
    var owner := TrimDot(q.name);
    match w.findZone(Lower(owner))
    case Unheld => (Denied(REFUSED), rot)
    case Unavailable => (Denied(SERVFAIL), rot)
    case Held(z) =>
      var (r, rot') := Loop(Turns(w, encode, q.qtype), Place(FRESH, rot, z, Lower(owner), owner), MAX_CHAIN + 1);
      (if r.None? then Denied(SERVFAIL) else r.value, rot')
  }

  function Handled(w: Resolver, encode: Encoder, req: Message, rot: u32): (Reply, u32) {
    if TurnedAway(req).Some? then (Denied(TurnedAway(req).value), rot) else Answered(w, encode, req.questions[0], rot)
  }

  /** The response message for a reply. */
  function Respond(req: Message, r: Reply): Message {
    var base := Udp.NewResponse(req);
    base.(header := base.header.(flags := base.header.flags + (if r.aa then FLAG_AA else 0) + r.rcode),
          answers := r.answers, authority := r.authority, additional := r.additional)
  }

  // ---- the handler's methods ---------------------------------------------------------

  class Handler {
    var rotate: u32

    constructor ()
      ensures rotate == 0
    {
      rotate := 0;
    }

    /** Index arithmetic over the set serves it rotated. */
    method AppendSet(encode: Encoder, section: seq<RR>, owner: Text, records: seq<Row>) returns (out: seq<RR>)
      modifies this
      ensures out == section + SetOf(encode, owner, records, old(rotate))
      ensures rotate == Ticked(|records|, old(rotate))
    {
      var n := |records|;
      if n == 0 {
        return section;
      }
      var start := 0;
      if n > 1 {
        rotate := Mod32(rotate + 1);
        start := rotate % n;
      }
      out := AppendFrom(encode, section, owner, records, start);
    }

    /** The checks of a request in order, then the loop. */
    method Handle(w: Resolver, encode: Encoder, req: Message) returns (resp: Message)
      modifies this
      ensures resp == Respond(req, Handled(w, encode, req, old(rotate)).0)
      ensures rotate == Handled(w, encode, req, old(rotate)).1
    {
      if req.header.flags / 0x800 % 16 != 0 {
        return Respond(req, Denied(NOTIMP));
      }
      if |req.questions| != 1 {
        return Respond(req, Denied(FORMERR));
      }
      var q := req.questions[0];
      if q.qclass != CLASS_IN && q.qclass != CLASS_ANY {
        return Respond(req, Denied(REFUSED));
      }
      if q.qtype == OPT {
        return Respond(req, Denied(FORMERR));
      }
      if q.qtype == TYPE_AXFR || q.qtype == TYPE_IXFR {
        return Respond(req, Denied(REFUSED));
      }
      var owner := TrimDot(q.name);
      var name := Lower(owner);
      if name == [] {
        return Respond(req, Denied(REFUSED));
      }
      var found := w.findZone(name);
      match found
      case Unheld =>
        return Respond(req, Denied(REFUSED));
      case Unavailable =>
        return Respond(req, Denied(SERVFAIL));
      case Held(zone) =>
        var r := Follow(w, encode, q.qtype, FRESH, zone, name, owner, Turns(w, encode, q.qtype));
        return Respond(req, if r.None? then Denied(SERVFAIL) else r.value);
    }

    /** The loop over hops. */
    method Follow(w: Resolver, encode: Encoder, qtype: u16, reply0: Reply, zone0: Zone, name0: Text, owner0: Text,
                  ghost body: LoopBody)
      returns (r: Option<Reply>)
      requires IsLoopBody(body, w, encode, qtype)
      modifies this
      ensures (r, rotate) == Loop(body, Place(reply0, old(rotate), zone0, name0, owner0), MAX_CHAIN + 1)
    {
      var reply, zone, name, owner := reply0, zone0, name0, owner0;
      ghost var left: nat := MAX_CHAIN + 1;
      ghost var goal := Loop(body, Place(reply, rotate, zone, name, owner), left);
      for hops := 0 to MAX_CHAIN + 1
        invariant left == MAX_CHAIN + 1 - hops
        invariant Loop(body, Place(reply, rotate, zone, name, owner), left) == goal
      {
        left := left - 1;
        var turn := Step(w, encode, qtype, reply, zone, name, owner, body);
        if turn.Fail? {
          return None;
        }
        if turn.Stop? {
          return Some(turn.reply);
        }
        reply, zone, name, owner := turn.to.reply, turn.to.zone, turn.to.name, turn.to.owner;
      }
      return Some(reply);
    }

    /** One pass through the loop body. */
    method Step(w: Resolver, encode: Encoder, qtype: u16, reply: Reply, zone: Zone, name: Text, owner: Text,
                ghost body: LoopBody) returns (t: Turn)
      requires IsLoopBody(body, w, encode, qtype)
      modifies this
      ensures t == body(Place(reply, old(rotate), zone, name, owner))
      ensures rotate == t.Rot()
    {
      TurnIs(body, w, encode, qtype, Place(reply, rotate, zone, name, owner));
      var m := LookupMatch(w.View(zone.name), zone.name, name, qtype);
      match m
      case Failed =>
        t := Fail(rotate);
      case Cut(at, ns) =>
        var r := Referral(w, encode, reply, zone, at, ns);
        t := Stop(r, rotate);
      case Redirect(at, d) =>
        t := FollowDname(w, encode, reply, rotate, zone, name, owner, at, d);
      case Answer(rs, present) =>
        t := Settle(w, encode, qtype, reply, zone, name, owner, rs, present);
    }

    /** The part of the body that has records to choose from. */
    method Settle(w: Resolver, encode: Encoder, qtype: u16, reply: Reply, zone: Zone, name: Text, owner: Text,
                  rs: seq<Row>, present: bool)
      returns (t: Turn)
      modifies this
      ensures t == OnRecords(w, encode, Place(reply, old(rotate), zone, name, owner), qtype, rs, present)
      ensures rotate == t.Rot()
    {
      var apex := name == zone.name;
      var answers := reply.answers;
      if qtype == TYPE_ANY {
        if apex {
          answers := answers + SoaList(zone);
        }
        assert answers == reply.answers + if apex then SoaList(zone) else [];
        answers := AppendSet(encode, answers, owner, rs);
        var r := reply.(answers := answers);
        return Stop(if |answers| == 0 then Negative(r, zone, present || apex) else r, rotate);
      }
      if apex && qtype == TYPE_SOA {
        if SoaRR(zone).None? {
          return Fail(rotate);
        }
        return Stop(reply.(answers := answers + [SoaRR(zone).value]), rotate);
      }
      var matched := FilterType(rs, qtype);
      if |matched| > 0 {
        answers := AppendSet(encode, answers, owner, matched);
        var additional := reply.additional;
        if qtype in {TYPE_MX, TYPE_NS, TYPE_SRV} {
          var glue := AddGlue(encode, w.View(zone.name), zone.name, matched);
          additional := additional + glue;
        }
        return Stop(reply.(answers := answers, additional := additional), rotate);
      }
      if qtype != TYPE_CNAME {
        var cnames := FilterType(rs, TYPE_CNAME);
        if |cnames| > 0 {
          answers := AppendSet(encode, answers, owner, cnames);
          var target := Lower(TargetName(TYPE_CNAME, WireOf(encode, cnames[0])));
          if target == [] {
            return Stop(reply.(answers := answers), rotate);
          }
          return Onward(w, reply.(answers := answers), rotate, target);
        }
      }
      return Stop(Negative(reply, zone, |rs| > 0 || present || apex), rotate);
    }
  }

  /** `body` is the loop body for these arguments. */
  ghost predicate IsLoopBody(body: LoopBody, w: Resolver, encode: Encoder, qtype: u16) {
    forall p {:trigger OneTurn(w, encode, qtype, p)} :: body(p) == OneTurn(w, encode, qtype, p)
  }

  lemma {:induction false} TurnIs(body: LoopBody, w: Resolver, encode: Encoder, qtype: u16, p: Place)
    requires IsLoopBody(body, w, encode, qtype)
    ensures body(p) == OneTurn(w, encode, qtype, p) == OnMatch(w, encode, qtype, p, MatchAt(w, qtype, p))
  {
  }

  method Referral(w: Resolver, encode: Encoder, reply: Reply, zone: Zone, at: Text, ns: seq<Row>) returns (r: Reply)
    ensures r == Refer(w, encode, reply, zone, at, ns)
  {
    var authority := AppendEach(encode, reply.authority, at, ns);
    var glue := AddGlue(encode, w.View(zone.name), zone.name, ns);
    return reply.(aa := false, authority := authority, additional := reply.additional + glue);
  }

  /** The DNAME, the new name with its length and packing tests, the synthesized alias, and the
      zone of the new name. */
  method FollowDname(w: Resolver, encode: Encoder, reply: Reply, rot: u32, zone: Zone, name: Text, owner: Text,
                     at: Text, d: Row)
    returns (t: Turn)
    ensures t == OnDname(w, encode, Place(reply, rot, zone, name, owner), at, d) && t.Rot() == rot
  {
    var answers := reply.answers + Emit(encode, at, d);
    var target := TargetName(TYPE_DNAME, WireOf(encode, d));
    if target == [] {
      return Stop(reply.(answers := answers), rot);
    }
    var stem := name;
    if HasSuffix(name, [DOT] + at) {
      stem := name[..|name| - |[DOT] + at|];
    }
    var next := stem + [DOT] + Lower(target);
    assert next == Substituted(name, at, target);
    if |next| > MAX_NEXT {
      return Stop(reply.(answers := answers, rcode := SERVFAIL), rot);
    }
    var cname, packed := AppendPacked([], next);
    if !packed {
      return Stop(reply.(answers := answers), rot);
    }
    assert cname == PackName(next).value;
    answers := answers + [RR(owner, TYPE_CNAME, CLASS_IN, Mod32(d.ttl), cname)];
    match w.findZone(next)
    case Unavailable =>
      return Fail(rot);
    case Unheld =>
      return Stop(reply.(answers := answers), rot);
    case Held(nz) =>
      return Hop(Place(reply.(answers := answers), rot, nz, next, next));
  }

  /** `(start+i)%n` for every `i` visits the set rotated. */
  method AppendFrom(encode: Encoder, section: seq<RR>, owner: Text, records: seq<Row>, start: nat)
    returns (out: seq<RR>)
    requires start < |records|
    ensures out == section + EmitAll(encode, owner, Rotated(records, start))
  {
    out := section;
    ghost var turned := Rotated(records, start);
    for i := 0 to |records|
      invariant out == section + EmitAll(encode, owner, turned[..i])
    {
      RotatedAt(records, start, i);
      EmitSnoc(encode, owner, turned, i);
      Assoc(section, EmitAll(encode, owner, turned[..i]), Emit(encode, owner, turned[i]));
      var r := records[(start + i) % |records|];
      out := out + Emit(encode, owner, r);
    }
    assert turned[..|records|] == turned;
  }

  method AppendEach(encode: Encoder, section: seq<RR>, owner: Text, rs: seq<Row>) returns (out: seq<RR>)
    ensures out == section + EmitAll(encode, owner, rs)
  {
    out := section;
    for i := 0 to |rs|
      invariant out == section + EmitAll(encode, owner, rs[..i])
    {
      EmitSnoc(encode, owner, rs, i);
      Assoc(section, EmitAll(encode, owner, rs[..i]), Emit(encode, owner, rs[i]));
      out := out + Emit(encode, owner, rs[i]);
    }
    assert rs[..|rs|] == rs;
  }

  /** `seen` and `out` after the first `i` records of a set. */
  ghost predicate GlueSoFar(encode: Encoder, look: Lookups, zone: Text, rs: seq<Row>, i: nat, seen: set<Text>,
                            out: seq<RR>)
    requires i <= |rs|
  {
    var ts := GlueNames(encode, zone, rs[..i]);
    (forall t :: t in seen <==> t in ts) && |seen| == |ts| && out == AddressesOfAll(encode, look, ts)
  }

  lemma {:induction false} GlueSkip(encode: Encoder, look: Lookups, zone: Text, rs: seq<Row>, i: nat, seen: set<Text>,
                                    out: seq<RR>)
    requires i < |rs| && GlueSoFar(encode, look, zone, rs, i, seen, out)
    requires var t := Lower(TargetOf(encode, rs[i])); t == [] || !InZone(t, zone) || t in seen
    ensures GlueSoFar(encode, look, zone, rs, i + 1, seen, out)
  {
    GlueNamesSnoc(encode, zone, rs, i);
  }

  lemma {:induction false} GlueTake(encode: Encoder, look: Lookups, zone: Text, rs: seq<Row>, i: nat, seen: set<Text>,
                                    out: seq<RR>, t: Text)
    requires i < |rs| && GlueSoFar(encode, look, zone, rs, i, seen, out) && |seen| < MAX_GLUE
    requires t == Lower(TargetOf(encode, rs[i])) && t != [] && InZone(t, zone) && t !in seen
    ensures GlueSoFar(encode, look, zone, rs, i + 1, seen + {t}, out + AddressesOf(encode, look, t))
  {
    GlueNamesSnoc(encode, zone, rs, i);
    AddressesSnoc(encode, look, GlueNames(encode, zone, rs[..i]), t);
  }

  lemma {:induction false} GlueDone(encode: Encoder, look: Lookups, zone: Text, rs: seq<Row>, i: nat, seen: set<Text>,
                                    out: seq<RR>)
    requires i <= |rs| && GlueSoFar(encode, look, zone, rs, i, seen, out) && (|seen| >= MAX_GLUE || i == |rs|)
    ensures out == Glue(encode, look, zone, rs)
  {
    if i == |rs| { assert rs[..i] == rs; } else { GlueNamesFull(encode, zone, rs, i); }
  }

  /** The loop over a set's targets, with the names already seen and the early return. */
  method AddGlue(encode: Encoder, look: Lookups, zone: Text, rs: seq<Row>) returns (out: seq<RR>)
    ensures out == Glue(encode, look, zone, rs)
  {
    out := [];
    var seen: set<Text> := {};
    for i := 0 to |rs|
      invariant GlueSoFar(encode, look, zone, rs, i, seen, out)
    {
      if |seen| >= MAX_GLUE {
        GlueDone(encode, look, zone, rs, i, seen, out);
        return;
      }
      var target := Lower(TargetOf(encode, rs[i]));
      if target == [] || !InZone(target, zone) || target in seen {
        GlueSkip(encode, look, zone, rs, i, seen, out);
        continue;
      }
      GlueTake(encode, look, zone, rs, i, seen, out, target);
      seen := seen + {target};
      var more := LookupAddresses(encode, look, target);
      out := out + more;
    }
    GlueDone(encode, look, zone, rs, |rs|, seen, out);
  }

  /** A failed lookup adds nothing. */
  method LookupAddresses(encode: Encoder, look: Lookups, target: Text) returns (out: seq<RR>)
    ensures out == AddressesOf(encode, look, target)
  {
    var found := look(target);
    out := [];
    if found.Some? {
      out := AppendAddresses(encode, out, target, found.value.records);
    }
  }

  method AppendAddresses(encode: Encoder, section: seq<RR>, owner: Text, rs: seq<Row>) returns (out: seq<RR>)
    ensures out == section + EmitAll(encode, owner, AddressRows(rs))
  {
    out := section;
    for i := 0 to |rs|
      invariant out == section + EmitAll(encode, owner, AddressRows(rs[..i]))
    {
      AddressRowsSnoc(encode, owner, rs, i);
      if rs[i].rtype in {TYPE_A, TYPE_AAAA} {
        Assoc(section, EmitAll(encode, owner, AddressRows(rs[..i])), Emit(encode, owner, rs[i]));
        out := out + Emit(encode, owner, rs[i]);
      }
    }
    assert rs[..|rs|] == rs;
  }

  // ---- supporting facts --------------------------------------------------------------

  lemma {:induction false} Assoc(a: seq<RR>, b: seq<RR>, c: seq<RR>)
    ensures a + b + c == a + (b + c)
  {
  }

  lemma {:induction false} EmitSnoc(encode: Encoder, owner: Text, rs: seq<Row>, i: nat)
    requires i < |rs|
    ensures EmitAll(encode, owner, rs[..i + 1]) == EmitAll(encode, owner, rs[..i]) + Emit(encode, owner, rs[i])
  {
    assert rs[..i + 1][..i] == rs[..i];
  }

  lemma {:induction false} GlueNamesSnoc(encode: Encoder, zone: Text, rs: seq<Row>, i: nat)
    requires i < |rs|
    ensures var ts, t := GlueNames(encode, zone, rs[..i]), Lower(TargetOf(encode, rs[i]));
            GlueNames(encode, zone, rs[..i + 1]) ==
            if |ts| >= MAX_GLUE || t == [] || !InZone(t, zone) || t in ts then ts else ts + [t]
  {
    assert rs[..i + 1][..i] == rs[..i];
  }

  lemma {:induction false} AddressesSnoc(encode: Encoder, look: Lookups, ts: seq<Text>, t: Text)
    ensures AddressesOfAll(encode, look, ts + [t]) == AddressesOfAll(encode, look, ts) + AddressesOf(encode, look, t)
  {
  }

  lemma {:induction false} AddressRowsSnoc(encode: Encoder, owner: Text, rs: seq<Row>, i: nat)
    requires i < |rs|
    ensures EmitAll(encode, owner, AddressRows(rs[..i + 1])) ==
            EmitAll(encode, owner, AddressRows(rs[..i]))
            + if rs[i].rtype in {TYPE_A, TYPE_AAAA} then Emit(encode, owner, rs[i]) else []
  {
    var before := AddressRows(rs[..i]);
    assert rs[..i + 1][..i] == rs[..i];
    if rs[i].rtype in {TYPE_A, TYPE_AAAA} {
      assert AddressRows(rs[..i + 1]) == before + [rs[i]];
      EmitSnoc(encode, owner, before + [rs[i]], |before|);
      assert (before + [rs[i]])[..|before|] == before;
      assert (before + [rs[i]])[..|before| + 1] == before + [rs[i]];
    } else {
      assert AddressRows(rs[..i + 1]) == before;
    }
  }

  lemma {:induction false} RotatedAt<T>(s: seq<T>, k: nat, i: nat)
    requires k < |s| && i < |s|
    ensures Rotated(s, k)[i] == s[(k + i) % |s|]
  {
    if k + i < |s| { Quotient(k + i, |s|, 0, k + i); } else { Quotient(k + i, |s|, 1, k + i - |s|); }
  }

  /** Once sixteen names are taken, later records add none. */
  lemma {:induction false} GlueNamesFull(encode: Encoder, zone: Text, rs: seq<Row>, i: nat)
    requires i <= |rs| && |GlueNames(encode, zone, rs[..i])| >= MAX_GLUE
    ensures GlueNames(encode, zone, rs) == GlueNames(encode, zone, rs[..i])
    decreases |rs| - i
  {
    if i < |rs| {
      assert rs[..i + 1][..i] == rs[..i];
      GlueNamesFull(encode, zone, rs, i + 1);
    } else {
      assert rs[..i] == rs;
    }
  }
}
