/** Negative answers: when a reply says that a name does not exist, and what it carries. */
module Negatives {
  import opened Bytes
  import opened Names
  import opened Tables
  import opened Message
  import opened WireName
  import opened RData
  import opened Lookup
  import opened Service
  import opened Resolution
  import Aliases

  /** The zone has nothing to say about the name: it is not the apex, has no records and no
      descendants, and its closest encloser is no cut, no DNAME below the apex, and has no
      wildcard records. */
  predicate Absent(node: Nodes, zone: Text, name: Text) {
    && name != zone && !node(name).Exists()
    && var e := Encloser(node, zone, name);
    && (e == zone || (NsAt(node, e) == [] && DnameAt(node, e) == []))
    && node(Wildcard(e)).records == []
  }

  function NodesAt(w: Resolver, p: Place): Nodes {
    Nominal(w.View(p.zone.name))
  }

  predicate AbsentAt(w: Resolver, p: Place) {
    Absent(NodesAt(w, p), p.zone.name, p.name)
  }

  /** The place where the loop ends. */
  function Final(body: LoopBody, p: Place, left: nat): Place
    decreases left, p.rot
  {
    if left <= 1 || !body(p).Hop? then p else Final(body, body(p).to, left - 1)
  }

  lemma {:induction false} FinalIsLastVisit(body: LoopBody, p: Place, left: nat)
    requires left > 0
    ensures var vs := Visits(body, p, left); vs != [] && Final(body, p, left) == vs[|vs| - 1]
    decreases left
  {
    if left > 1 && body(p).Hop? { FinalIsLastVisit(body, body(p).to, left - 1); }
  }

  predicate ServableRR(encode: Encoder, r: Row) {
    r.rtype != 0 && encode(r.rtype, r.rdata).Some?
  }

  /** Everything the resolver returns can be served. */
  ghost predicate Serving(w: Resolver, encode: Encoder) {
    && (forall z, n, r {:trigger r in w.lookup(z, n).value.records} ::
          w.lookup(z, n).Some? && r in w.lookup(z, n).value.records ==> ServableRR(encode, r))
    && (forall n {:trigger w.findZone(n)} :: w.findZone(n).Held? ==> ServableZone(w.findZone(n).zone))
  }

  lemma {:induction false} EmitAllComplete(encode: Encoder, owner: Text, rs: seq<Row>)
    requires forall r :: r in rs ==> ServableRR(encode, r)
    ensures |EmitAll(encode, owner, rs)| == |rs|
  {
    if rs != [] {
      EmitAllComplete(encode, owner, rs[..|rs| - 1]);
      assert rs[|rs| - 1] in rs;
    }
  }

  lemma {:induction false} SetComplete(encode: Encoder, owner: Text, rs: seq<Row>, rot: u32)
    requires forall r :: r in rs ==> ServableRR(encode, r)
    ensures |SetOf(encode, owner, rs, rot)| == |rs|
  {
    EmitAllComplete(encode, owner, Rotated(rs, Leader(|rs|, rot)));
  }

  /** A zone the service wrote has its SOA: one record, owned by the apex, with TTL MinTTL. */
  lemma {:induction false} ServableSoa(z: Zone)
    requires ServableZone(z)
    ensures |SoaList(z)| == 1
    ensures var s := SoaList(z)[0]; s.name == z.name && s.rtype == TYPE_SOA && s.ttl == z.minTtl
  {
    PackableAnyCase(z.primaryNs);
    PackableAnyCase(AtToDot(z.adminEmail));
  }

  // ---- one turn ----------------------------------------------------------------------

  /** What the walk reports as not present is exactly what is absent. */
  lemma {:induction false} NotPresentIsAbsent(w: Resolver, qtype: u16, p: Place)
    ensures var m := MatchAt(w, qtype, p);
            && (!m.Failed? ==> (AbsentAt(w, p) <==> m.Answer? && !m.present))
            && (m.Answer? && !m.present ==> m.records == [] && p.name != p.zone.name)
  {
    WalkIsBottomUp(w.View(p.zone.name), p.zone.name, p.name, qtype);
  }

  predicate ServableMatch(encode: Encoder, m: Match) {
    && (m.Answer? ==> forall r :: r in m.records ==> ServableRR(encode, r))
    && (m.Redirect? ==> m.dname.rtype == TYPE_DNAME && ServableRR(encode, m.dname))
  }

  lemma {:induction false} MatchIsServable(w: Resolver, encode: Encoder, qtype: u16, p: Place)
    requires Serving(w, encode)
    ensures ServableMatch(encode, MatchAt(w, qtype, p))
  {
    var view := w.View(p.zone.name);
    var node := Nominal(view);
    WalkIsBottomUp(view, p.zone.name, p.name, qtype);
    forall n, r | r in node(n).records
      ensures ServableRR(encode, r)
    {
      assert view(n) == w.lookup(p.zone.name, n);
    }
    var e := Encloser(node, p.zone.name, p.name);
    var ds := DnameAt(node, e);
    if ds != [] { OfTypeMember(node(e).records, TYPE_DNAME, ds[0]); }
  }

  /** The reply a query starts from, and goes on from after a hop. */
  predicate Open(r: Reply) {
    r.rcode == 0 && r.authority == [] && r.aa
  }

  /** The last turn either answers and adds no authority, or adds nothing to the answers and the
      zone's SOA to the authority; NXDOMAIN is only in the second. */
  predicate Settled(r: Reply, before: Reply, z: Zone) {
    if r.answers == before.answers then r.authority == SoaList(z) else r.authority == [] && r.rcode != NXDOMAIN
  }

  /** ANY is negative only if nothing was gathered before. */
  predicate MayDeny(qtype: u16, before: Reply) {
    qtype == TYPE_ANY ==> before.answers == []
  }

  /** How a turn that has records to choose from ends. */
  predicate RecordsSettle(t: Turn, p: Place, qtype: u16, present: bool) {
    && (t.Stop? ==> && t.reply.aa && (MayDeny(qtype, p.reply) ==> Settled(t.reply, p.reply, p.zone))
                    && (t.reply.rcode == NXDOMAIN <==> !present && MayDeny(qtype, p.reply))
                    && (!MayDeny(qtype, p.reply) ==> t.reply.rcode == 0 && t.reply.authority == []))
    && (t.Hop? ==> present && Open(t.to.reply) && |t.to.reply.answers| > |p.reply.answers|)
  }

  lemma {:induction false} AnyTurn(encode: Encoder, p: Place, rs: seq<Row>, present: bool)
    requires Open(p.reply) && |SoaList(p.zone)| == 1 && |SetOf(encode, p.owner, rs, p.rot)| == |rs|
    requires !present ==> rs == [] && p.name != p.zone.name
    ensures RecordsSettle(OnAny(encode, p, rs, present), p, TYPE_ANY, present)
  {
  }

  lemma {:induction false} MatchedTurn(w: Resolver, encode: Encoder, p: Place, qtype: u16, rs: seq<Row>)
    requires Open(p.reply) && |SetOf(encode, p.owner, rs, p.rot)| == |rs| > 0
    ensures RecordsSettle(OnMatched(w, encode, p, qtype, rs), p, qtype, true)
  {
  }

  lemma {:induction false} CnameTurn(w: Resolver, encode: Encoder, p: Place, qtype: u16, rs: seq<Row>)
    requires Open(p.reply) && |SetOf(encode, p.owner, rs, p.rot)| == |rs| > 0
    ensures RecordsSettle(OnCname(w, encode, p, rs), p, qtype, true)
  {
  }

  lemma {:induction false} TypeSetComplete(encode: Encoder, owner: Text, rs: seq<Row>, t: u16, rot: u32)
    requires forall r :: r in rs ==> ServableRR(encode, r)
    ensures |SetOf(encode, owner, OfType(rs, t), rot)| == |OfType(rs, t)|
  {
    forall r | r in OfType(rs, t)
      ensures ServableRR(encode, r)
    {
      OfTypeMember(rs, t, r);
    }
    SetComplete(encode, owner, OfType(rs, t), rot);
  }

  lemma {:induction false} RecordsTurn(w: Resolver, encode: Encoder, qtype: u16, p: Place, rs: seq<Row>, present: bool)
    requires Open(p.reply) && ServableZone(p.zone)
    requires ServableMatch(encode, Answer(rs, present)) && (!present ==> rs == [] && p.name != p.zone.name)
    ensures RecordsSettle(OnRecords(w, encode, p, qtype, rs, present), p, qtype, present)
  {
    ServableSoa(p.zone);
    if qtype == TYPE_ANY {
      SetComplete(encode, p.owner, rs, p.rot);
      AnyTurn(encode, p, rs, present);
    } else if p.name == p.zone.name && qtype == TYPE_SOA {
    } else if OfType(rs, qtype) != [] {
      TypeSetComplete(encode, p.owner, rs, qtype, p.rot);
      MatchedTurn(w, encode, p, qtype, OfType(rs, qtype));
    } else if qtype != TYPE_CNAME && OfType(rs, TYPE_CNAME) != [] {
      TypeSetComplete(encode, p.owner, rs, TYPE_CNAME, p.rot);
      CnameTurn(w, encode, p, qtype, OfType(rs, TYPE_CNAME));
    }
  }

  lemma {:induction false} DnameTurnSettles(w: Resolver, encode: Encoder, p: Place, at: Text, d: Row)
    requires Open(p.reply) && ServableRR(encode, d)
    ensures var t := OnDname(w, encode, p, at, d);
            && (t.Stop? ==>
                  && t.reply.aa && t.reply.answers != p.reply.answers && t.reply.authority == []
                  && t.reply.rcode != NXDOMAIN)
            && (t.Hop? ==> Open(t.to.reply) && |t.to.reply.answers| > |p.reply.answers|)
  {
  }

  predicate MatchSettles(t: Turn, p: Place, qtype: u16, absent: bool) {
    && (t.Stop? ==> && (t.reply.rcode == NXDOMAIN <==> absent && MayDeny(qtype, p.reply))
                    && (t.reply.aa && MayDeny(qtype, p.reply) ==> Settled(t.reply, p.reply, p.zone))
                    && (t.reply.aa && !MayDeny(qtype, p.reply) ==>
                          t.reply.authority == [] && (absent ==> t.reply.rcode == 0))
                    && (absent ==> t.reply.aa))
    && (t.Hop? ==> !absent && Open(t.to.reply) && |t.to.reply.answers| > |p.reply.answers|)
  }

  lemma {:induction false} MatchTurn(w: Resolver, encode: Encoder, qtype: u16, p: Place, m: Match)
    requires Open(p.reply) && ServableZone(p.zone) && ServableMatch(encode, m)
    requires m.Answer? && !m.present ==> m.records == [] && p.name != p.zone.name
    ensures MatchSettles(OnMatch(w, encode, qtype, p, m), p, qtype, m.Answer? && !m.present)
  {
    match m
    case Failed =>
    case Cut(_, _) =>
    case Redirect(at, d) => DnameTurnSettles(w, encode, p, at, d);
    case Answer(rs, present) => RecordsTurn(w, encode, qtype, p, rs, present);
  }

  lemma {:induction false} TurnSettles(body: LoopBody, w: Resolver, encode: Encoder, qtype: u16, p: Place)
    requires IsLoopBody(body, w, encode, qtype) && Serving(w, encode) && ServableZone(p.zone) && Open(p.reply)
    ensures MatchSettles(body(p), p, qtype, AbsentAt(w, p))
    ensures body(p).Hop? ==> ServableZone(body(p).to.zone)
  {
    var m := MatchAt(w, qtype, p);
    TurnIs(body, w, encode, qtype, p);
    NotPresentIsAbsent(w, qtype, p);
    MatchIsServable(w, encode, qtype, p);
    MatchTurn(w, encode, qtype, p, m);
    if body(p).Hop? { Aliases.HopFindsItsZone(body, w, encode, qtype, p); }
    assert m.Failed? ==> body(p).Fail?;
  }

  // ---- the whole run -----------------------------------------------------------------

  lemma {:induction false} FinalGathered(body: LoopBody, w: Resolver, encode: Encoder, qtype: u16, p: Place, left: nat)
    requires IsLoopBody(body, w, encode, qtype) && Serving(w, encode) && ServableZone(p.zone) && Open(p.reply)
             && p.reply.answers != []
    ensures Final(body, p, left).reply.answers != []
    decreases left
  {
    TurnSettles(body, w, encode, qtype, p);
    if body(p).Hop? && left > 1 { FinalGathered(body, w, encode, qtype, body(p).to, left - 1); }
  }

  lemma {:induction false} NxdomainAtFinal(body: LoopBody, w: Resolver, encode: Encoder, qtype: u16, p: Place,
                                           left: nat, r: Reply)
    requires IsLoopBody(body, w, encode, qtype) && Serving(w, encode)
    requires ServableZone(p.zone) && Open(p.reply) && left > 0
    requires Loop(body, p, left).0 == Some(r)
    ensures r.rcode == NXDOMAIN <==> AbsentAt(w, Final(body, p, left)) && MayDeny(qtype, Final(body, p, left).reply)
    decreases left
  {
    TurnSettles(body, w, encode, qtype, p);
    if body(p).Hop? && left > 1 { NxdomainAtFinal(body, w, encode, qtype, body(p).to, left - 1, r); }
  }

  /** Whether aliases were followed or not, a reply says NXDOMAIN if and only if the zone it ended
      in has nothing to say about the name it ended at; except that a query for ANY which a DNAME
      redirected never does. */
  lemma {:induction false} NxdomainIff(body: LoopBody, w: Resolver, encode: Encoder, qtype: u16, p: Place, r: Reply)
    requires IsLoopBody(body, w, encode, qtype) && Serving(w, encode) && ServableZone(p.zone) && Open(p.reply)
             && p.reply.answers == []
    requires Loop(body, p, MAX_CHAIN + 1).0 == Some(r)
    ensures r.rcode == NXDOMAIN <==> AbsentAt(w, Final(body, p, MAX_CHAIN + 1)) && (qtype == TYPE_ANY ==> !body(p).Hop?)
  {
    NxdomainAtFinal(body, w, encode, qtype, p, MAX_CHAIN + 1, r);
    if body(p).Hop? {
      TurnSettles(body, w, encode, qtype, p);
      FinalGathered(body, w, encode, qtype, body(p).to, MAX_CHAIN);
    }
  }

  lemma {:induction false} SettledAtFinal(body: LoopBody, w: Resolver, encode: Encoder, qtype: u16, p: Place, left: nat,
                                          r: Reply)
    requires IsLoopBody(body, w, encode, qtype) && Serving(w, encode)
    requires ServableZone(p.zone) && Open(p.reply) && left > 0
    requires Loop(body, p, left).0 == Some(r)
    ensures var f := Final(body, p, left);
            && ServableZone(f.zone) && Open(f.reply) && (AbsentAt(w, f) ==> r.aa)
            && (r.aa && MayDeny(qtype, f.reply) ==> Settled(r, f.reply, f.zone))
            && (r.aa && !MayDeny(qtype, f.reply) ==> r.authority == [] && (AbsentAt(w, f) ==> r.rcode == 0))
    decreases left
  {
    TurnSettles(body, w, encode, qtype, p);
    if body(p).Hop? && left > 1 { SettledAtFinal(body, w, encode, qtype, body(p).to, left - 1, r); }
  }

  /** An authoritative reply has no authority record if its last turn found something, and exactly
      one, the SOA of the zone it ended in with TTL MinTTL, if its last turn found nothing, NXDOMAIN
      or not. The one exception is a query for ANY that a DNAME redirected, whose reply never has
      any and says NOERROR about a missing name. */
  lemma {:induction false} NegativeCarriesSoa(body: LoopBody, w: Resolver, encode: Encoder, qtype: u16, p: Place,
                                              r: Reply)
    requires IsLoopBody(body, w, encode, qtype) && Serving(w, encode) && ServableZone(p.zone) && Open(p.reply)
             && p.reply.answers == []
    requires Loop(body, p, MAX_CHAIN + 1).0 == Some(r)
    ensures var f := Final(body, p, MAX_CHAIN + 1);
            && (AbsentAt(w, f) ==> r.aa)
            && (r.aa ==>
                  if qtype == TYPE_ANY && body(p).Hop? then r.authority == [] && (AbsentAt(w, f) ==> r.rcode == 0)
                  else if r.answers != f.reply.answers then r.authority == [] && r.rcode != NXDOMAIN
                  else && |r.authority| == 1 && SoaRR(f.zone) == Some(r.authority[0])
                       && r.authority[0].name == f.zone.name && r.authority[0].rtype == TYPE_SOA
                       && r.authority[0].ttl == f.zone.minTtl)
  {
    SettledAtFinal(body, w, encode, qtype, p, MAX_CHAIN + 1, r);
    ServableSoa(Final(body, p, MAX_CHAIN + 1).zone);
    if body(p).Hop? {
      TurnSettles(body, w, encode, qtype, p);
      FinalGathered(body, w, encode, qtype, body(p).to, MAX_CHAIN);
    }
  }

  // ---- the exception, at one query ---------------------------------------------------

  const APEX: Text := [122]                          // z
  const REDIRECTED: Text := [100, DOT, 122]          // d.z
  const ASKED: Text := [120, DOT, 100, DOT, 122]     // x.d.z
  const MISSING: Text := [120, DOT, 122]             // x.z

  /** A zone "z" whose only record is a DNAME at "d.z" back to "z". */
  function Example(z: Zone, d: Row): Resolver {
    Resolver(n => if InZone(n, APEX) then Held(z) else Unheld,
             (zone, n) => Some(if n == REDIRECTED then Found([d], false) else Found([], n == APEX)))
  }

  lemma {:induction false} ExampleParents()
    ensures Parent(ASKED) == REDIRECTED && Below(ASKED, REDIRECTED) && DOT in ASKED
    ensures Parent(MISSING) == APEX && Below(MISSING, APEX) && DOT in MISSING
  {
    LabelsStep(ASKED, 1);
    LabelsStep(MISSING, 1);
    assert ASKED[1] == DOT && MISSING[1] == DOT;
    assert ASKED[2..] == REDIRECTED && MISSING[2..] == APEX;
    ParentBelow(ASKED);
    ParentBelow(MISSING);
  }

  lemma {:induction false} ExamplePacks()
    ensures PackName(APEX).Some? && PackName(MISSING).Some? && Canonical(APEX) == APEX
  {
    LabelsOfLabel(APEX);
    assert MISSING == [120] + [DOT] + APEX;
    LabelsConcat([120], APEX);
    LabelsOfLabel([120]);
  }

  lemma {:induction false} ExampleSubstitution()
    ensures Substituted(ASKED, REDIRECTED, APEX) == MISSING
  {
    ExampleParents();
    assert Lower(APEX) == APEX && ASKED[..1] == [120];
    assert MISSING == [120] + [DOT] + APEX;
  }

  lemma {:induction false} ExampleWalk(z: Zone, d: Row, p: Place)
    requires z.name == APEX && d.rtype == TYPE_DNAME && p.zone == z && p.name == ASKED
    ensures MatchAt(Example(z, d), TYPE_ANY, p) == Redirect(REDIRECTED, d)
  {
    ExampleParents();
    var view := Example(z, d).View(APEX);
    assert EncloserOrFail(view, APEX, ASKED) == Some(REDIRECTED);
    assert [d][..0] == [];
    assert OfType([d], TYPE_NS) == [] && OfType([d], TYPE_DNAME) == [d];
  }

  lemma {:induction false} ExampleHops(z: Zone, d: Row, encode: Encoder, rot: u32, p: Place) returns (r: Reply)
    requires z.name == APEX && d.rtype == TYPE_DNAME && encode(TYPE_DNAME, d.rdata) == PackName(APEX)
    requires p == Place(FRESH, rot, z, ASKED, ASKED)
    ensures OnDname(Example(z, d), encode, p, REDIRECTED, d) == Hop(Place(r, rot, z, MISSING, MISSING))
    ensures Open(r) && |r.answers| == 2
  {
    ExamplePacks();
    ExampleSubstitution();
    ExampleParents();
    TargetRoundTrip(TYPE_DNAME, [], APEX);
    assert [] + PackName(APEX).value == PackName(APEX).value;
    var alias := Synthesized(ASKED, d, PackName(MISSING).value);
    r := FRESH.(answers := FRESH.answers + Emit(encode, REDIRECTED, d) + [alias]);
  }

  lemma {:induction false} ExampleMissing(z: Zone, d: Row, p: Place)
    requires z.name == APEX && p.zone == z && p.name == MISSING
    ensures MatchAt(Example(z, d), TYPE_ANY, p) == Answer([], false) && AbsentAt(Example(z, d), p)
  {
    ExampleParents();
    var view := Example(z, d).View(APEX);
    assert EncloserOrFail(view, APEX, MISSING) == Some(APEX);
    NotPresentIsAbsent(Example(z, d), TYPE_ANY, p);
  }

  lemma {:induction false} NothingForAny(encode: Encoder, p: Place)
    requires p.name != p.zone.name && p.reply.answers != []
    ensures OnAny(encode, p, [], false) == Stop(p.reply, p.rot)
  {
    assert Rotated<Row>([], 0) == [];
    assert EmitAll(encode, p.owner, []) == [];
    assert p.reply.answers + [] + [] == p.reply.answers;
  }

  lemma {:induction false} ExampleStops(z: Zone, d: Row, encode: Encoder, q: Place)
    requires z.name == APEX && q.zone == z && q.name == MISSING && Open(q.reply) && |q.reply.answers| == 2
    ensures OneTurn(Example(z, d), encode, TYPE_ANY, q) == Stop(q.reply, q.rot) && AbsentAt(Example(z, d), q)
  {
    ExampleMissing(z, d, q);
    NothingForAny(encode, q);
  }

  lemma {:induction false} ExampleTurns(z: Zone, d: Row, encode: Encoder, rot: u32, p: Place) returns (q: Place)
    requires z.name == APEX && d.rtype == TYPE_DNAME && encode(TYPE_DNAME, d.rdata) == PackName(APEX)
    requires p == Place(FRESH, rot, z, ASKED, ASKED)
    ensures OneTurn(Example(z, d), encode, TYPE_ANY, p) == Hop(q)
    ensures OneTurn(Example(z, d), encode, TYPE_ANY, q) == Stop(q.reply, rot)
    ensures Open(q.reply) && |q.reply.answers| == 2 && AbsentAt(Example(z, d), q)
  {
    ExampleWalk(z, d, p);
    var r := ExampleHops(z, d, encode, rot, p);
    q := Place(r, rot, z, MISSING, MISSING);
    ExampleStops(z, d, encode, q);
  }

  lemma {:induction false} ExampleIsHeld(z: Zone, d: Row)
    ensures Example(z, d).findZone(Lower(TrimDot(ASKED))) == Held(z) && TrimDot(ASKED) == ASKED && Lower(ASKED) == ASKED
  {
    ExampleParents();
    assert TrimDot(ASKED) == ASKED && Lower(ASKED) == ASKED;
    assert ASKED[3..] == [DOT] + APEX;
  }

  /** Asking "x.d.z" for ANY: the DNAME leads to "x.z", which does not exist, and the answer is
      NOERROR with two records and no SOA. */
  lemma {:induction false} RedirectedAnySaysNoerror(z: Zone, d: Row, encode: Encoder, rot: u32)
    requires z.name == APEX && d.rtype == TYPE_DNAME && encode(TYPE_DNAME, d.rdata) == PackName(APEX)
    ensures var r := Answered(Example(z, d), encode, Question(ASKED, TYPE_ANY, CLASS_IN), rot).0;
            r.rcode == 0 && r.aa && r.authority == [] && |r.answers| == 2
  {
    var p := Place(FRESH, rot, z, ASKED, ASKED);
    ExampleIsHeld(z, d);
    var q := ExampleTurns(z, d, encode, rot, p);
    LoopTwice(Turns(Example(z, d), encode, TYPE_ANY), p, q, q.reply, rot, MAX_CHAIN - 1);
  }

  lemma {:induction false} LoopTwice(body: LoopBody, p: Place, q: Place, r: Reply, rot: u32, left: nat)
    requires body(p) == Hop(q) && body(q) == Stop(r, rot)
    ensures Loop(body, p, left + 2) == (Some(r), rot)
  {
    assert Loop(body, q, left + 1) == (Some(r), rot);
  }
}
