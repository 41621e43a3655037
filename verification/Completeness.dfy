/** What a reply says is all there is to say: the records it ends with are the whole of what the
    walk found. */
module Completeness {
  import opened Bytes
  import opened Tables
  import opened Message
  import opened WireName
  import opened RData
  import opened Lookup
  import opened Service
  import opened Resolution
  import opened Sections
  import opened Negatives

  /** A turn ends the loop with this reply, stopping or out of turns. */
  predicate Ends(t: Turn, r: Reply) {
    (t.Stop? && t.reply == r) || (t.Hop? && t.to.reply == r)
  }

  /** The records `more`, and no others, were added. */
  ghost predicate Adds(before: seq<RR>, more: seq<RR>, after: seq<RR>) {
    before <= after && multiset(after) == multiset(before) + multiset(more)
  }

  /** What the last turn must add when it has the records `rs` of a name to choose from. */
  function Due(encode: Encoder, qtype: u16, f: Place, rs: seq<Row>): seq<RR> {
    if qtype == TYPE_ANY then (if f.name == f.zone.name then SoaList(f.zone) else []) + EmitAll(encode, f.owner, rs)
    else if f.name == f.zone.name && qtype == TYPE_SOA then SoaList(f.zone)
    else if OfType(rs, qtype) != [] then EmitAll(encode, f.owner, OfType(rs, qtype))
    else if qtype != TYPE_CNAME then EmitAll(encode, f.owner, OfType(rs, TYPE_CNAME))
    else []
  }

  /** The alias that goes with a DNAME, if the new name is neither too long nor unpackable. */
  function AliasDue(encode: Encoder, f: Place, at: Text, d: Row): seq<RR> {
    var target := TargetName(TYPE_DNAME, WireOf(encode, d));
    var next := Substituted(f.name, at, target);
    if target != [] && |next| <= 253 && PackName(next).Some?
    then [Synthesized(f.owner, d, PackName(next).value)]
    else []
  }

  /** A DNAME that makes the name too long. */
  predicate Overlong(encode: Encoder, f: Place, at: Text, d: Row) {
    var target := TargetName(TYPE_DNAME, WireOf(encode, d));
    target != [] && |Substituted(f.name, at, target)| > 253
  }

  predicate AtApex(f: Place) {
    f.name == f.zone.name
  }

  /** The records answer the question with an alias. */
  predicate ByAlias(qtype: u16, f: Place, rs: seq<Row>) {
    && qtype != TYPE_ANY && qtype != TYPE_CNAME && !(AtApex(f) && qtype == TYPE_SOA)
    && OfType(rs, qtype) == [] && OfType(rs, TYPE_CNAME) != []
  }

  /** The records leave nothing to answer with. */
  predicate Denies(encode: Encoder, qtype: u16, f: Place, rs: seq<Row>) {
    if qtype == TYPE_ANY then f.reply.answers == [] && Due(encode, qtype, f, rs) == []
    else !(AtApex(f) && qtype == TYPE_SOA) && OfType(rs, qtype) == [] && !ByAlias(qtype, f, rs)
  }

  /** The addresses that go with the answers. */
  function Extras(w: Resolver, encode: Encoder, qtype: u16, f: Place, rs: seq<Row>): seq<RR> {
    if qtype in {TYPE_MX, TYPE_NS, TYPE_SRV} && OfType(rs, qtype) != []
    then Glue(encode, w.View(f.zone.name), f.zone.name, OfType(rs, qtype))
    else []
  }

  /** What a reply with the given answers has around them. */
  function Around(w: Resolver, encode: Encoder, qtype: u16, f: Place, rs: seq<Row>, present: bool,
                  answers: seq<RR>): Reply
  {
    var denied := Denies(encode, qtype, f, rs);
    f.reply.(answers := answers, additional := f.reply.additional + Extras(w, encode, qtype, f, rs),
             authority := f.reply.authority + (if denied then SoaList(f.zone) else []),
             rcode := if denied && !(present || AtApex(f)) then NXDOMAIN else f.reply.rcode)
  }

  /** The reply after the match is the reply before it with all of what was found and nothing else,
      in every section: the whole set asked for, or its alias, or the SOA and the proper rcode if
      there is neither; the DNAME with its alias; or the name servers of the cut with their
      addresses and no claim of authority. */
  ghost predicate Reports(w: Resolver, encode: Encoder, qtype: u16, f: Place, m: Match, r: Reply) {
    match m
    case Failed => false
    case Cut(at, ns) =>
      r == f.reply.(aa := false, authority := f.reply.authority + EmitAll(encode, at, ns),
                    additional := f.reply.additional + Glue(encode, w.View(f.zone.name), f.zone.name, ns))
    case Redirect(at, d) =>
      r == f.reply.(answers := f.reply.answers + Emit(encode, at, d) + AliasDue(encode, f, at, d),
                    rcode := if Overlong(encode, f, at, d) then SERVFAIL else f.reply.rcode)
    case Answer(rs, present) =>
      && Adds(f.reply.answers, Due(encode, qtype, f, rs), r.answers)
      && r == Around(w, encode, qtype, f, rs, present, r.answers)
  }

  /** The name to go on with, where the match is an alias. */
  function NextName(encode: Encoder, qtype: u16, f: Place, m: Match): Option<Text> {
    match m
    case Redirect(at, d) =>
      if AliasDue(encode, f, at, d) == [] then None
      else Some(Substituted(f.name, at, TargetName(TYPE_DNAME, WireOf(encode, d))))
    case Answer(rs, _) =>
      if !ByAlias(qtype, f, rs) then None
      else
        var target := Lower(TargetName(TYPE_CNAME, WireOf(encode, OfType(rs, TYPE_CNAME)[0])));
        if target == [] then None else Some(target)
    case _ => None
  }

  lemma {:induction false} WholeSetAdded(encode: Encoder, p: Place, rs: seq<Row>, before: seq<RR>, after: seq<RR>)
    requires after == before + SetOf(encode, p.owner, rs, p.rot)
    ensures Adds(before, EmitAll(encode, p.owner, rs), after)
  {
    SetIsWhole(encode, p.owner, rs, p.rot);
  }

  lemma {:induction false} AnyAdds(encode: Encoder, p: Place, rs: seq<Row>, after: seq<RR>)
    requires after == p.reply.answers + (if AtApex(p) then SoaList(p.zone) else []) + SetOf(encode, p.owner, rs, p.rot)
    ensures Adds(p.reply.answers, Due(encode, TYPE_ANY, p, rs), after)
    ensures after == [] <==> p.reply.answers == [] && Due(encode, TYPE_ANY, p, rs) == []
  {
    var soa := if AtApex(p) then SoaList(p.zone) else [];
    WholeSetAdded(encode, p, rs, p.reply.answers + soa, after);
    AddsAssoc(p.reply.answers, soa, EmitAll(encode, p.owner, rs), after);
    AddsSize(p.reply.answers, Due(encode, TYPE_ANY, p, rs), after);
  }

  lemma {:induction false} AddsAssoc(before: seq<RR>, a: seq<RR>, b: seq<RR>, after: seq<RR>)
    requires Adds(before + a, b, after)
    ensures Adds(before, a + b, after)
  {
    assert before + a <= after;
  }

  lemma {:induction false} AnyAround(w: Resolver, encode: Encoder, p: Place, rs: seq<Row>, present: bool,
                                     after: seq<RR>)
    requires after == [] <==> p.reply.answers == [] && Due(encode, TYPE_ANY, p, rs) == []
    ensures var reply := p.reply.(answers := after);
            Around(w, encode, TYPE_ANY, p, rs, present, after) ==
            if after == [] then Negative(reply, p.zone, present || AtApex(p)) else reply
  {
    assert Extras(w, encode, TYPE_ANY, p, rs) == [];
    assert p.reply.additional + [] == p.reply.additional && p.reply.authority + [] == p.reply.authority;
  }

  lemma {:induction false} AnyReports(w: Resolver, encode: Encoder, p: Place, rs: seq<Row>, present: bool, r: Reply)
    requires Ends(OnAny(encode, p, rs, present), r)
    ensures Reports(w, encode, TYPE_ANY, p, Answer(rs, present), r)
  {
    var soa := if AtApex(p) then SoaList(p.zone) else [];
    var after := p.reply.answers + soa + SetOf(encode, p.owner, rs, p.rot);
    AnyAdds(encode, p, rs, after);
    AnyAround(w, encode, p, rs, present, after);
    assert r.answers == after;
  }

  lemma {:induction false} MatchedReports(w: Resolver, encode: Encoder, qtype: u16, p: Place, rs: seq<Row>,
                                          present: bool, r: Reply)
    requires qtype != TYPE_ANY && !(AtApex(p) && qtype == TYPE_SOA) && OfType(rs, qtype) != []
    requires Ends(OnMatched(w, encode, p, qtype, OfType(rs, qtype)), r)
    ensures Reports(w, encode, qtype, p, Answer(rs, present), r)
  {
    WholeSetAdded(encode, p, OfType(rs, qtype), p.reply.answers, r.answers);
    assert !Denies(encode, qtype, p, rs) && Due(encode, qtype, p, rs) == EmitAll(encode, p.owner, OfType(rs, qtype));
    assert p.reply.authority + [] == p.reply.authority;
    assert r == Around(w, encode, qtype, p, rs, present, r.answers);
  }

  lemma {:induction false} CnameReports(w: Resolver, encode: Encoder, qtype: u16, p: Place, rs: seq<Row>, present: bool,
                                        r: Reply)
    requires ByAlias(qtype, p, rs) && Ends(OnCname(w, encode, p, OfType(rs, TYPE_CNAME)), r)
    ensures Reports(w, encode, qtype, p, Answer(rs, present), r)
  {
    var cs := OfType(rs, TYPE_CNAME);
    var next := Lower(TargetName(TYPE_CNAME, WireOf(encode, cs[0])));
    OnwardEnds(w, p.reply.(answers := p.reply.answers + SetOf(encode, p.owner, cs, p.rot)), Ticked(|cs|, p.rot), next,
      r);
    WholeSetAdded(encode, p, cs, p.reply.answers, r.answers);
  }

  lemma {:induction false} OnwardEnds(w: Resolver, reply: Reply, rot: u32, next: Text, r: Reply)
    ensures Ends(Onward(w, reply, rot, next), r) ==> r == reply
  {
  }

  lemma {:induction false} AddsNone(before: seq<RR>)
    ensures Adds(before, [], before)
  {
  }

  lemma {:induction false} AddsSize(before: seq<RR>, more: seq<RR>, after: seq<RR>)
    requires Adds(before, more, after)
    ensures |after| == |before| + |more|
  {
    assert |multiset(after)| == |after| && |multiset(before)| == |before| && |multiset(more)| == |more|;
  }

  lemma {:induction false} NothingReports(w: Resolver, encode: Encoder, qtype: u16, p: Place, rs: seq<Row>,
                                          present: bool)
    requires qtype != TYPE_ANY && Denies(encode, qtype, p, rs) && (rs != [] ==> present)
    ensures Reports(w, encode, qtype, p, Answer(rs, present), Negative(p.reply, p.zone, present || AtApex(p)))
  {
    AddsNone(p.reply.answers);
  }

  lemma {:induction false} SoaReports(w: Resolver, encode: Encoder, p: Place, rs: seq<Row>, present: bool)
    requires AtApex(p)
    ensures Reports(w, encode, TYPE_SOA, p, Answer(rs, present),
                    p.reply.(answers := p.reply.answers + SoaList(p.zone)))
  {
  }

  lemma {:induction false} RecordsReport(w: Resolver, encode: Encoder, qtype: u16, p: Place, rs: seq<Row>,
                                         present: bool, r: Reply)
    requires Ends(OnRecords(w, encode, p, qtype, rs, present), r) && (rs != [] ==> present)
    ensures Reports(w, encode, qtype, p, Answer(rs, present), r)
  {
    if qtype == TYPE_ANY {
      AnyReports(w, encode, p, rs, present, r);
    } else if AtApex(p) && qtype == TYPE_SOA {
      SoaReports(w, encode, p, rs, present);
    } else if OfType(rs, qtype) != [] {
      MatchedReports(w, encode, qtype, p, rs, present, r);
    } else if ByAlias(qtype, p, rs) {
      CnameReports(w, encode, qtype, p, rs, present, r);
    } else {
      NothingReports(w, encode, qtype, p, rs, present);
    }
  }

  lemma {:induction false} DnameReports(w: Resolver, encode: Encoder, p: Place, at: Text, d: Row, r: Reply)
    requires Ends(OnDname(w, encode, p, at, d), r)
    ensures Reports(w, encode, 0, p, Redirect(at, d), r)
  {
    var next := Substituted(p.name, at, TargetName(TYPE_DNAME, WireOf(encode, d)));
    var reply := p.reply.(answers := p.reply.answers + Emit(encode, at, d) + AliasDue(encode, p, at, d));
    OnwardEnds(w, reply, p.rot, next, r);
  }

  /** The records a walk finds are at a name that is present. */
  lemma {:induction false} FoundIsPresent(w: Resolver, qtype: u16, p: Place)
    ensures var m := MatchAt(w, qtype, p); m.Answer? && m.records != [] ==> m.present
  {
    NotPresentIsAbsent(w, qtype, p);
  }

  lemma {:induction false} MatchReports(w: Resolver, encode: Encoder, qtype: u16, p: Place, m: Match, r: Reply)
    requires Ends(OnMatch(w, encode, qtype, p, m), r) && (m.Answer? && m.records != [] ==> m.present)
    ensures Reports(w, encode, qtype, p, m, r)
  {
    match m
    case Failed =>
    case Cut(_, _) =>
    case Redirect(at, d) => DnameReports(w, encode, p, at, d, r);
    case Answer(rs, present) => RecordsReport(w, encode, qtype, p, rs, present, r);
  }

  /** A turn hops exactly to the next name, in the zone found for it; it stops at an alias only
      where no zone is found. */
  predicate Follows(w: Resolver, next: Option<Text>, t: Turn) {
    && (t.Hop? ==> next == Some(t.to.name) && t.to.owner == t.to.name && w.findZone(t.to.name) == Held(t.to.zone))
    && (t.Stop? && next.Some? ==> w.findZone(next.value).Unheld?)
  }

  lemma {:induction false} CnameFollows(w: Resolver, encode: Encoder, p: Place, qtype: u16, rs: seq<Row>, present: bool)
    requires ByAlias(qtype, p, rs)
    ensures Follows(w, NextName(encode, qtype, p, Answer(rs, present)), OnCname(w, encode, p, OfType(rs, TYPE_CNAME)))
  {
  }

  lemma {:induction false} DnameFollows(w: Resolver, encode: Encoder, qtype: u16, p: Place, at: Text, d: Row)
    ensures Follows(w, NextName(encode, qtype, p, Redirect(at, d)), OnDname(w, encode, p, at, d))
  {
  }

  lemma {:induction false} MatchFollows(w: Resolver, encode: Encoder, qtype: u16, p: Place, m: Match)
    ensures Follows(w, NextName(encode, qtype, p, m), OnMatch(w, encode, qtype, p, m))
  {
    match m
    case Failed =>
    case Cut(_, _) =>
    case Redirect(at, d) => DnameFollows(w, encode, qtype, p, at, d);
    case Answer(rs, present) => if ByAlias(qtype, p, rs) { CnameFollows(w, encode, p, qtype, rs, present); }
  }

  /** The reply the loop goes on with, or ends with, after its `i`th place. */
  function ReplyAfter(vs: seq<Place>, i: nat, r: Reply): Reply {
    if i + 1 < |vs| then vs[i + 1].reply else r
  }

  /** From each place the loop hops to the next, and after the last it ends. */
  lemma {:induction false} VisitLeads(body: LoopBody, p: Place, left: nat, r: Reply, i: nat)
    requires Loop(body, p, left).0 == Some(r) && i < |Visits(body, p, left)|
    ensures var vs := Visits(body, p, left);
            && Ends(body(vs[i]), ReplyAfter(vs, i, r))
            && (i + 1 < |vs| ==> body(vs[i]) == Hop(vs[i + 1]))
            && (i + 1 == |vs| && body(vs[i]).Hop? ==> |vs| == left)
    decreases left
  {
    if i > 0 {
      VisitLeads(body, body(p).to, left - 1, r, i - 1);
      assert Visits(body, p, left)[1..] == Visits(body, body(p).to, left - 1);
    }
  }

  /** At its `i`th place the loop reports what the walk found there, and follows it if it is an
      alias: to the next place, or to no zone, or out of turns. */
  ghost predicate ReportsAt(w: Resolver, encode: Encoder, qtype: u16, vs: seq<Place>, left: nat, r: Reply, i: nat)
    requires i < |vs|
  {
    var m := MatchAt(w, qtype, vs[i]);
    var next := NextName(encode, qtype, vs[i], m);
    && Reports(w, encode, qtype, vs[i], m, ReplyAfter(vs, i, r))
    && if i + 1 < |vs| then next == Some(vs[i + 1].name) && vs[i + 1].owner == vs[i + 1].name
       else |vs| < left && next.Some? ==> w.findZone(next.value).Unheld?
  }

  /** A reply reports everything found on the way, place by place, and every alias is followed. */
  lemma {:induction false} ReplyReports(body: LoopBody, w: Resolver, encode: Encoder, qtype: u16, p: Place,
                                        left: nat, r: Reply, i: nat)
    requires IsLoopBody(body, w, encode, qtype) && Loop(body, p, left).0 == Some(r) && i < |Visits(body, p, left)|
    ensures ReportsAt(w, encode, qtype, Visits(body, p, left), left, r, i)
  {
    var vs := Visits(body, p, left);
    var m := MatchAt(w, qtype, vs[i]);
    VisitLeads(body, p, left, r, i);
    TurnIs(body, w, encode, qtype, vs[i]);
    FoundIsPresent(w, qtype, vs[i]);
    MatchReports(w, encode, qtype, vs[i], m, ReplyAfter(vs, i, r));
    MatchFollows(w, encode, qtype, vs[i], m);
  }

  /** The name whose records the walk settles on when it finds neither cut nor DNAME: the name
      itself if it exists, and otherwise the wildcard below its closest encloser. */
  function Consulted(w: Resolver, f: Place): Text {
    if NodesAt(w, f)(f.name).Exists() || f.name == f.zone.name then f.name
    else Wildcard(Encloser(NodesAt(w, f), f.zone.name, f.name))
  }

  /** Where the records of a match come from. */
  lemma {:induction false} MatchedAt(w: Resolver, qtype: u16, f: Place)
    ensures var m, node := MatchAt(w, qtype, f), NodesAt(w, f);
            && (m.Answer? ==> m.records == node(Consulted(w, f)).records)
            && (m.Cut? ==> m.ns == OfType(node(m.at).records, TYPE_NS))
            && (m.Redirect? ==> OfType(node(m.owner).records, TYPE_DNAME) != []
                                && m.dname == OfType(node(m.owner).records, TYPE_DNAME)[0])
  {
    WalkIsBottomUp(w.View(f.zone.name), f.zone.name, f.name, qtype);
  }

  /** An authoritative reply that its last turn added nothing to, ANY apart, means that the name
      consulted has no record of the type asked for and no alias. */
  lemma {:induction false} SilenceMeansNothing(w: Resolver, encode: Encoder, qtype: u16, f: Place, m: Match,
                                               r: Reply)
    requires Reports(w, encode, qtype, f, m, r) && ServableMatch(encode, m) && |SoaList(f.zone)| == 1
    requires r.aa && qtype != TYPE_ANY && r.answers == f.reply.answers
    ensures m.Answer? && OfType(m.records, qtype) == [] && OfType(m.records, TYPE_CNAME) == []
            && !(f.name == f.zone.name && qtype == TYPE_SOA)
  {
    match m
    case Answer(rs, _) =>
      AddsSize(f.reply.answers, Due(encode, qtype, f, rs), r.answers);
      OfTypeEmits(encode, f.owner, rs, qtype);
      OfTypeEmits(encode, f.owner, rs, TYPE_CNAME);
    case _ =>
  }

  lemma {:induction false} OfTypeEmits(encode: Encoder, owner: Text, rs: seq<Row>, t: u16)
    requires forall r :: r in rs ==> ServableRR(encode, r)
    ensures |EmitAll(encode, owner, OfType(rs, t))| == |OfType(rs, t)|
  {
    forall r | r in OfType(rs, t)
      ensures ServableRR(encode, r)
    {
      OfTypeMember(rs, t, r);
    }
    EmitAllComplete(encode, owner, OfType(rs, t));
  }
}
