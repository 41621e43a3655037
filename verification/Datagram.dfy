/** What a requestor reads out of the datagram it is sent, and when it is sent one at all. */
module Datagram {
  import opened Arithmetic
  import opened Bytes
  import opened Names
  import opened Validation
  import opened Tables
  import opened Transactions
  import opened WireName
  import opened Message
  import opened RoundTrip
  import opened Udp
  import opened RData
  import opened Lookup
  import opened Service
  import opened ZoneView
  import opened Resolution
  import opened Aliases
  import opened Sections
  import opened Completeness
  import opened Nameserver
  import opened Gate
  import C = Cluster
  import I = Invalidation

  // ---- names that cannot be packed ---------------------------------------------------

  /** A name as it is written: the root, if it cannot be packed. */
  function RootedName(n: Text): Text {
    if Packable(n) then n else [DOT]
  }

  function RootedQuestions(qs: seq<Question>): seq<Question> {
    if qs == [] then [] else [qs[0].(name := RootedName(qs[0].name))] + RootedQuestions(qs[1..])
  }

  function RootedRRs(rs: seq<RR>): seq<RR> {
    if rs == [] then [] else [rs[0].(name := RootedName(rs[0].name))] + RootedRRs(rs[1..])
  }

  function Rooted(m: Message): Message {
    m.(questions := RootedQuestions(m.questions), answers := RootedRRs(m.answers),
       authority := RootedRRs(m.authority), additional := RootedRRs(m.additional))
  }

  lemma {:induction false} RootedNameBytes(n: Text)
    ensures NameBytes(RootedName(n)) == NameBytes(n) && Packable(RootedName(n))
  {
    assert TrimDot([DOT]) == [];
  }

  lemma {:induction false} RootedQuestionsBytes(qs: seq<Question>)
    ensures |RootedQuestions(qs)| == |qs| && QuestionsBytes(RootedQuestions(qs)) == QuestionsBytes(qs)
    ensures forall i :: 0 <= i < |qs| ==> Packable(RootedQuestions(qs)[i].name)
  {
    if qs != [] {
      RootedNameBytes(qs[0].name);
      RootedQuestionsBytes(qs[1..]);
      assert RootedQuestions(qs)[1..] == RootedQuestions(qs[1..]);
    }
  }

  lemma {:induction false} RootedAt(rs: seq<RR>)
    ensures |RootedRRs(rs)| == |rs|
    ensures forall i :: 0 <= i < |rs| ==> RootedRRs(rs)[i] == rs[i].(name := RootedName(rs[i].name))
  {
    if rs != [] { RootedAt(rs[1..]); }
  }

  lemma {:induction false} RootedNames(rs: seq<RR>)
    ensures NamesPackable(RootedRRs(rs))
  {
    RootedAt(rs);
    forall i | 0 <= i < |rs|
      ensures Packable(RootedRRs(rs)[i].name)
    {
      RootedNameBytes(rs[i].name);
    }
  }

  lemma {:induction false} RootedBytes(rs: seq<RR>)
    ensures Fits(RootedRRs(rs)) <==> Fits(rs)
    ensures Fits(rs) ==> RRsBytes(RootedRRs(rs)) == RRsBytes(rs)
  {
    RootedAt(rs);
    assert Fits(RootedRRs(rs)) ==> forall i :: 0 <= i < |rs| ==> |RootedRRs(rs)[i].rdata| < 0x1_0000;
    if rs != [] && Fits(rs) {
      RootedNameBytes(rs[0].name);
      RootedBytes(rs[1..]);
      assert RootedRRs(rs)[1..] == RootedRRs(rs[1..]);
    }
  }

  lemma {:induction false} RootedAppend(a: seq<RR>, b: seq<RR>)
    ensures RootedRRs(a + b) == RootedRRs(a) + RootedRRs(b)
  {
    if a == [] {
      assert a + b == b;
    } else {
      assert (a + b)[1..] == a[1..] + b;
      RootedAppend(a[1..], b);
    }
  }

  lemma {:induction false} RootedOpt(m: Message)
    ensures WithOpt(Rooted(m)) == RootedRRs(WithOpt(m))
  {
    var opt := if m.edns then [OptRR(m.ednsSize, m.ednsDo)] else [];
    assert RootedRRs(opt) == opt by {
      assert TrimDot([DOT]) == [];
      if m.edns { assert opt[1..] == []; }
    }
    RootedAppend(m.additional, opt);
  }

  /** Whichever of the two names is in the message, the same octets are written. */
  lemma {:induction false} RootedEncodes(m: Message)
    requires FitsAll(m)
    ensures FitsAll(Rooted(m)) && Encode(Rooted(m)) == Encode(m)
  {
    RootedQuestionsBytes(m.questions);
    RootedBytes(m.answers);
    RootedBytes(m.authority);
    RootedBytes(m.additional);
    RootedOpt(m);
    RootedBytes(WithOpt(m));
    RootedAt(m.answers);
    RootedAt(m.authority);
    RootedAt(WithOpt(m));
    assert PackedHeader(Rooted(m)) == PackedHeader(m);
  }

  lemma {:induction false} SameRRs(rs: seq<RR>)
    requires NamesPackable(rs)
    ensures RootedRRs(rs) == rs
  {
    RootedAt(rs);
  }

  lemma {:induction false} SameQuestions(qs: seq<Question>)
    requires forall i :: 0 <= i < |qs| ==> Packable(qs[i].name)
    ensures RootedQuestions(qs) == qs
  {
    if qs != [] { SameQuestions(qs[1..]); }
  }

  // ---- what fits into a datagram can be read -----------------------------------------

  /** A message that fits into a datagram has few records. */
  lemma {:induction false} FewRecords(m: Message)
    requires FitsAll(m) && Size(m) <= MAX_EDNS
    ensures |m.answers| < 0x1_0000 && |m.authority| < 0x1_0000 && |WithOpt(m)| < 0x1_0000
  {
    SizeIs(m);
    RRsMinimum(m.answers);
    RRsMinimum(m.authority);
    RRsMinimum(WithOpt(m));
  }

  predicate NoOpt(rs: seq<RR>) {
    forall i :: 0 <= i < |rs| ==> rs[i].rtype != OPT
  }

  lemma {:induction false} SentIsShort(m: Message)
    requires FitsAll(m)
    ensures var s := Sent(m);
            FitsAll(s) && |s.answers| < 0x1_0000 && |s.authority| < 0x1_0000 && |WithOpt(s)| < 0x1_0000
  {
    var s := Sent(m);
    if Size(s) <= UdpSize(m) { FewRecords(s); }
  }

  lemma {:induction false} RootedIsSendable(s: Message)
    requires FitsAll(s) && |s.questions| < 0x1_0000 && NoOpt(s.additional)
    requires |s.answers| < 0x1_0000 && |s.authority| < 0x1_0000 && |WithOpt(s)| < 0x1_0000
    ensures Sendable(Rooted(s)) && Encode(Rooted(s)) == Encode(s)
  {
    RootedEncodes(s);
    RootedQuestionsBytes(s.questions);
    RootedNames(s.answers);
    RootedNames(s.authority);
    RootedNames(s.additional);
    RootedAt(s.answers);
    RootedAt(s.authority);
    RootedAt(s.additional);
    RootedOpt(s);
    RootedAt(WithOpt(s));
  }

  /** Whatever its names and counts, a message whose data fits is read from its datagram as it was
      sent, names that cannot be packed being read as the root. */
  lemma {:induction false} DatagramReads(m: Message, buf: Text)
    requires FitsAll(m) && |m.questions| < 0x1_0000 && NoOpt(m.additional) && Encode(Sent(m)) == Some(buf)
    ensures Parse(buf) == Some(Canon(Rooted(Sent(m))))
  {
    SentIsShort(m);
    RootedIsSendable(Sent(m));
    ParseEncode(Rooted(Sent(m)), buf);
  }

  // ---- what a truthful reply is made of ----------------------------------------------

  ghost predicate InDb(db: Db, r: Row) {
    exists id :: id in db.rows && db.rows[id] == r
  }

  ghost predicate RowData(encode: Encoder, db: Db, data: Text) {
    exists id :: id in db.rows && encode(db.rows[id].rtype, db.rows[id].rdata) == Some(data)
  }

  /** The owner can be packed, if the name asked for could, and only a stored row's data can be
      too long. */
  ghost predicate Fine(encode: Encoder, db: Db, named: bool, x: RR) {
    && (named ==> Packable(x.name)) && x.rtype != OPT
    && (|x.rdata| < 0x1_0000 || RowData(encode, db, x.rdata))
  }

  ghost predicate AllFine(encode: Encoder, db: Db, named: bool, xs: seq<RR>) {
    forall x :: x in xs ==> Fine(encode, db, named, x)
  }

  ghost predicate ReplyFine(encode: Encoder, db: Db, named: bool, r: Reply) {
    && AllFine(encode, db, named, r.answers) && AllFine(encode, db, named, r.authority)
    && AllFine(encode, db, named, r.additional)
  }

  lemma {:induction false} ValidIsPackable(n: Text)
    requires ValidName(n)
    ensures Packable(n)
  {
    ValidIsClean(n);
  }

  lemma {:induction false} EmitFine(encode: Encoder, db: Db, named: bool, owner: Text, r: Row)
    requires Servable(encode, db) && InDb(db, r) && (named ==> Packable(owner))
    ensures AllFine(encode, db, named, Emit(encode, owner, r))
  {
    var id :| id in db.rows && db.rows[id] == r;
    assert ServableRow(encode, db.rows[id]);
    assert RowData(encode, db, WireOf(encode, r));
  }

  lemma {:induction false} EmitAllFine(encode: Encoder, db: Db, named: bool, owner: Text, rs: seq<Row>)
    requires Servable(encode, db) && forall r :: r in rs ==> InDb(db, r)
    requires named && rs != [] ==> Packable(owner)
    ensures AllFine(encode, db, named, EmitAll(encode, owner, rs))
  {
    if rs != [] {
      assert forall r :: r in rs[..|rs| - 1] ==> r in rs;
      EmitAllFine(encode, db, named, owner, rs[..|rs| - 1]);
      EmitFine(encode, db, named, owner, rs[|rs| - 1]);
    }
  }

  /** A name that has rows can be packed. */
  lemma {:induction false} RowsPackable(encode: Encoder, db: Db, n: Text, rs: seq<Row>)
    requires Servable(encode, db) && forall r :: r in rs ==> InDb(db, r) && r.name == n
    ensures rs != [] ==> Packable(n)
  {
    if rs != [] {
      assert rs[0] in rs;
      var id :| id in db.rows && db.rows[id] == rs[0];
      assert ServableRow(encode, db.rows[id]);
      ValidIsPackable(n);
    }
  }

  lemma {:induction false} ListedRow(rs: seq<Row>, all: set<Row>, r: Row)
    requires multiset(rs) == multiset(all) && r in rs
    ensures r in all
  {
    assert r in multiset(rs);
  }

  lemma {:induction false} AddressRowsAmong(rs: seq<Row>, r: Row)
    requires r in AddressRows(rs)
    ensures r in rs
  {
    if r !in AddressRows(rs[..|rs| - 1]) {
      assert r == rs[|rs| - 1];
    } else {
      AddressRowsAmong(rs[..|rs| - 1], r);
    }
  }

  lemma {:induction false} AddressesFine(encode: Encoder, db: Db, named: bool, w: Resolver, zone: Text, t: Text)
    requires Servable(encode, db) && Backed(w, db)
    ensures AllFine(encode, db, named, AddressesOf(encode, w.View(zone), t))
  {
    var found := w.lookup(zone, t).value;
    assert w.View(zone)(t) == w.lookup(zone, t);
    assert ShowsAt(found, LookupName(db, zone, t));
    forall r | r in AddressRows(found.records)
      ensures InDb(db, r) && r.name == t
    {
      AddressRowsAmong(found.records, r);
      assert r in RowsAt(db, zone, t);
    }
    RowsPackable(encode, db, t, AddressRows(found.records));
    EmitAllFine(encode, db, named, t, AddressRows(found.records));
  }

  lemma {:induction false} AllAddressesFine(encode: Encoder, db: Db, named: bool, w: Resolver, zone: Text,
                                            ts: seq<Text>)
    requires Servable(encode, db) && Backed(w, db)
    ensures AllFine(encode, db, named, AddressesOfAll(encode, w.View(zone), ts))
  {
    if ts != [] {
      AllAddressesFine(encode, db, named, w, zone, ts[..|ts| - 1]);
      AddressesFine(encode, db, named, w, zone, ts[|ts| - 1]);
    }
  }

  lemma {:induction false} SoaIsShort(primary: Text, admin: Text, ns: seq<u32>)
    requires Packable(primary) && Packable(admin) && |ns| == 5
    ensures |SoaBytes(primary, admin, ns).value| < 0x1_0000
  {
    PackedForm(primary);
    PackedForm(admin);
    NumberAt(ns, 0);
  }

  lemma {:induction false} SoaFine(encode: Encoder, db: Db, named: bool, z: Zone)
    requires ServableZone(z)
    ensures AllFine(encode, db, named, SoaList(z))
  {
    var ns := [Mod32(z.serial), Mod32(z.refresh), Mod32(z.retry), Mod32(z.expire), Mod32(z.minTtl)];
    ValidIsPackable(z.name);
    PackableAnyCase(z.primaryNs);
    PackableAnyCase(AtToDot(z.adminEmail));
    SoaIsShort(z.primaryNs, AtToDot(z.adminEmail), ns);
    assert SoaRR(z).value.rdata == SoaBytes(z.primaryNs, AtToDot(z.adminEmail), ns).value;
    assert Fine(encode, db, named, SoaRR(z).value);
  }

  lemma {:induction false} AliasFine(encode: Encoder, db: Db, named: bool, f: Place, at: Text, d: Row)
    requires named ==> Packable(f.owner)
    ensures AllFine(encode, db, named, AliasDue(encode, f, at, d))
    ensures AliasDue(encode, f, at, d) != [] ==>
              Packable(Substituted(f.name, at, TargetName(TYPE_DNAME, WireOf(encode, d))))
  {
    var next := Substituted(f.name, at, TargetName(TYPE_DNAME, WireOf(encode, d)));
    if Packable(next) { PackedForm(next); }
  }

  lemma {:induction false} TypeFine(encode: Encoder, db: Db, named: bool, owner: Text, rs: seq<Row>, t: u16)
    requires Servable(encode, db) && (forall r :: r in rs ==> InDb(db, r)) && (named ==> Packable(owner))
    ensures AllFine(encode, db, named, EmitAll(encode, owner, OfType(rs, t)))
  {
    forall r | r in OfType(rs, t)
      ensures InDb(db, r)
    {
      OfTypeMember(rs, t, r);
    }
    EmitAllFine(encode, db, named, owner, OfType(rs, t));
  }

  lemma {:induction false} BothFine(encode: Encoder, db: Db, named: bool, a: seq<RR>, b: seq<RR>)
    requires AllFine(encode, db, named, a) && AllFine(encode, db, named, b)
    ensures AllFine(encode, db, named, a + b)
  {
  }

  lemma {:induction false} DueFine(encode: Encoder, db: Db, named: bool, qtype: u16, f: Place, rs: seq<Row>)
    requires Servable(encode, db) && ServableZone(f.zone) && (forall r :: r in rs ==> InDb(db, r))
    requires named ==> Packable(f.owner)
    ensures AllFine(encode, db, named, Due(encode, qtype, f, rs))
  {
    if qtype == TYPE_ANY {
      SoaFine(encode, db, named, f.zone);
      EmitAllFine(encode, db, named, f.owner, rs);
      BothFine(encode, db, named, if AtApex(f) then SoaList(f.zone) else [], EmitAll(encode, f.owner, rs));
    } else if AtApex(f) && qtype == TYPE_SOA {
      SoaFine(encode, db, named, f.zone);
    } else {
      TypeFine(encode, db, named, f.owner, rs, qtype);
      TypeFine(encode, db, named, f.owner, rs, TYPE_CNAME);
    }
  }

  lemma {:induction false} AddsFine(encode: Encoder, db: Db, named: bool, before: seq<RR>, more: seq<RR>,
                                    after: seq<RR>)
    requires AllFine(encode, db, named, before) && AllFine(encode, db, named, more) && Adds(before, more, after)
    ensures AllFine(encode, db, named, after)
  {
    forall x | x in after
      ensures Fine(encode, db, named, x)
    {
      assert x in multiset(after);
    }
  }

  lemma {:induction false} AnswerFine(encode: Encoder, db: Db, named: bool, w: Resolver, qtype: u16, f: Place,
                                      rs: seq<Row>, present: bool, r: Reply)
    requires Servable(encode, db) && ServableZone(f.zone) && Backed(w, db) && ReplyFine(encode, db, named, f.reply)
    requires (named ==> Packable(f.owner)) && AsStored(db, w, f, Answer(rs, present))
    requires Reports(w, encode, qtype, f, Answer(rs, present), r)
    ensures ReplyFine(encode, db, named, r)
  {
    forall x | x in rs
      ensures InDb(db, x)
    {
      ListedRow(rs, RowsAt(db, f.zone.name, Consulted(w, f)), x);
    }
    DueFine(encode, db, named, qtype, f, rs);
    AddsFine(encode, db, named, f.reply.answers, Due(encode, qtype, f, rs), r.answers);
    SoaFine(encode, db, named, f.zone);
    AllAddressesFine(encode, db, named, w, f.zone.name, GlueNames(encode, f.zone.name, OfType(rs, qtype)));
  }

  lemma {:induction false} CutFine(encode: Encoder, db: Db, named: bool, w: Resolver, qtype: u16, f: Place, at: Text,
                                   ns: seq<Row>, r: Reply)
    requires Servable(encode, db) && Backed(w, db) && ReplyFine(encode, db, named, f.reply)
    requires AsStored(db, w, f, Cut(at, ns)) && Reports(w, encode, qtype, f, Cut(at, ns), r)
    ensures ReplyFine(encode, db, named, r)
  {
    forall x | x in ns
      ensures InDb(db, x) && x.name == at
    {
      ListedRow(ns, TypeRowsAt(db, f.zone.name, at, TYPE_NS), x);
    }
    RowsPackable(encode, db, at, ns);
    EmitAllFine(encode, db, named, at, ns);
    AllAddressesFine(encode, db, named, w, f.zone.name, GlueNames(encode, f.zone.name, ns));
  }

  lemma {:induction false} RedirectFine(encode: Encoder, db: Db, named: bool, w: Resolver, qtype: u16, f: Place,
                                        at: Text, d: Row, r: Reply)
    requires Servable(encode, db) && ReplyFine(encode, db, named, f.reply) && (named ==> Packable(f.owner))
    requires AsStored(db, w, f, Redirect(at, d)) && Reports(w, encode, qtype, f, Redirect(at, d), r)
    ensures ReplyFine(encode, db, named, r)
  {
    assert d in RowsAt(db, f.zone.name, at);
    RowsPackable(encode, db, at, [d]);
    EmitFine(encode, db, named, at, d);
    AliasFine(encode, db, named, f, at, d);
  }

  lemma {:induction false} CanonicalPackable(n: Text)
    requires Packable(n)
    ensures Packable(Canonical(n)) && Packable([])
  {
    var t := TrimDot(n);
    if t != [] && t[|t| - 1] == DOT { TrailingDotLabel(t); }
    assert TrimDot([DOT]) == [];
  }

  lemma {:induction false} PackedTarget(n: Text)
    requires Packable(n)
    ensures TargetName(TYPE_CNAME, PackName(n).value) == Canonical(n)
  {
    TargetRoundTrip(TYPE_CNAME, [], n);
    assert [] + PackName(n).value == PackName(n).value;
  }

  lemma {:induction false} NoTargetInNothing()
    ensures TargetName(TYPE_CNAME, []) == []
  {
  }

  lemma {:induction false} TargetPackable(encode: Encoder, c: Row)
    requires NamesPacked(encode) && c.rtype == TYPE_CNAME
    ensures Packable(Lower(TargetName(TYPE_CNAME, WireOf(encode, c))))
  {
    var target := TargetName(TYPE_CNAME, WireOf(encode, c));
    PackableAnyCase(target);
    if encode(TYPE_CNAME, c.rdata).Some? {
      var n :| PackName(n) == encode(TYPE_CNAME, c.rdata);
      PackedTarget(n);
      CanonicalPackable(n);
    } else {
      NoTargetInNothing();
    }
  }

  /** The name an alias leads to can be packed. */
  lemma {:induction false} NextPackable(encode: Encoder, qtype: u16, f: Place, m: Match)
    requires NamesPacked(encode)
    ensures var next := NextName(encode, qtype, f, m); next.Some? ==> Packable(next.value)
  {
    match m
    case Redirect(at, d) => AliasFine(encode, Db(map[], map[], 1), false, f, at, d);
    case Answer(rs, _) =>
      var cs := OfType(rs, TYPE_CNAME);
      if cs != [] {
        OfTypeMember(rs, TYPE_CNAME, cs[0]);
        TargetPackable(encode, cs[0]);
      }
    case _ =>
  }

  lemma {:induction false} PlaceFine(encode: Encoder, db: Db, named: bool, w: Resolver, qtype: u16, vs: seq<Place>,
                                     r: Reply, i: nat)
    requires NamesPacked(encode) && Consistent(db) && Servable(encode, db) && Backed(w, db)
    requires i < |vs| && TrueAt(encode, db, w, qtype, vs, r, i)
    requires ReplyFine(encode, db, named, vs[i].reply) && (named ==> Packable(vs[i].owner))
    ensures ReplyFine(encode, db, named, ReplyAfter(vs, i, r))
    ensures i + 1 < |vs| ==> Packable(vs[i + 1].owner)
  {
    var f := vs[i];
    var m := MatchAt(w, qtype, f);
    DeepestIsLongestMatch(db.zones, NormalizeZone(f.name));
    NextPackable(encode, qtype, f, m);
    match m
    case Cut(at, ns) => CutFine(encode, db, named, w, qtype, f, at, ns, ReplyAfter(vs, i, r));
    case Redirect(at, d) => RedirectFine(encode, db, named, w, qtype, f, at, d, ReplyAfter(vs, i, r));
    case Answer(rs, present) => AnswerFine(encode, db, named, w, qtype, f, rs, present, ReplyAfter(vs, i, r));
  }

  lemma {:induction false} PlaceFineAt(encode: Encoder, db: Db, named: bool, w: Resolver, qtype: u16, vs: seq<Place>,
                                       r: Reply, i: nat)
    requires NamesPacked(encode) && Consistent(db) && Servable(encode, db) && Backed(w, db)
    requires i < |vs| && TrueThroughout(encode, db, w, qtype, vs, r)
    requires ReplyFine(encode, db, named, vs[i].reply) && (named ==> Packable(vs[i].owner))
    ensures ReplyFine(encode, db, named, ReplyAfter(vs, i, r))
    ensures i + 1 < |vs| ==> Packable(vs[i + 1].owner)
  {
    assert TrueAt(encode, db, w, qtype, vs, r, i);
    PlaceFine(encode, db, named, w, qtype, vs, r, i);
  }

  lemma {:induction false} VisitsFine(encode: Encoder, db: Db, named: bool, w: Resolver, qtype: u16, vs: seq<Place>,
                                      r: Reply, i: nat)
    requires NamesPacked(encode) && Consistent(db) && Servable(encode, db) && Backed(w, db)
    requires i < |vs| && TrueThroughout(encode, db, w, qtype, vs, r)
    requires vs[0].reply == FRESH && (named ==> Packable(vs[0].owner))
    ensures ReplyFine(encode, db, named, vs[i].reply) && (named ==> Packable(vs[i].owner))
  {
    if i > 0 {
      VisitsFine(encode, db, named, w, qtype, vs, r, i - 1);
      PlaceFineAt(encode, db, named, w, qtype, vs, r, i - 1);
    }
  }

  lemma {:induction false} TruthIsFine(encode: Encoder, db: Db, named: bool, w: Resolver, qtype: u16, vs: seq<Place>,
                                       r: Reply)
    requires NamesPacked(encode) && Consistent(db) && Servable(encode, db) && Backed(w, db)
    requires Truthful(encode, db, w, qtype, vs, r) && vs[0].reply == FRESH && (named ==> Packable(vs[0].owner))
    ensures ReplyFine(encode, db, named, r)
  {
    TruthThroughout(encode, db, w, qtype, vs, r);
    FineThroughout(encode, db, named, w, qtype, vs, r);
  }

  lemma {:induction false} TruthThroughout(encode: Encoder, db: Db, w: Resolver, qtype: u16, vs: seq<Place>, r: Reply)
    requires Truthful(encode, db, w, qtype, vs, r)
    ensures vs != [] && TrueThroughout(encode, db, w, qtype, vs, r)
  {
  }

  lemma {:induction false} FineThroughout(encode: Encoder, db: Db, named: bool, w: Resolver, qtype: u16, vs: seq<Place>,
                                          r: Reply)
    requires NamesPacked(encode) && Consistent(db) && Servable(encode, db) && Backed(w, db)
    requires vs != [] && TrueThroughout(encode, db, w, qtype, vs, r)
    requires vs[0].reply == FRESH && (named ==> Packable(vs[0].owner))
    ensures ReplyFine(encode, db, named, r)
  {
    VisitsFine(encode, db, named, w, qtype, vs, r, |vs| - 1);
    PlaceFineAt(encode, db, named, w, qtype, vs, r, |vs| - 1);
  }

  // ---- what the requestor reads ------------------------------------------------------

  predicate AllPackable(qs: seq<Question>) {
    forall i :: 0 <= i < |qs| ==> Packable(qs[i].name)
  }

  lemma {:induction false} ParsedCount(buf: Text, off: nat, count: nat)
    requires ParseQuestions(buf, off, count).Some?
    ensures |ParseQuestions(buf, off, count).value.0| == count
    decreases count
  {
    if count > 0 { ParsedCount(buf, ParseQuestion(buf, off).value.1, count - 1); }
  }

  lemma {:induction false} ParsedQuestions(buf: Text, req: Message)
    requires Parse(buf) == Some(req)
    ensures |req.questions| < 0x1_0000
  {
    ParsedCount(buf, 12, ParseHeader(buf).qd);
  }

  /** Setting TC changes no other bit of a response's flags. */
  lemma {:induction false} OnlyTC(f: u16)
    requires f / 0x200 % 2 == 0
    ensures var g := SetTC(f); g % 16 == f % 16 && g / 0x400 == f / 0x400 && g / 0x200 % 2 == 1
  {
    var b := f % 0x400;
    assert f / 0x200 == f / 0x400 * 2 + b / 0x200;
    Quotient(f + 0x200, 0x400, f / 0x400, b + 0x200);
    Quotient(f + 0x200, 16, f / 16 + 0x20, f % 16);
    Quotient(f + 0x200, 0x200, f / 0x200 + 1, f % 0x200);
  }

  predicate TC(x: Message) {
    x.header.flags / 0x200 % 2 == 1
  }

  /** `x` is the reply `r` to `req` as the requestor reads it. Id, rcode and AA are as set; EDNS is on if
      the request had it, with size 1232 and the request's DO bit. TC says
      whether the records were left out; if not, answers and authority are complete and the
      additional records are all there or all left out. */
  ghost predicate Reads(req: Message, r: Reply, x: Message) {
    var f, named := x.header.flags, AllPackable(req.questions);
    && x.header.id == req.header.id && f % 16 == r.rcode && (f / 0x400 % 2 == 1 <==> r.aa) && f / 0x8000 == 1
    && x.edns == req.edns && (x.edns ==> x.ednsSize == 1232 && x.ednsDo == req.ednsDo)
    && (named ==> x.questions == CanonQuestions(req.questions))
    && (TC(x) ==> x.answers == [] && x.authority == [] && x.additional == [])
    && (!TC(x) && named ==> && x.answers == CanonRRs(r.answers) && x.authority == CanonRRs(r.authority)
                            && (x.additional == CanonRRs(r.additional) || x.additional == []))
  }

  lemma {:induction false} FlagsRead(req: Message, r: Reply, x: Message)
    requires var f := Respond(req, r).header.flags; x.header.flags == f || x.header.flags == SetTC(f)
    ensures var f := x.header.flags; f % 16 == r.rcode && (f / 0x400 % 2 == 1 <==> r.aa) && f / 0x8000 == 1
    ensures TC(x) <==> x.header.flags != Respond(req, r).header.flags
  {
    var f := Respond(req, r).header.flags;
    ResponseHeader(req, r);
    OnlyTC(f);
    assert f / 0x400 / 0x20 == f / 0x8000 && SetTC(f) / 0x400 / 0x20 == SetTC(f) / 0x8000;
  }

  /** The three ways a response is sent. */
  lemma {:induction false} SentWays(req: Message, r: Reply)
    requires FitsAll(Respond(req, r))
    ensures var m := Respond(req, r); var s := Sent(m);
            && s.header.id == req.header.id && s.questions == req.questions && s.edns == req.edns
            && (s.edns ==> s.ednsSize == 1232 && s.ednsDo == req.ednsDo)
            && (s.header.flags == m.header.flags || s.header.flags == SetTC(m.header.flags))
            && (s.header.flags == m.header.flags ==>
                  && s.answers == r.answers && s.authority == r.authority
                  && (s.additional == r.additional || s.additional == []))
            && (s.header.flags != m.header.flags ==> s.answers == [] && s.authority == [] && s.additional == [])
  {
    ResponseHeader(req, r);
    OnlyTC(Respond(req, r).header.flags);
  }

  lemma {:induction false} AllFineMeans(encode: Encoder, db: Db, named: bool, xs: seq<RR>)
    requires AllFine(encode, db, named, xs)
    ensures NoOpt(xs) && (named ==> NamesPackable(xs))
    ensures DataFits(encode, db) ==> Fits(xs)
  {
    forall i | 0 <= i < |xs|
      ensures xs[i].rtype != OPT && (named ==> Packable(xs[i].name))
      ensures DataFits(encode, db) ==> |xs[i].rdata| < 0x1_0000
    {
      assert Fine(encode, db, named, xs[i]);
    }
  }

  /** No stored row's data is longer than a record can carry. */
  ghost predicate DataFits(encode: Encoder, db: Db) {
    forall id :: id in db.rows && encode(db.rows[id].rtype, db.rows[id].rdata).Some? ==>
      |encode(db.rows[id].rtype, db.rows[id].rdata).value| < 0x1_0000
  }

  lemma {:induction false} RecordsRead(req: Message, r: Reply, s: Message)
    requires s.questions == req.questions
    requires AllPackable(req.questions)
    requires NamesPackable(s.answers) && NamesPackable(s.authority) && NamesPackable(s.additional)
    ensures var x := Canon(Rooted(s));
            && x.questions == CanonQuestions(req.questions) && x.answers == CanonRRs(s.answers)
            && x.authority == CanonRRs(s.authority) && x.additional == CanonRRs(s.additional)
  {
    SameQuestions(s.questions);
    SameRRs(s.answers);
    SameRRs(s.authority);
    SameRRs(s.additional);
  }

  /** The reply reaches the requestor: if no stored data is too long for a record there is a
      datagram, and if there is one the requestor reads the reply from it. */
  ghost predicate Arrives(encode: Encoder, db: Db, req: Message, r: Reply) {
    var m := Respond(req, r);
    && (DataFits(encode, db) ==> FitsAll(m))
    && (FitsAll(m) ==> Encode(Sent(m)).Some? && var x := Parse(Encode(Sent(m)).value);
                       x.Some? && Reads(req, r, x.value))
  }

  lemma {:induction false} FineReads(encode: Encoder, db: Db, req: Message, r: Reply)
    requires |req.questions| < 0x1_0000 && NoOpt(r.additional) && FitsAll(Respond(req, r))
    requires AllPackable(req.questions) ==>
               NamesPackable(r.answers) && NamesPackable(r.authority) && NamesPackable(r.additional)
    ensures var m := Respond(req, r);
            && Encode(Sent(m)).Some? && Parse(Encode(Sent(m)).value).Some?
            && Reads(req, r, Parse(Encode(Sent(m)).value).value)
  {
    var m := Respond(req, r);
    var s := Sent(m);
    SentIsShort(m);
    DatagramReads(m, Encode(s).value);
    SentWays(req, r);
    FlagsRead(req, r, Canon(Rooted(s)));
    if AllPackable(req.questions) { RecordsRead(req, r, s); }
  }

  /** What reaches the requestor of a reply made of fine records. */
  lemma {:induction false} ReplyArrives(encode: Encoder, db: Db, req: Message, r: Reply)
    requires |req.questions| < 0x1_0000 && ReplyFine(encode, db, AllPackable(req.questions), r)
    ensures Arrives(encode, db, req, r)
  {
    var named := AllPackable(req.questions);
    AllFineMeans(encode, db, named, r.answers);
    AllFineMeans(encode, db, named, r.authority);
    AllFineMeans(encode, db, named, r.additional);
    if FitsAll(Respond(req, r)) { FineReads(encode, db, req, r); }
  }

  lemma {:induction false} AnsweredFine(encode: Encoder, db: Db, w: Resolver, q: Question, rot: u32)
    requires NamesPacked(encode) && Consistent(db) && Servable(encode, db) && Backed(w, db)
    ensures ReplyFine(encode, db, Packable(q.name), Answered(w, encode, q, rot).0)
  {
    var name := Lower(TrimDot(q.name));
    if w.findZone(name).Held? {
      var zone := w.findZone(name).zone;
      AnswersAreTrue(encode, db, w, q, rot, zone);
      SeveralPlaces(Turns(w, encode, q.qtype), StartOf(zone, q, rot), MAX_CHAIN + 1);
      if Packable(q.name) { CanonicalPackable(q.name); }
      TruthIsFine(encode, db, Packable(q.name), w, q.qtype, Passed(w, encode, q, rot, zone),
        Answered(w, encode, q, rot).0);
    }
  }

  lemma {:induction false} HandledFine(encode: Encoder, db: Db, w: Resolver, req: Message, rot: u32)
    requires NamesPacked(encode) && Consistent(db) && Servable(encode, db) && Backed(w, db)
    ensures ReplyFine(encode, db, AllPackable(req.questions), Handled(w, encode, req, rot).0)
  {
    if TurnedAway(req).None? { AnsweredFine(encode, db, w, req.questions[0], rot); }
  }

  /** What is sent over a consistent database, for any request that parses: the handler's reply
      arrives, and it is the proper one. */
  lemma {:induction false} RequestorReads(encode: Encoder, db: Db, w: Resolver, query: Text, req: Message, rot: u32)
    requires NamesPacked(encode) && Consistent(db) && Servable(encode, db) && Backed(w, db)
    requires Parse(query) == Some(req)
    ensures var r := Handled(w, encode, req, rot).0;
            Proper(encode, db, w, req, rot, r) && Arrives(encode, db, req, r)
  {
    ParsedQuestions(query, req);
    HandledFine(encode, db, w, req, rot);
    ReplyArrives(encode, db, req, Handled(w, encode, req, rot).0);
    RepliesAreProper(encode, db, w, req, rot);
  }

  /** Each name the request leads to lies in the zone found for it, and no entry of those zones is
      astray. */
  ghost predicate Untroubling(encode: Encoder, db: Db, w: Resolver, req: Message, rot: u32, lost: set<I.Key>) {
    Refusal(req).None? ==>
      var q := req.questions[0];
      match FindZone(db.zones, Lower(TrimDot(q.name)))
      case None => true
      case Some(zone) =>
        forall v :: v in Passed(w, encode, q, rot, zone) ==>
          InZone(v.name, v.zone.name) && Untroubled(lost, v.zone.name)
  }

  /** Out of the caches: the reply is the same as without the reads that do not matter. */
  lemma {:induction false} HandledIsPatched(encode: Encoder, db: Db, w: Resolver, req: Message, rot: u32,
                                            lost: set<I.Key>)
    requires Backed(Patched(w, db, lost), db) && Untroubling(encode, db, w, req, rot, lost)
    ensures Handled(Patched(w, db, lost), encode, req, rot) == Handled(w, encode, req, rot)
  {
    TurnedAwayIs(req);
    if Refusal(req).None? {
      var q := req.questions[0];
      var name := Lower(TrimDot(q.name));
      assert w.findZone(name) == Patched(w, db, lost).findZone(name);
      if FindZone(db.zones, name).Some? {
        CachedIsPatched(encode, db, w, lost, q, rot, FindZone(db.zones, name).value);
      }
    }
  }

  lemma {:induction false} CachedIsProper(encode: Encoder, db: Db, w: Resolver, req: Message, rot: u32,
                                          lost: set<I.Key>)
    requires NamesPacked(encode) && Consistent(db) && Servable(encode, db)
    requires Backed(Patched(w, db, lost), db) && Untroubling(encode, db, w, req, rot, lost)
    ensures Proper(encode, db, w, req, rot, Handled(w, encode, req, rot).0)
  {
    var v := Patched(w, db, lost);
    HandledIsPatched(encode, db, w, req, rot, lost);
    RepliesAreProper(encode, db, v, req, rot);
    if Refusal(req).None? {
      var q := req.questions[0];
      var name := Lower(TrimDot(q.name));
      assert w.findZone(name) == v.findZone(name);
      TurnedAwayIs(req);
      if FindZone(db.zones, name).Some? {
        CachedAnswerIsTrue(encode, db, w, v, lost, q, rot, FindZone(db.zones, name).value);
      }
    }
  }

  /** The same out of the caches of an instance in a cluster: in every run, an instance with nothing
      outstanding sends what the requestor reads as the proper reply about the database as it is
      now. */
  lemma {:induction false} ClusterRequestorReads(encode: Encoder, h: C.Hashes, run: seq<C.State>, steps: seq<C.Step>,
                                                 t: nat, i: nat, w: Resolver, query: Text, req: Message, rot: u32)
    requires C.IsRun(encode, h, run, steps) && t < |run| && i in run[t].nodes && C.Quiet(run[t], i)
    requires NamesPacked(encode) && ReadsThrough(w, run[t].nodes[i].inst.cache, run[t].db) && Parse(query) == Some(req)
    requires Untroubling(encode, run[t].db, w, req, rot, C.StraysOf(encode, run, steps, t, i, true))
    ensures var r := Handled(w, encode, req, rot).0;
            Proper(encode, run[t].db, w, req, rot, r) && Arrives(encode, run[t].db, req, r)
  {
    var db, lost := run[t].db, C.StraysOf(encode, run, steps, t, i, true);
    QuietIsBacked(encode, h, run, steps, t, i, w);
    CachedIsProper(encode, db, w, req, rot, lost);
    HandledIsPatched(encode, db, w, req, rot, lost);
    HandledFine(encode, db, Patched(w, db, lost), req, rot);
    ParsedQuestions(query, req);
    ReplyArrives(encode, db, req, Handled(w, encode, req, rot).0);
  }

  // ---- the two exceptions ------------------------------------------------------------

  lemma {:induction false} NameReadsBackIff(n: Text)
    ensures Canonical(RootedName(n)) == Canonical(n) <==> Packable(n) || n == [DOT, DOT]
  {
    assert TrimDot([DOT]) == [] && TrimDot([DOT, DOT]) == [DOT];
    if !Packable(n) && TrimDot(n) == [DOT] {
      assert n == TrimDot(n) || n == TrimDot(n) + [DOT];
    }
    DotsUnpackable();
  }

  lemma {:induction false} DotsUnpackable()
    ensures !Packable([DOT, DOT])
  {
    assert TrimDot([DOT, DOT]) == [DOT];
    TrailingDotLabel([DOT]);
  }

  lemma {:induction false} QuestionsReadBackIff(qs: seq<Question>)
    ensures CanonQuestions(RootedQuestions(qs)) == CanonQuestions(qs) <==>
            forall i :: 0 <= i < |qs| ==> Packable(qs[i].name) || qs[i].name == [DOT, DOT]
  {
    if qs != [] {
      var rooted := RootedQuestions(qs);
      NameReadsBackIff(qs[0].name);
      QuestionsReadBackIff(qs[1..]);
      assert rooted[1..] == RootedQuestions(qs[1..]);
      assert CanonQuestions(rooted)[1..] == CanonQuestions(RootedQuestions(qs[1..]));
      assert CanonQuestions(qs)[1..] == CanonQuestions(qs[1..]);
      assert CanonQuestions(rooted)[0] == CanonQuestion(rooted[0]) && CanonQuestions(qs)[0] == CanonQuestion(qs[0]);
      assert (forall i :: 0 <= i < |qs| ==> Packable(qs[i].name) || qs[i].name == [DOT, DOT]) <==>
             (Packable(qs[0].name) || qs[0].name == [DOT, DOT]) &&
             (forall i :: 0 <= i < |qs[1..]| ==> Packable(qs[1..][i].name) || qs[1..][i].name == [DOT, DOT]);
    }
  }

  lemma {:induction false} SentQuestions(m: Message)
    requires FitsAll(m)
    ensures Canon(Rooted(Sent(m))).questions == CanonQuestions(RootedQuestions(m.questions))
  {
    assert Sent(m).questions == m.questions;
  }

  /** The question comes back as it was asked if and only if its name, which may hold dots inside
      its labels, can be packed; ".." reads as the root, as which it is written. */
  lemma {:induction false} QuestionEchoedIff(m: Message, buf: Text)
    requires FitsAll(m) && |m.questions| < 0x1_0000 && NoOpt(m.additional) && Encode(Sent(m)) == Some(buf)
    ensures Parse(buf).Some?
    ensures Parse(buf).value.questions == CanonQuestions(m.questions) <==>
            forall i :: 0 <= i < |m.questions| ==> Packable(m.questions[i].name) || m.questions[i].name == [DOT, DOT]
  {
    DatagramReads(m, buf);
    SentQuestions(m);
    QuestionsReadBackIff(m.questions);
  }

  /** `n` times the letter "a". */
  function LongText(n: nat): Text {
    seq(n, i => 97)
  }

  /** The data of a TXT record of `n` octets fits into a record exactly up to 65279 of them. */
  lemma {:induction false} LongTextFitsIff(n: nat)
    requires n > 0
    ensures TxtFromText(LongText(n)).Some? && TrimSpace(LongText(n)) == LongText(n)
    ensures |TxtFromText(LongText(n)).value| < 0x1_0000 <==> n <= 65279
  {
    var text := LongText(n);
    TrimSpaceFixed(text);
    PartSize(text);
    var one: seq<Text> := [text];
    assert one[1..] == [];
    assert PartsBytes(one) == PartBytes(text);
    assert text[0] == 97;
    Quotient(n + 254, 255, (n + 254) / 255, (n + 254) % 255);
  }

  /** The zone "z" with one TXT record at its apex, as two calls make it. */
  function LongDb(encode: Encoder, n: nat, created: int, added: int): Db {
    Run(encode, [(CreateZoneReq(ZoneSpec(ZED, [], [], 0, 0, 0, 0)), created),
                 (CreateRecordReq(ZED, ZED, TYPE_TXT, 0, LongText(n), 0), added)])
  }

  lemma {:induction false} RunOne(encode: Encoder, reqs: seq<(Request, int)>, req: Request, now: int)
    ensures Run(encode, reqs + [(req, now)]) == Serve(encode, Run(encode, reqs), req, now).db
  {
    var all := reqs + [(req, now)];
    assert all[..|all| - 1] == reqs;
  }

  lemma {:induction false} ZoneZed(encode: Encoder, created: int) returns (z: Zone)
    ensures Run(encode, [(CreateZoneReq(ZoneSpec(ZED, [], [], 0, 0, 0, 0)), created)]) == Db(map[ZED := z], map[], 1)
  {
    var make := CreateZoneReq(ZoneSpec(ZED, [], [], 0, 0, 0, 0));
    ZedIsValid();
    ZedHasSoa();
    RunOne(encode, [], make, created);
    assert [] + [(make, created)] == [(make, created)];
    z := Serve(encode, Db(map[], map[], 1), make, created).db.zones[ZED];
  }

  lemma {:induction false} LongDbIs(encode: Encoder, n: nat, created: int, added: int)
    requires n > 0 && encode(TYPE_TXT, LongText(n)) == TxtFromText(LongText(n))
    ensures var db := LongDb(encode, n, created, added);
            && db.rows == map[1 := Row(1, ZED, ZED, ReverseName(ZED), TYPE_TXT, DEFAULT_TTL, LongText(n))]
            && db.zones.Keys == {ZED}
  {
    var make := CreateZoneReq(ZoneSpec(ZED, [], [], 0, 0, 0, 0));
    var add := CreateRecordReq(ZED, ZED, TYPE_TXT, 0, LongText(n), 0);
    var z := ZoneZed(encode, created);
    ZedIsValid();
    LongTextFitsIff(n);
    RunOne(encode, [(make, created)], add, added);
    assert [(make, created)] + [(add, added)] == [(make, created), (add, added)];
    I.FirstRecord(encode, ZED, z, TYPE_TXT, LongText(n), added);
    ZonesKept(encode, Db(map[ZED := z], map[], 1), add, added);
  }

  lemma {:induction false} ZonesKept(encode: Encoder, db: Db, req: Request, now: int)
    requires req.CreateRecordReq?
    ensures Serve(encode, db, req, now).db.zones.Keys == db.zones.Keys
  {
  }

  /** Records of the type asked for end the walk, and are all in the reply. */
  lemma {:induction false} RowReported(encode: Encoder, db: Db, w: Resolver, vs: seq<Place>, r: Reply, rs: seq<Row>,
                                       present: bool, row: Row)
    requires vs != [] && TrueAt(encode, db, w, TYPE_TXT, vs, r, 0) && MatchAt(w, TYPE_TXT, vs[0]) == Answer(rs, present)
    requires row in rs && row.rtype == TYPE_TXT && encode(TYPE_TXT, row.rdata).Some?
    ensures exists x :: x in r.answers && Some(x.rdata) == encode(TYPE_TXT, row.rdata)
  {
    var f, after := vs[0], ReplyAfter(vs, 0, r);
    assert Adds(f.reply.answers, Due(encode, TYPE_TXT, f, rs), after.answers);
    RowEmitted(encode, TYPE_TXT, f, rs, row, after.answers);
    assert NextName(encode, TYPE_TXT, f, Answer(rs, present)) == None;
  }

  lemma {:induction false} ApexStored(db: Db, w: Resolver, f: Place, m: Match, row: Row)
    requires m.Answer? && AsStored(db, w, f, m) && row in RowsAt(db, f.zone.name, Consulted(w, f))
    ensures row in m.records
  {
    assert row in multiset(m.records);
  }

  /** A TXT row at the apex is in the reply to a question for it. */
  lemma {:induction false} ApexRowServed(encode: Encoder, db: Db, w: Resolver, vs: seq<Place>, r: Reply, row: Row)
    requires Backed(w, db) && vs != [] && TrueAt(encode, db, w, TYPE_TXT, vs, r, 0) && vs[0].name == vs[0].zone.name
    requires row in RowsAt(db, vs[0].zone.name, vs[0].name)
    requires row.rtype == TYPE_TXT && encode(TYPE_TXT, row.rdata).Some?
    ensures exists x :: x in r.answers && Some(x.rdata) == encode(TYPE_TXT, row.rdata)
  {
    var m := MatchAt(w, TYPE_TXT, vs[0]);
    ApexAnswers(w, db, TYPE_TXT, vs[0]);
    ApexStored(db, w, vs[0], m, row);
    RowReported(encode, db, w, vs, r, m.records, m.present, row);
  }

  lemma {:induction false} ApexAnswers(w: Resolver, db: Db, qtype: u16, f: Place)
    requires Backed(w, db) && f.name == f.zone.name
    ensures MatchAt(w, qtype, f).Answer? && Consulted(w, f) == f.name
  {
    BackedMatch(w, qtype, f, db);
    assert w.View(f.zone.name)(f.name) == w.lookup(f.zone.name, f.name);
  }

  lemma {:induction false} RowEmitted(encode: Encoder, qtype: u16, f: Place, rs: seq<Row>, row: Row, after: seq<RR>)
    requires qtype == TYPE_TXT && row in rs && row.rtype == TYPE_TXT && encode(TYPE_TXT, row.rdata).Some?
    requires Adds(f.reply.answers, Due(encode, qtype, f, rs), after)
    ensures OfType(rs, qtype) != []
    ensures exists x :: x in after && Some(x.rdata) == encode(TYPE_TXT, row.rdata)
  {
    OfTypeMember(rs, qtype, row);
    var x := RR(f.owner, TYPE_TXT, CLASS_IN, Mod32(row.ttl), WireOf(encode, row));
    EmitAllHas(encode, f.owner, OfType(rs, qtype), row, x);
    assert x in multiset(after);
  }

  lemma {:induction false} EmitAllHas(encode: Encoder, owner: Text, rs: seq<Row>, row: Row, x: RR)
    requires row in rs && Emit(encode, owner, row) == [x]
    ensures x in EmitAll(encode, owner, rs)
  {
    if row != rs[|rs| - 1] { EmitAllHas(encode, owner, rs[..|rs| - 1], row, x); }
  }

  lemma {:induction false} LongAnswer(encode: Encoder, db: Db, w: Resolver, q: Question, rot: u32, zone: Zone, row: Row)
    requires NamesPacked(encode) && Consistent(db) && Servable(encode, db) && Backed(w, db)
    requires w.findZone(Lower(TrimDot(q.name))) == Held(zone) && Lower(TrimDot(q.name)) == zone.name
    requires q.qtype == TYPE_TXT && row in RowsAt(db, zone.name, zone.name) && row.rtype == TYPE_TXT
    requires encode(TYPE_TXT, row.rdata).Some? && |encode(TYPE_TXT, row.rdata).value| >= 0x1_0000
    ensures !Fits(Answered(w, encode, q, rot).0.answers)
  {
    var vs, r := Passed(w, encode, q, rot, zone), Answered(w, encode, q, rot).0;
    AnswersAreTrue(encode, db, w, q, rot, zone);
    SeveralPlaces(Turns(w, encode, q.qtype), StartOf(zone, q, rot), MAX_CHAIN + 1);
    assert TrueAt(encode, db, w, TYPE_TXT, vs, r, 0);
    ApexRowServed(encode, db, w, vs, r, row);
    TooLong(r.answers, encode(TYPE_TXT, row.rdata).value);
  }

  lemma {:induction false} TooLong(xs: seq<RR>, data: Text)
    requires |data| >= 0x1_0000 && exists x :: x in xs && x.rdata == data
    ensures !Fits(xs)
  {
    var x :| x in xs && x.rdata == data;
    var i :| 0 <= i < |xs| && xs[i] == x;
  }

  lemma {:induction false} LongDbSound(encode: Encoder, n: nat, created: int, added: int)
    ensures Consistent(LongDb(encode, n, created, added)) && Servable(encode, LongDb(encode, n, created, added))
  {
    RunSound(encode, [(CreateZoneReq(ZoneSpec(ZED, [], [], 0, 0, 0, 0)), created),
                      (CreateRecordReq(ZED, ZED, TYPE_TXT, 0, LongText(n), 0), added)]);
  }

  lemma {:induction false} LongDataFits(encode: Encoder, n: nat, created: int, added: int)
    requires 0 < n <= 65279 && encode(TYPE_TXT, LongText(n)) == TxtFromText(LongText(n))
    ensures DataFits(encode, LongDb(encode, n, created, added))
  {
    LongDbIs(encode, n, created, added);
    LongTextFitsIff(n);
  }

  lemma {:induction false} LongTextUnsent(encode: Encoder, n: nat, created: int, added: int, w: Resolver, q: Question,
                                          rot: u32)
    requires NamesPacked(encode) && n > 65279 && encode(TYPE_TXT, LongText(n)) == TxtFromText(LongText(n))
    requires Backed(w, LongDb(encode, n, created, added)) && q.name == ZED && q.qtype == TYPE_TXT
    ensures !Fits(Answered(w, encode, q, rot).0.answers)
  {
    var db := LongDb(encode, n, created, added);
    LongDbIs(encode, n, created, added);
    LongDbSound(encode, n, created, added);
    LongTextFitsIff(n);
    ZedIsValid();
    assert ZED in db.zones.Keys && Lower(TrimDot(ZED)) == ZED;
    assert FindZone(db.zones, ZED) == Some(db.zones[ZED]);
    var row := db.rows[1];
    assert row in RowsAt(db, ZED, ZED);
    LongAnswer(encode, db, w, q, rot, db.zones[ZED], row);
  }

  /** The service accepts TXT data of any length. Once a text of `n` octets is stored, the question
      for it is answered with a datagram if and only if `n` is at most 65279; else nothing is sent. */
  lemma {:induction false} LongTextSentIff(encode: Encoder, n: nat, created: int, added: int, w: Resolver, query: Text,
                                           req: Message, rot: u32)
    requires NamesPacked(encode) && n > 0 && encode(TYPE_TXT, LongText(n)) == TxtFromText(LongText(n))
    requires Backed(w, LongDb(encode, n, created, added)) && Parse(query) == Some(req) && Refusal(req).None?
    requires req.questions[0].name == ZED && req.questions[0].qtype == TYPE_TXT
    ensures Encode(Respond(req, Handled(w, encode, req, rot).0)).Some? <==> n <= 65279
  {
    TurnedAwayIs(req);
    if n <= 65279 {
      LongDbSound(encode, n, created, added);
      LongDataFits(encode, n, created, added);
      RequestorReads(encode, LongDb(encode, n, created, added), w, query, req, rot);
    } else {
      LongTextUnsent(encode, n, created, added, w, req.questions[0], rot);
    }
  }
}
