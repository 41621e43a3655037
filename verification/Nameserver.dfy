/** The handler over a database the service wrote: what a requestor may conclude. */
module Nameserver {
  import opened Arithmetic
  import opened Bytes
  import opened Names
  import opened Validation
  import opened Tables
  import opened Transactions
  import opened Message
  import opened Lookup
  import opened Service
  import opened ZoneView
  import opened Resolution
  import opened Aliases
  import opened Negatives
  import opened Sources
  import opened Frame
  import opened Completeness
  import I = Invalidation
  import C = Cluster

  lemma {:induction false} FlagBits(f: int, op: int, aa: int, rd: int, rc: int)
    requires 0 <= op < 16 && 0 <= aa <= 1 && 0 <= rd <= 1 && 0 <= rc < 16
    requires f == 0x8000 + 0x800 * op + 0x400 * aa + 0x100 * rd + rc
    ensures f % 16 == rc && f / 0x400 % 2 == aa && f / 0x200 % 2 == 0 && f / 0x8000 == 1
    ensures f / 0x800 % 16 == op && f / 0x100 % 2 == rd
  {
    Quotient(f, 16, 0x800 + 0x80 * op + 0x40 * aa + 0x10 * rd, rc);
    Quotient(f, 0x100, 0x80 + 8 * op + 4 * aa + rd, rc);
    Quotient(f, 0x200, 0x40 + 4 * op + 2 * aa, 0x100 * rd + rc);
    Quotient(f, 0x400, 0x20 + 2 * op + aa, 0x100 * rd + rc);
    Quotient(f, 0x800, 0x10 + op, 0x400 * aa + 0x100 * rd + rc);
    Quotient(f, 0x8000, 1, 0x800 * op + 0x400 * aa + 0x100 * rd + rc);
  }

  /** The header fields of a response read back as they were set, and nothing sets TC. */
  lemma {:induction false} ResponseHeader(req: Message, r: Reply)
    ensures var f, q := Respond(req, r).header.flags, req.header.flags;
            && f % 16 == r.rcode && (f / 0x400 % 2 == 1 <==> r.aa) && f / 0x200 % 2 == 0 && f / 0x8000 == 1
            && f / 0x800 % 16 == q / 0x800 % 16 && f / 0x100 % 2 == q / 0x100 % 2
    ensures Respond(req, r).header.id == req.header.id && Respond(req, r).questions == req.questions
  {
    FlagBits(Respond(req, r).header.flags, req.header.flags / 0x800 % 16, if r.aa then 1 else 0,
      req.header.flags / 0x100 % 2, r.rcode);
  }

  /** The resolver reads one state of the database. */
  ghost predicate Backed(w: Resolver, db: Db) {
    && (forall n :: w.findZone(n) == if FindZone(db.zones, n).Some? then Held(FindZone(db.zones, n).value) else Unheld)
    && (forall z, n :: w.lookup(z, n).Some? && ShowsAt(w.lookup(z, n).value, LookupName(db, z, n)))
  }

  lemma {:induction false} BackedShows(w: Resolver, db: Db, p: Place)
    requires Backed(w, db)
    ensures Shows(NodesAt(w, p), db, p.zone.name)
  {
  }

  lemma {:induction false} BackedServes(w: Resolver, encode: Encoder, db: Db)
    requires Backed(w, db) && Servable(encode, db) && Consistent(db)
    ensures Serving(w, encode)
  {
    forall z, n, r | r in w.lookup(z, n).value.records
      ensures ServableRR(encode, r)
    {
      assert ShowsAt(w.lookup(z, n).value, LookupName(db, z, n));
      assert r in RowsAt(db, z, n);
      var id :| id in db.rows && db.rows[id] == r;
      assert ServableRow(encode, db.rows[id]);
    }
    forall n | w.findZone(n).Held?
      ensures ServableZone(w.findZone(n).zone)
    {
      DeepestIsLongestMatch(db.zones, NormalizeZone(n));
    }
  }

  lemma {:induction false} BackedHonest(w: Resolver, encode: Encoder, db: Db)
    requires Backed(w, db) && Servable(encode, db) && Consistent(db)
    ensures Honest(w, db)
  {
    forall z, n, r | r in w.lookup(z, n).value.records
      ensures Stored(db, r) && r.zone == z && r.name == n
    {
      assert ShowsAt(w.lookup(z, n).value, LookupName(db, z, n));
      assert r in RowsAt(db, z, n);
      var id :| id in db.rows && db.rows[id] == r;
      assert ServableRow(encode, db.rows[id]);
    }
    forall n | w.findZone(n).Held?
      ensures ZoneFits(db, w.findZone(n).zone, n)
    {
      DeepestIsLongestMatch(db.zones, NormalizeZone(n));
    }
  }

  lemma {:induction false} BackedLone(w: Resolver, db: Db)
    requires Backed(w, db) && CnameAlone(db.rows)
    ensures LoneCnames(w)
  {
    forall z, n
      ensures |OfType(w.lookup(z, n).value.records, TYPE_CNAME)| <= 1
    {
      var node: Nodes := m => w.lookup(z, m).value;
      assert Shows(node, db, z);
      ShownCnameAlone(node, db, z, n);
      OfTypeShrinks(node(n).records, TYPE_CNAME);
    }
  }

  lemma {:induction false} OfTypeShrinks(rs: seq<Row>, t: u16)
    ensures |OfType(rs, t)| <= |rs|
  {
    if rs != [] { OfTypeShrinks(rs[..|rs| - 1], t); }
  }

  /** Nothing in the zone is stored at or below an absent name. */
  lemma {:induction false} AbsentIsUnoccupied(w: Resolver, db: Db, p: Place)
    requires Backed(w, db) && Consistent(db) && AbsentAt(w, p)
    ensures forall id :: id in db.rows && db.rows[id].zone == p.zone.name ==> !InZone(db.rows[id].name, p.name)
  {
    BackedShows(w, db, p);
    ExistsIffOccupied(NodesAt(w, p), db, p.zone.name, p.name);
  }

  // ---- no failures -------------------------------------------------------------------

  lemma {:induction false} BackedMatch(w: Resolver, qtype: u16, p: Place, db: Db)
    requires Backed(w, db)
    ensures !MatchAt(w, qtype, p).Failed?
  {
    forall n
      ensures w.View(p.zone.name)(n).Some?
    {
      assert w.View(p.zone.name)(n) == w.lookup(p.zone.name, n);
    }
    WalkIsBottomUp(w.View(p.zone.name), p.zone.name, p.name, qtype);
  }

  /** A turn fails only by a failed lookup or a zone without an SOA. */
  lemma {:induction false} MatchOnlyFails(w: Resolver, encode: Encoder, qtype: u16, p: Place, m: Match)
    requires !m.Failed? && SoaRR(p.zone).Some? && forall n :: !w.findZone(n).Unavailable?
    ensures !OnMatch(w, encode, qtype, p, m).Fail?
  {
    match m
    case Cut(_, _) =>
    case Redirect(at, d) => DnameNeverFails(w, encode, p, at, d);
    case Answer(rs, present) => RecordsNeverFail(w, encode, p, qtype, rs, present);
  }

  lemma {:induction false} DnameNeverFails(w: Resolver, encode: Encoder, p: Place, at: Text, d: Row)
    requires forall n :: !w.findZone(n).Unavailable?
    ensures !OnDname(w, encode, p, at, d).Fail?
  {
  }

  lemma {:induction false} RecordsNeverFail(w: Resolver, encode: Encoder, p: Place, qtype: u16, rs: seq<Row>,
                                            present: bool)
    requires SoaRR(p.zone).Some? && forall n :: !w.findZone(n).Unavailable?
    ensures !OnRecords(w, encode, p, qtype, rs, present).Fail?
  {
  }

  lemma {:induction false} BackedTurn(body: LoopBody, w: Resolver, encode: Encoder, qtype: u16, p: Place, db: Db)
    requires IsLoopBody(body, w, encode, qtype) && Backed(w, db) && Serving(w, encode) && ServableZone(p.zone)
    ensures !body(p).Fail? && (body(p).Hop? ==> ServableZone(body(p).to.zone))
  {
    if body(p).Hop? { HopFindsItsZone(body, w, encode, qtype, p); }
    TurnIs(body, w, encode, qtype, p);
    ServableSoa(p.zone);
    BackedMatch(w, qtype, p, db);
    MatchOnlyFails(w, encode, qtype, p, MatchAt(w, qtype, p));
  }

  lemma {:induction false} NeverFails(body: LoopBody, ok: Place -> bool, p: Place, left: nat)
    requires ok(p) && forall q :: ok(q) ==> !body(q).Fail? && (body(q).Hop? ==> ok(body(q).to))
    ensures Loop(body, p, left).0.Some?
    decreases left
  {
    if left > 0 && body(p).Hop? { NeverFails(body, ok, body(p).to, left - 1); }
  }

  lemma {:induction false} BackedLoop(body: LoopBody, w: Resolver, encode: Encoder, qtype: u16, p: Place, left: nat,
                                      db: Db)
    requires IsLoopBody(body, w, encode, qtype) && Backed(w, db) && Serving(w, encode) && ServableZone(p.zone)
    ensures Loop(body, p, left).0.Some?
  {
    forall q: Place | ServableZone(q.zone)
      ensures !body(q).Fail? && (body(q).Hop? ==> ServableZone(body(q).to.zone))
    {
      BackedTurn(body, w, encode, qtype, q, db);
    }
    NeverFails(body, (q: Place) => ServableZone(q.zone), p, left);
  }

  // ---- the match, as stored ----------------------------------------------------------

  lemma {:induction false} CountOne<T>(s: seq<T>, x: T)
    requires forall i, j :: 0 <= i < j < |s| ==> s[i] != s[j]
    ensures multiset(s)[x] == if x in s then 1 else 0
  {
    if s != [] {
      var init, last := s[..|s| - 1], s[|s| - 1];
      assert s == init + [last];
      CountOne(init, x);
      assert forall i :: 0 <= i < |init| ==> init[i] != last;
    }
  }

  /** A list without repetition of the members of a set. */
  lemma {:induction false} ListsSet<T>(s: seq<T>, all: set<T>)
    requires (forall i, j :: 0 <= i < j < |s| ==> s[i] != s[j]) && forall x :: x in s <==> x in all
    ensures multiset(s) == multiset(all)
  {
    forall x
      ensures multiset(s)[x] == multiset(all)[x]
    {
      CountOne(s, x);
    }
  }

  lemma {:induction false} OfTypeDistinct(rs: seq<Row>, t: u16)
    requires forall i, j :: 0 <= i < j < |rs| ==> rs[i] != rs[j]
    ensures var s := OfType(rs, t); forall i, j :: 0 <= i < j < |s| ==> s[i] != s[j]
  {
    if rs != [] {
      var init, last := rs[..|rs| - 1], rs[|rs| - 1];
      OfTypeDistinct(init, t);
      OfTypeMember(init, t, last);
      assert last !in init;
    }
  }

  function TypeRowsAt(db: Db, zone: Text, n: Text, t: u16): set<Row> {
    set r | r in RowsAt(db, zone, n) && r.rtype == t
  }

  lemma {:induction false} TypeListed(db: Db, zone: Text, n: Text, t: u16, f: Found)
    requires ShowsAt(f, LookupName(db, zone, n))
    ensures multiset(OfType(f.records, t)) == multiset(TypeRowsAt(db, zone, n, t))
  {
    OfTypeDistinct(f.records, t);
    forall r
      ensures r in OfType(f.records, t) <==> r in TypeRowsAt(db, zone, n, t)
    {
      OfTypeMember(f.records, t, r);
    }
    ListsSet(OfType(f.records, t), TypeRowsAt(db, zone, n, t));
  }

  /** The match is what the database holds: all rows of the name consulted; all name servers at a
      cut at or above the name; a DNAME above the name. */
  ghost predicate AsStored(db: Db, w: Resolver, f: Place, m: Match) {
    match m
    case Failed => false
    case Cut(at, ns) =>
      InZone(f.name, at) && at != f.zone.name && multiset(ns) == multiset(TypeRowsAt(db, f.zone.name, at, TYPE_NS))
    case Redirect(at, d) => Below(f.name, at) && at != f.zone.name && d in TypeRowsAt(db, f.zone.name, at, TYPE_DNAME)
    case Answer(rs, _) => multiset(rs) == multiset(RowsAt(db, f.zone.name, Consulted(w, f)))
  }

  lemma {:induction false} MatchPlaces(w: Resolver, qtype: u16, f: Place)
    ensures var m := MatchAt(w, qtype, f);
            && (m.Cut? ==> InZone(f.name, m.at) && m.at != f.zone.name)
            && (m.Redirect? ==> Below(f.name, m.owner) && m.owner != f.zone.name)
  {
    var view := w.View(f.zone.name);
    WalkIsBottomUp(view, f.zone.name, f.name, qtype);
    EncloserIsAbove(Nominal(view), f.zone.name, f.name);
    NsExists(Nominal(view), f.name);
  }

  lemma {:induction false} MatchIsAsStored(db: Db, w: Resolver, qtype: u16, f: Place)
    requires Backed(w, db)
    ensures AsStored(db, w, f, MatchAt(w, qtype, f))
  {
    var m, node := MatchAt(w, qtype, f), NodesAt(w, f);
    BackedMatch(w, qtype, f, db);
    BackedShows(w, db, f);
    MatchedAt(w, qtype, f);
    MatchPlaces(w, qtype, f);
    match m
    case Cut(at, _) =>
      assert ShowsAt(node(at), LookupName(db, f.zone.name, at));
      TypeListed(db, f.zone.name, at, TYPE_NS, node(at));
    case Redirect(at, d) =>
      assert ShowsAt(node(at), LookupName(db, f.zone.name, at));
      OfTypeMember(node(at).records, TYPE_DNAME, d);
    case Answer(rs, _) =>
      var n := Consulted(w, f);
      assert ShowsAt(node(n), LookupName(db, f.zone.name, n));
      ListsSet(rs, RowsAt(db, f.zone.name, n));
  }

  /** The database has no row of the type asked for and no alias, either at the name or at the name
      consulted in its place. */
  ghost predicate NothingThere(db: Db, w: Resolver, qtype: u16, f: Place) {
    forall id :: id in db.rows && db.rows[id].zone == f.zone.name
                 && (db.rows[id].name == f.name || db.rows[id].name == Consulted(w, f)) ==>
      db.rows[id].rtype != qtype && db.rows[id].rtype != TYPE_CNAME
  }

  lemma {:induction false} SilenceIsTrue(encode: Encoder, db: Db, w: Resolver, qtype: u16, f: Place, r: Reply)
    requires Backed(w, db) && Consistent(db) && Serving(w, encode) && ServableZone(f.zone)
    requires Reports(w, encode, qtype, f, MatchAt(w, qtype, f), r)
    requires r.aa && qtype != TYPE_ANY && r.answers == f.reply.answers
    ensures NothingThere(db, w, qtype, f)
  {
    var m, node, zone := MatchAt(w, qtype, f), NodesAt(w, f), f.zone.name;
    ServableSoa(f.zone);
    MatchIsServable(w, encode, qtype, f);
    SilenceMeansNothing(w, encode, qtype, f, m, r);
    MatchedAt(w, qtype, f);
    BackedShows(w, db, f);
    ExistsIffOccupied(node, db, zone, f.name);
    var n := Consulted(w, f);
    assert ShowsAt(node(n), LookupName(db, zone, n));
    forall id | id in db.rows && db.rows[id].zone == zone && (db.rows[id].name == f.name || db.rows[id].name == n)
      ensures db.rows[id].rtype != qtype && db.rows[id].rtype != TYPE_CNAME
    {
      var row := db.rows[id];
      assert row.name == n;
      assert row in RowsAt(db, zone, n);
      OfTypeMember(node(n).records, qtype, row);
      OfTypeMember(node(n).records, TYPE_CNAME, row);
    }
  }

  // ---- the whole server --------------------------------------------------------------

  /** What is said of the `i`th place on the way is true: the zone is the one `FindZone` gives for
      the name, the match is what the database holds, and the reply is carried on with all of it
      and nothing else. An alias leads to the next place; it is left alone only if no zone holds
      its target or nine turns are over. */
  ghost predicate TrueAt(encode: Encoder, db: Db, w: Resolver, qtype: u16, vs: seq<Place>, r: Reply, i: nat)
    requires i < |vs|
  {
    var m := MatchAt(w, qtype, vs[i]);
    var next := NextName(encode, qtype, vs[i], m);
    && FindZone(db.zones, vs[i].name) == Some(vs[i].zone) && Open(vs[i].reply)
    && AsStored(db, w, vs[i], m) && Reports(w, encode, qtype, vs[i], m, ReplyAfter(vs, i, r))
    && if i + 1 < |vs| then next == Some(vs[i + 1].name) && vs[i + 1].owner == vs[i + 1].name
       else |vs| <= 8 && next.Some? ==> FindZone(db.zones, next.value) == None
  }

  ghost predicate TrueThroughout(encode: Encoder, db: Db, w: Resolver, qtype: u16, vs: seq<Place>, r: Reply) {
    forall i :: 0 <= i < |vs| ==> TrueAt(encode, db, w, qtype, vs, r, i)
  }

  /** The rcode of a reply that ended at `f`, after hops or not. */
  function RcodeOf(w: Resolver, encode: Encoder, qtype: u16, f: Place, hops: bool): Rcode {
    var m := MatchAt(w, qtype, f);
    if AbsentAt(w, f) && !(qtype == TYPE_ANY && hops) then 3
    else if m.Redirect? && Overlong(encode, f, m.owner, m.dname) then 2
    else 0
  }

  /** What the reply concludes is true. It disclaims authority exactly at a cut. Otherwise it carries
      the SOA if its last turn found nothing, which is so only if nothing of the kind is stored, and
      no authority records if it found something. Its rcode is NXDOMAIN if the zone has nothing for
      the name, and then the database has no row at or below it; SERVFAIL if a DNAME makes the name
      too long; and else NOERROR. ANY is the exception: after a hop it is never negative. */
  ghost predicate Concludes(encode: Encoder, db: Db, w: Resolver, qtype: u16, f: Place, hops: bool, r: Reply) {
    && r.rcode == RcodeOf(w, encode, qtype, f, hops)
    && (r.aa <==> !MatchAt(w, qtype, f).Cut?)
    && (r.aa ==> r.authority == if r.answers == f.reply.answers && !(qtype == TYPE_ANY && hops)
                                then SoaList(f.zone) else [])
    && SoaRR(f.zone).Some?
    && (r.rcode == NXDOMAIN ==>
          forall id :: id in db.rows && db.rows[id].zone == f.zone.name ==> !InZone(db.rows[id].name, f.name))
    && (r.aa && qtype != TYPE_ANY && r.answers == f.reply.answers ==> NothingThere(db, w, qtype, f))
  }

  /** The reply tells the truth about the database, the whole of it and nothing else, at every place
      `vs` on the way and in its conclusion at the last. Its answers form an alias chain from the
      name as asked, and every record in it comes from the database. */
  ghost predicate Truthful(encode: Encoder, db: Db, w: Resolver, qtype: u16, vs: seq<Place>, r: Reply) {
    && vs != [] && Chain(Plain(r.answers), vs[0].owner) && ReplySourced(encode, db, r)
    && TrueThroughout(encode, db, w, qtype, vs, r)
    && Concludes(encode, db, w, qtype, vs[|vs| - 1], |vs| > 1, r)
  }

  lemma {:induction false} VisitsOpen(body: LoopBody, w: Resolver, encode: Encoder, qtype: u16, p: Place, left: nat,
                                      i: nat)
    requires IsLoopBody(body, w, encode, qtype) && Serving(w, encode) && ServableZone(p.zone) && Open(p.reply)
    requires i < |Visits(body, p, left)|
    ensures Open(Visits(body, p, left)[i].reply)
  {
    forall q: Place | ServableZone(q.zone) && Open(q.reply) && body(q).Hop?
      ensures ServableZone(body(q).to.zone) && Open(body(q).to.reply)
    {
      TurnSettles(body, w, encode, qtype, q);
    }
    VisitsKeep(body, (q: Place) => ServableZone(q.zone) && Open(q.reply), p, left, i);
  }

  lemma {:induction false} PlaceIsTrue(encode: Encoder, db: Db, w: Resolver, body: LoopBody, qtype: u16, p: Place,
                                       r: Reply, i: nat)
    requires Backed(w, db) && Serving(w, encode) && IsLoopBody(body, w, encode, qtype)
    requires p.reply == FRESH && InFoundZone(w, p) && Loop(body, p, MAX_CHAIN + 1).0 == Some(r)
    requires i < |Visits(body, p, MAX_CHAIN + 1)|
    ensures TrueAt(encode, db, w, qtype, Visits(body, p, MAX_CHAIN + 1), r, i)
  {
    var vs := Visits(body, p, MAX_CHAIN + 1);
    VisitsFindTheirZone(body, w, encode, qtype, p);
    assert InFoundZone(w, vs[i]);
    VisitsOpen(body, w, encode, qtype, p, MAX_CHAIN + 1, i);
    ReplyReports(body, w, encode, qtype, p, MAX_CHAIN + 1, r, i);
    MatchIsAsStored(db, w, qtype, vs[i]);
  }

  lemma {:induction false} PlacesAreTrue(encode: Encoder, db: Db, w: Resolver, body: LoopBody, qtype: u16, p: Place,
                                         r: Reply)
    requires Backed(w, db) && Serving(w, encode) && IsLoopBody(body, w, encode, qtype)
    requires p.reply == FRESH && InFoundZone(w, p) && Loop(body, p, MAX_CHAIN + 1).0 == Some(r)
    ensures TrueThroughout(encode, db, w, qtype, Visits(body, p, MAX_CHAIN + 1), r)
  {
    var vs := Visits(body, p, MAX_CHAIN + 1);
    forall i | 0 <= i < |vs|
      ensures TrueAt(encode, db, w, qtype, vs, r, i)
    {
      PlaceIsTrue(encode, db, w, body, qtype, p, r, i);
    }
  }

  /** The rcode of a reply, given when it is NXDOMAIN. */
  lemma {:induction false} RcodeIs(w: Resolver, encode: Encoder, qtype: u16, f: Place, hops: bool, r: Reply)
    requires Open(f.reply) && Reports(w, encode, qtype, f, MatchAt(w, qtype, f), r)
    requires r.rcode == NXDOMAIN <==> AbsentAt(w, f) && !(qtype == TYPE_ANY && hops)
    ensures r.rcode == RcodeOf(w, encode, qtype, f, hops) && (r.aa <==> !MatchAt(w, qtype, f).Cut?)
  {
  }

  lemma {:induction false} ConclusionIsTrue(encode: Encoder, db: Db, w: Resolver, body: LoopBody, qtype: u16, p: Place,
                                            r: Reply)
    requires Backed(w, db) && Consistent(db) && Serving(w, encode) && IsLoopBody(body, w, encode, qtype)
    requires p.reply == FRESH && InFoundZone(w, p) && Loop(body, p, MAX_CHAIN + 1).0 == Some(r)
    ensures Concludes(encode, db, w, qtype, Final(body, p, MAX_CHAIN + 1), body(p).Hop?, r)
  {
    var f := Final(body, p, MAX_CHAIN + 1);
    SettledAtFinal(body, w, encode, qtype, p, MAX_CHAIN + 1, r);
    LastReports(body, w, encode, qtype, p, r);
    NxdomainIff(body, w, encode, qtype, p, r);
    RcodeIs(w, encode, qtype, f, body(p).Hop?, r);
    NegativeCarriesSoa(body, w, encode, qtype, p, r);
    ServableSoa(f.zone);
    ConclusionHolds(encode, db, w, qtype, f, body(p).Hop?, r);
  }

  lemma {:induction false} LastReports(body: LoopBody, w: Resolver, encode: Encoder, qtype: u16, p: Place, r: Reply)
    requires IsLoopBody(body, w, encode, qtype) && Loop(body, p, MAX_CHAIN + 1).0 == Some(r)
    ensures var f := Final(body, p, MAX_CHAIN + 1); Reports(w, encode, qtype, f, MatchAt(w, qtype, f), r)
  {
    FinalIsLastVisit(body, p, MAX_CHAIN + 1);
    ReplyReports(body, w, encode, qtype, p, MAX_CHAIN + 1, r, |Visits(body, p, MAX_CHAIN + 1)| - 1);
  }

  lemma {:induction false} ConclusionHolds(encode: Encoder, db: Db, w: Resolver, qtype: u16, f: Place, hops: bool,
                                           r: Reply)
    requires Backed(w, db) && Consistent(db) && Serving(w, encode) && ServableZone(f.zone) && SoaRR(f.zone).Some?
    requires Reports(w, encode, qtype, f, MatchAt(w, qtype, f), r)
    requires r.rcode == RcodeOf(w, encode, qtype, f, hops) && (r.aa <==> !MatchAt(w, qtype, f).Cut?)
    requires r.aa ==> r.authority == if r.answers == f.reply.answers && !(qtype == TYPE_ANY && hops)
                                     then SoaList(f.zone) else []
    ensures Concludes(encode, db, w, qtype, f, hops, r)
  {
    if r.rcode == NXDOMAIN { AbsentIsUnoccupied(w, db, f); }
    if r.aa && qtype != TYPE_ANY && r.answers == f.reply.answers { SilenceIsTrue(encode, db, w, qtype, f, r); }
  }

  lemma {:induction false} LoopIsTruthful(encode: Encoder, db: Db, w: Resolver, body: LoopBody, qtype: u16,
                                          p: Place) returns (r: Reply)
    requires NamesPacked(encode) && Consistent(db) && Servable(encode, db) && Backed(w, db)
    requires IsLoopBody(body, w, encode, qtype)
    requires p.reply == FRESH && p.name == Lower(p.owner) && InFoundZone(w, p)
    ensures Loop(body, p, MAX_CHAIN + 1).0 == Some(r)
    ensures Truthful(encode, db, w, qtype, Visits(body, p, MAX_CHAIN + 1), r)
  {
    var vs := Visits(body, p, MAX_CHAIN + 1);
    BackedServes(w, encode, db);
    BackedLone(w, db);
    BackedLoop(body, w, encode, qtype, p, MAX_CHAIN + 1, db);
    r := Loop(body, p, MAX_CHAIN + 1).0.value;
    BackedHonest(w, encode, db);
    NothingInvented(encode, db, w, body, qtype, p, MAX_CHAIN + 1, r);
    AnswersFormAChain(body, w, encode, qtype, p, r);
    PlacesAreTrue(encode, db, w, body, qtype, p, r);
    ConclusionIsTrue(encode, db, w, body, qtype, p, r);
    FinalIsLastVisit(body, p, MAX_CHAIN + 1);
    SeveralPlaces(body, p, MAX_CHAIN + 1);
  }

  lemma {:induction false} SeveralPlaces(body: LoopBody, p: Place, left: nat)
    requires left > 1
    ensures var vs := Visits(body, p, left); vs != [] && vs[0] == p && (|vs| > 1 <==> body(p).Hop?)
  {
  }

  function StartOf(zone: Zone, q: Question, rot: u32): Place {
    Place(FRESH, rot, zone, Lower(TrimDot(q.name)), TrimDot(q.name))
  }

  /** The places a question takes the handler to, from the zone found for it. */
  function Passed(w: Resolver, encode: Encoder, q: Question, rot: u32, zone: Zone): seq<Place> {
    Visits(Turns(w, encode, q.qtype), StartOf(zone, q, rot), MAX_CHAIN + 1)
  }

  /** Over any consistent database, a question some zone holds the name of is answered, and
      truthfully. */
  lemma {:induction false} AnswersAreTrue(encode: Encoder, db: Db, w: Resolver, q: Question, rot: u32, zone: Zone)
    requires NamesPacked(encode) && Consistent(db) && Servable(encode, db) && Backed(w, db)
    requires w.findZone(Lower(TrimDot(q.name))) == Held(zone)
    ensures Truthful(encode, db, w, q.qtype, Passed(w, encode, q, rot, zone), Answered(w, encode, q, rot).0)
  {
    var r := LoopIsTruthful(encode, db, w, Turns(w, encode, q.qtype), q.qtype, StartOf(zone, q, rot));
  }

  // ---- out of the caches -------------------------------------------------------------

  lemma {:induction false} ClusterServable(encode: Encoder, h: C.Hashes, run: seq<C.State>, steps: seq<C.Step>, t: nat)
    requires C.IsRun(encode, h, run, steps) && t < |run|
    ensures Servable(encode, run[t].db)
  {
    if t > 0 {
      ClusterServable(encode, h, run, steps, t - 1);
      var step := steps[t - 1];
      C.OnlyCommitsWrite(encode, h, run[t - 1], run[t], step);
      if step.Commit? { ServeServable(encode, run[t - 1].db, step.req, step.now); }
    }
  }

  /** Each read is answered from the instance's caches if it can be, and else by the store. */
  ghost predicate ReadsThrough(w: Resolver, cache: map<I.Key, I.Answer>, db: Db) {
    && (forall n :: w.findZone(n) == ZoneFrom(Cached(cache, db, I.ZoneKey(n))))
    && (forall z, n :: w.lookup(z, n).Some? && NamesFrom(Cached(cache, db, I.NameKey(z, n)), w.lookup(z, n).value))
  }

  function Cached(cache: map<I.Key, I.Answer>, db: Db, k: I.Key): I.Answer {
    if k in cache then cache[k] else I.StoreAnswer(db, k)
  }

  function ZoneFrom(a: I.Answer): ZoneLookup {
    if a.ZoneAnswer? && a.zone.Some? then Held(a.zone.value) else Unheld
  }

  ghost predicate NamesFrom(a: I.Answer, f: Found) {
    a.NameAnswer? && ShowsAt(f, a.names)
  }

  /** No entry of the zone is among those given up. */
  predicate Untroubled(lost: set<I.Key>, zone: Text) {
    forall k :: k in lost && k.NameKey? ==> k.zone != zone
  }

  /** The cache is right about every name in an untroubled zone, and about the zones. */
  ghost predicate RightWithin(cache: map<I.Key, I.Answer>, db: Db, lost: set<I.Key>) {
    forall k :: k in cache && (k.ZoneKey? || (InZone(k.name, k.zone) && Untroubled(lost, k.zone))) ==>
      cache[k] == I.StoreAnswer(db, k)
  }

  lemma {:induction false} QuietIsRight(encode: Encoder, h: C.Hashes, run: seq<C.State>, steps: seq<C.Step>, t: nat,
                                        i: nat)
    requires C.IsRun(encode, h, run, steps) && t < |run| && i in run[t].nodes && C.Quiet(run[t], i)
    ensures RightWithin(run[t].nodes[i].inst.cache, run[t].db, C.StraysOf(encode, run, steps, t, i, true))
  {
    var lost := C.StraysOf(encode, run, steps, t, i, true);
    forall k | k in run[t].nodes[i].inst.cache && (k.ZoneKey? || (InZone(k.name, k.zone) && Untroubled(lost, k.zone)))
      ensures run[t].nodes[i].inst.cache[k] == I.StoreAnswer(run[t].db, k)
    {
      if k.NameKey? { BelowIrreflexive(k.zone, k.name); BelowIrreflexive(k.name, k.zone); }
      C.QuietIsCoherent(encode, h, run, steps, t, i, k);
    }
  }

  ghost function Listed(s: set<Row>): (l: seq<Row>)
    ensures (forall r :: r in l <==> r in s) && forall i, j :: 0 <= i < j < |l| ==> l[i] != l[j]
  {
    if s == {} then [] else var r :| r in s; [r] + Listed(s - {r})
  }

  ghost function InOrder(s: NameSet): (f: Found)
    ensures ShowsAt(f, s)
  {
    Found(Listed(s.records), s.hasChildren)
  }

  /** The resolver with reads from elsewhere than the untroubled zones replaced by the store's. */
  ghost function Patched(w: Resolver, db: Db, lost: set<I.Key>): Resolver {
    Resolver(w.findZone,
             (z, n) => if InZone(n, z) && Untroubled(lost, z) then w.lookup(z, n)
                       else Some(InOrder(LookupName(db, z, n))))
  }

  lemma {:induction false} PatchedIsBacked(w: Resolver, cache: map<I.Key, I.Answer>, db: Db, lost: set<I.Key>)
    requires ReadsThrough(w, cache, db) && RightWithin(cache, db, lost)
    ensures Backed(Patched(w, db, lost), db)
  {
    var v := Patched(w, db, lost);
    forall n
      ensures v.findZone(n) == if FindZone(db.zones, n).Some? then Held(FindZone(db.zones, n).value) else Unheld
    {
      assert Cached(cache, db, I.ZoneKey(n)) == I.StoreAnswer(db, I.ZoneKey(n));
    }
    forall z, n
      ensures v.lookup(z, n).Some? && ShowsAt(v.lookup(z, n).value, LookupName(db, z, n))
    {
      if InZone(n, z) && Untroubled(lost, z) {
        assert Cached(cache, db, I.NameKey(z, n)) == I.StoreAnswer(db, I.NameKey(z, n));
      } else {
        assert v.lookup(z, n) == Some(InOrder(LookupName(db, z, n)));
      }
    }
  }

  lemma {:induction false} PatchedAgrees(w: Resolver, db: Db, lost: set<I.Key>, p: Place)
    requires InZone(p.name, p.zone.name) && Untroubled(lost, p.zone.name)
    ensures Framed(Patched(w, db, lost), w, p)
  {
    var v := Patched(w, db, lost);
    forall n | InZone(n, p.zone.name)
      ensures v.View(p.zone.name)(n) == w.View(p.zone.name)(n)
    {
      assert v.lookup(p.zone.name, n) == w.lookup(p.zone.name, n);
    }
  }

  lemma {:induction false} AbsentFrame(v: Resolver, w: Resolver, f: Place)
    requires Framed(v, w, f)
    ensures AbsentAt(v, f) == AbsentAt(w, f) && Consulted(v, f) == Consulted(w, f)
  {
    var a, b, zone := NodesAt(v, f), NodesAt(w, f), f.zone.name;
    assert AgreeIn(a, b, zone);
    EncloserFrame(a, b, zone, f.name);
    var e := Encloser(a, zone, f.name);
    WildcardInZone(e, zone);
    assert a(f.name) == b(f.name) && a(e) == b(e) && a(Wildcard(e)) == b(Wildcard(e));
  }

  lemma {:induction false} ReportsFrame(v: Resolver, w: Resolver, encode: Encoder, qtype: u16, f: Place, m: Match,
                                        r: Reply)
    requires Framed(v, w, f)
    ensures Reports(v, encode, qtype, f, m, r) == Reports(w, encode, qtype, f, m, r)
  {
    var a, b, zone := v.View(f.zone.name), w.View(f.zone.name), f.zone.name;
    if m.Cut? { GlueFrame(encode, a, b, zone, m.ns); }
    if m.Answer? { GlueFrame(encode, a, b, zone, OfType(m.records, qtype)); }
  }

  lemma {:induction false} PlaceFrame(encode: Encoder, db: Db, v: Resolver, w: Resolver, qtype: u16, vs: seq<Place>,
                                      r: Reply, i: nat)
    requires i < |vs| && Framed(v, w, vs[i]) && TrueAt(encode, db, v, qtype, vs, r, i)
    ensures TrueAt(encode, db, w, qtype, vs, r, i)
  {
    MatchFrame(v, w, qtype, vs[i]);
    AbsentFrame(v, w, vs[i]);
    ReportsFrame(v, w, encode, qtype, vs[i], MatchAt(v, qtype, vs[i]), ReplyAfter(vs, i, r));
  }

  lemma {:induction false} ConclusionFrame(encode: Encoder, db: Db, v: Resolver, w: Resolver, qtype: u16, f: Place,
                                           hops: bool, r: Reply)
    requires Framed(v, w, f) && Concludes(encode, db, v, qtype, f, hops, r)
    ensures Concludes(encode, db, w, qtype, f, hops, r)
  {
    MatchFrame(v, w, qtype, f);
    AbsentFrame(v, w, f);
  }

  lemma {:induction false} TruthFrame(encode: Encoder, db: Db, v: Resolver, w: Resolver, qtype: u16, vs: seq<Place>,
                                      r: Reply)
    requires (forall q :: q in vs ==> Framed(v, w, q)) && Truthful(encode, db, v, qtype, vs, r)
    ensures Truthful(encode, db, w, qtype, vs, r)
  {
    forall i | 0 <= i < |vs|
      ensures TrueAt(encode, db, w, qtype, vs, r, i)
    {
      assert Framed(v, w, vs[i]);
      PlaceFrame(encode, db, v, w, qtype, vs, r, i);
    }
    assert Framed(v, w, vs[|vs| - 1]);
    ConclusionFrame(encode, db, v, w, qtype, vs[|vs| - 1], |vs| > 1, r);
  }

  lemma {:induction false} QuietIsBacked(encode: Encoder, h: C.Hashes, run: seq<C.State>, steps: seq<C.Step>, t: nat,
                                         i: nat, w: Resolver)
    requires C.IsRun(encode, h, run, steps) && t < |run| && i in run[t].nodes && C.Quiet(run[t], i)
    requires ReadsThrough(w, run[t].nodes[i].inst.cache, run[t].db)
    ensures Consistent(run[t].db) && Servable(encode, run[t].db)
    ensures Backed(Patched(w, run[t].db, C.StraysOf(encode, run, steps, t, i, true)), run[t].db)
  {
    C.RunKeeps(encode, h, run, steps, t);
    ClusterServable(encode, h, run, steps, t);
    QuietIsRight(encode, h, run, steps, t, i);
    PatchedIsBacked(w, run[t].nodes[i].inst.cache, run[t].db, C.StraysOf(encode, run, steps, t, i, true));
  }

  /** The whole server. In every run of any number of instances, an instance with nothing
      outstanding answers a question out of its caches truthfully about the database as it is now,
      provided each name on the way lies in the zone found for it and no entry of those zones is
      astray (see `StaleIsExcused`). Whatever else its caches hold does not matter. */
  lemma {:induction false} QuietInstanceAnswersTruly(encode: Encoder, h: C.Hashes, run: seq<C.State>,
                                                     steps: seq<C.Step>, t: nat, i: nat, w: Resolver, q: Question,
                                                     rot: u32, zone: Zone)
    requires C.IsRun(encode, h, run, steps) && t < |run| && i in run[t].nodes
    requires C.Quiet(run[t], i) && NamesPacked(encode)
    requires ReadsThrough(w, run[t].nodes[i].inst.cache, run[t].db) && w.findZone(Lower(TrimDot(q.name))) == Held(zone)
    requires forall v :: v in Passed(w, encode, q, rot, zone) ==>
               InZone(v.name, v.zone.name) && Untroubled(C.StraysOf(encode, run, steps, t, i, true), v.zone.name)
    ensures Truthful(encode, run[t].db, w, q.qtype, Passed(w, encode, q, rot, zone), Answered(w, encode, q, rot).0)
  {
    var db, lost := run[t].db, C.StraysOf(encode, run, steps, t, i, true);
    QuietIsBacked(encode, h, run, steps, t, i, w);
    CachedAnswerIsTrue(encode, db, w, Patched(w, db, lost), lost, q, rot, zone);
  }

  /** Reads that do not matter replaced, the answer is the same. */
  lemma {:induction false} CachedIsPatched(encode: Encoder, db: Db, w: Resolver, lost: set<I.Key>, q: Question,
                                           rot: u32, zone: Zone)
    requires w.findZone(Lower(TrimDot(q.name))) == Held(zone)
    requires forall u :: u in Passed(w, encode, q, rot, zone) ==>
               InZone(u.name, u.zone.name) && Untroubled(lost, u.zone.name)
    ensures var v := Patched(w, db, lost);
            && Passed(v, encode, q, rot, zone) == Passed(w, encode, q, rot, zone)
            && Answered(v, encode, q, rot) == Answered(w, encode, q, rot)
            && forall u :: u in Passed(w, encode, q, rot, zone) ==> Framed(v, w, u)
  {
    var v := Patched(w, db, lost);
    var p, wb, vb := StartOf(zone, q, rot), Turns(w, encode, q.qtype), Turns(v, encode, q.qtype);
    forall u | u in Visits(wb, p, MAX_CHAIN + 1)
      ensures Framed(w, v, u) && Framed(v, w, u)
    {
      PatchedAgrees(w, db, lost, u);
    }
    LoopFrame(w, v, encode, q.qtype, wb, vb, p, MAX_CHAIN + 1);
  }

  lemma {:induction false} CachedAnswerIsTrue(encode: Encoder, db: Db, w: Resolver, v: Resolver, lost: set<I.Key>,
                                              q: Question, rot: u32, zone: Zone)
    requires NamesPacked(encode) && Consistent(db) && Servable(encode, db) && v == Patched(w, db, lost) && Backed(v, db)
    requires w.findZone(Lower(TrimDot(q.name))) == Held(zone)
    requires forall u :: u in Passed(w, encode, q, rot, zone) ==>
               InZone(u.name, u.zone.name) && Untroubled(lost, u.zone.name)
    ensures Truthful(encode, db, w, q.qtype, Passed(w, encode, q, rot, zone), Answered(w, encode, q, rot).0)
  {
    CachedIsPatched(encode, db, w, lost, q, rot, zone);
    AnswersAreTrue(encode, db, v, q, rot, zone);
    TruthFrame(encode, db, v, w, q.qtype, Passed(w, encode, q, rot, zone), Answered(w, encode, q, rot).0);
  }

  /** When a name on the way lies in the zone found for it: if and only if it ends in a label and,
      should it start with white space, its trimmed form is not itself a zone. */
  lemma {:induction false} VisitHoldsNameIff(encode: Encoder, db: Db, v: Place)
    requires Consistent(db) && Servable(encode, db)
    requires FindZone(db.zones, v.name) == Some(v.zone) && Lower(v.name) == v.name
    ensures InZone(v.name, v.zone.name) <==>
            EndsInLabel(v.name) && (!IsSpace(v.name[0]) || NormalizeZone(v.name) !in db.zones)
  {
    FoundZoneHoldsNameIff(db.zones, v.name);
  }

  lemma {:induction false} NoSpaceInside(name: Text, z: Text)
    requires ValidName(name)
    ensures !InZone(name, [SPACE] + z)
  {
    var n := [SPACE] + z;
    ValidIsClean(name);
    assert |name| >= |n| ==> name[|name| - |n|] != SPACE;
  }

  lemma {:induction false} SpacedNameHasNoRows(encode: Encoder, db: Db, z: Text)
    requires Consistent(db) && Servable(encode, db)
    ensures LookupName(db, z, [SPACE] + z) == NameSet({}, false)
  {
    var n := [SPACE] + z;
    forall id | id in db.rows
      ensures !InZone(db.rows[id].name, n)
    {
      assert ServableRow(encode, db.rows[id]);
      NoSpaceInside(db.rows[id].name, z);
    }
    ScanIsBelow(db, z, n);
  }

  lemma {:induction false} NonEmptyHolds<T>(s: seq<T>)
    ensures s == [] || exists x :: x in s
  {
    if s != [] { assert s[0] in s; }
  }

  lemma {:induction false} ShowsNothing(f: Found)
    requires ShowsAt(f, NameSet({}, false))
    ensures !f.Exists()
  {
    NonEmptyHolds(f.records);
  }

  /** How an entry above its zone comes about: for any zone of two labels or more, a question
      for its name with a space in front makes the handler look up the parent of the apex in that
      zone, a key no invalidation accounts for. If that one lookup fails, so does the walk. */
  lemma {:induction false} SpacedNameReadsAbove(encode: Encoder, db: Db, z: Text, look: Lookups, qtype: u16)
    requires Consistent(db) && Servable(encode, db) && z in db.zones && DOT in z
    requires look([SPACE] + z).Some? && ShowsAt(look([SPACE] + z).value, LookupName(db, z, [SPACE] + z))
    ensures FindZone(db.zones, [SPACE] + z) == Some(db.zones[z]) && db.zones[z].name == z
    ensures !I.Guarded(I.NameKey(z, Parent(z)))
    ensures look(Parent(z)).None? ==> Walk(look, z, [SPACE] + z, qtype) == Failed
  {
    var n := [SPACE] + z;
    assert ServableZone(db.zones[z]) && db.zones[z].name == z;
    SpacedNameEscapes(db.zones, z);
    SpacedNameHasNoRows(encode, db, z);
    ParentBelow(z);
    SpacedParent(z);
    ShowsNothing(look(n).value);
  }

  lemma {:induction false} SpacedParent(z: Text)
    requires DOT in z
    ensures var n := [SPACE] + z; DOT in n && Parent(n) == Parent(z)
  {
    var n := [SPACE] + z;
    assert n[1..] == z && n[IndexDot(z) + 1] == DOT;
  }
}
