/** Where the records of a reply come from: nothing is served that is not stored. */
module Sources {
  import opened Bytes
  import opened Names
  import opened Tables
  import opened Message
  import opened WireName
  import opened RData
  import opened Lookup
  import opened Service
  import opened Resolution
  import opened Aliases
  import opened Sections
  import opened Validation
  import opened Transactions

  /** A row stored at `row` may answer for `name`: it is stored there, or at the wildcard below an
      ancestor. */
  ghost predicate Owns(row: Text, name: Text) {
    row == name || exists e :: Below(name, e) && row == Wildcard(e)
  }

  /** The record is a stored row that may answer for its owner, with the row's type, its TTL and
      the wire form of its data. */
  ghost predicate FromRow(encode: Encoder, db: Db, x: RR) {
    exists id :: && id in db.rows && Owns(db.rows[id].name, Lower(x.name))
                 && x.rtype == db.rows[id].rtype && x.ttl == db.rows[id].ttl
                 && encode(x.rtype, db.rows[id].rdata) == Some(x.rdata)
  }

  /** The record is the SOA of a stored zone. */
  ghost predicate FromZone(db: Db, x: RR) {
    exists k :: k in db.zones && SoaRR(db.zones[k]) == Some(x)
  }

  /** The record is the alias a stored DNAME makes for a name below it: it has the DNAME's TTL and
      decodes to the name with the DNAME's owner replaced by its target. */
  ghost predicate FromDname(encode: Encoder, db: Db, x: RR) {
    exists id :: && id in db.rows && db.rows[id].rtype == TYPE_DNAME && x.rtype == TYPE_CNAME
                 && x.ttl == db.rows[id].ttl && Below(Lower(x.name), db.rows[id].name)
                 && TargetName(TYPE_CNAME, x.rdata) ==
                    Substituted(Lower(x.name), db.rows[id].name, TargetName(TYPE_DNAME, WireOf(encode, db.rows[id])))
  }

  ghost predicate Sourced(encode: Encoder, db: Db, x: RR) {
    x.rclass == CLASS_IN && (FromRow(encode, db, x) || FromZone(db, x) || FromDname(encode, db, x))
  }

  ghost predicate AllSourced(encode: Encoder, db: Db, xs: seq<RR>) {
    forall x :: x in xs ==> Sourced(encode, db, x)
  }

  ghost predicate ReplySourced(encode: Encoder, db: Db, r: Reply) {
    AllSourced(encode, db, r.answers) && AllSourced(encode, db, r.authority) && AllSourced(encode, db, r.additional)
  }

  // ---- what the resolver returns is stored -------------------------------------------

  ghost predicate Stored(db: Db, r: Row) {
    0 <= r.ttl <= MAX_TTL && exists id :: id in db.rows && db.rows[id] == r
  }

  /** Stored rows of one zone and one name. */
  ghost predicate StoredAt(db: Db, zone: Text, n: Text, rs: seq<Row>) {
    forall r :: r in rs ==> Stored(db, r) && r.zone == zone && r.name == n
  }

  /** Stored rows that may answer for an owner. */
  ghost predicate StoredFor(db: Db, owner: Text, rs: seq<Row>) {
    forall r :: r in rs ==> Stored(db, r) && Owns(r.name, Lower(owner))
  }

  ghost predicate StoredZone(db: Db, z: Zone) {
    exists k :: k in db.zones && db.zones[k] == z
  }

  /** The zone is stored and holds the name, up to the trimming `FindZone` does. */
  ghost predicate ZoneFits(db: Db, z: Zone, n: Text) {
    StoredZone(db, z) && z.name != [] && InZone(NormalizeZone(n), z.name)
  }

  /** The resolver invents neither records nor zones. */
  ghost predicate Honest(w: Resolver, db: Db) {
    && (forall z, n {:trigger w.lookup(z, n)} ::
          w.lookup(z, n).Some? ==> StoredAt(db, z, n, w.lookup(z, n).value.records))
    && (forall n {:trigger w.findZone(n)} :: w.findZone(n).Held? ==> ZoneFits(db, w.findZone(n).zone, n))
  }

  /** A place the loop may stand at. */
  ghost predicate Placed(db: Db, p: Place) {
    p.name == Lower(p.owner) && ZoneFits(db, p.zone, p.name)
  }

  lemma {:induction false} OfTypeStored(db: Db, zone: Text, n: Text, rs: seq<Row>, t: u16)
    requires StoredAt(db, zone, n, rs)
    ensures StoredAt(db, zone, n, OfType(rs, t))
  {
    forall r | r in OfType(rs, t)
      ensures Stored(db, r) && r.zone == zone && r.name == n
    {
      OfTypeMember(rs, t, r);
    }
  }

  lemma {:induction false} TypeStored(db: Db, owner: Text, rs: seq<Row>, t: u16)
    requires StoredFor(db, owner, rs)
    ensures StoredFor(db, owner, OfType(rs, t))
  {
    forall r | r in OfType(rs, t)
      ensures Stored(db, r) && Owns(r.name, Lower(owner))
    {
      OfTypeMember(rs, t, r);
    }
  }

  lemma {:induction false} AddressRowsStored(db: Db, owner: Text, rs: seq<Row>)
    requires StoredFor(db, owner, rs)
    ensures StoredFor(db, owner, AddressRows(rs))
  {
    if rs != [] {
      assert forall r :: r in rs[..|rs| - 1] ==> r in rs;
      AddressRowsStored(db, owner, rs[..|rs| - 1]);
      assert rs[|rs| - 1] in rs;
    }
  }

  // ---- what the walk finds may answer for the name -----------------------------------

  lemma {:induction false} LowerSuffix(n: Text, e: Text)
    requires Lower(n) == n && InZone(n, e)
    ensures Lower(e) == e
  {
    if n != e {
      assert e == n[|n| - |e| - 1..][1..] == n[|n| - |e|..];
      assert forall i :: 0 <= i < |e| ==> e[i] == n[|n| - |e| + i] == Lower(n)[|n| - |e| + i];
    }
  }

  lemma {:induction false} EncloserIsAbove(node: Nodes, zone: Text, n: Text)
    ensures var e := Encloser(node, zone, n);
            if n == zone || DOT !in n then e == n else Below(n, e)
    decreases |n|
  {
    if n != zone && DOT in n {
      ParentBelow(n);
      var p := Parent(n);
      if p != zone && !node(p).Exists() {
        EncloserIsAbove(node, zone, p);
        if Encloser(node, zone, p) != p { BelowTrans(n, p, Encloser(node, zone, p)); }
      }
    }
  }

  lemma {:induction false} TrimmedBytes(s: Text)
    ensures forall b :: b in TrimSpace(s) ==> b in s
  {
    TrimLeftBytes(s);
    TrimRightBytes(TrimLeft(s));
  }

  lemma {:induction false} TrimLeftBytes(s: Text)
    ensures forall b :: b in TrimLeft(s) ==> b in s
  {
    if s != [] && IsSpace(s[0]) { TrimLeftBytes(s[1..]); }
  }

  lemma {:induction false} TrimRightBytes(s: Text)
    ensures forall b :: b in TrimRight(s) ==> b in s
  {
    if s != [] && IsSpace(s[|s| - 1]) { TrimRightBytes(s[..|s| - 1]); }
  }

  lemma {:induction false} NormalizedIsDotless(n: Text)
    requires DOT !in n
    ensures DOT !in NormalizeZone(n)
  {
    TrimmedBytes(n);
    var t := Lower(TrimSpace(n));
    forall i | 0 <= i < |t|
      ensures t[i] != DOT
    {
      assert TrimSpace(n)[i] in TrimSpace(n);
    }
  }

  /** A zone that is found for a name without dots, and is not that name, holds no wildcard below
      that name. */
  lemma {:induction false} DotlessHasNoWildcard(n: Text, zone: Text)
    requires DOT !in n && n != zone && zone != [] && InZone(NormalizeZone(n), zone)
    ensures !InZone(Wildcard(n), zone)
  {
    NormalizedIsDotless(n);
    if NormalizeZone(n) != zone { BelowParent(NormalizeZone(n), zone); }
    if Below(Wildcard(n), zone) { OnlyDot(n, zone); }
  }

  lemma {:induction false} OnlyDot(n: Text, zone: Text)
    requires DOT !in n && Below(Wildcard(n), zone)
    ensures zone == n
  {
    var w := Wildcard(n);
    var d := |w| - |zone| - 1;
    assert w[d..][0] == w[d] == DOT;
    assert forall k :: 2 <= k < |w| ==> w[k] == n[k - 2];
    assert w[2..] == n && w[d..][1..] == w[d + 1..] == zone;
  }

  ghost predicate MatchStored(db: Db, p: Place, m: Match) {
    match m
    case Failed => true
    case Cut(at, ns) => StoredFor(db, at, ns)
    case Redirect(at, d) =>
      Stored(db, d) && d.rtype == TYPE_DNAME && d.name == at && Below(p.name, at) && Lower(at) == at
    case Answer(rs, _) => StoredFor(db, p.owner, rs)
  }

  lemma {:induction false} AtSameName(db: Db, zone: Text, n: Text, owner: Text, rs: seq<Row>)
    requires StoredAt(db, zone, n, rs) && Owns(n, Lower(owner))
    ensures StoredFor(db, owner, rs)
  {
  }

  lemma {:induction false} WildcardStored(db: Db, p: Place, e: Text, rs: seq<Row>)
    requires Placed(db, p) && Housed(db) && StoredAt(db, p.zone.name, Wildcard(e), rs) && p.name != p.zone.name
    requires if DOT !in p.name then e == p.name else Below(p.name, e)
    ensures StoredFor(db, p.owner, rs)
  {
    if DOT !in p.name {
      forall r | r in rs
        ensures InZone(Wildcard(e), p.zone.name)
      {
        var id :| id in db.rows && db.rows[id] == r;
      }
      DotlessHasNoWildcard(p.name, p.zone.name);
    }
  }

  lemma {:induction false} EncloserStored(db: Db, node: Nodes, p: Place, e: Text)
    requires Placed(db, p) && Housed(db) && (forall n :: StoredAt(db, p.zone.name, n, node(n).records))
    requires p.name != p.zone.name && !node(p.name).Exists() && e == Encloser(node, p.zone.name, p.name)
    ensures MatchStored(db, p, AtEncloser(node, p.zone.name, e))
  {
    EncloserIsAbove(node, p.zone.name, p.name);
    LowerIdempotent(p.owner);
    LowerSuffix(p.name, e);
    OfTypeStored(db, p.zone.name, e, node(e).records, TYPE_NS);
    AtSameName(db, p.zone.name, e, e, OfType(node(e).records, TYPE_NS));
    OfTypeStored(db, p.zone.name, e, node(e).records, TYPE_DNAME);
    WildcardStored(db, p, e, node(Wildcard(e)).records);
    var ds := DnameAt(node, e);
    if ds != [] { OfTypeMember(node(e).records, TYPE_DNAME, ds[0]); }
  }

  lemma {:induction false} BottomUpStored(db: Db, node: Nodes, p: Place, qtype: u16)
    requires Placed(db, p) && Housed(db) && (forall n :: StoredAt(db, p.zone.name, n, node(n).records))
    ensures MatchStored(db, p, BottomUp(node, p.zone.name, p.name, qtype))
  {
    LowerIdempotent(p.owner);
    if node(p.name).Exists() || p.name == p.zone.name {
      OfTypeStored(db, p.zone.name, p.name, node(p.name).records, TYPE_NS);
      AtSameName(db, p.zone.name, p.name, p.name, OfType(node(p.name).records, TYPE_NS));
      AtSameName(db, p.zone.name, p.name, p.owner, node(p.name).records);
    } else {
      EncloserStored(db, node, p, Encloser(node, p.zone.name, p.name));
    }
  }

  lemma {:induction false} WalkStored(db: Db, w: Resolver, qtype: u16, p: Place)
    requires Honest(w, db) && Housed(db) && Placed(db, p)
    ensures MatchStored(db, p, MatchAt(w, qtype, p))
  {
    var view := w.View(p.zone.name);
    WalkIsBottomUp(view, p.zone.name, p.name, qtype);
    forall n
      ensures StoredAt(db, p.zone.name, n, Nominal(view)(n).records)
    {
      assert view(n) == w.lookup(p.zone.name, n);
    }
    BottomUpStored(db, Nominal(view), p, qtype);
  }

  // ---- what the handler makes of it is sourced ---------------------------------------

  lemma {:induction false} EmitSourced(encode: Encoder, db: Db, owner: Text, r: Row)
    requires Stored(db, r) && Owns(r.name, Lower(owner))
    ensures AllSourced(encode, db, Emit(encode, owner, r))
  {
    forall x | x in Emit(encode, owner, r)
      ensures Sourced(encode, db, x)
    {
      var id :| id in db.rows && db.rows[id] == r;
      assert x.ttl == db.rows[id].ttl;
    }
  }

  lemma {:induction false} EmitAllSourced(encode: Encoder, db: Db, owner: Text, rs: seq<Row>)
    requires StoredFor(db, owner, rs)
    ensures AllSourced(encode, db, EmitAll(encode, owner, rs))
  {
    if rs != [] {
      assert forall r :: r in rs[..|rs| - 1] ==> r in rs;
      EmitAllSourced(encode, db, owner, rs[..|rs| - 1]);
      EmitSourced(encode, db, owner, rs[|rs| - 1]);
    }
  }

  lemma {:induction false} SetSourced(encode: Encoder, db: Db, owner: Text, rs: seq<Row>, rot: u32)
    requires StoredFor(db, owner, rs)
    ensures AllSourced(encode, db, SetOf(encode, owner, rs, rot))
  {
    var turned := Rotated(rs, Leader(|rs|, rot));
    assert forall r :: r in turned ==> r in rs;
    EmitAllSourced(encode, db, owner, turned);
  }

  lemma {:induction false} AddressesSourced(encode: Encoder, db: Db, w: Resolver, zone: Text, t: Text)
    requires Honest(w, db) && Lower(t) == t
    ensures AllSourced(encode, db, AddressesOf(encode, w.View(zone), t))
  {
    assert w.View(zone)(t) == w.lookup(zone, t);
    if w.lookup(zone, t).Some? {
      var rs := w.lookup(zone, t).value.records;
      AtSameName(db, zone, t, t, rs);
      AddressRowsStored(db, t, rs);
      EmitAllSourced(encode, db, t, AddressRows(rs));
    }
  }

  lemma {:induction false} AllAddressesSourced(encode: Encoder, db: Db, w: Resolver, zone: Text, ts: seq<Text>)
    requires Honest(w, db) && forall t :: t in ts ==> Lower(t) == t
    ensures AllSourced(encode, db, AddressesOfAll(encode, w.View(zone), ts))
  {
    if ts != [] {
      AllAddressesSourced(encode, db, w, zone, ts[..|ts| - 1]);
      AddressesSourced(encode, db, w, zone, ts[|ts| - 1]);
    }
  }

  lemma {:induction false} GlueSourced(encode: Encoder, db: Db, w: Resolver, zone: Text, rs: seq<Row>)
    requires Honest(w, db)
    ensures AllSourced(encode, db, Glue(encode, w.View(zone), zone, rs))
  {
    var ts := GlueNames(encode, zone, rs);
    GlueNamesMean(encode, zone, rs);
    forall t | t in ts
      ensures Lower(t) == t
    {
      var r :| r in rs && InZoneTarget(encode, zone, r, t);
      LowerIdempotent(TargetOf(encode, r));
    }
    AllAddressesSourced(encode, db, w, zone, ts);
  }

  lemma {:induction false} SoaSourced(encode: Encoder, db: Db, z: Zone)
    requires StoredZone(db, z)
    ensures AllSourced(encode, db, SoaList(z))
  {
    var k :| k in db.zones && db.zones[k] == z;
    assert forall x :: x in SoaList(z) ==> SoaRR(db.zones[k]) == Some(x);
  }

  ghost predicate TurnSourced(encode: Encoder, db: Db, t: Turn) {
    && (t.Stop? ==> ReplySourced(encode, db, t.reply))
    && (t.Hop? ==> ReplySourced(encode, db, t.to.reply) && Placed(db, t.to))
  }

  lemma {:induction false} OnwardSourced(encode: Encoder, db: Db, w: Resolver, reply: Reply, rot: u32, next: Text)
    requires Honest(w, db) && ReplySourced(encode, db, reply) && Lower(next) == next
    ensures TurnSourced(encode, db, Onward(w, reply, rot, next))
  {
  }

  lemma {:induction false} AliasPointsOn(encode: Encoder, p: Place, at: Text, d: Row, target: Text, next: Text)
    requires NamesPacked(encode) && d.rtype == TYPE_DNAME && p.name == Lower(p.owner)
    requires target == TargetName(TYPE_DNAME, WireOf(encode, d)) && target != []
    requires next == Substituted(p.name, at, target) && Packable(next)
    ensures TargetName(TYPE_CNAME, PackName(next).value) == next && Lower(next) == next
  {
    if encode(TYPE_DNAME, d.rdata).None? { NoNameInNothing(); }
    TargetIsTidy(encode, TYPE_DNAME, d.rdata);
    LowerIdempotent(p.owner);
    SynthesizedPointsOn(p.name, at, target);
  }

  lemma {:induction false} NoNameInNothing()
    ensures TargetName(TYPE_DNAME, []) == []
  {
  }

  lemma {:induction false} DnameMakes(encode: Encoder, db: Db, x: RR, d: Row, target: Text)
    requires Stored(db, d) && d.rtype == TYPE_DNAME && x.rtype == TYPE_CNAME && x.ttl == d.ttl && x.rclass == CLASS_IN
    requires Below(Lower(x.name), d.name) && target == TargetName(TYPE_DNAME, WireOf(encode, d))
    requires TargetName(TYPE_CNAME, x.rdata) == Substituted(Lower(x.name), d.name, target)
    ensures Sourced(encode, db, x)
  {
    var id :| id in db.rows && db.rows[id] == d;
    assert x.ttl == db.rows[id].ttl;
    assert FromDname(encode, db, x);
  }

  lemma {:induction false} AliasSourced(encode: Encoder, db: Db, owner: Text, at: Text, d: Row, target: Text,
                                        cname: Text)
    requires Stored(db, d) && d.rtype == TYPE_DNAME && d.name == at && Below(Lower(owner), at)
    requires target == TargetName(TYPE_DNAME, WireOf(encode, d))
    requires TargetName(TYPE_CNAME, cname) == Substituted(Lower(owner), at, target)
    ensures Sourced(encode, db, Synthesized(owner, d, cname))
  {
    DnameMakes(encode, db, Synthesized(owner, d, cname), d, target);
  }

  lemma {:induction false} DnameSourced(encode: Encoder, db: Db, w: Resolver, p: Place, at: Text, d: Row)
    requires NamesPacked(encode) && Honest(w, db) && ReplySourced(encode, db, p.reply) && Placed(db, p)
    requires MatchStored(db, p, Redirect(at, d))
    ensures TurnSourced(encode, db, OnDname(w, encode, p, at, d))
  {
    var r := p.reply.(answers := p.reply.answers + Emit(encode, at, d));
    EmitSourced(encode, db, at, d);
    assert ReplySourced(encode, db, r);
    var target := TargetName(TYPE_DNAME, WireOf(encode, d));
    var next := Substituted(p.name, at, target);
    if target != [] && PackName(next).Some? {
      var cname := PackName(next).value;
      AliasPointsOn(encode, p, at, d, target, next);
      AliasSourced(encode, db, p.owner, at, d, target, cname);
      OnwardSourced(encode, db, w, r.(answers := r.answers + [Synthesized(p.owner, d, cname)]), p.rot, next);
    }
  }

  lemma {:induction false} CnameSourced(encode: Encoder, db: Db, w: Resolver, p: Place, cs: seq<Row>)
    requires Honest(w, db) && ReplySourced(encode, db, p.reply) && StoredFor(db, p.owner, cs) && cs != []
    ensures TurnSourced(encode, db, OnCname(w, encode, p, cs))
  {
    SetSourced(encode, db, p.owner, cs, p.rot);
    var r := p.reply.(answers := p.reply.answers + SetOf(encode, p.owner, cs, p.rot));
    var target := TargetName(TYPE_CNAME, WireOf(encode, cs[0]));
    LowerIdempotent(target);
    OnwardSourced(encode, db, w, r, Ticked(|cs|, p.rot), Lower(target));
  }

  lemma {:induction false} RecordsSourced(encode: Encoder, db: Db, w: Resolver, p: Place, qtype: u16, rs: seq<Row>,
                                          present: bool)
    requires Honest(w, db) && ReplySourced(encode, db, p.reply) && StoredFor(db, p.owner, rs) && Placed(db, p)
    ensures TurnSourced(encode, db, OnRecords(w, encode, p, qtype, rs, present))
  {
    SoaSourced(encode, db, p.zone);
    if qtype == TYPE_ANY {
      SetSourced(encode, db, p.owner, rs, p.rot);
    } else if p.name == p.zone.name && qtype == TYPE_SOA {
    } else if OfType(rs, qtype) != [] {
      TypeStored(db, p.owner, rs, qtype);
      SetSourced(encode, db, p.owner, OfType(rs, qtype), p.rot);
      GlueSourced(encode, db, w, p.zone.name, OfType(rs, qtype));
    } else if qtype != TYPE_CNAME && OfType(rs, TYPE_CNAME) != [] {
      TypeStored(db, p.owner, rs, TYPE_CNAME);
      CnameSourced(encode, db, w, p, OfType(rs, TYPE_CNAME));
    }
  }

  lemma {:induction false} MatchSourced(encode: Encoder, db: Db, w: Resolver, qtype: u16, p: Place, m: Match)
    requires NamesPacked(encode) && Honest(w, db) && ReplySourced(encode, db, p.reply) && Placed(db, p)
    requires MatchStored(db, p, m)
    ensures TurnSourced(encode, db, OnMatch(w, encode, qtype, p, m))
  {
    match m
    case Failed =>
    case Cut(at, ns) =>
      EmitAllSourced(encode, db, at, ns);
      GlueSourced(encode, db, w, p.zone.name, ns);
    case Redirect(at, d) => DnameSourced(encode, db, w, p, at, d);
    case Answer(rs, present) => RecordsSourced(encode, db, w, p, qtype, rs, present);
  }

  lemma {:induction false} BodySourced(encode: Encoder, db: Db, w: Resolver, body: LoopBody, qtype: u16, p: Place)
    requires NamesPacked(encode) && Honest(w, db) && Housed(db) && IsLoopBody(body, w, encode, qtype)
    requires ReplySourced(encode, db, p.reply) && Placed(db, p)
    ensures TurnSourced(encode, db, body(p))
  {
    TurnIs(body, w, encode, qtype, p);
    WalkStored(db, w, qtype, p);
    MatchSourced(encode, db, w, qtype, p, MatchAt(w, qtype, p));
  }

  /** Whatever the question and however many aliases are followed, every record in every section
      of a reply is a stored row that may answer for its owner, with the row's type, TTL and data;
      the SOA of a stored zone; or the alias that a stored DNAME above its owner makes for it. */
  lemma {:induction false} NothingInvented(encode: Encoder, db: Db, w: Resolver, body: LoopBody, qtype: u16, p: Place,
                                           left: nat, r: Reply)
    requires NamesPacked(encode) && Honest(w, db) && Housed(db) && IsLoopBody(body, w, encode, qtype)
    requires ReplySourced(encode, db, p.reply) && Placed(db, p)
    requires Loop(body, p, left).0 == Some(r)
    ensures ReplySourced(encode, db, r)
    decreases left
  {
    if left > 0 {
      BodySourced(encode, db, w, body, qtype, p);
      if body(p).Hop? { NothingInvented(encode, db, w, body, qtype, body(p).to, left - 1, r); }
    }
  }
}
