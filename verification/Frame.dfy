/** What the handler reads: from a name that its zone holds, nothing outside the zone. */
module Frame {
  import opened Bytes
  import opened Names
  import opened Tables
  import opened Lookup
  import opened Service
  import opened Resolution
  import opened Sections

  ghost predicate AgreeIn<T(!new)>(a: Text -> T, b: Text -> T, zone: Text) {
    forall n {:trigger a(n)} {:trigger b(n)} :: InZone(n, zone) ==> a(n) == b(n)
  }

  lemma {:induction false} WildcardInZone(e: Text, zone: Text)
    requires InZone(e, zone)
    ensures InZone(Wildcard(e), zone)
  {
    assert Wildcard(e) == [STAR] + [DOT] + e;
    SplitIsBelow([STAR], e);
    InZoneTrans(Wildcard(e), e, zone);
  }

  lemma {:induction false} EncloserFrame(a: Nodes, b: Nodes, zone: Text, n: Text)
    requires InZone(n, zone) && AgreeIn(a, b, zone)
    ensures Encloser(a, zone, n) == Encloser(b, zone, n) && InZone(Encloser(a, zone, n), zone)
    decreases |n|
  {
    if n != zone {
      BelowParent(n, zone);
      ParentBelow(n);
      EncloserFrame(a, b, zone, Parent(n));
    }
  }

  lemma {:induction false} ClimbFrame(a: Lookups, b: Lookups, zone: Text, n: Text)
    requires InZone(n, zone) && AgreeIn(a, b, zone)
    ensures var e := EncloserOrFail(a, zone, n); e == EncloserOrFail(b, zone, n) && (e.Some? ==> InZone(e.value, zone))
    decreases |n|
  {
    if n != zone {
      BelowParent(n, zone);
      ParentBelow(n);
      ClimbFrame(a, b, zone, Parent(n));
    }
  }

  lemma {:induction false} FromAboveFrame(a: Lookups, b: Lookups, zone: Text, e: Option<Text>)
    requires AgreeIn(a, b, zone) && (e.Some? ==> InZone(e.value, zone))
    ensures FromAbove(a, zone, e) == FromAbove(b, zone, e)
  {
    if e.Some? {
      WildcardInZone(e.value, zone);
      assert a(e.value) == b(e.value) && a(Wildcard(e.value)) == b(Wildcard(e.value));
    }
  }

  /** The walk from a name in the zone reads that name, its ancestors down to the apex and one
      wildcard below one of them, and so only names in the zone. */
  lemma {:induction false} WalkFrame(a: Lookups, b: Lookups, zone: Text, name: Text, qtype: u16)
    requires InZone(name, zone) && AgreeIn(a, b, zone)
    ensures Walk(a, zone, name, qtype) == Walk(b, zone, name, qtype)
  {
    assert a(name) == b(name);
    ClimbFrame(a, b, zone, name);
    FromAboveFrame(a, b, zone, EncloserOrFail(a, zone, name));
  }

  lemma {:induction false} AddressesFrame(encode: Encoder, a: Lookups, b: Lookups, zone: Text, ts: seq<Text>)
    requires AgreeIn(a, b, zone) && forall t :: t in ts ==> InZone(t, zone)
    ensures AddressesOfAll(encode, a, ts) == AddressesOfAll(encode, b, ts)
  {
    if ts != [] {
      AddressesFrame(encode, a, b, zone, ts[..|ts| - 1]);
      assert a(ts[|ts| - 1]) == b(ts[|ts| - 1]);
    }
  }

  /** Glue is only looked up for targets in the zone. */
  lemma {:induction false} GlueFrame(encode: Encoder, a: Lookups, b: Lookups, zone: Text, rs: seq<Row>)
    requires AgreeIn(a, b, zone)
    ensures Glue(encode, a, zone, rs) == Glue(encode, b, zone, rs)
  {
    GlueNamesMean(encode, zone, rs);
    AddressesFrame(encode, a, b, zone, GlueNames(encode, zone, rs));
  }

  /** Two resolvers that find the same zones. */
  ghost predicate SameZones(v: Resolver, w: Resolver) {
    forall n {:trigger v.findZone(n)} {:trigger w.findZone(n)} :: v.findZone(n) == w.findZone(n)
  }

  /** A place whose zone holds its name, and in whose zone the resolvers agree. */
  ghost predicate Framed(v: Resolver, w: Resolver, p: Place) {
    InZone(p.name, p.zone.name) && AgreeIn(v.View(p.zone.name), w.View(p.zone.name), p.zone.name)
  }

  lemma {:induction false} MatchFrame(v: Resolver, w: Resolver, qtype: u16, p: Place)
    requires Framed(v, w, p)
    ensures MatchAt(v, qtype, p) == MatchAt(w, qtype, p)
  {
    WalkFrame(v.View(p.zone.name), w.View(p.zone.name), p.zone.name, p.name, qtype);
  }

  lemma {:induction false} RecordsFrame(v: Resolver, w: Resolver, encode: Encoder, qtype: u16, p: Place, rs: seq<Row>,
                                        present: bool)
    requires SameZones(v, w) && Framed(v, w, p)
    ensures OnRecords(v, encode, p, qtype, rs, present) == OnRecords(w, encode, p, qtype, rs, present)
  {
    GlueFrame(encode, v.View(p.zone.name), w.View(p.zone.name), p.zone.name, OfType(rs, qtype));
  }

  lemma {:induction false} OnMatchFrame(v: Resolver, w: Resolver, encode: Encoder, qtype: u16, p: Place, m: Match)
    requires SameZones(v, w) && Framed(v, w, p)
    ensures OnMatch(v, encode, qtype, p, m) == OnMatch(w, encode, qtype, p, m)
  {
    match m
    case Failed =>
    case Cut(at, ns) => GlueFrame(encode, v.View(p.zone.name), w.View(p.zone.name), p.zone.name, ns);
    case Redirect(at, d) =>
    case Answer(rs, present) => RecordsFrame(v, w, encode, qtype, p, rs, present);
  }

  lemma {:induction false} TurnFrame(v: Resolver, w: Resolver, encode: Encoder, qtype: u16, vb: LoopBody,
                                     wb: LoopBody, p: Place)
    requires IsLoopBody(vb, v, encode, qtype) && IsLoopBody(wb, w, encode, qtype)
    requires SameZones(v, w) && Framed(v, w, p)
    ensures vb(p) == wb(p)
  {
    TurnIs(vb, v, encode, qtype, p);
    TurnIs(wb, w, encode, qtype, p);
    MatchFrame(v, w, qtype, p);
    OnMatchFrame(v, w, encode, qtype, p, MatchAt(v, qtype, p));
  }

  lemma {:induction false} SameTurnsSameRun(vb: LoopBody, wb: LoopBody, p: Place, left: nat)
    requires forall q :: q in Visits(vb, p, left) ==> vb(q) == wb(q)
    ensures Loop(vb, p, left) == Loop(wb, p, left) && Visits(vb, p, left) == Visits(wb, p, left)
    decreases left
  {
    if left > 0 {
      assert Visits(vb, p, left)[0] == p;
      if vb(p).Hop? { SameTurnsSameRun(vb, wb, vb(p).to, left - 1); }
    }
  }

  /** As long as every place the loop passes through holds its name, the whole run depends on the
      zones it passes through alone. */
  lemma {:induction false} LoopFrame(v: Resolver, w: Resolver, encode: Encoder, qtype: u16, vb: LoopBody, wb: LoopBody,
                                     p: Place, left: nat)
    requires IsLoopBody(vb, v, encode, qtype) && IsLoopBody(wb, w, encode, qtype) && SameZones(v, w)
    requires forall q :: q in Visits(vb, p, left) ==> Framed(v, w, q)
    ensures Loop(vb, p, left) == Loop(wb, p, left) && Visits(vb, p, left) == Visits(wb, p, left)
  {
    forall q | q in Visits(vb, p, left)
      ensures vb(q) == wb(q)
    {
      TurnFrame(v, w, encode, qtype, vb, wb, q);
    }
    SameTurnsSameRun(vb, wb, p, left);
  }
}
