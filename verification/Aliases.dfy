/** What the alias loop guarantees: it stays inside the zone it looks in, and its answers form a
    chain of aliases. */
module Aliases {
  import opened Bytes
  import opened Names
  import opened Validation
  import opened Tables
  import opened Message
  import opened WireName
  import opened RData
  import opened Lookup
  import opened Service
  import opened Resolution

  // ---- the zone of the current name --------------------------------------------------

  /** What a turn keeps holds at every place the loop passes through. */
  lemma {:induction false} VisitsKeep(body: LoopBody, ok: Place -> bool, p: Place, left: nat, i: nat)
    requires ok(p) && forall q :: ok(q) && body(q).Hop? ==> ok(body(q).to)
    requires i < |Visits(body, p, left)|
    ensures ok(Visits(body, p, left)[i])
    decreases left
  {
    if i > 0 { VisitsKeep(body, ok, body(p).to, left - 1, i - 1); }
  }

  lemma {:induction false} HopFindsItsZone(body: LoopBody, w: Resolver, encode: Encoder, qtype: u16, p: Place)
    requires IsLoopBody(body, w, encode, qtype) && body(p).Hop?
    ensures var to := body(p).to; w.findZone(to.name) == Held(to.zone) && to.owner == to.name
  {
    TurnIs(body, w, encode, qtype, p);
  }

  predicate InFoundZone(w: Resolver, p: Place) {
    w.findZone(p.name) == Held(p.zone)
  }

  /** Every place the loop passes through pairs a name with the zone found for it, and there are
      at most nine. */
  lemma {:induction false} VisitsFindTheirZone(body: LoopBody, w: Resolver, encode: Encoder, qtype: u16, p: Place)
    requires IsLoopBody(body, w, encode, qtype) && InFoundZone(w, p)
    ensures var vs := Visits(body, p, MAX_CHAIN + 1);
            |vs| <= 9 && forall i :: 0 <= i < |vs| ==> InFoundZone(w, vs[i])
  {
    var vs := Visits(body, p, MAX_CHAIN + 1);
    forall q | InFoundZone(w, q) && body(q).Hop?
      ensures InFoundZone(w, body(q).to)
    {
      HopFindsItsZone(body, w, encode, qtype, q);
    }
    forall i | 0 <= i < |vs|
      ensures InFoundZone(w, vs[i])
    {
      VisitsKeep(body, q => InFoundZone(w, q), p, MAX_CHAIN + 1, i);
    }
  }

  /** The text ends in something other than white space or a dot. */
  predicate EndsInLabel(n: Text) {
    n != [] && !IsSpace(n[|n| - 1]) && n[|n| - 1] != DOT
  }

  lemma {:induction false} TrimRightStops(s: Text)
    requires s != [] && !IsSpace(s[|s| - 1])
    ensures TrimRight(s) == s
  {
  }

  lemma {:induction false} TrimLeftIsSuffix(s: Text) returns (i: nat)
    requires s != [] && !IsSpace(s[|s| - 1])
    ensures i < |s| && TrimLeft(s) == s[i..]
    ensures i == 0 <==> !IsSpace(s[0])
    ensures i > 0 ==> IsSpace(s[i - 1])
  {
    if IsSpace(s[0]) {
      var j := TrimLeftIsSuffix(s[1..]);
      i := j + 1;
    } else {
      i := 0;
    }
  }

  lemma {:induction false} NormalizedIsSuffix(n: Text) returns (i: nat)
    requires EndsInLabel(n) && Lower(n) == n
    ensures i < |n| && NormalizeZone(n) == n[i..]
    ensures i == 0 <==> !IsSpace(n[0])
    ensures i > 0 ==> IsSpace(n[i - 1])
  {
    i := TrimLeftIsSuffix(n);
    TrimRightStops(n[i..]);
    assert Lower(n[i..]) == n[i..];
  }

  lemma {:induction false} LeadingSpace(n: Text, m: Text, z: Text, i: nat)
    requires i < |n| && m == n[i..] && InZone(m, z) && (i > 0 ==> IsSpace(n[i - 1]))
    ensures InZone(n, z) <==> i == 0 || z != m
  {
  }

  lemma {:induction false} SameLastByte(n: Text, z: Text)
    requires InZone(n, z) && z != []
    ensures n != [] && n[|n| - 1] == z[|z| - 1]
  {
  }

  lemma {:induction false} DeepestHoldsName(zones: map<Text, Zone>, m: Text)
    requires Deepest(zones, m).Some? && forall k :: k in zones ==> zones[k].name == k && ValidName(k)
    ensures var z := Deepest(zones, m).value.name; InZone(m, z) && ValidName(z) && (z == m <==> m in zones)
  {
    DeepestIsLongestMatch(zones, m);
  }

  /** `FindZone` trims white space and a trailing dot before it looks, and the handler does not.
      So the zone found for a lower-case name holds that name if and only if the name ends in a
      label and, should it start with white space, its trimmed form is not itself a zone. */
  lemma {:induction false} FoundZoneHoldsNameIff(zones: map<Text, Zone>, n: Text)
    requires Lower(n) == n && FindZone(zones, n).Some?
    requires forall k :: k in zones ==> zones[k].name == k && ValidName(k)
    ensures InZone(n, FindZone(zones, n).value.name) <==>
            EndsInLabel(n) && (!IsSpace(n[0]) || NormalizeZone(n) !in zones)
  {
    var m := NormalizeZone(n);
    var z := FindZone(zones, n).value.name;
    DeepestHoldsName(zones, m);
    ValidIsClean(z);
    if EndsInLabel(n) {
      var i := NormalizedIsSuffix(n);
      LeadingSpace(n, m, z, i);
    } else if InZone(n, z) {
      SameLastByte(n, z);
    }
  }

  /** A space in front of a zone's name: the zone is found but does not hold the name. */
  lemma {:induction false} SpacedNameEscapes(zones: map<Text, Zone>, z: Text)
    requires z in zones && ValidName(z)
    ensures var n := [SPACE] + z; Lower(n) == n && FindZone(zones, n) == Some(zones[z]) && !InZone(n, z)
  {
    var n := [SPACE] + z;
    ValidIsClean(z);
    CleanIsFixed(z);
    assert n[1..] == z;
    assert TrimLeft(n) == TrimLeft(z) == z;
    TrimRightStops(z);
  }

  // ---- the chain ---------------------------------------------------------------------

  /** The answers other than DNAME records. */
  function Plain(rs: seq<RR>): seq<RR> {
    if rs == [] then [] else (if rs[0].rtype == TYPE_DNAME then [] else [rs[0]]) + Plain(rs[1..])
  }

  /** The record's owner is `owner`; the zone's own SOA has it in lower case. */
  predicate Owned(r: RR, owner: Text) {
    r.name == owner || (r.rtype == TYPE_SOA && r.name == Lower(owner))
  }

  /** Aliases one after another, each owned by the target of the one before, and then a set of
      records that share the last owner. */
  predicate Chain(rs: seq<RR>, owner: Text) {
    || (forall i :: 0 <= i < |rs| ==> Owned(rs[i], owner))
    || (Alias(rs[0], owner) && Chain(rs[1..], Lower(TargetName(TYPE_CNAME, rs[0].rdata))))
  }

  predicate Alias(r: RR, owner: Text) {
    r.rtype == TYPE_CNAME && r.name == owner
  }

  /** Record data of a name-valued type is one packed name. */
  ghost predicate NamesPacked(encode: Encoder) {
    forall t: u16, s {:trigger encode(t, s)} ::
      t in {TYPE_NS, TYPE_CNAME, TYPE_DNAME, TYPE_PTR} && encode(t, s).Some? ==> exists n :: PackName(n) == encode(t, s)
  }

  /** Name-valued types as the encoder treats them: one name, without blanks inside, packed. */
  function NameData(text: Text): Option<Text> {
    var t := TrimSpace(text);
    if t == [] || 32 in t || 9 in t then None else PackName(t)
  }

  /** An encoder with its name-valued cases spelled out. */
  function WithNames(other: Encoder): Encoder {
    (t, s) => if t in {TYPE_NS, TYPE_CNAME, TYPE_DNAME, TYPE_PTR} then NameData(s) else other(t, s)
  }

  lemma {:induction false} WithNamesPacks(other: Encoder)
    ensures NamesPacked(WithNames(other))
  {
    forall t: u16, s | t in {TYPE_NS, TYPE_CNAME, TYPE_DNAME, TYPE_PTR} && WithNames(other)(t, s).Some?
      ensures exists n :: PackName(n) == WithNames(other)(t, s)
    {
      assert WithNames(other)(t, s) == NameData(s);
      assert PackName(TrimSpace(s)) == NameData(s);
    }
  }

  /** The data of a name-valued record is its own text, without white space around it, packed: it decodes
      to that name in canonical form. Data that is not a single name is refused. */
  lemma {:induction false} NameRowDecodes(other: Encoder, rtype: u16, rdata: Text)
    requires rtype in {2, 5, 12, 39}
    ensures var data := WithNames(other)(rtype, rdata);
            var text := TrimSpace(rdata);
            && (data.Some? ==> TargetName(rtype, data.value) == Canonical(text))
            && (data.Some? <==> text != [] && 32 !in text && 9 !in text && Packable(text))
  {
    var text := TrimSpace(rdata);
    assert WithNames(other)(rtype, rdata) == NameData(rdata);
    if Packable(text) {
      TargetRoundTrip(rtype, [], text);
      assert [] + PackName(text).value == PackName(text).value;
    }
  }

  /** No lookup returns two CNAME records. */
  ghost predicate LoneCnames(w: Resolver) {
    forall z, n {:trigger w.lookup(z, n)} :: w.lookup(z, n).Some? ==>
      |OfType(w.lookup(z, n).value.records, TYPE_CNAME)| <= 1
  }

  lemma {:induction false} PlainAppend(a: seq<RR>, b: seq<RR>)
    ensures Plain(a + b) == Plain(a) + Plain(b)
  {
    if a == [] {
      assert a + b == b;
    } else {
      assert (a + b)[1..] == a[1..] + b;
      PlainAppend(a[1..], b);
    }
  }

  lemma {:induction false} PlainOwned(rs: seq<RR>, owner: Text)
    requires forall i :: 0 <= i < |rs| ==> rs[i].rtype == TYPE_DNAME || Owned(rs[i], owner)
    ensures forall i :: 0 <= i < |Plain(rs)| ==> Owned(Plain(rs)[i], owner)
  {
    if rs != [] { PlainOwned(rs[1..], owner); }
  }

  lemma {:induction false} EmitAllOwned(encode: Encoder, owner: Text, rs: seq<Row>)
    ensures forall i :: 0 <= i < |EmitAll(encode, owner, rs)| ==> EmitAll(encode, owner, rs)[i].name == owner
  {
    if rs != [] { EmitAllOwned(encode, owner, rs[..|rs| - 1]); }
  }

  // What each way of ending a turn adds to the answers.

  lemma {:induction false} RecordsAdd(w: Resolver, encode: Encoder, p: Place, qtype: u16, rs: seq<Row>,
                                      present: bool) returns (add: seq<RR>)
    requires p.name == Lower(p.owner) && OnRecords(w, encode, p, qtype, rs, present).Stop?
    ensures OnRecords(w, encode, p, qtype, rs, present).reply.answers == p.reply.answers + add
    ensures forall i :: 0 <= i < |add| ==> Owned(add[i], p.owner)
  {
    var apex := p.name == p.zone.name;
    if qtype == TYPE_ANY {
      var soa := if apex then SoaList(p.zone) else [];
      var own := SetOf(encode, p.owner, rs, p.rot);
      EmitAllOwned(encode, p.owner, Rotated(rs, Leader(|rs|, p.rot)));
      add := soa + own;
      Assoc(p.reply.answers, soa, own);
    } else if apex && qtype == TYPE_SOA {
      add := SoaList(p.zone);
    } else if OfType(rs, qtype) != [] {
      var m := OfType(rs, qtype);
      EmitAllOwned(encode, p.owner, Rotated(m, Leader(|m|, p.rot)));
      add := SetOf(encode, p.owner, m, p.rot);
    } else if qtype != TYPE_CNAME && OfType(rs, TYPE_CNAME) != [] {
      var m := OfType(rs, TYPE_CNAME);
      EmitAllOwned(encode, p.owner, Rotated(m, Leader(|m|, p.rot)));
      add := SetOf(encode, p.owner, m, p.rot);
    } else {
      add := [];
    }
  }

  lemma {:induction false} DnameAdds(w: Resolver, encode: Encoder, p: Place, at: Text, d: Row) returns (add: seq<RR>)
    requires d.rtype == TYPE_DNAME && OnDname(w, encode, p, at, d).Stop?
    ensures OnDname(w, encode, p, at, d).reply.answers == p.reply.answers + add
    ensures forall i :: 0 <= i < |add| ==> add[i].rtype == TYPE_DNAME || Owned(add[i], p.owner)
  {
    var target := TargetName(TYPE_DNAME, WireOf(encode, d));
    var next := Substituted(p.name, at, target);
    add := Emit(encode, at, d);
    if target != [] && |next| <= 253 && PackName(next).Some? {
      var c := [Synthesized(p.owner, d, PackName(next).value)];
      Assoc(p.reply.answers, add, c);
      add := add + c;
    }
  }

  lemma {:induction false} RedirectIsDname(w: Resolver, qtype: u16, p: Place)
    ensures var m := MatchAt(w, qtype, p); m.Redirect? ==> m.dname.rtype == TYPE_DNAME
  {
    var view := w.View(p.zone.name);
    WalkIsBottomUp(view, p.zone.name, p.name, qtype);
    var e := Encloser(Nominal(view), p.zone.name, p.name);
    var ds := DnameAt(Nominal(view), e);
    if ds != [] { OfTypeMember(Nominal(view)(e).records, TYPE_DNAME, ds[0]); }
  }

  lemma {:induction false} StopAddsAt(w: Resolver, encode: Encoder, qtype: u16, p: Place, m: Match)
    returns (add: seq<RR>)
    requires p.name == Lower(p.owner) && OnMatch(w, encode, qtype, p, m).Stop?
    requires m.Redirect? ==> m.dname.rtype == TYPE_DNAME
    ensures OnMatch(w, encode, qtype, p, m).reply.answers == p.reply.answers + add
    ensures forall i :: 0 <= i < |add| ==> add[i].rtype == TYPE_DNAME || Owned(add[i], p.owner)
  {
    match m
    case Cut(_, _) => add := [];
    case Redirect(at, d) => add := DnameAdds(w, encode, p, at, d);
    case Answer(rs, present) => add := RecordsAdd(w, encode, p, qtype, rs, present);
  }

  /** A last turn adds, besides DNAME records, only records of the current owner. */
  lemma {:induction false} StopAdds(body: LoopBody, w: Resolver, encode: Encoder, qtype: u16, p: Place)
    returns (add: seq<RR>)
    requires IsLoopBody(body, w, encode, qtype) && body(p).Stop? && p.name == Lower(p.owner)
    ensures body(p).reply.answers == p.reply.answers + add && Chain(Plain(add), p.owner)
  {
    TurnIs(body, w, encode, qtype, p);
    RedirectIsDname(w, qtype, p);
    add := StopAddsAt(w, encode, qtype, p, MatchAt(w, qtype, p));
    PlainOwned(add, p.owner);
  }

  // ---- hops --------------------------------------------------------------------------

  lemma {:induction false} GoodHasNoTrailingDot(t: Text)
    requires GoodLabels(Labels(t))
    ensures t != [] && t[|t| - 1] != DOT
  {
    assert Labels([]) == [[]];
    if t != [] && t[|t| - 1] == DOT { TrailingDotLabel(t); }
  }

  /** A target is the root or well-formed text. */
  lemma {:induction false} TargetIsTidy(encode: Encoder, rtype: u16, rdata: Text)
    requires NamesPacked(encode) && rtype in {TYPE_NS, TYPE_CNAME, TYPE_DNAME, TYPE_PTR} && encode(rtype, rdata).Some?
    ensures var t := TargetName(rtype, encode(rtype, rdata).value); t == [DOT] || GoodLabels(Labels(t))
  {
    var n :| PackName(n) == encode(rtype, rdata);
    TargetRoundTrip(rtype, [], n);
    assert [] + PackName(n).value == PackName(n).value;
  }

  lemma {:induction false} SubstitutedIsLower(name: Text, at: Text, target: Text)
    requires Lower(name) == name
    ensures Lower(Substituted(name, at, target)) == Substituted(name, at, target)
  {
  }

  lemma {:induction false} RootTargetIsUnpackable(x: Text)
    ensures !Packable(x + [DOT] + [DOT])
  {
    var n := x + [DOT];
    assert TrimDot(x + [DOT] + [DOT]) == n;
    TrailingDotLabel(n);
  }

  lemma {:induction false} RootNextIsUnpackable(name: Text, at: Text)
    ensures PackName(Substituted(name, at, [DOT])) == None
  {
    assert Lower([DOT]) == [DOT];
    RootTargetIsUnpackable(if Below(name, at) then name[..|name| - |at| - 1] else name);
  }

  /** A redirected name that can be packed is its own canonical form. */
  lemma {:induction false} SubstitutedIsCanonical(name: Text, at: Text, target: Text)
    requires Packable(Substituted(name, at, target)) && (target == [DOT] || GoodLabels(Labels(target)))
    ensures Canonical(Substituted(name, at, target)) == Substituted(name, at, target)
  {
    var x := if Below(name, at) then name[..|name| - |at| - 1] else name;
    if target == [DOT] {
      assert Lower(target) == [DOT];
      RootTargetIsUnpackable(x);
    } else {
      GoodHasNoTrailingDot(target);
      var next := Substituted(name, at, target);
      assert next[|next| - 1] == LowerByte(target[|target| - 1]);
    }
  }

  /** The synthesized alias decodes to the name the loop goes on with. */
  lemma {:induction false} SynthesizedPointsOn(name: Text, at: Text, target: Text)
    requires Lower(name) == name && Packable(Substituted(name, at, target))
    requires target == [DOT] || GoodLabels(Labels(target))
    ensures var next := Substituted(name, at, target);
            TargetName(TYPE_CNAME, PackName(next).value) == next && Lower(next) == next
  {
    var next := Substituted(name, at, target);
    SubstitutedIsLower(name, at, target);
    SubstitutedIsCanonical(name, at, target);
    TargetRoundTrip(TYPE_CNAME, [], next);
    assert [] + PackName(next).value == PackName(next).value;
  }

  lemma {:induction false} PlainAfterDname(ds: seq<RR>, c: RR)
    requires |ds| <= 1 && (forall i :: 0 <= i < |ds| ==> ds[i].rtype == TYPE_DNAME) && c.rtype != TYPE_DNAME
    ensures Plain(ds + [c]) == [c]
  {
    PlainAppend(ds, [c]);
    assert [c][1..] == [];
    assert ds != [] ==> ds[1..] == [];
  }

  lemma {:induction false} DnameHopIs(w: Resolver, encode: Encoder, p: Place, at: Text, d: Row) returns (next: Text)
    requires OnDname(w, encode, p, at, d).Hop?
    ensures encode(d.rtype, d.rdata).Some? && next == Substituted(p.name, at, TargetName(TYPE_DNAME, WireOf(encode, d)))
    ensures Packable(next) && OnDname(w, encode, p, at, d).to.name == OnDname(w, encode, p, at, d).to.owner == next
    ensures OnDname(w, encode, p, at, d).to.reply.answers
            == p.reply.answers + (Emit(encode, at, d) + [Synthesized(p.owner, d, PackName(next).value)])
  {
    next := Substituted(p.name, at, TargetName(TYPE_DNAME, WireOf(encode, d)));
    Assoc(p.reply.answers, Emit(encode, at, d), [Synthesized(p.owner, d, PackName(next).value)]);
  }

  lemma {:induction false} DnameHops(w: Resolver, encode: Encoder, p: Place, at: Text, d: Row)
    returns (add: seq<RR>, c: RR)
    requires NamesPacked(encode) && d.rtype == TYPE_DNAME
    requires p.name == Lower(p.owner) && OnDname(w, encode, p, at, d).Hop?
    ensures var to := OnDname(w, encode, p, at, d).to;
            && to.reply.answers == p.reply.answers + add && Plain(add) == [c] && Alias(c, p.owner)
            && Lower(TargetName(TYPE_CNAME, c.rdata)) == to.owner && to.name == Lower(to.owner)
  {
    var target := TargetName(TYPE_DNAME, WireOf(encode, d));
    var next := DnameHopIs(w, encode, p, at, d);
    c := Synthesized(p.owner, d, PackName(next).value);
    add := Emit(encode, at, d) + [c];
    PlainAfterDname(Emit(encode, at, d), c);
    TargetIsTidy(encode, TYPE_DNAME, d.rdata);
    LowerIdempotent(p.owner);
    SynthesizedPointsOn(p.name, at, target);
  }

  lemma {:induction false} CnameHops(w: Resolver, encode: Encoder, p: Place, cs: seq<Row>) returns (add: seq<RR>, c: RR)
    requires |cs| == 1 && cs[0].rtype == TYPE_CNAME && OnCname(w, encode, p, cs).Hop?
    ensures var to := OnCname(w, encode, p, cs).to;
            && to.reply.answers == p.reply.answers + add && Plain(add) == [c] && Alias(c, p.owner)
            && Lower(TargetName(TYPE_CNAME, c.rdata)) == to.owner && to.name == Lower(to.owner)
  {
    var r := cs[0];
    LowerIdempotent(TargetName(TYPE_CNAME, WireOf(encode, r)));
    c := RR(p.owner, TYPE_CNAME, CLASS_IN, Mod32(r.ttl), WireOf(encode, r));
    add := [c];
    assert Rotated(cs, 0) == cs == [r];
    assert EmitAll(encode, p.owner, [r]) == EmitAll(encode, p.owner, []) + [c];
  }

  lemma {:induction false} WalkedRecords(w: Resolver, qtype: u16, p: Place)
    requires LoneCnames(w)
    ensures var m := MatchAt(w, qtype, p); m.Answer? ==> |OfType(m.records, TYPE_CNAME)| <= 1
  {
  }

  /** A hop adds, besides a DNAME, exactly one alias, which points at the next owner. */
  lemma {:induction false} HopAddsAt(w: Resolver, encode: Encoder, qtype: u16, p: Place, m: Match)
    returns (add: seq<RR>, c: RR)
    requires NamesPacked(encode) && p.name == Lower(p.owner) && OnMatch(w, encode, qtype, p, m).Hop?
    requires m.Redirect? ==> m.dname.rtype == TYPE_DNAME
    requires m.Answer? ==> |OfType(m.records, TYPE_CNAME)| <= 1
    ensures var to := OnMatch(w, encode, qtype, p, m).to;
            && to.reply.answers == p.reply.answers + add && Plain(add) == [c] && Alias(c, p.owner)
            && Lower(TargetName(TYPE_CNAME, c.rdata)) == to.owner && to.name == Lower(to.owner)
  {
    match m
    case Redirect(at, d) => add, c := DnameHops(w, encode, p, at, d);
    case Answer(rs, present) =>
      var cs := OfType(rs, TYPE_CNAME);
      OfTypeMember(rs, TYPE_CNAME, cs[0]);
      add, c := CnameHops(w, encode, p, cs);
  }

  lemma {:induction false} HopAdds(body: LoopBody, w: Resolver, encode: Encoder, qtype: u16, p: Place)
    returns (add: seq<RR>, c: RR)
    requires IsLoopBody(body, w, encode, qtype) && NamesPacked(encode) && LoneCnames(w) && body(p).Hop?
             && p.name == Lower(p.owner)
    ensures var to := body(p).to;
            && to.reply.answers == p.reply.answers + add && Plain(add) == [c] && Alias(c, p.owner)
            && Lower(TargetName(TYPE_CNAME, c.rdata)) == to.owner && to.name == Lower(to.owner)
  {
    TurnIs(body, w, encode, qtype, p);
    RedirectIsDname(w, qtype, p);
    WalkedRecords(w, qtype, p);
    add, c := HopAddsAt(w, encode, qtype, p, MatchAt(w, qtype, p));
  }

  /** For every number of turns: what the loop adds to the answers is, leaving out DNAME records,
      a chain of aliases from the current owner. */
  lemma {:induction false} LoopAddsChain(body: LoopBody, w: Resolver, encode: Encoder, qtype: u16, p: Place, left: nat,
                                         r: Reply) returns (add: seq<RR>)
    requires IsLoopBody(body, w, encode, qtype) && NamesPacked(encode) && LoneCnames(w) && p.name == Lower(p.owner)
    requires Loop(body, p, left).0 == Some(r)
    ensures r.answers == p.reply.answers + add && Chain(Plain(add), p.owner)
    decreases left
  {
    if left == 0 {
      add := [];
    } else if body(p).Stop? {
      add := StopAdds(body, w, encode, qtype, p);
    } else {
      var first, c := HopAdds(body, w, encode, qtype, p);
      var to := body(p).to;
      var rest := LoopAddsChain(body, w, encode, qtype, to, left - 1, r);
      add := first + rest;
      Assoc(p.reply.answers, first, rest);
      PlainAppend(first, rest);
      assert Plain(add)[1..] == Plain(rest);
    }
  }

  // ---- redirection -------------------------------------------------------------------

  lemma {:induction false} LowerKeepsGood(t: Text)
    ensures GoodLabels(Labels(Lower(t))) <==> GoodLabels(Labels(t))
  {
    LowerKeepsLabels(t);
  }

  lemma {:induction false} SubstitutedLabels(name: Text, at: Text, target: Text)
    requires Below(name, at)
    ensures |Labels(at)| < |Labels(name)|
    ensures Labels(Substituted(name, at, target)) ==
            Labels(name)[..|Labels(name)| - |Labels(at)|] + Labels(Lower(target))
  {
    var x := BelowSplits(name, at);
    assert x == name[..|name| - |at| - 1];
    LabelsConcat(x, at);
    LabelsConcat(x, Lower(target));
    assert Labels(name)[..|Labels(x)|] == Labels(x);
  }

  lemma {:induction false} SubstitutedIsGood(name: Text, at: Text, target: Text)
    requires Below(name, at) && GoodLabels(Labels(name)) && GoodLabels(Labels(target))
    ensures GoodLabels(Labels(Substituted(name, at, target)))
  {
    SubstitutedLabels(name, at, target);
    LowerKeepsGood(target);
  }

  lemma {:induction false} GoodRoundTrip(n: Text)
    requires GoodLabels(Labels(n))
    ensures PackName(n).Some? <==> |n| <= 253
    ensures |n| <= 253 ==> ParseName(PackName(n).value, 0) == Some((n, |PackName(n).value|))
  {
    GoodHasNoTrailingDot(n);
    if |n| <= 253 {
      var w := PackName(n).value;
      assert [] + w + [] == w;
      ParsePacked(w, [], n, w, []);
    }
  }

  /** Section 2.2 of RFC 6672: the labels of the owner are replaced by those of the target, and
      the new name can be packed exactly when its text is at most 253 octets, in which case the
      alias synthesized for it decodes to it. */
  lemma {:induction false} DnameSubstitution(name: Text, at: Text, target: Text)
    requires Below(name, at) && GoodLabels(Labels(name)) && GoodLabels(Labels(target))
    ensures |Labels(at)| < |Labels(name)|
    ensures var next := Substituted(name, at, target);
            && Labels(next) == Labels(name)[..|Labels(name)| - |Labels(at)|] + Labels(Lower(target))
            && (PackName(next).Some? <==> |next| <= 253)
            && (|next| <= 253 ==> ParseName(PackName(next).value, 0) == Some((next, |PackName(next).value|)))
  {
    SubstitutedLabels(name, at, target);
    SubstitutedIsGood(name, at, target);
    GoodRoundTrip(Substituted(name, at, target));
  }

  lemma {:induction false} AliasTarget(c: RR, next: Text)
    requires ParseName(c.rdata, 0) == Some((next, |c.rdata|))
    ensures TargetName(TYPE_CNAME, c.rdata) == next
  {
  }

  /** With the root for a target the new text ends in two dots and cannot be packed: the turn adds
      the DNAME alone, whatever the length. */
  lemma {:induction false} RootTargetTurn(w: Resolver, encode: Encoder, p: Place, at: Text, d: Row)
    requires TargetName(TYPE_DNAME, WireOf(encode, d)) == [DOT]
    ensures var next := Substituted(p.name, at, [DOT]);
            OnDname(w, encode, p, at, d) ==
            Stop(p.reply.(answers := p.reply.answers + Emit(encode, at, d),
                          rcode := if |next| > 253 then SERVFAIL else p.reply.rcode), p.rot)
  {
    RootNextIsUnpackable(p.name, at);
  }

  lemma {:induction false} ProperTargetTurn(w: Resolver, encode: Encoder, p: Place, at: Text, d: Row) returns (c: RR)
    requires NamesPacked(encode) && d.rtype == TYPE_DNAME && encode(TYPE_DNAME, d.rdata).Some?
    requires Below(p.name, at) && GoodLabels(Labels(p.name)) && TargetName(TYPE_DNAME, WireOf(encode, d)) != [DOT]
    ensures var next := Substituted(p.name, at, TargetName(TYPE_DNAME, WireOf(encode, d)));
            var answers := p.reply.answers + Emit(encode, at, d);
            var t := OnDname(w, encode, p, at, d);
            if |next| > 253 then t == Stop(p.reply.(answers := answers, rcode := SERVFAIL), p.rot)
            else && Alias(c, p.owner) && TargetName(TYPE_CNAME, c.rdata) == next && c.ttl == Mod32(d.ttl)
                 && t == Onward(w, p.reply.(answers := answers + [c]), p.rot, next)
  {
    var target := TargetName(TYPE_DNAME, WireOf(encode, d));
    TargetIsTidy(encode, TYPE_DNAME, d.rdata);
    GoodHasNoTrailingDot(target);
    DnameSubstitution(p.name, at, target);
    var next := Substituted(p.name, at, target);
    c := Synthesized(p.owner, d, if |next| <= 253 then PackName(next).value else []);
    if |next| <= 253 { AliasTarget(c, next); }
  }

  /** A turn at a servable DNAME, exactly: the DNAME is added; an alias is added after it if and only
      if the target is not the root and the new name is at most 253 octets, and it has the DNAME's
      TTL and decodes to the new name; and SERVFAIL is set if and only if the new name is longer. */
  lemma {:induction false} DnameTurn(w: Resolver, encode: Encoder, p: Place, at: Text, d: Row) returns (c: RR)
    requires NamesPacked(encode) && d.rtype == TYPE_DNAME && encode(TYPE_DNAME, d.rdata).Some?
    requires Below(p.name, at) && GoodLabels(Labels(p.name))
    ensures var target := TargetName(TYPE_DNAME, WireOf(encode, d));
            var next := Substituted(p.name, at, target);
            var answers := p.reply.answers + Emit(encode, at, d);
            var t := OnDname(w, encode, p, at, d);
            if |next| > 253 then t == Stop(p.reply.(answers := answers, rcode := SERVFAIL), p.rot)
            else if target == [DOT] then t == Stop(p.reply.(answers := answers), p.rot)
            else && Alias(c, p.owner) && TargetName(TYPE_CNAME, c.rdata) == next && c.ttl == Mod32(d.ttl)
                 && t == Onward(w, p.reply.(answers := answers + [c]), p.rot, next)
  {
    if TargetName(TYPE_DNAME, WireOf(encode, d)) == [DOT] {
      RootTargetTurn(w, encode, p, at, d);
      c := Synthesized(p.owner, d, []);
    } else {
      c := ProperTargetTurn(w, encode, p, at, d);
    }
  }

  /** The answers to a query, leaving out DNAME records, form a chain of aliases from the name as
      the requestor wrote it to the set that answers. */
  lemma {:induction false} AnswersFormAChain(body: LoopBody, w: Resolver, encode: Encoder, qtype: u16, p: Place,
                                             r: Reply)
    requires IsLoopBody(body, w, encode, qtype) && NamesPacked(encode) && LoneCnames(w) && p.name == Lower(p.owner)
    requires p.reply.answers == [] && Loop(body, p, MAX_CHAIN + 1).0 == Some(r)
    ensures Chain(Plain(r.answers), p.owner)
  {
    var add := LoopAddsChain(body, w, encode, qtype, p, MAX_CHAIN + 1, r);
    assert r.answers == add;
  }
}
