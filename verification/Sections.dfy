/** What the rotation of a set and the additional section amount to. */
module Sections {
  import opened Arithmetic
  import opened Bytes
  import opened Names
  import opened Tables
  import opened Message
  import opened Lookup
  import opened Service
  import opened Resolution

  // ---- rotation ----------------------------------------------------------------------

  lemma {:induction false} SwapKeepsMultiset<T>(a: seq<T>, b: seq<T>)
    ensures multiset(a + b) == multiset(b + a)
  {
  }

  lemma {:induction false} EmitAllAppend(encode: Encoder, owner: Text, a: seq<Row>, b: seq<Row>)
    ensures EmitAll(encode, owner, a + b) == EmitAll(encode, owner, a) + EmitAll(encode, owner, b)
  {
    if b == [] {
      assert a + b == a;
    } else {
      var init := b[..|b| - 1];
      assert (a + b)[..|a + b| - 1] == a + init;
      EmitAllAppend(encode, owner, a, init);
      Assoc(EmitAll(encode, owner, a), EmitAll(encode, owner, init), Emit(encode, owner, b[|b| - 1]));
    }
  }

  lemma {:induction false} TurnedEmits(encode: Encoder, owner: Text, a: seq<Row>, b: seq<Row>)
    ensures multiset(EmitAll(encode, owner, b + a)) == multiset(EmitAll(encode, owner, a + b))
  {
    EmitAllAppend(encode, owner, a, b);
    EmitAllAppend(encode, owner, b, a);
    SwapKeepsMultiset(EmitAll(encode, owner, a), EmitAll(encode, owner, b));
  }

  /** Whatever the counter, a set is served whole: rotation only permutes it. */
  lemma {:induction false} SetIsWhole(encode: Encoder, owner: Text, rs: seq<Row>, rot: u32)
    ensures multiset(SetOf(encode, owner, rs, rot)) == multiset(EmitAll(encode, owner, rs))
  {
    var k := Leader(|rs|, rot);
    assert rs == rs[..k] + rs[k..];
    TurnedEmits(encode, owner, rs[..k], rs[k..]);
  }

  /** If the walk finds records of the type asked for, the turn ends there and adds exactly their
      servable forms, all of them, under the owner as asked; nothing else enters the answers, and
      no rcode or authority record is set. */
  lemma {:induction false} WholeSetAnswered(body: LoopBody, w: Resolver, encode: Encoder, qtype: u16, p: Place)
    requires IsLoopBody(body, w, encode, qtype) && qtype != TYPE_ANY && qtype != TYPE_SOA
    requires MatchAt(w, qtype, p).Answer? && OfType(MatchAt(w, qtype, p).records, qtype) != []
    ensures body(p).Stop?
    ensures var r := body(p).reply;
            && multiset(r.answers) == multiset(p.reply.answers)
               + multiset(EmitAll(encode, p.owner, OfType(MatchAt(w, qtype, p).records, qtype)))
            && p.reply.answers <= r.answers
            && r.rcode == p.reply.rcode && r.aa == p.reply.aa && r.authority == p.reply.authority
  {
    TurnIs(body, w, encode, qtype, p);
    SetIsWhole(encode, p.owner, OfType(MatchAt(w, qtype, p).records, qtype), p.rot);
  }

  /** The servable form of a record. */
  function Served(encode: Encoder, owner: Text, r: Row): RR
    requires encode(r.rtype, r.rdata).Some?
  {
    RR(owner, r.rtype, CLASS_IN, Mod32(r.ttl), encode(r.rtype, r.rdata).value)
  }

  lemma {:induction false} EmitAllAt(encode: Encoder, owner: Text, rs: seq<Row>, i: nat)
    requires i < |rs| && forall r :: r in rs ==> r.rtype != 0 && encode(r.rtype, r.rdata).Some?
    ensures |EmitAll(encode, owner, rs)| == |rs|
    ensures rs[i] in rs && EmitAll(encode, owner, rs)[i] == Served(encode, owner, rs[i])
  {
    var init := rs[..|rs| - 1];
    assert forall r :: r in init ==> r in rs;
    assert rs[|rs| - 1] in rs;
    if init != [] { EmitAllAt(encode, owner, init, if i < |init| then i else 0); }
  }

  /** A set of servable records is served from its leader on, in order and round to the one before. */
  lemma {:induction false} ServedInOrder(encode: Encoder, owner: Text, rs: seq<Row>, rot: u32, i: nat)
    requires i < |rs| && forall r :: r in rs ==> r.rtype != 0 && encode(r.rtype, r.rdata).Some?
    ensures var k := (Leader(|rs|, rot) + i) % |rs|;
            && |SetOf(encode, owner, rs, rot)| == |rs| && rs[k] in rs
            && SetOf(encode, owner, rs, rot)[i] == Served(encode, owner, rs[k])
  {
    var lead := Leader(|rs|, rot);
    var turned := Rotated(rs, lead);
    assert forall r :: r in turned ==> r in rs;
    EmitAllAt(encode, owner, turned, i);
    RotatedAt(rs, lead, i);
  }

  /** The counter after `j` servings of a set of `n`. */
  function CounterAfter(n: nat, rot: u32, j: nat): u32 {
    if j == 0 then rot else Ticked(n, CounterAfter(n, rot, j - 1))
  }

  lemma {:induction false} CounterIs(n: nat, rot: u32, j: nat)
    requires n > 1
    ensures CounterAfter(n, rot, j) == Mod32(rot + j)
  {
    if j > 0 { CounterIs(n, rot, j - 1); }
  }

  /** The leader of the `j`th serving after the counter stood at `rot`. */
  function LeaderAt(n: nat, rot: u32, j: nat): nat {
    Leader(n, CounterAfter(n, rot, j))
  }

  function Leaders(n: nat, rot: u32): nat -> nat {
    j => LeaderAt(n, rot, j)
  }

  const WRAP := 0x1_0000_0000

  lemma {:induction false} WrappedOnce(x: nat)
    requires x < 2 * WRAP
    ensures Mod32(x) == if x < WRAP then x else x - WRAP
  {
    Quotient(x, WRAP, if x < WRAP then 0 else 1, if x < WRAP then x else x - WRAP);
  }

  /** The counter of the first serving is `rot + 1`; from `WRAP` on it begins again at zero. */
  lemma {:induction false} LeaderIs(n: nat, rot: u32, j: nat)
    requires 1 < n <= WRAP && j < n
    ensures LeaderAt(n, rot, j) == if rot + 1 + j < WRAP then (rot + 1 + j) % n else rot + 1 + j - WRAP
  {
    var c := rot + 1 + j;
    CounterIs(n, rot, j);
    WrappedOnce(rot + j);
    WrappedOnce(Mod32(rot + j) + 1);
    if c >= WRAP { Quotient(c - WRAP, n, 0, c - WRAP); }
  }

  /** Among the first `n` servings, `k` leads exactly one. */
  ghost predicate Once(lead: nat -> nat, n: nat, k: nat) {
    exists j: nat :: j < n && lead(j) == k && forall i: nat :: i < n && lead(i) == k ==> i == j
  }

  lemma {:induction false} OnceEach(lead: nat -> nat, a: nat, n: nat, k: nat)
    requires k < n && forall j: nat :: j < n ==> lead(j) == (a + j) % n
    ensures Once(lead, n, k)
  {
    var j: nat := (k - a) % n;
    RemainderReached(a, k, n);
    assert lead(j) == k;
    forall i: nat | i < n && lead(i) == k
      ensures i == j
    {
      SameRemainder(a + i, a + j, n);
    }
  }

  lemma {:induction false} WholeTurns(c: nat, n: nat, all: nat)
    requires 0 < n && all % n == 0 && all <= c < all + n
    ensures c % n == c - all
  {
    Quotient(c, n, all / n, c - all);
  }

  /** Where the counter wraps among the servings and the set's size does not divide the number of
      counter values, some record leads twice. */
  lemma {:induction false} LeadsTwice(lead: nat -> nat, start: nat, n: nat, all: nat) returns (k: nat)
    requires 1 < n <= all && 0 < start < all < start + n && all % n != 0
    requires forall j: nat :: j < n ==> lead(j) == if start + j < all then (start + j) % n else start + j - all
    ensures k < n && !Once(lead, n, k)
  {
    var b, s, q := all - start, all % n, all / n;
    assert all == n * q + s;
    var i, j: nat;
    if s <= n - b {
      k, i, j := s - 1, b - 1, b + s - 1;
      Quotient(start + i, n, q, k);
    } else {
      k, i, j := n - 1 - b, n - 1 - s, n - 1;
      Quotient(start + i, n, q, k);
    }
    assert i < b <= j < n && lead(i) == k && lead(j) == k;
  }

  /** The counter does not wrap between two of the `n` servings, or wraps at a multiple of `n`. */
  predicate Steady(n: nat, rot: u32)
    requires n > 0
  {
    rot + n < WRAP || rot + 1 == WRAP || WRAP % n == 0
  }

  lemma {:induction false} SteadyLeads(lead: nat -> nat, n: nat, rot: u32, k: nat)
    requires 1 < n <= WRAP && k < n && Steady(n, rot)
    requires forall j: nat :: j < n ==> lead(j) == if rot + 1 + j < WRAP then (rot + 1 + j) % n else rot + 1 + j - WRAP
    ensures Once(lead, n, k)
  {
    if rot + 1 == WRAP {
      forall j: nat | j < n
        ensures lead(j) == (0 + j) % n
      {
        Quotient(j, n, 0, j);
      }
      OnceEach(lead, 0, n, k);
    } else {
      forall j: nat | j < n
        ensures lead(j) == (rot + 1 + j) % n
      {
        if rot + 1 + j >= WRAP { WholeTurns(rot + 1 + j, n, WRAP); }
      }
      OnceEach(lead, rot + 1, n, k);
    }
  }

  /** Over `n` consecutive servings of a set of `n` records, each record leads exactly once if and
      only if the 32-bit counter does not wrap among them or `n` divides 2^32. */
  lemma {:induction false} EveryRecordLeadsIff(n: nat, rot: u32)
    requires 1 < n <= WRAP
    ensures (forall k: nat :: k < n ==> Once(Leaders(n, rot), n, k)) <==> Steady(n, rot)
  {
    var lead := Leaders(n, rot);
    forall j: nat | j < n
      ensures lead(j) == if rot + 1 + j < WRAP then (rot + 1 + j) % n else rot + 1 + j - WRAP
    {
      LeaderIs(n, rot, j);
    }
    if Steady(n, rot) {
      forall k: nat | k < n
        ensures Once(lead, n, k)
      {
        SteadyLeads(lead, n, rot, k);
      }
    } else {
      var k := LeadsTwice(lead, rot + 1, n, WRAP);
    }
  }

  // ---- additional records ------------------------------------------------------------

  predicate InZoneTarget(encode: Encoder, zone: Text, r: Row, t: Text) {
    t == Lower(TargetOf(encode, r)) && t != [] && InZone(t, zone)
  }

  /** The names looked up: distinct in-zone targets of the set, at most sixteen, and all of them
      unless there are sixteen. */
  lemma {:induction false} GlueNamesMean(encode: Encoder, zone: Text, rs: seq<Row>)
    ensures var ts := GlueNames(encode, zone, rs);
            && |ts| <= 16 && (forall i, j :: 0 <= i < j < |ts| ==> ts[i] != ts[j])
            && (forall t :: t in ts ==> exists r :: r in rs && InZoneTarget(encode, zone, r, t))
            && (forall r, t :: r in rs && InZoneTarget(encode, zone, r, t) ==> t in ts || |ts| == 16)
  {
    if rs != [] {
      var init, last := rs[..|rs| - 1], rs[|rs| - 1];
      GlueNamesMean(encode, zone, init);
      assert rs == init + [last];
      var ts, t := GlueNames(encode, zone, init), Lower(TargetOf(encode, last));
      if |ts| < 16 && t != [] && InZone(t, zone) && t !in ts {
        assert InZoneTarget(encode, zone, last, t);
      }
    }
  }

  lemma {:induction false} AddressRowsMember(rs: seq<Row>, r: Row)
    ensures r in AddressRows(rs) <==> r in rs && r.rtype in {TYPE_A, TYPE_AAAA}
  {
    if rs != [] {
      AddressRowsMember(rs[..|rs| - 1], r);
      assert rs == rs[..|rs| - 1] + [rs[|rs| - 1]];
    }
  }

  lemma {:induction false} EmitAllMember(encode: Encoder, owner: Text, rs: seq<Row>, x: RR)
    ensures x in EmitAll(encode, owner, rs) <==> exists r :: r in rs && Emit(encode, owner, r) == [x]
  {
    if rs != [] {
      EmitAllMember(encode, owner, rs[..|rs| - 1], x);
      assert rs == rs[..|rs| - 1] + [rs[|rs| - 1]];
    }
  }

  /** The record is the address of a looked-up name. */
  ghost predicate AddressOf(encode: Encoder, look: Lookups, t: Text, x: RR) {
    && look(t).Some?
    && exists r :: r in look(t).value.records && r.rtype in {TYPE_A, TYPE_AAAA} && Emit(encode, t, r) == [x]
  }

  lemma {:induction false} AddressesMember(encode: Encoder, look: Lookups, t: Text, x: RR)
    ensures x in AddressesOf(encode, look, t) <==> AddressOf(encode, look, t, x)
  {
    if look(t).Some? {
      var rs := look(t).value.records;
      EmitAllMember(encode, t, AddressRows(rs), x);
      forall r
        ensures r in AddressRows(rs) <==> r in rs && r.rtype in {TYPE_A, TYPE_AAAA}
      {
        AddressRowsMember(rs, r);
      }
    }
  }

  lemma {:induction false} AllAddressesMember(encode: Encoder, look: Lookups, ts: seq<Text>, x: RR)
    ensures x in AddressesOfAll(encode, look, ts) <==> exists t :: t in ts && AddressOf(encode, look, t, x)
  {
    if ts != [] {
      AllAddressesMember(encode, look, ts[..|ts| - 1], x);
      AddressesMember(encode, look, ts[|ts| - 1], x);
      assert ts == ts[..|ts| - 1] + [ts[|ts| - 1]];
    }
  }

  /** The additional section holds the servable addresses of the in-zone targets and nothing
      else: every one of them, as long as there are fewer than sixteen such targets. */
  lemma {:induction false} GlueIsAddressesOfTargets(encode: Encoder, look: Lookups, zone: Text, rs: seq<Row>, x: RR)
    ensures x in Glue(encode, look, zone, rs) ==>
              exists r, t :: r in rs && InZoneTarget(encode, zone, r, t) && AddressOf(encode, look, t, x)
    ensures |GlueNames(encode, zone, rs)| < 16 ==>
              forall r, t :: r in rs && InZoneTarget(encode, zone, r, t) && AddressOf(encode, look, t, x) ==>
                x in Glue(encode, look, zone, rs)
  {
    GlueNamesMean(encode, zone, rs);
    AllAddressesMember(encode, look, GlueNames(encode, zone, rs), x);
  }
}
