/** Which requests are turned away, and that all others are answered. */
module Gate {
  import opened Bytes
  import opened Tables
  import opened Transactions
  import opened Message
  import opened Service
  import opened Resolution
  import opened Aliases
  import opened Lookup
  import opened Completeness
  import opened Nameserver

  /** The rcode of a request that is turned away unread: NOTIMP for an opcode other than 0; FORMERR
      unless there is exactly one question; REFUSED for a class other than IN and ANY; FORMERR for
      type OPT; REFUSED for zone transfers and for the root. */
  function Refusal(req: Message): Option<Rcode> {
    if req.header.flags / 2048 % 16 != 0 then Some(4)
    else if |req.questions| != 1 then Some(1)
    else
      var q := req.questions[0];
      if q.qclass !in {1, 255} then Some(5)
      else if q.qtype == 41 then Some(1)
      else if q.qtype in {251, 252} then Some(5)
      else if q.name in {[], [46]} then Some(5)
      else None
  }

  /** The reply a request should get: a bare refusal if it is turned away, a bare REFUSED if no zone
      is found for its name, and else a truthful reply. */
  ghost predicate Proper(encode: Encoder, db: Db, w: Resolver, req: Message, rot: u32, r: Reply) {
    if Refusal(req).Some? then r == Reply([], [], [], Refusal(req).value, false)
    else
      var q := req.questions[0];
      match FindZone(db.zones, Lower(TrimDot(q.name)))
      case None => r == Reply([], [], [], 5, false)
      case Some(zone) => Truthful(encode, db, w, q.qtype, Passed(w, encode, q, rot, zone), r)
  }

  lemma {:induction false} TurnedAwayIs(req: Message)
    ensures TurnedAway(req) == Refusal(req)
  {
    if |req.questions| == 1 {
      var n := req.questions[0].name;
      assert TrimDot(n) == [] <==> n == [] || n == [46];
    }
  }

  /** What a request gets that no zone is found for. */
  lemma {:induction false} UnheldIsRefused(w: Resolver, encode: Encoder, req: Message, rot: u32)
    requires Refusal(req).None? && w.findZone(Lower(TrimDot(req.questions[0].name))) == Unheld
    ensures Handled(w, encode, req, rot).0 == Reply([], [], [], 5, false)
  {
    TurnedAwayIs(req);
  }

  /** Every request gets its proper reply. */
  lemma {:induction false} RepliesAreProper(encode: Encoder, db: Db, w: Resolver, req: Message, rot: u32)
    requires NamesPacked(encode) && Consistent(db) && Servable(encode, db) && Backed(w, db)
    ensures Proper(encode, db, w, req, rot, Handled(w, encode, req, rot).0)
  {
    TurnedAwayIs(req);
    if Refusal(req).None? {
      var q := req.questions[0];
      match FindZone(db.zones, Lower(TrimDot(q.name)))
      case None => UnheldIsRefused(w, encode, req, rot);
      case Some(zone) => AnswersAreTrue(encode, db, w, q, rot, zone);
    }
  }

  // ---- aliases are followed ----------------------------------------------------------

  /** From each of the first eight places an alias whose target some zone holds is followed: a chain of
      up to eight aliases between held zones is followed to its end. */
  lemma {:induction false} AliasIsFollowed(encode: Encoder, db: Db, w: Resolver, q: Question, rot: u32, zone: Zone,
                                           i: nat, next: Text, to: Zone)
    requires NamesPacked(encode) && Consistent(db) && Servable(encode, db) && Backed(w, db)
    requires FindZone(db.zones, Lower(TrimDot(q.name))) == Some(zone)
    requires i < |Passed(w, encode, q, rot, zone)| && i < 8
    requires var f := Passed(w, encode, q, rot, zone)[i];
             NextName(encode, q.qtype, f, MatchAt(w, q.qtype, f)) == Some(next)
    requires FindZone(db.zones, next) == Some(to)
    ensures var vs := Passed(w, encode, q, rot, zone);
            i + 1 < |vs| <= 9 && vs[i + 1].name == next && vs[i + 1].owner == next && vs[i + 1].zone == to
  {
    var vs, r := Passed(w, encode, q, rot, zone), Answered(w, encode, q, rot).0;
    AnswersAreTrue(encode, db, w, q, rot, zone);
    assert TrueAt(encode, db, w, q.qtype, vs, r, i);
    if i + 1 < |vs| { assert TrueAt(encode, db, w, q.qtype, vs, r, i + 1); }
  }

  // ---- failures ----------------------------------------------------------------------

  lemma {:induction false} LoopFails(body: LoopBody, p: Place, left: nat, i: nat)
    requires i < |Visits(body, p, left)| && body(Visits(body, p, left)[i]).Fail?
    ensures Loop(body, p, left).0 == None
    decreases left
  {
    if i > 0 { LoopFails(body, body(p).to, left - 1, i - 1); }
  }

  /** A turn fails at a failed read, and at an alias whose zone cannot be found out. */
  lemma {:induction false} TurnFails(w: Resolver, encode: Encoder, qtype: u16, f: Place)
    ensures ReadFails(w.View(f.zone.name), f.zone.name, f.name) ==> OneTurn(w, encode, qtype, f).Fail?
    ensures var next := NextName(encode, qtype, f, MatchAt(w, qtype, f));
            next.Some? && w.findZone(next.value).Unavailable? ==> OneTurn(w, encode, qtype, f).Fail?
  {
    WalkFailsIff(w.View(f.zone.name), f.zone.name, f.name, qtype);
    MatchFollows(w, encode, qtype, f, MatchAt(w, qtype, f));
  }

  /** A failure is never passed off as an answer. If the zone of the name asked for cannot be found out,
      or at any place on the way a lookup the walk depends on fails or the zone of an alias cannot be
      found out, the reply is SERVFAIL without records and without AA. */
  lemma {:induction false} FailureIsReported(w: Resolver, encode: Encoder, q: Question, rot: u32, zone: Zone, i: nat)
    ensures w.findZone(Lower(TrimDot(q.name))).Unavailable? ==>
              Answered(w, encode, q, rot).0 == Reply([], [], [], 2, false)
    ensures w.findZone(Lower(TrimDot(q.name))) == Held(zone) && i < |Passed(w, encode, q, rot, zone)| ==>
              var f := Passed(w, encode, q, rot, zone)[i];
              var next := NextName(encode, q.qtype, f, MatchAt(w, q.qtype, f));
              || ReadFails(w.View(f.zone.name), f.zone.name, f.name)
              || (next.Some? && w.findZone(next.value).Unavailable?) ==>
                Answered(w, encode, q, rot).0 == Reply([], [], [], 2, false)
  {
    if w.findZone(Lower(TrimDot(q.name))) == Held(zone) && i < |Passed(w, encode, q, rot, zone)| {
      var f := Passed(w, encode, q, rot, zone)[i];
      TurnFails(w, encode, q.qtype, f);
      if OneTurn(w, encode, q.qtype, f).Fail? {
        LoopFails(Turns(w, encode, q.qtype), StartOf(zone, q, rot), MAX_CHAIN + 1, i);
      }
    }
  }

  // ---- numbers -----------------------------------------------------------------------

  /** The codes assigned to types and classes in section 3.2 of RFC 1035 and after it, and to rcodes in
      section 4.1.1. */
  lemma {:induction false} AssignedNumbers()
    ensures TYPE_A == 1 && TYPE_NS == 2 && TYPE_CNAME == 5 && TYPE_SOA == 6 && TYPE_PTR == 12 && TYPE_MX == 15
    ensures TYPE_TXT == 16 && TYPE_AAAA == 28 && TYPE_SRV == 33 && TYPE_DNAME == 39 && OPT == 41 && TYPE_DS == 43
    ensures TYPE_IXFR == 251 && TYPE_AXFR == 252 && TYPE_ANY == 255 && CLASS_IN == 1 && CLASS_ANY == 255
    ensures FORMERR == 1 && SERVFAIL == 2 && NXDOMAIN == 3 && NOTIMP == 4 && REFUSED == 5
  {
  }
}
