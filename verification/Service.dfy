/** The management service: validate, commit, then announce the change. */
module Service {
  import opened Bytes
  import opened Names
  import opened Validation
  import opened Tables
  import opened Transactions
  import WireName

  /** A request. Type names are held as type codes; the type code of an unknown name is 0. `skip` is
      not the caller's: it counts the ids lost to rolled-back inserts before this one. */
  datatype Request =
    | CreateZoneReq(spec: ZoneSpec)
    | UpdateZoneReq(spec: ZoneSpec)
    | DeleteZoneReq(name: Text)
    | CreateRecordReq(zone: Text, name: Text, rtype: u16, ttl: i32, rdata: Text, skip: nat)
    | DeleteRecordReq(zone: Text, name: Text, rtype: u16, rdata: Text)

  /** What the notifier is told. */
  datatype Change = ZoneChange(zone: Text) | RecordChange(zone: Text, name: Text)

  datatype Served = Served(db: Db, outcome: Outcome, notice: Option<Change>)

  /** The RDATA encoder the service validates with and the store serves with. */
  type Encoder = (u16, Text) -> Option<Text>

  const DEFAULT_TTL := 300
  const MAX_TTL := 0x7FFF_FFFF

  predicate SupportedType(t: u16) {
    t in {1, 28, 2, 5, 39, 12, 15, 16, 33, 257, 35, 44, 52, 43, 48, 13}
  }

  /** `strings.Replace(s, "@", ".", 1)`. */
  function AtToDot(s: Text): (r: Text)
    ensures |r| == |s|
  {
    if s == [] then [] else if s[0] == AT then [DOT] + s[1..] else [s[0]] + AtToDot(s[1..])
  }

  predicate ValidSoa(s: ZoneSpec) {
    && WireName.Packable(Lower(s.primaryNs)) && WireName.Packable(Lower(AtToDot(s.adminEmail)))
    && s.refresh >= 0 && s.retry >= 0 && s.expire >= 0 && s.minTtl >= 0
  }

  function OrText(v: Text, def: Text): Text { if v == [] then def else v }
  function OrInt(v: i32, def: i32): i32 { if v == 0 then def else v }

  const NS1: Text := [110, 115, 49]
  const HOSTMASTER: Text := [104, 111, 115, 116, 109, 97, 115, 116, 101, 114]

  function WithDefaults(s: ZoneSpec): ZoneSpec {
    var name := NormalizeZone(s.name);
    ZoneSpec(name, OrText(s.primaryNs, NS1 + [DOT] + name + [DOT]),
             OrText(s.adminEmail, HOSTMASTER + [DOT] + name + [DOT]),
             OrInt(s.refresh, 3600), OrInt(s.retry, 900), OrInt(s.expire, 604800), OrInt(s.minTtl, 300))
  }

  function Committed(r: (Db, Outcome), notice: Change): Served {
    Served(r.0, r.1, if r.1.Done? then Some(notice) else None)
  }

  /** One call. An update writes whatever values its earlier read and the request produced,
      so those values are the request's own here. */
  function Serve(encode: Encoder, db: Db, req: Request, now: int): Served {
    match req
    case CreateZoneReq(spec) =>
      var s := WithDefaults(spec);
      if !ValidName(s.name) || !ValidSoa(s) then Served(db, Invalid, None)
      else Committed(CreateZone(db, s, now), ZoneChange(NormalizeZone(s.name)))
    case UpdateZoneReq(spec) =>
      if NormalizeZone(spec.name) !in db.zones then Served(db, NotFound, None)
      else if !ValidSoa(spec) then Served(db, Invalid, None)
      else Committed(UpdateZone(db, spec, now), ZoneChange(NormalizeZone(spec.name)))
    case DeleteZoneReq(name0) =>
      var name := NormalizeZone(name0);
      Committed(DeleteZone(db, name), ZoneChange(name))
    case CreateRecordReq(zone0, name0, rtype, ttl0, rdata0, skip) =>
      var zone := NormalizeZone(zone0);
      var name := NormalizeName(zone, name0);
      var rdata := TrimSpace(rdata0);
      var ttl := OrInt(ttl0, DEFAULT_TTL);
      if zone == [] || name0 == [] || !SupportedType(rtype) || !ValidName(name)
         || encode(rtype, rdata).None? || ttl < 0 || ttl > MAX_TTL then Served(db, Invalid, None)
      else Committed(CreateRecord(Skipped(db, skip), zone, name, rtype, ttl, rdata, now), RecordChange(zone, name))
    case DeleteRecordReq(zone0, name0, rtype, rdata0) =>
      var zone := NormalizeZone(zone0);
      var name := NormalizeName(zone, name0);
      Committed(DeleteRecord(db, zone, name, rtype, TrimSpace(rdata0), now), RecordChange(zone, name))
  }

  // ---- what every run keeps ----------------------------------------------------------

  ghost predicate ServableZone(z: Zone) {
    && ValidName(z.name)
    && WireName.Packable(Lower(z.primaryNs)) && WireName.Packable(Lower(AtToDot(z.adminEmail)))
    && z.refresh >= 0 && z.retry >= 0 && z.expire >= 0 && z.minTtl >= 0
  }

  ghost predicate ServableRow(encode: Encoder, r: Row) {
    ValidName(r.name) && SupportedType(r.rtype) && encode(r.rtype, r.rdata).Some? && 0 <= r.ttl <= MAX_TTL
  }

  ghost predicate Servable(encode: Encoder, db: Db) {
    && (forall k :: k in db.zones ==> ServableZone(db.zones[k]))
    && (forall id :: id in db.rows ==> ServableRow(encode, db.rows[id]))
  }

  /** The database after a list of timed requests; clock readings may go backwards. */
  function Run(encode: Encoder, reqs: seq<(Request, int)>): Db {
    if reqs == [] then Db(map[], map[], 1)
    else
      var (req, now) := reqs[|reqs| - 1];
      Serve(encode, Run(encode, reqs[..|reqs| - 1]), req, now).db
  }

  lemma {:induction false} ServeConsistent(encode: Encoder, db: Db, req: Request, now: int)
    requires Consistent(db)
    ensures Consistent(Serve(encode, db, req, now).db)
  {
    match req
    case CreateZoneReq(spec) => CreateZoneConsistent(db, WithDefaults(spec), now);
    case UpdateZoneReq(spec) => UpdateZoneConsistent(db, spec, now);
    case DeleteZoneReq(name) => DeleteZoneConsistent(db, NormalizeZone(name));
    case CreateRecordReq(zone0, name0, rtype, ttl0, rdata0, skip) =>
      var zone := NormalizeZone(zone0);
      CreateRecordConsistent(Skipped(db, skip), zone, NormalizeName(zone, name0), rtype, OrInt(ttl0, DEFAULT_TTL),
        TrimSpace(rdata0), now);
    case DeleteRecordReq(zone0, name0, rtype, rdata0) =>
      var zone := NormalizeZone(zone0);
      DeleteRecordConsistent(db, zone, NormalizeName(zone, name0), rtype, TrimSpace(rdata0), now);
  }

  lemma {:induction false} CreatedRowsServable(encode: Encoder, db: Db, z: Text, n: Text, rtype: u16, ttl: int,
                                               rdata: Text)
    requires forall id :: id in db.rows ==> ServableRow(encode, db.rows[id])
    requires ValidName(n) && SupportedType(rtype) && encode(rtype, rdata).Some? && 0 <= ttl <= MAX_TTL
    ensures var rows := WithTtl(Upserted(db, z, n, rtype, ttl, rdata), z, n, rtype, ttl);
            forall id :: id in rows ==> ServableRow(encode, rows[id])
  {
  }

  lemma {:induction false} CreateZoneServable(encode: Encoder, db: Db, spec: ZoneSpec, now: int)
    requires Servable(encode, db)
    ensures Servable(encode, Serve(encode, db, CreateZoneReq(spec), now).db)
  {
    var s := WithDefaults(spec);
    if ValidName(s.name) { SecondNormalizationIsIdentity(s.name, s.name); }
  }

  lemma {:induction false} WrittenServable(encode: Encoder, db: Db, zone: Text, name: Text, rtype: u16, ttl: int,
                                           rdata: Text, now: int)
    requires Servable(encode, db) && InZone(name, zone)
    requires ValidName(name) && SupportedType(rtype) && encode(rtype, rdata).Some? && 0 <= ttl <= MAX_TTL
    ensures Servable(encode, CreateRecord(db, zone, name, rtype, ttl, rdata, now).0)
  {
    SecondNormalizationIsIdentity(zone, name);
    CreatedRowsServable(encode, db, zone, name, rtype, ttl, rdata);
  }

  lemma {:induction false} CreateRecordServable(encode: Encoder, db: Db, req: Request, now: int)
    requires Servable(encode, db) && req.CreateRecordReq?
    ensures Servable(encode, Serve(encode, db, req, now).db)
  {
    var zone := NormalizeZone(req.zone);
    var name := NormalizeName(zone, req.name);
    var ttl, rdata := OrInt(req.ttl, DEFAULT_TTL), TrimSpace(req.rdata);
    if ValidName(name) && SupportedType(req.rtype) && encode(req.rtype, rdata).Some? && 0 <= ttl <= MAX_TTL {
      WrittenServable(encode, Skipped(db, req.skip), zone, name, req.rtype, ttl, rdata, now);
    }
  }

  lemma {:induction false} ServeServable(encode: Encoder, db: Db, req: Request, now: int)
    requires Servable(encode, db)
    ensures Servable(encode, Serve(encode, db, req, now).db)
  {
    match req
    case CreateZoneReq(spec) => CreateZoneServable(encode, db, spec, now);
    case CreateRecordReq(_, _, _, _, _, _) => CreateRecordServable(encode, db, req, now);
    case _ =>
  }

  /** Every run keeps: a CNAME is alone at its name and never at the apex, an RRset has one
      TTL, every row's zone exists and holds it, the reversed names are in step, and all names,
      types and data are servable. */
  lemma {:induction false} RunSound(encode: Encoder, reqs: seq<(Request, int)>)
    ensures Consistent(Run(encode, reqs)) && Servable(encode, Run(encode, reqs))
  {
    if reqs == [] {
      EmptyConsistent();
    } else {
      var before := reqs[..|reqs| - 1];
      var (req, now) := reqs[|reqs| - 1];
      RunSound(encode, before);
      ServeConsistent(encode, Run(encode, before), req, now);
      ServeServable(encode, Run(encode, before), req, now);
    }
  }

  // ---- the notice names what was written ---------------------------------------------

  /** The zone text of a request, as the caller sent it. */
  function ZoneText(req: Request): Text {
    match req
    case CreateZoneReq(spec) => spec.name
    case UpdateZoneReq(spec) => spec.name
    case DeleteZoneReq(name) => name
    case CreateRecordReq(zone, _, _, _, _, _) => zone
    case DeleteRecordReq(zone, _, _, _) => zone
  }

  /** Stripping the zone text once is enough: a second stripping finds nothing more. */
  predicate StrippedOnce(req: Request) {
    NormalizeZone(NormalizeZone(ZoneText(req))) == NormalizeZone(ZoneText(req))
  }

  /** The zone, and for record changes the name, whose rows the store wrote. */
  function Written(req: Request): Change {
    match req
    case CreateZoneReq(spec) => ZoneChange(NormalizeZone(WithDefaults(spec).name))
    case UpdateZoneReq(spec) => ZoneChange(NormalizeZone(spec.name))
    case DeleteZoneReq(name) => ZoneChange(NormalizeZone(NormalizeZone(name)))
    case CreateRecordReq(zone0, name0, _, _, _, _) =>
      var zone := NormalizeZone(zone0);
      RecordChange(NormalizeZone(zone), NormalizeName(NormalizeZone(zone), NormalizeName(zone, name0)))
    case DeleteRecordReq(zone0, name0, _, _) =>
      var zone := NormalizeZone(zone0);
      RecordChange(NormalizeZone(zone), NormalizeName(NormalizeZone(zone), NormalizeName(zone, name0)))
  }

  lemma {:induction false} TrimLeftHead(s: Text)
    ensures TrimLeft(s) == [] || !IsSpace(TrimLeft(s)[0])
  {
    if s != [] && IsSpace(s[0]) { TrimLeftHead(s[1..]); }
  }

  lemma {:induction false} TrimRightPrefix(s: Text)
    ensures TrimRight(s) <= s
  {
    if s != [] && IsSpace(s[|s| - 1]) { TrimRightPrefix(s[..|s| - 1]); }
  }

  lemma {:induction false} TrimRightTail(s: Text)
    ensures TrimRight(s) == [] || !IsSpace(TrimRight(s)[|TrimRight(s)| - 1])
  {
    if s != [] && IsSpace(s[|s| - 1]) { TrimRightTail(s[..|s| - 1]); }
  }

  lemma {:induction false} NormalizedShape(s: Text)
    ensures var n := NormalizeZone(s);
            n == [] || (!IsSpace(n[0]) && forall k :: 0 <= k < |n| ==> LowerByte(n[k]) == n[k])
  {
    TrimLeftHead(s);
    TrimRightPrefix(TrimLeft(s));
  }

  lemma {:induction false} FixedTail(zone: Text)
    requires zone != [] && NormalizeZone(zone) == zone
    ensures !IsSpace(zone[|zone| - 1]) && zone[|zone| - 1] != DOT
  {
    TrimRightPrefix(TrimLeft(zone));
    TrimRightTail(TrimLeft(zone));
    TrimLeftShrinks(zone);
    assert |TrimSpace(zone)| <= |zone|;
  }

  lemma {:induction false} FixedByShape(n: Text)
    requires n != [] && !IsSpace(n[0]) && !IsSpace(n[|n| - 1]) && n[|n| - 1] != DOT
    requires forall k :: 0 <= k < |n| ==> LowerByte(n[k]) == n[k]
    ensures NormalizeZone(n) == n
  {
  }

  lemma {:induction false} FixedZoneFixesName(zone: Text, name: Text)
    requires zone != [] && NormalizeZone(zone) == zone
    ensures NormalizeName(zone, NormalizeName(zone, name)) == NormalizeName(zone, name)
  {
    var n := NormalizeName(zone, name);
    if n != zone { FixedChild(zone, name, n); }
  }

  lemma {:induction false} FixedChild(zone: Text, name: Text, n: Text)
    requires zone != [] && NormalizeZone(zone) == zone && n == NormalizeName(zone, name) && n != zone
    ensures NormalizeZone(n) == n && HasSuffix(n, [DOT] + zone)
  {
    NormalizedShape(name);
    NormalizedShape(zone);
    FixedTail(zone);
    assert n[|n| - |zone| - 1..] == [DOT] + zone;
    assert n[|n| - 1] == ([DOT] + zone)[|zone|];
    FixedByShape(n);
  }

  /** Creates and updates always announce what they wrote. A delete does exactly when its zone
      text is stripped once: the service and the store each strip it, and announce and write
      the two results. */
  lemma {:induction false} NoticeAgreesIff(encode: Encoder, db: Db, req: Request, now: int)
    requires Consistent(db) && Serve(encode, db, req, now).outcome.Done?
    ensures Serve(encode, db, req, now).notice == Some(Written(req)) <==>
            ((req.DeleteZoneReq? || req.DeleteRecordReq?) ==> StrippedOnce(req))
  {
    match req
    case CreateRecordReq(zone0, name0, _, _, _, _) =>
      var zone := NormalizeZone(zone0);
      SecondNormalizationIsIdentity(zone, NormalizeName(zone, name0));
    case DeleteRecordReq(zone0, name0, rtype, rdata0) =>
      var zone := NormalizeZone(zone0);
      if NormalizeZone(zone) == zone {
        var n := NormalizeName(zone, NormalizeName(zone, name0));
        var id :| id in db.rows && Same(db.rows[id], zone, n, rtype, TrimSpace(rdata0));
        assert db.rows[id].zone in db.zones;
        FixedZoneFixesName(zone, name0);
      }
    case _ =>
  }

  lemma {:induction false} AtToDotFixed(s: Text)
    requires AT !in s
    ensures AtToDot(s) == s
  {
    if s != [] {
      AtToDotFixed(s[1..]);
      assert s == [s[0]] + s[1..];
    }
  }

  lemma {:induction false} LowerAppend(a: Text, b: Text)
    ensures Lower(a + b) == Lower(a) + Lower(b)
  {
  }

  lemma {:induction false} HostLower(l: Text, z: Text)
    requires Lower(l) == l && Lower(z) == z
    ensures Lower(l + [DOT] + z + [DOT]) == l + [DOT] + z + [DOT]
  {
    LowerAppend(l, [DOT]);
    LowerAppend(l + [DOT], z);
    LowerAppend(l + [DOT] + z, [DOT]);
    assert Lower([DOT]) == [DOT];
  }

  /** A label in front of a one-label zone makes a name that can be packed. */
  lemma {:induction false} HostPackable(l: Text, z: Text)
    requires 0 < |l| < 64 && 0 < |z| < 64 && DOT !in l && DOT !in z
    ensures WireName.Packable(l + [DOT] + z + [DOT])
  {
    assert TrimDot(l + [DOT] + z + [DOT]) == l + [DOT] + z;
    LabelsConcat(l, z);
    LabelsOfLabel(l);
    LabelsOfLabel(z);
  }

  const ZED: Text := [122]

  lemma {:induction false} ZedIsValid()
    ensures ValidName(ZED) && NormalizeZone(ZED) == ZED
  {
    LabelsOfLabel(ZED);
    SecondNormalizationIsIdentity(ZED, ZED);
  }

  lemma {:induction false} HostOfZed(l: Text)
    requires 0 < |l| < 64 && DOT !in l && AT !in l && Lower(l) == l
    ensures var n := l + [DOT] + ZED + [DOT]; WireName.Packable(Lower(n)) && WireName.Packable(Lower(AtToDot(n)))
  {
    assert Lower(ZED) == ZED;
    HostLower(l, ZED);
    HostPackable(l, ZED);
    AtToDotFixed(l + [DOT] + ZED + [DOT]);
  }

  lemma {:induction false} ZedHasSoa()
    ensures var s := WithDefaults(ZoneSpec(ZED, [], [], 0, 0, 0, 0)); s.name == ZED && ValidSoa(s)
  {
    ZedIsValid();
    assert Lower(NS1) == NS1 && Lower(HOSTMASTER) == HOSTMASTER;
    HostOfZed(NS1);
    HostOfZed(HOSTMASTER);
  }

  lemma {:induction false} ZedTwiceStripped()
    ensures NormalizeZone(ZED + [DOT, DOT]) == ZED + [DOT] && NormalizeZone(ZED + [DOT]) == ZED
  {
    var text := ZED + [DOT, DOT];
    TrimSpaceFixed(text);
    TrimSpaceFixed(ZED + [DOT]);
    assert Lower(text) == text && Lower(ZED + [DOT]) == ZED + [DOT];
  }

  /** Create the zone "z", then delete it under the spelling "z..": it is gone, and what is announced
      is "z.". */
  lemma {:induction false} DeleteAnnouncesWrongZone(encode: Encoder, created: int, deleted: int)
    ensures var db := Run(encode, [(CreateZoneReq(ZoneSpec(ZED, [], [], 0, 0, 0, 0)), created)]);
            var s := Serve(encode, db, DeleteZoneReq(ZED + [DOT, DOT]), deleted);
            ZED in db.zones && s.outcome == Done && ZED !in s.db.zones && s.notice == Some(ZoneChange(ZED + [DOT]))
  {
    var req := CreateZoneReq(ZoneSpec(ZED, [], [], 0, 0, 0, 0));
    ZedIsValid();
    ZedHasSoa();
    ZedTwiceStripped();
    assert [(req, created)][..0] == [];
    assert Run(encode, []) == Db(map[], map[], 1);
    assert Run(encode, [(req, created)]) == Serve(encode, Db(map[], map[], 1), req, created).db;
  }

  // ---- serials -----------------------------------------------------------------------

  const TWO31 := 0x8000_0000
  const TWO32 := 0x1_0000_0000

  /** `a` precedes `b` in the serial arithmetic of section 3.2 of RFC 1982. */
  predicate Serial32Less(a: int, b: int) {
    (a < b && b - a < TWO31) || (a > b && a - b > TWO31)
  }

  lemma {:induction false} BumpAdvances(z: Zone, now: int)
    requires z.createdAt <= z.serial
    ensures Bumped(z, now).serial > z.serial
    ensures now - z.createdAt < TWO31 ==> Serial32Less(z.serial % TWO32, Bumped(z, now).serial % TWO32)
  {
  }

  /** The zone row `k` after a transaction that wrote zone `z`. */
  predicate RowBumped(db: Db, r: (Db, Outcome), now: int, k: Text, z: Text)
    requires k in db.zones
  {
    k in r.0.zones &&
    if r.1.Done? && z == k then
      r.0.zones[k].serial == Bumped(db.zones[k], now).serial && r.0.zones[k].createdAt == db.zones[k].createdAt
    else r.0.zones[k] == db.zones[k]
  }

  lemma {:induction false} ZoneWritesBump(db: Db, s: ZoneSpec, now: int, k: Text)
    requires k in db.zones
    ensures RowBumped(db, CreateZone(db, s, now), now, k, NormalizeZone(s.name))
    ensures RowBumped(db, UpdateZone(db, s, now), now, k, NormalizeZone(s.name))
  {
  }

  lemma {:induction false} CreateRecordBumps(db: Db, zone: Text, name: Text, rtype: u16, ttl: int, rdata: Text,
                                             now: int, k: Text)
    requires k in db.zones
    ensures RowBumped(db, CreateRecord(db, zone, name, rtype, ttl, rdata, now), now, k, NormalizeZone(zone))
  {
  }

  lemma {:induction false} DeleteRecordBumps(db: Db, zone: Text, name: Text, rtype: u16, rdata: Text, now: int, k: Text)
    requires k in db.zones
    ensures RowBumped(db, DeleteRecord(db, zone, name, rtype, rdata, now), now, k, NormalizeZone(zone))
  {
  }

  /** A call bumps the row of the surviving zone it wrote and leaves every other row alone. */
  lemma {:induction false} ZoneRowAfter(encode: Encoder, db: Db, req: Request, now: int, k: Text)
    requires k in db.zones && k in Serve(encode, db, req, now).db.zones
    ensures var s := Serve(encode, db, req, now); var after := s.db.zones[k];
            if s.outcome.Done? && Written(req).zone == k then
              after.serial == Bumped(db.zones[k], now).serial && after.createdAt == db.zones[k].createdAt
            else after == db.zones[k]
  {
    match req
    case CreateZoneReq(spec) => ZoneWritesBump(db, WithDefaults(spec), now, k);
    case UpdateZoneReq(spec) => ZoneWritesBump(db, spec, now, k);
    case DeleteZoneReq(_) =>
    case CreateRecordReq(zone0, name0, rtype, ttl0, rdata0, skip) =>
      var zone := NormalizeZone(zone0);
      CreateRecordBumps(Skipped(db, skip), zone, NormalizeName(zone, name0), rtype, OrInt(ttl0, DEFAULT_TTL),
        TrimSpace(rdata0), now, k);
    case DeleteRecordReq(zone0, name0, rtype, rdata0) =>
      var zone := NormalizeZone(zone0);
      DeleteRecordBumps(db, zone, NormalizeName(zone, name0), rtype, TrimSpace(rdata0), now, k);
  }

  /** Whatever the clock does, a call raises the serial of the zone it wrote and leaves every
      other surviving zone row alone; the 32-bit serial published in the SOA then advances as
      long as the clock is less than 2^31 seconds past the zone's creation. */
  lemma {:induction false} SerialAdvances(encode: Encoder, db: Db, req: Request, now: int, k: Text)
    requires Consistent(db) && k in db.zones && k in Serve(encode, db, req, now).db.zones
    ensures var before := db.zones[k]; var s := Serve(encode, db, req, now); var after := s.db.zones[k];
            if s.outcome.Done? && Written(req).zone == k then
              && after.serial > before.serial && after.createdAt == before.createdAt
              && (now - before.createdAt < TWO31 ==> Serial32Less(before.serial % TWO32, after.serial % TWO32))
            else after == before
  {
    ZoneRowAfter(encode, db, req, now, k);
    BumpAdvances(db.zones[k], now);
  }

  lemma {:induction false} RunStep(encode: Encoder, reqs: seq<(Request, int)>, j: nat)
    requires 0 < j <= |reqs|
    ensures Run(encode, reqs[..j]) == Serve(encode, Run(encode, reqs[..j - 1]), reqs[j - 1].0, reqs[j - 1].1).db
  {
    assert reqs[..j][..j - 1] == reqs[..j - 1];
  }

  /** The zone's row after the first `m` requests. */
  ghost function RowAfter(encode: Encoder, reqs: seq<(Request, int)>, k: Text): nat -> Option<Zone> {
    (m: nat) => if m <= |reqs| && k in Run(encode, reqs[..m]).zones then Some(Run(encode, reqs[..m]).zones[k]) else None
  }

  /** The serial has not fallen and the creation time has not changed. */
  predicate Older(a: Zone, b: Zone) {
    a.serial <= b.serial && a.createdAt == b.createdAt
  }

  lemma {:induction false} SerialStep(encode: Encoder, reqs: seq<(Request, int)>, j: nat, k: Text)
    requires 0 < j <= |reqs| && k in Run(encode, reqs[..j - 1]).zones && k in Run(encode, reqs[..j]).zones
    ensures Older(Run(encode, reqs[..j - 1]).zones[k], Run(encode, reqs[..j]).zones[k])
  {
    RunStep(encode, reqs, j);
    RunSound(encode, reqs[..j - 1]);
    SerialAdvances(encode, Run(encode, reqs[..j - 1]), reqs[j - 1].0, reqs[j - 1].1, k);
  }

  lemma {:induction false} OlderThroughout(row: nat -> Option<Zone>, i: nat, j: nat)
    requires i <= j && forall m: nat :: i <= m <= j ==> row(m).Some?
    requires forall m: nat {:trigger row(m)} :: i < m <= j ==> Older(row(m - 1).value, row(m).value)
    ensures Older(row(i).value, row(j).value)
    decreases j - i
  {
    if i < j { OlderThroughout(row, i, j - 1); }
  }

  /** Over a stretch of a run in which the zone is never absent, its serial never falls and
      its creation time never changes. */
  lemma {:induction false} SerialMonotoneOverRun(encode: Encoder, reqs: seq<(Request, int)>, i: nat, j: nat, k: Text)
    requires i <= j && forall m: nat :: i <= m <= j ==> RowAfter(encode, reqs, k)(m).Some?
    ensures Older(RowAfter(encode, reqs, k)(i).value, RowAfter(encode, reqs, k)(j).value)
  {
    var row := RowAfter(encode, reqs, k);
    forall m: nat | i < m <= j
      ensures Older(row(m - 1).value, row(m).value)
    {
      assert row(m).Some? && row(m - 1).Some?;
      SerialStep(encode, reqs, m, k);
    }
    OlderThroughout(row, i, j);
  }
}
