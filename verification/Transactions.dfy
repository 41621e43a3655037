/** The write transactions, as functions on the tables, and the invariants every one of them keeps. */
module Transactions {
  import opened Bytes
  import opened Names
  import opened Validation
  import opened Tables

  datatype Outcome = Done | NotFound | Conflict | Invalid

  datatype ZoneSpec = ZoneSpec(name: Text, primaryNs: Text, adminEmail: Text,
                               refresh: i32, retry: i32, expire: i32, minTtl: i32)

  predicate At(r: Row, zone: Text, name: Text) {
    r.zone == zone && r.name == name
  }

  predicate InSet(r: Row, zone: Text, name: Text, rtype: u16) {
    At(r, zone, name) && r.rtype == rtype
  }

  /** The key of the unique index, with `md5` taken as injective. */
  predicate Same(r: Row, zone: Text, name: Text, rtype: u16, rdata: Text) {
    InSet(r, zone, name, rtype) && r.rdata == rdata
  }

  function NextSerial(serial: int, now: int): int {
    if serial + 1 >= now then serial + 1 else now
  }

  function Bumped(z: Zone, now: int): Zone {
    z.(serial := NextSerial(z.serial, now), updatedAt := now)
  }

  /** The test that keeps a CNAME alone at its name and away from the apex. */
  predicate Clashes(rows: map<nat, Row>, zone: Text, name: Text, rtype: u16, rdata: Text) {
    if rtype == TYPE_CNAME then
      name == zone || exists id :: id in rows && At(rows[id], zone, name) && !Same(rows[id], zone, name, rtype, rdata)
    else
      exists id :: id in rows && InSet(rows[id], zone, name, TYPE_CNAME)
  }

  function Upserted(db: Db, zone: Text, name: Text, rtype: u16, ttl: int, rdata: Text): map<nat, Row> {
    if exists id :: id in db.rows && Same(db.rows[id], zone, name, rtype, rdata) then db.rows
    else db.rows[db.nextId := Row(db.nextId, zone, name, ReverseName(name), rtype, ttl, rdata)]
  }

  function WithTtl(rows: map<nat, Row>, zone: Text, name: Text, rtype: u16, ttl: int): map<nat, Row> {
    map id | id in rows :: if InSet(rows[id], zone, name, rtype) then rows[id].(ttl := ttl) else rows[id]
  }

  /** The identity column after `n` ids were drawn by inserts that were then rolled back. */
  function Skipped(db: Db, n: nat): Db {
    db.(nextId := db.nextId + n)
  }

  function CreateRecord(db: Db, zone: Text, name: Text, rtype: u16, ttl: int, rdata: Text, now: int): (Db, Outcome) {
    var z := NormalizeZone(zone);
    var n := NormalizeName(z, name);
    if z !in db.zones then (db, NotFound)
    else if Clashes(db.rows, z, n, rtype, rdata) then (db, Conflict)
    else
      (Db(db.zones[z := Bumped(db.zones[z], now)],
          WithTtl(Upserted(db, z, n, rtype, ttl, rdata), z, n, rtype, ttl),
          db.nextId + 1),
       Done)
  }

  function DeleteRecord(db: Db, zone: Text, name: Text, rtype: u16, rdata: Text, now: int): (Db, Outcome) {
    var z := NormalizeZone(zone);
    var n := NormalizeName(z, name);
    if !exists id :: id in db.rows && Same(db.rows[id], z, n, rtype, rdata) then (db, NotFound)
    else
      (Db(if z in db.zones then db.zones[z := Bumped(db.zones[z], now)] else db.zones,
          map id | id in db.rows && !Same(db.rows[id], z, n, rtype, rdata) :: db.rows[id],
          db.nextId),
       Done)
  }

  function CreateZone(db: Db, s: ZoneSpec, now: int): (Db, Outcome) {
    var z := NormalizeZone(s.name);
    if z == [] then (db, Invalid)
    else if z in db.zones then (db, Conflict)
    else
      (db.(zones := db.zones[z := Zone(z, s.primaryNs, s.adminEmail, now,
                                       s.refresh, s.retry, s.expire, s.minTtl, now, now)]),
       Done)
  }

  function UpdateZone(db: Db, s: ZoneSpec, now: int): (Db, Outcome) {
    var z := NormalizeZone(s.name);
    if z !in db.zones then (db, NotFound)
    else
      (db.(zones := db.zones[z := Bumped(db.zones[z], now).(
                                    primaryNs := s.primaryNs, adminEmail := s.adminEmail, refresh := s.refresh,
                                    retry := s.retry, expire := s.expire, minTtl := s.minTtl)]),
       Done)
  }

  /** Deleting a zone cascades to its records. */
  function DeleteZone(db: Db, name: Text): (Db, Outcome) {
    var z := NormalizeZone(name);
    if z !in db.zones then (db, NotFound)
    else
      (Db(db.zones - {z}, map id | id in db.rows && db.rows[id].zone != z :: db.rows[id], db.nextId), Done)
  }

  // ---- invariants --------------------------------------------------------------------

  ghost predicate Keyed(db: Db) {
    && (forall k :: k in db.zones ==> db.zones[k].name == k && k != [])
    && db.nextId > 0 && (forall id :: id in db.rows ==> db.rows[id].id == id && 0 < id < db.nextId)
  }

  /** Foreign key, containment, and the reversed name in step with the name. */
  ghost predicate Housed(db: Db) {
    forall id :: id in db.rows ==>
      && db.rows[id].zone in db.zones
      && InZone(db.rows[id].name, db.rows[id].zone)
      && db.rows[id].nameRev == ReverseName(db.rows[id].name)
  }

  ghost predicate UniqueIndex(rows: map<nat, Row>) {
    forall i, j :: i in rows && j in rows ==>
      Same(rows[i], rows[j].zone, rows[j].name, rows[j].rtype, rows[j].rdata) ==> i == j
  }

  ghost predicate CnameAlone(rows: map<nat, Row>) {
    && (forall i :: i in rows && rows[i].rtype == TYPE_CNAME ==> rows[i].name != rows[i].zone)
    && (forall i, j :: i in rows && j in rows && rows[i].rtype == TYPE_CNAME ==>
          At(rows[j], rows[i].zone, rows[i].name) ==> i == j)
  }

  ghost predicate OneTtl(rows: map<nat, Row>) {
    forall i, j :: i in rows && j in rows && InSet(rows[i], rows[j].zone, rows[j].name, rows[j].rtype)
      ==> rows[i].ttl == rows[j].ttl
  }

  /** A serial never falls behind the clock reading at which its zone was created. */
  ghost predicate SerialsAged(db: Db) {
    forall k :: k in db.zones ==> db.zones[k].createdAt <= db.zones[k].serial
  }

  ghost predicate Consistent(db: Db) {
    Keyed(db) && Housed(db) && UniqueIndex(db.rows) && CnameAlone(db.rows) && OneTtl(db.rows) && SerialsAged(db)
  }

  lemma {:induction false} EmptyConsistent()
    ensures Consistent(Db(map[], map[], 1))
  {
  }

  lemma {:induction false} UpsertKeepsCname(db: Db, z: Text, n: Text, rtype: u16, ttl: int, rdata: Text)
    requires Keyed(db) && UniqueIndex(db.rows) && CnameAlone(db.rows)
    requires !Clashes(db.rows, z, n, rtype, rdata)
    ensures CnameAlone(Upserted(db, z, n, rtype, ttl, rdata))
    ensures UniqueIndex(Upserted(db, z, n, rtype, ttl, rdata))
  {
  }

  lemma {:induction false} WithTtlFrame(rows: map<nat, Row>, z: Text, n: Text, rtype: u16, ttl: int)
    requires UniqueIndex(rows) && CnameAlone(rows)
    ensures UniqueIndex(WithTtl(rows, z, n, rtype, ttl)) && CnameAlone(WithTtl(rows, z, n, rtype, ttl))
  {
  }

  lemma {:induction false} UpsertOneTtl(db: Db, z: Text, n: Text, rtype: u16, ttl: int, rdata: Text)
    requires OneTtl(db.rows)
    ensures OneTtl(WithTtl(Upserted(db, z, n, rtype, ttl, rdata), z, n, rtype, ttl))
  {
  }

  lemma {:induction false} UpsertHoused(db: Db, z: Text, n: Text, rtype: u16, ttl: int, rdata: Text,
                                        zones: map<Text, Zone>)
    requires Keyed(db) && Housed(db) && InZone(n, z) && z in zones && db.zones.Keys <= zones.Keys
    requires forall k :: k in zones ==> zones[k].name == k && k != []
    ensures var after := Db(zones, WithTtl(Upserted(db, z, n, rtype, ttl, rdata), z, n, rtype, ttl), db.nextId + 1);
            Keyed(after) && Housed(after)
  {
    var base := Upserted(db, z, n, rtype, ttl, rdata);
    var rows := WithTtl(base, z, n, rtype, ttl);
    forall id | id in rows
      ensures 0 < rows[id].id == id < db.nextId + 1 && rows[id].zone in zones
      ensures InZone(rows[id].name, rows[id].zone) && rows[id].nameRev == ReverseName(rows[id].name)
    {
      assert rows[id] == base[id].(ttl := rows[id].ttl);
      if id in db.rows && id != db.nextId { assert base[id] == db.rows[id]; }
    }
  }

  lemma {:induction false} CreateRecordConsistent(db: Db, zone: Text, name: Text, rtype: u16, ttl: int, rdata: Text,
                                                  now: int)
    requires Consistent(db)
    ensures Consistent(CreateRecord(db, zone, name, rtype, ttl, rdata, now).0)
  {
    var z := NormalizeZone(zone);
    var n := NormalizeName(z, name);
    if z in db.zones && !Clashes(db.rows, z, n, rtype, rdata) {
      var zones := db.zones[z := Bumped(db.zones[z], now)];
      UpsertHoused(db, z, n, rtype, ttl, rdata, zones);
      UpsertKeepsCname(db, z, n, rtype, ttl, rdata);
      WithTtlFrame(Upserted(db, z, n, rtype, ttl, rdata), z, n, rtype, ttl);
      UpsertOneTtl(db, z, n, rtype, ttl, rdata);
    }
  }

  lemma {:induction false} FewerRowsConsistent(db: Db, after: Db)
    requires Consistent(db) && Keyed(after) && SerialsAged(after)
    requires forall id :: id in after.rows ==>
               id in db.rows && after.rows[id] == db.rows[id] && db.rows[id].zone in after.zones
    ensures Consistent(after)
  {
  }

  lemma {:induction false} DeleteRecordConsistent(db: Db, zone: Text, name: Text, rtype: u16, rdata: Text, now: int)
    requires Consistent(db)
    ensures Consistent(DeleteRecord(db, zone, name, rtype, rdata, now).0)
  {
    FewerRowsConsistent(db, DeleteRecord(db, zone, name, rtype, rdata, now).0);
  }

  lemma {:induction false} CreateZoneConsistent(db: Db, s: ZoneSpec, now: int)
    requires Consistent(db)
    ensures Consistent(CreateZone(db, s, now).0)
  {
  }

  lemma {:induction false} UpdateZoneConsistent(db: Db, s: ZoneSpec, now: int)
    requires Consistent(db)
    ensures Consistent(UpdateZone(db, s, now).0)
  {
  }

  lemma {:induction false} DeleteZoneConsistent(db: Db, name: Text)
    requires Consistent(db)
    ensures Consistent(DeleteZone(db, name).0)
  {
    FewerRowsConsistent(db, DeleteZone(db, name).0);
  }
}
