/** What each call of the service leaves in the tables, row by row and field by field, and which
    calls succeed. */
module Writes {
  import opened Bytes
  import opened Names
  import opened Validation
  import opened Tables
  import opened Transactions
  import opened Service
  import opened WireName

  // ---- records -----------------------------------------------------------------------

  /** The row with the type's new TTL. */
  function Retimed(r: Row, rtype: u16, ttl: int): Row {
    if r.rtype == rtype then r.(ttl := ttl) else r
  }

  /** Creating a record: `id` is its row, new or the one that had the same data, and every other row
      stays, those of its name and type with the new TTL. */
  ghost predicate RowPut(db: Db, after: Db, id: nat, row: Row) {
    && after.rows.Keys == db.rows.Keys + {id} && after.rows[id] == row
    && (id in db.rows ==> row == db.rows[id].(ttl := row.ttl))
    && (forall j :: j in db.rows ==>
          after.rows[j] == if db.rows[j].zone == row.zone && db.rows[j].name == row.name
                           then Retimed(db.rows[j], row.rtype, row.ttl) else db.rows[j])
  }

  lemma {:induction false} RowPutAt(db: Db, after: Db, id: nat, row: Row)
    requires RowPut(db, after, id, row)
    ensures RowsAt(after, row.zone, row.name) ==
            (set r | r in RowsAt(db, row.zone, row.name) :: Retimed(r, row.rtype, row.ttl)) + {row}
  {
    var old', new' := RowsAt(db, row.zone, row.name), RowsAt(after, row.zone, row.name);
    forall r | r in new'
      ensures r in (set x | x in old' :: Retimed(x, row.rtype, row.ttl)) + {row}
    {
      var j :| j in after.rows && after.rows[j] == r;
      if j in db.rows {
        assert db.rows[j] in old';
        assert r == Retimed(db.rows[j], row.rtype, row.ttl);
      }
    }
    forall x | x in old'
      ensures Retimed(x, row.rtype, row.ttl) in new'
    {
      var j :| j in db.rows && db.rows[j] == x;
      assert after.rows[j] == Retimed(x, row.rtype, row.ttl);
    }
    assert after.rows[id] in new';
  }

  lemma {:induction false} UpsertedRow(db: Db, z: Text, n: Text, rtype: u16, ttl: int, rdata: Text) returns (id: nat)
    requires Consistent(db)
    ensures var rows := Upserted(db, z, n, rtype, ttl, rdata);
            && rows.Keys == db.rows.Keys + {id} && Same(rows[id], z, n, rtype, rdata)
            && (id !in db.rows ==> rows[id] == Row(id, z, n, ReverseName(n), rtype, ttl, rdata))
            && forall j :: j in db.rows ==> rows[j] == db.rows[j]
  {
    if i :| i in db.rows && Same(db.rows[i], z, n, rtype, rdata) {
      id := i;
    } else {
      id := db.nextId;
    }
  }

  lemma {:induction false} CreateRecordPuts(db: Db, zone: Text, name: Text, rtype: u16, ttl: int, rdata: Text, now: int)
    returns (id: nat)
    requires Consistent(db) && CreateRecord(db, zone, name, rtype, ttl, rdata, now).1.Done?
    ensures var z := NormalizeZone(zone);
            var n := NormalizeName(z, name);
            RowPut(db, CreateRecord(db, zone, name, rtype, ttl, rdata, now).0, id,
                   Row(id, z, n, ReverseName(n), rtype, ttl, rdata))
  {
    var z := NormalizeZone(zone);
    var n := NormalizeName(z, name);
    id := UpsertedRow(db, z, n, rtype, ttl, rdata);
    if id in db.rows { assert db.rows[id].nameRev == ReverseName(n); }
  }

  /** A created record is stored under the normalised zone and name, with its type, its TTL or 300, and
      its data; nothing is removed, and only the TTL of that type at that name changes. A name that is
      neither empty, "@" nor in the zone goes in front of the zone. */
  lemma {:induction false} RecordCreated(encode: Encoder, db: Db, req: Request, now: int) returns (id: nat)
    requires Consistent(db) && req.CreateRecordReq? && Serve(encode, db, req, now).outcome.Done?
    ensures var after := Serve(encode, db, req, now).db;
            var z := NormalizeZone(req.zone);
            var n := NormalizeName(z, req.name);
            var row := Row(id, z, n, ReverseName(n), req.rtype, if req.ttl == 0 then 300 else req.ttl,
                           TrimSpace(req.rdata));
            && RowPut(db, after, id, row)
            && RowsAt(after, z, n) == (set r | r in RowsAt(db, z, n) :: Retimed(r, req.rtype, row.ttl)) + {row}
            && var text := NormalizeZone(req.name);
               text != [] && text != [64] && !InZone(text, z) ==> Labels(row.name) == Labels(text) + Labels(z)
  {
    var s := Serve(encode, db, req, now);
    var z := NormalizeZone(req.zone);
    var n := NormalizeName(z, req.name);
    var ttl, rdata := OrInt(req.ttl, DEFAULT_TTL), TrimSpace(req.rdata);
    SecondNormalizationIsIdentity(z, n);
    id := CreateRecordPuts(Skipped(db, req.skip), z, n, req.rtype, ttl, rdata, now);
    var row := Row(id, z, n, ReverseName(n), req.rtype, ttl, rdata);
    assert RowPut(db, s.db, id, row);
    RowPutAt(db, s.db, id, row);
    NormalizedNameIs(z, req.name);
  }

  /** Deleting a record takes one row, that of the type and data, and leaves every other. */
  ghost predicate RowTaken(db: Db, after: Db, id: nat, z: Text, n: Text, rtype: u16, rdata: Text) {
    && id in db.rows && after.rows == db.rows - {id} && |after.rows| == |db.rows| - 1
    && var row := db.rows[id];
       && row.zone == z && row.name == n && row.rtype == rtype && row.rdata == rdata
       && RowsAt(after, z, n) == RowsAt(db, z, n) - {row}
  }

  lemma {:induction false} WithoutOne<V>(m: map<nat, V>, id: nat)
    requires id in m
    ensures |m - {id}| == |m| - 1
  {
    assert (m - {id}).Keys == m.Keys - {id};
    assert |m.Keys| == |m| && |(m - {id}).Keys| == |m - {id}|;
  }

  lemma {:induction false} DeleteRecordTakes(db: Db, zone: Text, name: Text, rtype: u16, rdata: Text, now: int)
    returns (id: nat)
    requires Consistent(db) && DeleteRecord(db, zone, name, rtype, rdata, now).1.Done?
    ensures var z := NormalizeZone(zone);
            RowTaken(db, DeleteRecord(db, zone, name, rtype, rdata, now).0, id, z, NormalizeName(z, name), rtype, rdata)
  {
    var z := NormalizeZone(zone);
    var n := NormalizeName(z, name);
    var after := DeleteRecord(db, zone, name, rtype, rdata, now).0;
    id :| id in db.rows && Same(db.rows[id], z, n, rtype, rdata);
    assert after.rows == db.rows - {id};
    WithoutOne(db.rows, id);
    RowsWithout(db, after, id);
  }

  lemma {:induction false} RowsWithout(db: Db, after: Db, id: nat)
    requires Keyed(db) && id in db.rows && after.rows == db.rows - {id}
    ensures var row := db.rows[id]; RowsAt(after, row.zone, row.name) == RowsAt(db, row.zone, row.name) - {row}
  {
    var row := db.rows[id];
    forall r | r in RowsAt(db, row.zone, row.name) && r != row
      ensures r in RowsAt(after, row.zone, row.name)
    {
      var j :| j in db.rows && db.rows[j] == r;
      assert j in after.rows;
    }
    assert forall j :: j in after.rows ==> db.rows[j].id == j != id;
  }

  /** A deleted record is the one row of the type and data; the zone and the name are those the store
      makes of what the service made of them. */
  lemma {:induction false} RecordDeleted(encode: Encoder, db: Db, req: Request, now: int) returns (id: nat)
    requires Consistent(db) && req.DeleteRecordReq? && Serve(encode, db, req, now).outcome.Done?
    ensures var z0 := NormalizeZone(req.zone);
            var z := NormalizeZone(z0);
            var n := NormalizeName(z, NormalizeName(z0, req.name));
            RowTaken(db, Serve(encode, db, req, now).db, id, z, n, req.rtype, TrimSpace(req.rdata))
  {
    var z0 := NormalizeZone(req.zone);
    DeleteServed(encode, db, req, now);
    id := DeleteRecordTakes(db, z0, NormalizeName(z0, req.name), req.rtype, TrimSpace(req.rdata), now);
  }

  lemma {:induction false} DeleteServed(encode: Encoder, db: Db, req: Request, now: int)
    requires req.DeleteRecordReq?
    ensures var z0, s := NormalizeZone(req.zone), Serve(encode, db, req, now);
            (s.db, s.outcome) == DeleteRecord(db, z0, NormalizeName(z0, req.name), req.rtype, TrimSpace(req.rdata), now)
  {
  }

  // ---- zones -------------------------------------------------------------------------

  /** The values a zone is created with: the request's, or "ns1." and "hostmaster." in front of its name
      and the default timers where the request has none. */
  ghost predicate Defaulted(spec: ZoneSpec, k: Text, primaryNs: Text, adminEmail: Text, refresh: i32, retry: i32,
                            expire: i32, minTtl: i32)
  {
    && primaryNs == (if spec.primaryNs == [] then [110, 115, 49, 46] + k + [46] else spec.primaryNs)
    && adminEmail == (if spec.adminEmail == [] then [104, 111, 115, 116, 109, 97, 115, 116, 101, 114, 46] + k + [46]
                      else spec.adminEmail)
    && refresh == (if spec.refresh == 0 then 3600 else spec.refresh)
    && retry == (if spec.retry == 0 then 900 else spec.retry)
    && expire == (if spec.expire == 0 then 604800 else spec.expire)
    && minTtl == (if spec.minTtl == 0 then 300 else spec.minTtl)
  }

  lemma {:induction false} DefaultsAre(spec: ZoneSpec)
    ensures var d, k := WithDefaults(spec), NormalizeZone(spec.name);
            d.name == k && Defaulted(spec, k, d.primaryNs, d.adminEmail, d.refresh, d.retry, d.expire, d.minTtl)
  {
    var k := NormalizeZone(spec.name);
    assert NS1 + [DOT] + k + [DOT] == [110, 115, 49, 46] + k + [46];
    assert HOSTMASTER + [DOT] + k + [DOT] == [104, 111, 115, 116, 109, 97, 115, 116, 101, 114, 46] + k + [46];
  }

  lemma {:induction false} ZoneInserted(db: Db, d: ZoneSpec, now: int)
    requires CreateZone(db, d, now).1.Done? && NormalizeZone(d.name) == d.name
    ensures var after := CreateZone(db, d, now).0;
            && d.name !in db.zones && d.name in after.zones
            && after == db.(zones := db.zones[d.name := after.zones[d.name]])
            && after.zones[d.name] ==
               Zone(d.name, d.primaryNs, d.adminEmail, now, d.refresh, d.retry, d.expire, d.minTtl, now, now)
  {
  }

  /** A created zone has the request's values or the defaults, and the clock for its serial; nothing
      else changes. */
  lemma {:induction false} ZoneCreated(encode: Encoder, db: Db, spec: ZoneSpec, now: int)
    requires Serve(encode, db, CreateZoneReq(spec), now).outcome.Done?
    ensures var after := Serve(encode, db, CreateZoneReq(spec), now).db;
            var k := NormalizeZone(spec.name);
            && k !in db.zones && k in after.zones && after == db.(zones := db.zones[k := after.zones[k]])
            && var z := after.zones[k];
               && z.name == k && z.serial == z.createdAt == z.updatedAt == now
               && Defaulted(spec, k, z.primaryNs, z.adminEmail, z.refresh, z.retry, z.expire, z.minTtl)
  {
    var d, k := WithDefaults(spec), NormalizeZone(spec.name);
    DefaultsAre(spec);
    SecondNormalizationIsIdentity(k, k);
    ZoneInserted(db, d, now);
  }

  /** The zone row after a write: a new serial, one up or the clock if that is more. */
  ghost predicate SerialMoved(before: Zone, after: Zone, now: int) {
    after.serial == (if before.serial + 1 >= now then before.serial + 1 else now)
    && after.updatedAt == now && after.createdAt == before.createdAt && after.name == before.name
  }

  /** An updated zone has the values written and a new serial; nothing else changes. */
  lemma {:induction false} ZoneUpdated(encode: Encoder, db: Db, spec: ZoneSpec, now: int)
    requires Serve(encode, db, UpdateZoneReq(spec), now).outcome.Done?
    ensures var after := Serve(encode, db, UpdateZoneReq(spec), now).db;
            var k := NormalizeZone(spec.name);
            && k in db.zones && k in after.zones && after == db.(zones := db.zones[k := after.zones[k]])
            && SerialMoved(db.zones[k], after.zones[k], now)
            && var z := after.zones[k];
               && z.primaryNs == spec.primaryNs && z.adminEmail == spec.adminEmail && z.refresh == spec.refresh
               && z.retry == spec.retry && z.expire == spec.expire && z.minTtl == spec.minTtl
  {
  }

  /** A deleted zone is gone with exactly its records. */
  lemma {:induction false} ZoneDeleted(encode: Encoder, db: Db, name: Text, now: int)
    requires Serve(encode, db, DeleteZoneReq(name), now).outcome.Done?
    ensures var after := Serve(encode, db, DeleteZoneReq(name), now).db;
            var k := NormalizeZone(NormalizeZone(name));
            && k in db.zones && after.zones == db.zones - {k}
            && (forall id :: id in after.rows <==> id in db.rows && db.rows[id].zone != k)
            && (forall id :: id in after.rows ==> after.rows[id] == db.rows[id])
  {
  }

  /** Creating or deleting a record gives its zone a new serial and touches nothing else of any zone. */
  lemma {:induction false} RecordMovesSerial(encode: Encoder, db: Db, req: Request, now: int)
    requires Consistent(db) && (req.CreateRecordReq? || req.DeleteRecordReq?)
    requires Serve(encode, db, req, now).outcome.Done?
    ensures var after := Serve(encode, db, req, now).db.zones;
            var k := Written(req).zone;
            && k in db.zones && k in after && after == db.zones[k := after[k]]
            && SerialMoved(db.zones[k], after[k], now)
            && after[k] == db.zones[k].(serial := after[k].serial, updatedAt := now)
  {
    if req.DeleteRecordReq? {
      var z := NormalizeZone(NormalizeZone(req.zone));
      var n := NormalizeName(z, NormalizeName(NormalizeZone(req.zone), req.name));
      var id :| id in db.rows && Same(db.rows[id], z, n, req.rtype, TrimSpace(req.rdata));
      assert db.rows[id].zone in db.zones;
    }
  }

  // ---- which calls succeed -----------------------------------------------------------

  /** The rows at a name keep a record of this type and data away: a CNAME is for a name below the
      apex that has no other record, and other records are for names without a CNAME. */
  ghost predicate Clash(db: Db, z: Text, n: Text, rtype: u16, rdata: Text) {
    if rtype == 5 then n == z || exists r :: r in RowsAt(db, z, n) && (r.rtype != 5 || r.rdata != rdata)
    else exists r :: r in RowsAt(db, z, n) && r.rtype == 5
  }

  lemma {:induction false} ClashIs(db: Db, z: Text, n: Text, rtype: u16, rdata: Text)
    ensures Clashes(db.rows, z, n, rtype, rdata) <==> Clash(db, z, n, rtype, rdata)
  {
    forall id | id in db.rows && At(db.rows[id], z, n)
      ensures db.rows[id] in RowsAt(db, z, n)
    {
    }
    if Clashes(db.rows, z, n, rtype, rdata) && rtype == 5 && n != z {
      var id :| id in db.rows && At(db.rows[id], z, n) && !Same(db.rows[id], z, n, rtype, rdata);
      assert db.rows[id] in RowsAt(db, z, n);
    }
    if Clashes(db.rows, z, n, rtype, rdata) && rtype != 5 {
      var id :| id in db.rows && InSet(db.rows[id], z, n, 5);
      assert db.rows[id] in RowsAt(db, z, n);
    }
  }

  /** When a record is created, and what is reported if not; a call that fails writes nothing and
      announces nothing. */
  lemma {:induction false} CreateRecordOutcome(encode: Encoder, db: Db, req: Request, now: int)
    requires req.CreateRecordReq?
    ensures var s := Serve(encode, db, req, now);
            var z := NormalizeZone(req.zone);
            var n := NormalizeName(z, req.name);
            var rdata := TrimSpace(req.rdata);
            && s.outcome == (if z == [] || req.name == [] || !ValidName(n) || encode(req.rtype, rdata).None?
                                || req.rtype !in {1, 2, 5, 12, 13, 15, 16, 28, 33, 35, 39, 43, 44, 48, 52, 257}
                                || req.ttl < 0
                             then Invalid
                             else if z !in db.zones then NotFound
                             else if Clash(db, z, n, req.rtype, rdata) then Conflict
                             else Done)
            && (!s.outcome.Done? ==> s.db.zones == db.zones && s.db.rows == db.rows && s.notice == None)
  {
    var z := NormalizeZone(req.zone);
    var n := NormalizeName(z, req.name);
    if ValidName(n) { SecondNormalizationIsIdentity(z, n); }
    ClashIs(db, z, n, req.rtype, TrimSpace(req.rdata));
  }

  lemma {:induction false} DeleteRecordOutcome(encode: Encoder, db: Db, req: Request, now: int)
    requires req.DeleteRecordReq?
    ensures var s := Serve(encode, db, req, now);
            var z0 := NormalizeZone(req.zone);
            var z := NormalizeZone(z0);
            var n := NormalizeName(z, NormalizeName(z0, req.name));
            var rdata := TrimSpace(req.rdata);
            && s.outcome == (if exists r :: r in RowsAt(db, z, n) && r.rtype == req.rtype && r.rdata == rdata
                             then Done else NotFound)
            && (!s.outcome.Done? ==> s.db == db && s.notice == None)
  {
    var z := NormalizeZone(NormalizeZone(req.zone));
    var n := NormalizeName(z, NormalizeName(NormalizeZone(req.zone), req.name));
    if id :| id in db.rows && Same(db.rows[id], z, n, req.rtype, TrimSpace(req.rdata)) {
      assert db.rows[id] in RowsAt(db, z, n);
    }
  }

  /** The SOA parameters that pass: two names that can be packed and timers that are not negative. */
  predicate SoaAllowed(primaryNs: Text, adminEmail: Text, timers: seq<i32>) {
    && Packable(Lower(primaryNs)) && Packable(Lower(AtToDot(adminEmail)))
    && forall i :: 0 <= i < |timers| ==> timers[i] >= 0
  }

  /** When a zone is created, updated or deleted, and what is reported if not. */
  lemma {:induction false} ZoneOutcomes(encode: Encoder, db: Db, spec: ZoneSpec, now: int)
    ensures var s := Serve(encode, db, CreateZoneReq(spec), now);
            var d := WithDefaults(spec);
            var k := NormalizeZone(spec.name);
            && s.outcome == (if !ValidName(k)
                                || !SoaAllowed(d.primaryNs, d.adminEmail, [d.refresh, d.retry, d.expire, d.minTtl])
                             then Invalid
                             else if k in db.zones then Conflict else Done)
            && (!s.outcome.Done? ==> s.db == db && s.notice == None)
    ensures var s := Serve(encode, db, UpdateZoneReq(spec), now);
            && s.outcome == (if NormalizeZone(spec.name) !in db.zones then NotFound
                             else if !SoaAllowed(spec.primaryNs, spec.adminEmail,
                                                 [spec.refresh, spec.retry, spec.expire, spec.minTtl])
                             then Invalid else Done)
            && (!s.outcome.Done? ==> s.db == db && s.notice == None)
    ensures var s := Serve(encode, db, DeleteZoneReq(spec.name), now);
            && s.outcome == (if NormalizeZone(NormalizeZone(spec.name)) in db.zones then Done else NotFound)
            && (!s.outcome.Done? ==> s.db == db && s.notice == None)
  {
    var k, d := NormalizeZone(spec.name), WithDefaults(spec);
    if ValidName(k) { SecondNormalizationIsIdentity(k, k); }
    TimersAllowed(d.refresh, d.retry, d.expire, d.minTtl);
    TimersAllowed(spec.refresh, spec.retry, spec.expire, spec.minTtl);
  }

  lemma {:induction false} TimersAllowed(a: i32, b: i32, c: i32, d: i32)
    ensures (forall i :: 0 <= i < 4 ==> [a, b, c, d][i] >= 0) <==> a >= 0 && b >= 0 && c >= 0 && d >= 0
  {
    var ts := [a, b, c, d];
    assert ts[0] == a && ts[1] == b && ts[2] == c && ts[3] == d;
  }
}
