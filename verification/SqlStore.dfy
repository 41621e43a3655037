/** The store object: the transactions as the statements it issues. */
module SqlStore {
  import opened Bytes
  import opened Names
  import opened Validation
  import opened Tables
  import T = Transactions
  import opened Transactions

  /** `INSERT ... ON CONFLICT DO UPDATE SET ttl`. */
  function Insert(rows: map<nat, Row>, id: nat, r: Row): map<nat, Row> {
    if exists i :: i in rows && Same(rows[i], r.zone, r.name, r.rtype, r.rdata) then
      map i | i in rows ::
        if Same(rows[i], r.zone, r.name, r.rtype, r.rdata) then rows[i].(ttl := r.ttl) else rows[i]
    else rows[id := r]
  }

  /** `UPDATE records SET ttl = $4 WHERE ... AND ttl <> $4`. */
  function SetTtl(rows: map<nat, Row>, zone: Text, name: Text, rtype: u16, ttl: int): map<nat, Row> {
    map i | i in rows ::
      if InSet(rows[i], zone, name, rtype) && rows[i].ttl != ttl then rows[i].(ttl := ttl) else rows[i]
  }

  lemma {:induction false} InsertThenSetTtl(db: Db, r: Row)
    requires r.id == db.nextId && r.nameRev == ReverseName(r.name)
    ensures SetTtl(Insert(db.rows, r.id, r), r.zone, r.name, r.rtype, r.ttl) ==
            WithTtl(Upserted(db, r.zone, r.name, r.rtype, r.ttl, r.rdata), r.zone, r.name, r.rtype, r.ttl)
  {
  }

  ghost predicate IsRow(rows: map<nat, Row>, r: Row) {
    exists id :: id in rows && rows[id] == r
  }

  lemma {:induction false} Inserted(rows: map<nat, Row>, id: nat, r: Row)
    ensures var after := Insert(rows, id, r);
            exists i :: i in after && Same(after[i], r.zone, r.name, r.rtype, r.rdata) && after[i].ttl == r.ttl
  {
    var after := Insert(rows, id, r);
    if i :| i in rows && Same(rows[i], r.zone, r.name, r.rtype, r.rdata) {
      assert i in after && after[i] == rows[i].(ttl := r.ttl);
    } else {
      assert after[id] == r;
    }
  }

  /** The upsert and the row it returns. */
  method Upsert(rows: map<nat, Row>, id: nat, r: Row) returns (after: map<nat, Row>, at: nat)
    ensures after == Insert(rows, id, r) && at in after
    ensures Same(after[at], r.zone, r.name, r.rtype, r.rdata) && after[at].ttl == r.ttl
  {
    after := Insert(rows, id, r);
    Inserted(rows, id, r);
    at :| at in after && Same(after[at], r.zone, r.name, r.rtype, r.rdata) && after[at].ttl == r.ttl;
  }

  /** The database as the store drives it: each method issues its statements in order and
      restores the saved tables when the transaction rolls back. */
  class Store {
    var zones: map<Text, Zone>
    var rows: map<nat, Row>
    var nextId: nat

    function Tables(): Db
      reads this
    {
      Db(zones, rows, nextId)
    }

    constructor ()
      ensures Tables() == Db(map[], map[], 1)
    {
      zones, rows, nextId := map[], map[], 1;
    }

    method CreateRecord(zone0: Text, name0: Text, rtype: u16, ttl: int, rdata: Text, now: int, skip: nat)
      returns (out: Outcome, made: Option<Row>)
      modifies this
      ensures (Tables(), out) == T.CreateRecord(Skipped(old(Tables()), skip), zone0, name0, rtype, ttl, rdata, now)
      ensures made.Some? <==> out.Done?
      ensures out.Done? ==> var zone := NormalizeZone(zone0);
                            IsRow(rows, made.value) && made.value.ttl == ttl
                            && Same(made.value, zone, NormalizeName(zone, name0), rtype, rdata)
    {
      var zone := NormalizeZone(zone0);
      var name := NormalizeName(zone, name0);
      var savedZones := zones;
      nextId := nextId + skip;
      if zone !in zones {
        return NotFound, None;
      }
      zones := zones[zone := Bumped(zones[zone], now)];
      if rtype == TYPE_CNAME {
        if name == zone {
          zones := savedZones;
          return Conflict, None;
        }
        if exists id :: && id in rows && At(rows[id], zone, name)
                        && (rows[id].rtype != TYPE_CNAME || rows[id].rdata != rdata) {
          zones := savedZones;
          return Conflict, None;
        }
      } else if exists id :: id in rows && At(rows[id], zone, name) && rows[id].rtype == TYPE_CNAME {
        zones := savedZones;
        return Conflict, None;
      }
      var rev := ReverseLabels(name);
      var row := Row(nextId, zone, name, rev, rtype, ttl, rdata);
      InsertThenSetTtl(Skipped(old(Tables()), skip), row);
      var at;
      rows, at := Upsert(rows, nextId, row);
      made := Some(rows[at]);
      nextId := nextId + 1;
      rows := SetTtl(rows, zone, name, rtype, ttl);
      assert rows[at] == made.value;
      return Done, made;
    }

    method DeleteRecord(zone0: Text, name0: Text, rtype: u16, rdata: Text, now: int) returns (out: Outcome)
      modifies this
      ensures (Tables(), out) == T.DeleteRecord(old(Tables()), zone0, name0, rtype, rdata, now)
    {
      var zone := NormalizeZone(zone0);
      var name := NormalizeName(zone, name0);
      var gone := set id | id in rows && Same(rows[id], zone, name, rtype, rdata);
      ghost var before := rows;
      rows := rows - gone;
      if gone == {} {
        assert rows == before;
        assert forall id :: id in before ==> id !in gone;
        return NotFound;
      }
      var id :| id in gone;
      assert id in before && Same(before[id], zone, name, rtype, rdata);
      assert rows == map id | id in before && !Same(before[id], zone, name, rtype, rdata) :: before[id];
      if zone in zones {
        zones := zones[zone := Bumped(zones[zone], now)];
      }
      return Done;
    }

    method CreateZone(s: ZoneSpec, now: int) returns (out: Outcome)
      modifies this
      ensures (Tables(), out) == T.CreateZone(old(Tables()), s, now)
    {
      var name := NormalizeZone(s.name);
      if name == [] {
        return Invalid;
      }
      if name in zones {
        return Conflict;
      }
      var row := Zone(name, s.primaryNs, s.adminEmail, now, s.refresh, s.retry, s.expire, s.minTtl, now, now);
      zones := zones[name := row];
      return Done;
    }

    method UpdateZone(s: ZoneSpec, now: int) returns (out: Outcome)
      modifies this
      ensures (Tables(), out) == T.UpdateZone(old(Tables()), s, now)
    {
      var name := NormalizeZone(s.name);
      if name !in zones {
        return NotFound;
      }
      var row := zones[name].(primaryNs := s.primaryNs, adminEmail := s.adminEmail, refresh := s.refresh,
                              retry := s.retry, expire := s.expire, minTtl := s.minTtl);
      zones := zones[name := Bumped(row, now)];
      return Done;
    }

    /** The foreign key cascades: the zone's records go with it. */
    method DeleteZone(name0: Text) returns (out: Outcome)
      modifies this
      ensures (Tables(), out) == T.DeleteZone(old(Tables()), name0)
    {
      var name := NormalizeZone(name0);
      if name !in zones {
        return NotFound;
      }
      zones := zones - {name};
      rows := map id | id in rows && rows[id].zone != name :: rows[id];
      return Done;
    }
  }
}
