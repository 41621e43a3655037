/** Which cached answers a change can alter, and which keys an invalidation drops. */
module Invalidation {
  import opened Bytes
  import opened Names
  import opened Validation
  import opened Tables
  import opened Transactions
  import opened Service
  import ShardedCache

  datatype Key = ZoneKey(qname: Text) | NameKey(zone: Text, name: Text)

  datatype Answer = ZoneAnswer(zone: Option<Zone>) | NameAnswer(names: NameSet)

  /** What the store answers for a cache key. */
  function StoreAnswer(db: Db, k: Key): Answer {
    match k
    case ZoneKey(q) => ZoneAnswer(FindZone(db.zones, q))
    case NameKey(z, n) => NameAnswer(LookupName(db, z, n))
  }

  // ---- what a change reaches ---------------------------------------------------------

  /** The rows keyed `(zone, name)` are not the ones a change writes. */
  predicate Elsewhere(ch: Change, zone: Text, name: Text) {
    match ch
    case ZoneChange(z) => zone != z
    case RecordChange(z, n) => zone != z || name != n
  }

  ghost predicate Untouched(db: Db, after: Db, ch: Change) {
    forall zone, name :: Elsewhere(ch, zone, name) ==> RowsAt(db, zone, name) == RowsAt(after, zone, name)
  }

  /** A name lookup a change can alter: in the changed zone, at or above the changed name. */
  predicate Reaches(ch: Change, zone: Text, name: Text) {
    match ch
    case ZoneChange(z) => zone == z
    case RecordChange(z, n) => zone == z && InZone(n, name)
  }

  lemma {:induction false} RowsAtAgree(db: Db, after: Db, zone: Text, name: Text)
    requires forall id :: id in db.rows && At(db.rows[id], zone, name) ==>
               id in after.rows && after.rows[id] == db.rows[id]
    requires forall id :: id in after.rows && At(after.rows[id], zone, name) ==>
               id in db.rows && after.rows[id] == db.rows[id]
    ensures RowsAt(db, zone, name) == RowsAt(after, zone, name)
  {
  }

  lemma {:induction false} SameRowsUntouched(db: Db, after: Db, ch: Change)
    requires db.rows == after.rows
    ensures Untouched(db, after, ch)
  {
  }

  lemma {:induction false} UpsertUntouched(db: Db, z: Text, n: Text, rtype: u16, ttl: int, rdata: Text, after: Db)
    requires Keyed(db) && after.rows == WithTtl(Upserted(db, z, n, rtype, ttl, rdata), z, n, rtype, ttl)
    ensures Untouched(db, after, RecordChange(z, n))
  {
    var base := Upserted(db, z, n, rtype, ttl, rdata);
    forall zone, name | Elsewhere(RecordChange(z, n), zone, name)
      ensures RowsAt(db, zone, name) == RowsAt(after, zone, name)
    {
      assert forall id :: id in after.rows && At(after.rows[id], zone, name) ==>
               base[id] == after.rows[id] && id in db.rows;
      RowsAtAgree(db, after, zone, name);
    }
  }

  lemma {:induction false} CreateRecordUntouched(db: Db, zone: Text, name: Text, rtype: u16, ttl: int, rdata: Text,
                                                 now: int)
    requires Keyed(db) && CreateRecord(db, zone, name, rtype, ttl, rdata, now).1.Done?
    ensures var z := NormalizeZone(zone);
            var after := CreateRecord(db, zone, name, rtype, ttl, rdata, now).0;
            Untouched(db, after, RecordChange(z, NormalizeName(z, name)))
  {
    var z := NormalizeZone(zone);
    var after := CreateRecord(db, zone, name, rtype, ttl, rdata, now).0;
    UpsertUntouched(db, z, NormalizeName(z, name), rtype, ttl, rdata, after);
  }

  lemma {:induction false} DeleteRecordUntouched(db: Db, zone: Text, name: Text, rtype: u16, rdata: Text, now: int)
    ensures var z := NormalizeZone(zone);
            Untouched(db, DeleteRecord(db, zone, name, rtype, rdata, now).0, RecordChange(z, NormalizeName(z, name)))
  {
    var z := NormalizeZone(zone);
    var n := NormalizeName(z, name);
    var after := DeleteRecord(db, zone, name, rtype, rdata, now).0;
    forall zone, name | Elsewhere(RecordChange(z, n), zone, name)
      ensures RowsAt(db, zone, name) == RowsAt(after, zone, name)
    {
      RowsAtAgree(db, after, zone, name);
    }
  }

  lemma {:induction false} DeleteZoneUntouched(db: Db, zone: Text)
    ensures Untouched(db, DeleteZone(db, zone).0, ZoneChange(NormalizeZone(zone)))
  {
    var after := DeleteZone(db, zone).0;
    forall z, name | Elsewhere(ZoneChange(NormalizeZone(zone)), z, name)
      ensures RowsAt(db, z, name) == RowsAt(after, z, name)
    {
      RowsAtAgree(db, after, z, name);
    }
  }

  /** A call that succeeds alters only the rows it names. */
  lemma {:induction false} ServeUntouched(encode: Encoder, db: Db, req: Request, now: int)
    requires Keyed(db) && Serve(encode, db, req, now).outcome.Done?
    ensures Untouched(db, Serve(encode, db, req, now).db, Written(req))
  {
    match req
    case CreateZoneReq(_) => SameRowsUntouched(db, Serve(encode, db, req, now).db, Written(req));
    case UpdateZoneReq(_) => SameRowsUntouched(db, Serve(encode, db, req, now).db, Written(req));
    case DeleteZoneReq(name0) => DeleteZoneUntouched(db, NormalizeZone(name0));
    case CreateRecordReq(zone0, name0, rtype, ttl0, rdata0, skip) =>
      var zone := NormalizeZone(zone0);
      CreateRecordUntouched(Skipped(db, skip), zone, NormalizeName(zone, name0), rtype, OrInt(ttl0, DEFAULT_TTL),
        TrimSpace(rdata0), now);
    case DeleteRecordReq(zone0, name0, rtype, rdata0) =>
      var zone := NormalizeZone(zone0);
      DeleteRecordUntouched(db, zone, NormalizeName(zone, name0), rtype, TrimSpace(rdata0), now);
  }

  /** A change alters a name lookup, or its first read, only where it reaches. */
  lemma {:induction false} ChangeIsLocal(db: Db, after: Db, ch: Change, zone: Text, name: Text)
    requires RevIndexed(db) && RevIndexed(after) && Untouched(db, after, ch)
    requires !Reaches(ch, zone, name)
    ensures RowsAt(db, zone, name) == RowsAt(after, zone, name)
    ensures LookupName(db, zone, name) == LookupName(after, zone, name)
  {
    assert Elsewhere(ch, zone, name);
    ScanIsBelow(db, zone, name);
    ScanIsBelow(after, zone, name);
    forall m | Below(m, name)
      ensures RowsAt(db, zone, m) == RowsAt(after, zone, m)
    {
      assert Elsewhere(ch, zone, m);
    }
    forall id | id in db.rows && db.rows[id].zone == zone && Below(db.rows[id].name, name)
      ensures AnyInScan(after, zone, name)
    {
      assert db.rows[id] in RowsAt(db, zone, db.rows[id].name);
      assert db.rows[id] in RowsAt(after, zone, db.rows[id].name);
    }
    forall id | id in after.rows && after.rows[id].zone == zone && Below(after.rows[id].name, name)
      ensures AnyInScan(db, zone, name)
    {
      assert after.rows[id] in RowsAt(after, zone, after.rows[id].name);
      assert after.rows[id] in RowsAt(db, zone, after.rows[id].name);
    }
  }

  // ---- invalidation programs ---------------------------------------------------------

  datatype Side = Zones | Names

  function SideOf(k: Key): Side {
    if k.ZoneKey? then Zones else Names
  }

  type Hash = Key -> nat

  function ShardOf(h: Hash, k: Key): nat {
    h(k) % ShardedCache.SHARDS
  }

  /** The atomic actions of an invalidation: raise an epoch, or delete under one shard lock. */
  datatype Action =
    | Bump(side: Side)
    | ClearShard(side: Side, shard: nat)
    | DropKey(key: Key)
    | DropGroup(group: Text, shard: nat)

  type Program = seq<Action>

  /** Executing the action deletes the entry of `k`, if there is one. */
  predicate Removes(h: Hash, a: Action, k: Key) {
    match a
    case Bump(_) => false
    case ClearShard(side, i) => SideOf(k) == side && ShardOf(h, k) == i
    case DropKey(key) => k == key
    case DropGroup(z, i) => k.NameKey? && k.zone == z && ShardOf(h, k) == i
  }

  /** `Cache.Clear`. */
  function Sweep(side: Side): Program {
    [Bump(side)] + seq(ShardedCache.SHARDS, i requires 0 <= i < ShardedCache.SHARDS => ClearShard(side, i))
  }

  /** `Cache.DeleteGroup` on the names cache. */
  function SweepGroup(z: Text): Program {
    [Bump(Names)] + seq(ShardedCache.SHARDS, i requires 0 <= i < ShardedCache.SHARDS => DropGroup(z, i))
  }

  /** The loop of `Invalidate`: `Cache.Delete` for the name and each ancestor up to the zone. */
  function Climb(z: Text, n: Text): Program
    decreases |n|
  {
    [Bump(Names), DropKey(NameKey(z, n))] +
    if n == z || DOT !in n then [] else (ParentBelow(n); Climb(z, Parent(n)))
  }

  function Invalidate(ch: Change): Program {
    Sweep(Zones) +
    match ch
    case ZoneChange(z) => SweepGroup(z)
    case RecordChange(z, n) => if n == [] then SweepGroup(z) else Climb(z, n)
  }

  function InvalidateAll(): Program {
    Sweep(Zones) + Sweep(Names)
  }

  ghost predicate Drops(h: Hash, p: Program, k: Key) {
    exists j :: 0 <= j < |p| && Removes(h, p[j], k)
  }

  /** The program raises the key's epoch and later deletes its entry. */
  ghost predicate BumpsThenDrops(h: Hash, p: Program, k: Key) {
    exists i, j :: 0 <= i < j < |p| && p[i] == Bump(SideOf(k)) && Removes(h, p[j], k)
  }

  lemma {:induction false} ConcatBumpsThenDrops(h: Hash, p: Program, q: Program, k: Key)
    requires BumpsThenDrops(h, p, k) || BumpsThenDrops(h, q, k)
    ensures BumpsThenDrops(h, p + q, k)
  {
    if BumpsThenDrops(h, p, k) {
      var i, j :| 0 <= i < j < |p| && p[i] == Bump(SideOf(k)) && Removes(h, p[j], k);
      assert (p + q)[i] == p[i] && (p + q)[j] == p[j];
    } else {
      var i, j :| 0 <= i < j < |q| && q[i] == Bump(SideOf(k)) && Removes(h, q[j], k);
      assert (p + q)[|p| + i] == q[i] && (p + q)[|p| + j] == q[j];
    }
  }

  lemma {:induction false} SweepReaches(h: Hash, side: Side, k: Key)
    requires SideOf(k) == side
    ensures BumpsThenDrops(h, Sweep(side), k)
  {
    var p := Sweep(side);
    assert p[0] == Bump(side) && p[1 + ShardOf(h, k)] == ClearShard(side, ShardOf(h, k));
  }

  lemma {:induction false} SweepGroupReaches(h: Hash, z: Text, n: Text)
    ensures BumpsThenDrops(h, SweepGroup(z), NameKey(z, n))
  {
    var p := SweepGroup(z);
    var s := ShardOf(h, NameKey(z, n));
    assert p[0] == Bump(Names) && p[1 + s] == DropGroup(z, s);
  }

  lemma {:induction false} ClimbReaches(h: Hash, z: Text, name: Text, n: Text)
    requires InZone(name, n) && InZone(n, z)
    ensures BumpsThenDrops(h, Climb(z, name), NameKey(z, n))
    decreases |name|
  {
    var p := Climb(z, name);
    if name == n {
      assert p[0] == Bump(Names) && p[1] == DropKey(NameKey(z, n));
    } else {
      BelowParent(name, n);
      BelowIrreflexive(name, n);
      ParentBelow(name);
      ClimbReaches(h, z, Parent(name), n);
      ConcatBumpsThenDrops(h, [Bump(Names), DropKey(NameKey(z, name))], Climb(z, Parent(name)), NameKey(z, n));
    }
  }

  lemma {:induction false} ConcatDrops(h: Hash, p: Program, q: Program, k: Key)
    ensures Drops(h, p + q, k) <==> Drops(h, p, k) || Drops(h, q, k)
  {
    if Drops(h, p, k) {
      var j :| 0 <= j < |p| && Removes(h, p[j], k);
      assert (p + q)[j] == p[j];
    }
    if Drops(h, q, k) {
      var j :| 0 <= j < |q| && Removes(h, q[j], k);
      assert (p + q)[|p| + j] == q[j];
    }
    if Drops(h, p + q, k) {
      var j :| 0 <= j < |p + q| && Removes(h, (p + q)[j], k);
      assert if j < |p| then p[j] == (p + q)[j] else q[j - |p|] == (p + q)[j];
    }
  }

  lemma {:induction false} ClimbStepDrops(h: Hash, z: Text, n: Text, k: Key)
    ensures Drops(h, [Bump(Names), DropKey(NameKey(z, n))], k) <==> k == NameKey(z, n)
  {
    var p := [Bump(Names), DropKey(NameKey(z, n))];
    assert p[1] == DropKey(NameKey(z, n));
  }

  /** The loop deletes exactly the keys of the name and its ancestors down to the apex. */
  lemma {:induction false} ClimbIsExact(h: Hash, z: Text, name: Text, k: Key)
    requires InZone(name, z)
    ensures Drops(h, Climb(z, name), k) <==> k.NameKey? && k.zone == z && InZone(name, k.name) && InZone(k.name, z)
    decreases |name|
  {
    ClimbStepDrops(h, z, name, k);
    if name == z {
      assert Climb(z, name) == [Bump(Names), DropKey(NameKey(z, name))];
      if k.NameKey? { BelowIrreflexive(z, k.name); }
    } else {
      BelowParent(name, z);
      ParentBelow(name);
      ClimbIsExact(h, z, Parent(name), k);
      ConcatDrops(h, [Bump(Names), DropKey(NameKey(z, name))], Climb(z, Parent(name)), k);
      if k.NameKey? {
        if Below(name, k.name) { BelowParent(name, k.name); }
        if InZone(Parent(name), k.name) { InZoneTrans(name, Parent(name), k.name); }
      }
    }
  }

  /** Keys not strictly above their own zone: those every invalidation accounts for. */
  predicate Guarded(k: Key) {
    k.ZoneKey? || !Below(k.zone, k.name)
  }

  /** The change can alter the answer for the key: any zone lookup, or a name lookup it reaches. */
  predicate Alters(ch: Change, k: Key) {
    k.ZoneKey? || Reaches(ch, k.zone, k.name)
  }

  /** Keys that are not given up, among those invalidations account for. */
  predicate Watched(lost: set<Key>, k: Key) {
    Guarded(k) && k !in lost
  }

  lemma {:induction false} InvalidateReaches(h: Hash, ch: Change, k: Key)
    requires Guarded(k)
    requires k.ZoneKey? || Reaches(ch, k.zone, k.name)
    requires ch.RecordChange? ==> InZone(ch.name, ch.zone)
    ensures BumpsThenDrops(h, Invalidate(ch), k)
  {
    var second := match ch
      case ZoneChange(z) => SweepGroup(z)
      case RecordChange(z, n) => if n == [] then SweepGroup(z) else Climb(z, n);
    if k.ZoneKey? {
      SweepReaches(h, Zones, k);
    } else {
      match ch
      case ZoneChange(z) => SweepGroupReaches(h, z, k.name);
      case RecordChange(z, n) =>
        if n == [] {
          SweepGroupReaches(h, z, k.name);
        } else {
          AncestorsComparable(n, k.name, z);
          ClimbReaches(h, z, n, k.name);
        }
    }
    ConcatBumpsThenDrops(h, Sweep(Zones), second, k);
  }

  lemma {:induction false} SweepSparesNames(h: Hash, k: Key)
    requires k.NameKey?
    ensures !Drops(h, Sweep(Zones), k)
  {
    forall j | 0 <= j < |Sweep(Zones)|
      ensures !Removes(h, Sweep(Zones)[j], k)
    {
      assert Sweep(Zones)[j] == if j == 0 then Bump(Zones) else ClearShard(Zones, j - 1);
    }
  }

  lemma {:induction false} InvalidateDropsName(h: Hash, z: Text, name: Text, k: Key)
    requires InZone(name, z) && name != [] && k.NameKey?
    ensures Drops(h, Invalidate(RecordChange(z, name)), k) <==>
            k.zone == z && InZone(name, k.name) && InZone(k.name, z)
  {
    ConcatDrops(h, Sweep(Zones), Climb(z, name), k);
    ClimbIsExact(h, z, name, k);
    SweepSparesNames(h, k);
  }

  lemma {:induction false} FirstRecord(encode: Encoder, zone: Text, z: Zone, rtype: u16, rdata: Text, now: int)
    requires ValidName(zone) && SupportedType(rtype) && rtype != TYPE_CNAME
    requires TrimSpace(rdata) == rdata && encode(rtype, rdata).Some?
    ensures var s := Serve(encode, Db(map[zone := z], map[], 1), CreateRecordReq(zone, zone, rtype, 0, rdata, 0), now);
            && s.notice == Some(RecordChange(zone, zone))
            && s.db.rows == map[1 := Row(1, zone, zone, ReverseName(zone), rtype, DEFAULT_TTL, rdata)]
  {
    SecondNormalizationIsIdentity(zone, zone);
  }

  lemma {:induction false} FirstRecordShows(db: Db, after: Db, zone: Text, name: Text, r: Row)
    requires db.rows == map[] && after.rows == map[1 := r] && Below(zone, name)
    requires r.zone == zone && r.name == zone && r.nameRev == ReverseName(zone)
    ensures LookupName(db, zone, name) != LookupName(after, zone, name)
  {
    BelowIrreflexive(zone, name);
    ScanIsBelow(db, zone, name);
    ScanIsBelow(after, zone, name);
    assert 1 in after.rows;
    assert RowsAt(after, zone, name) == {} && RowsAt(db, zone, name) == {};
  }

  /** The guard is exact: for every key strictly above its zone there is a change that alters
      the store's answer for it and whose invalidation leaves the entry in place. */
  lemma {:induction false} UnguardedEscapes(encode: Encoder, h: Hash, k: Key, z: Zone, rtype: u16, rdata: Text,
                                            now: int)
    requires !Guarded(k) && ValidName(k.zone)
    requires SupportedType(rtype) && rtype != TYPE_CNAME && TrimSpace(rdata) == rdata && encode(rtype, rdata).Some?
    ensures var db := Db(map[k.zone := z], map[], 1);
            var s := Serve(encode, db, CreateRecordReq(k.zone, k.zone, rtype, 0, rdata, 0), now);
            && s.notice == Some(RecordChange(k.zone, k.zone))
            && StoreAnswer(db, k) != StoreAnswer(s.db, k)
            && !Drops(h, Invalidate(RecordChange(k.zone, k.zone)), k)
  {
    var db := Db(map[k.zone := z], map[], 1);
    var s := Serve(encode, db, CreateRecordReq(k.zone, k.zone, rtype, 0, rdata, 0), now);
    FirstRecord(encode, k.zone, z, rtype, rdata, now);
    FirstRecordShows(db, s.db, k.zone, k.name, s.db.rows[1]);
    InvalidateDropsName(h, k.zone, k.zone, k);
    BelowIrreflexive(k.zone, k.name);
  }

  lemma {:induction false} SweepGroupDropsGroup(h: Hash, z: Text, k: Key)
    requires Drops(h, SweepGroup(z), k)
    ensures k.NameKey? && k.zone == z
  {
  }

  lemma {:induction false} InvalidateStaysInZone(h: Hash, ch: Change, k: Key)
    requires k.NameKey? && k.zone != ch.zone
    requires ch.RecordChange? ==> InZone(ch.name, ch.zone)
    ensures !Drops(h, Invalidate(ch), k)
  {
    if ch.RecordChange? && ch.name != [] {
      InvalidateDropsName(h, ch.zone, ch.name, k);
    } else {
      ConcatDrops(h, Sweep(Zones), SweepGroup(ch.zone), k);
      if Drops(h, SweepGroup(ch.zone), k) { SweepGroupDropsGroup(h, ch.zone, k); }
      SweepSparesNames(h, k);
    }
  }

  lemma {:induction false} RemovedRowShows(db: Db, after: Db, id: nat)
    requires Keyed(db) && Keyed(after) && id in db.rows && id !in after.rows
    ensures LookupName(db, db.rows[id].zone, db.rows[id].name) != LookupName(after, db.rows[id].zone, db.rows[id].name)
  {
    var r := db.rows[id];
    assert r in RowsAt(db, r.zone, r.name);
    assert r !in RowsAt(after, r.zone, r.name);
  }

  /** The other half of `NoticeAgreesIff`: a delete whose zone text needs stripping twice leaves
      the cached answer for every row it removed both wrong and out of reach of its own
      invalidation. */
  lemma {:induction false} MisannouncedDeleteEscapes(encode: Encoder, h: Hash, db: Db, req: Request, now: int, id: nat)
    requires Consistent(db) && (req.DeleteZoneReq? || req.DeleteRecordReq?) && !StrippedOnce(req)
    requires Serve(encode, db, req, now).notice.Some?
    requires id in db.rows && id !in Serve(encode, db, req, now).db.rows
    ensures var k := NameKey(db.rows[id].zone, db.rows[id].name);
            && StoreAnswer(db, k) != StoreAnswer(Serve(encode, db, req, now).db, k)
            && !Drops(h, Invalidate(Serve(encode, db, req, now).notice.value), k)
  {
    var s := Serve(encode, db, req, now);
    ServeConsistent(encode, db, req, now);
    RemovedRowShows(db, s.db, id);
    InvalidateStaysInZone(h, s.notice.value, NameKey(db.rows[id].zone, db.rows[id].name));
  }
}
