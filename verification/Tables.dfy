/** The two tables and the queries the resolver runs against them. */
module Tables {
  import opened Bytes
  import opened Names
  import opened Validation

  const TYPE_A: u16 := 1
  const TYPE_NS: u16 := 2
  const TYPE_CNAME: u16 := 5
  const TYPE_SOA: u16 := 6
  const TYPE_PTR: u16 := 12
  const TYPE_MX: u16 := 15
  const TYPE_TXT: u16 := 16
  const TYPE_AAAA: u16 := 28
  const TYPE_SRV: u16 := 33
  const TYPE_DNAME: u16 := 39
  const TYPE_DS: u16 := 43
  const TYPE_ANY: u16 := 255

  datatype Zone = Zone(name: Text, primaryNs: Text, adminEmail: Text, serial: int,
                       refresh: i32, retry: i32, expire: i32, minTtl: i32,
                       createdAt: int, updatedAt: int)

  /** One row of `records`; the type is held as its numeric code. */
  datatype Row = Row(id: nat, zone: Text, name: Text, nameRev: Text, rtype: u16, ttl: int, rdata: Text)

  datatype Db = Db(zones: map<Text, Zone>, rows: map<nat, Row>, nextId: nat)

  // ---- FindZone ----------------------------------------------------------------------

  /** The deepest zone at or above `name`. */
  function Deepest(zones: map<Text, Zone>, name: Text): Option<Zone>
    decreases |name|
  {
    if name == [] then None
    else if name in zones then Some(zones[name])
    else if DOT in name then ParentBelow(name); Deepest(zones, Parent(name))
    else None
  }

  function FindZone(zones: map<Text, Zone>, qname: Text): Option<Zone> {
    Deepest(zones, NormalizeZone(qname))
  }

  /** `Deepest` is longest-suffix matching: it returns a zone holding the name, and that zone
      lies inside every other zone holding it; it fails only when there is none. */
  lemma {:induction false} DeepestIsLongestMatch(zones: map<Text, Zone>, name: Text)
    ensures Deepest(zones, name).None? ==> forall k :: k in zones && k != [] ==> !InZone(name, k)
    ensures Deepest(zones, name).Some? ==>
              exists k :: k in zones && k != [] && Deepest(zones, name) == Some(zones[k]) && InZone(name, k)
                          && forall o :: o in zones && o != [] && InZone(name, o) ==> InZone(k, o)
    decreases |name|
  {
    if name != [] && name !in zones {
      forall k | k in zones && k != [] && InZone(name, k)
        ensures DOT in name && InZone(Parent(name), k)
      {
        BelowParent(name, k);
      }
      if DOT in name {
        ParentBelow(name);
        DeepestIsLongestMatch(zones, Parent(name));
        forall k | InZone(Parent(name), k)
          ensures InZone(name, k)
        {
          InZoneTrans(name, Parent(name), k);
        }
      }
    } else if name == [] {
      forall k | k in zones && k != []
        ensures !InZone(name, k)
      {
      }
    }
  }

  /** The names the query may match: the name and its ancestors, longest first. */
  function Candidates(name: Text): seq<Text>
    decreases |name|
  {
    if name == [] then []
    else if DOT in name then ParentBelow(name); [name] + Candidates(Parent(name))
    else [name]
  }

  /** `WHERE name = ANY(cs) ORDER BY length(name) DESC LIMIT 1`. */
  ghost predicate LongestOf(zones: map<Text, Zone>, cs: seq<Text>, z: Option<Zone>) {
    if z.None? then forall c :: c in cs ==> c !in zones
    else exists c :: c in cs && c in zones && z == Some(zones[c])
                     && forall o :: o in cs && o in zones ==> |o| <= |c|
  }

  lemma {:induction false} CandidatesShrink(name: Text)
    ensures forall c :: c in Candidates(name) ==> |c| <= |name|
    decreases |name|
  {
    if name != [] && DOT in name {
      ParentBelow(name);
      CandidatesShrink(Parent(name));
    }
  }

  lemma {:induction false} LongestIsDeepest(zones: map<Text, Zone>, name: Text, z: Option<Zone>)
    requires LongestOf(zones, Candidates(name), z)
    ensures z == Deepest(zones, name)
    decreases |name|
  {
    if name != [] && DOT in name {
      var rest := Candidates(Parent(name));
      ParentBelow(name);
      CandidatesShrink(Parent(name));
      assert Candidates(name)[0] == name;
      assert forall c :: c in Candidates(name) <==> c == name || c in rest;
      if name !in zones {
        LongestIsDeepest(zones, Parent(name), z);
      }
    }
  }

  /** The candidate loop followed by the query finds the deepest zone. */
  method FindZoneByCandidates(zones: map<Text, Zone>, qname: Text) returns (z: Option<Zone>)
    ensures z == FindZone(zones, qname)
  {
    var name := NormalizeZone(qname);
    ghost var start := name;
    var candidates: seq<Text> := [];
    while name != []
      invariant candidates + Candidates(name) == Candidates(start)
      decreases |name|
    {
      candidates := candidates + [name];
      var i := IndexDot(name);
      if i < 0 {
        name := [];
        break;
      }
      ParentBelow(name);
      name := name[i + 1..];
    }
    assert candidates == Candidates(start);
    z := SelectLongest(zones, candidates);
    LongestIsDeepest(zones, start, z);
  }

  method SelectLongest(zones: map<Text, Zone>, cs: seq<Text>) returns (z: Option<Zone>)
    ensures LongestOf(zones, cs, z)
  {
    z := None;
    var length := 0;
    for i := 0 to |cs|
      invariant LongestOf(zones, cs[..i], z)
      invariant z.Some? ==> exists c :: c in cs[..i] && c in zones && z == Some(zones[c]) && |c| == length
                                        && forall o :: o in cs[..i] && o in zones ==> |o| <= length
    {
      assert cs[..i + 1] == cs[..i] + [cs[i]];
      if cs[i] in zones && (z.None? || length < |cs[i]|) {
        z, length := Some(zones[cs[i]]), |cs[i]|;
      }
    }
    assert cs[..|cs|] == cs;
  }

  // ---- LookupName --------------------------------------------------------------------

  /** What a name lookup answers: the rows at the name and, when there are none, whether
      anything lies below it. */
  datatype NameSet = NameSet(records: set<Row>, hasChildren: bool)

  /** The first SELECT of `LookupName`. */
  function RowsAt(db: Db, zone: Text, name: Text): set<Row> {
    set id | id in db.rows && db.rows[id].zone == zone && db.rows[id].name == name :: db.rows[id]
  }

  /** The second SELECT: an index range scan over the reversed names. */
  predicate AnyInScan(db: Db, zone: Text, name: Text) {
    exists id :: id in db.rows && db.rows[id].zone == zone && InScan(db.rows[id].nameRev, ReverseName(name))
  }

  function LookupName(db: Db, zone: Text, name: Text): NameSet {
    var rs := RowsAt(db, zone, name);
    if rs != {} then NameSet(rs, false) else NameSet({}, AnyInScan(db, zone, name))
  }

  ghost predicate RevIndexed(db: Db) {
    forall id :: id in db.rows ==> db.rows[id].nameRev == ReverseName(db.rows[id].name)
  }

  /** With the index in step with the names, the scan sees exactly the names below. */
  lemma {:induction false} ScanIsBelow(db: Db, zone: Text, name: Text)
    requires RevIndexed(db)
    ensures AnyInScan(db, zone, name) <==>
            exists id :: id in db.rows && db.rows[id].zone == zone && Below(db.rows[id].name, name)
  {
    forall id | id in db.rows
      ensures InScan(db.rows[id].nameRev, ReverseName(name)) <==> Below(db.rows[id].name, name)
    {
      ScanSelectsDescendants(db.rows[id].name, name);
    }
  }

  /** `NameSet.Exists` is true exactly when some row sits at the name or below it. */
  lemma {:induction false} ExistsIsOccupied(db: Db, zone: Text, name: Text)
    requires RevIndexed(db)
    ensures var s := LookupName(db, zone, name);
            (s.records != {} || s.hasChildren) <==>
            exists id :: id in db.rows && db.rows[id].zone == zone && InZone(db.rows[id].name, name)
  {
    ScanIsBelow(db, zone, name);
    var rs := RowsAt(db, zone, name);
    if rs != {} {
      var r :| r in rs;
      var id :| id in db.rows && db.rows[id] == r && r.zone == zone && r.name == name;
      assert InZone(db.rows[id].name, name);
    }
    forall id | id in db.rows && db.rows[id].zone == zone && db.rows[id].name == name
      ensures rs != {}
    {
      assert db.rows[id] in rs;
    }
  }
}
