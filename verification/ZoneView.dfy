/** Zones built through the service, seen as the contents the walk reads. */
module ZoneView {
  import opened Bytes
  import opened Names
  import opened Validation
  import opened Tables
  import opened Transactions
  import opened Service
  import opened Lookup

  /** The contents are the store's answers for one zone, the order of records being free. */
  ghost predicate Shows(node: Nodes, db: Db, zone: Text) {
    forall n :: ShowsAt(node(n), LookupName(db, zone, n))
  }

  ghost predicate ShowsAt(f: Found, s: NameSet) {
    && (forall r :: r in f.records <==> r in s.records)
    && (forall i, j :: 0 <= i < j < |f.records| ==> f.records[i] != f.records[j])
    && f.hasChildren == s.hasChildren
  }

  lemma {:induction false} ExistsIffOccupied(node: Nodes, db: Db, zone: Text, n: Text)
    requires Shows(node, db, zone) && RevIndexed(db)
    ensures node(n).Exists() <==> exists id :: id in db.rows && db.rows[id].zone == zone && InZone(db.rows[id].name, n)
  {
    ExistsIsOccupied(db, zone, n);
    var f, s := node(n), LookupName(db, zone, n);
    assert ShowsAt(f, s);
    if f.records != [] { assert f.records[0] in s.records; }
    if s.records != {} {
      var r :| r in s.records;
      assert r in f.records;
    }
  }

  /** The names of a stored zone form a tree. */
  lemma {:induction false} ShownTree(node: Nodes, db: Db, zone: Text)
    requires Shows(node, db, zone) && RevIndexed(db)
    ensures Tree(node, zone)
  {
    forall n | Below(n, zone) && DOT in n && node(n).Exists()
      ensures node(Parent(n)).Exists()
    {
      ExistsIffOccupied(node, db, zone, n);
      ExistsIffOccupied(node, db, zone, Parent(n));
      var id :| id in db.rows && db.rows[id].zone == zone && InZone(db.rows[id].name, n);
      ParentBelow(n);
      InZoneTrans(db.rows[id].name, n, Parent(n));
    }
  }

  lemma {:induction false} StarBelowWildcard(m: Text, e: Text)
    requires Below(m, Wildcard(e))
    ensures exists i :: 0 < i < |Labels(m)| && Labels(m)[i] == [STAR]
  {
    var x := BelowSplits(m, Wildcard(e));
    LabelsConcat(x, Wildcard(e));
    assert Wildcard(e) == [STAR] + [DOT] + e;
    LabelsConcat([STAR], e);
    LabelsOfLabel([STAR]);
    assert Labels(m)[|Labels(x)|] == [STAR];
  }

  /** No valid name lies below a wildcard. */
  lemma {:induction false} NothingBelowWildcard(m: Text, e: Text)
    requires ValidName(m)
    ensures !Below(m, Wildcard(e))
  {
    if Below(m, Wildcard(e)) { StarBelowWildcard(m, e); }
  }

  lemma {:induction false} WildcardHasRecordsOrNothing(encode: Encoder, node: Nodes, db: Db, zone: Text, e: Text)
    requires Shows(node, db, zone) && Servable(encode, db) && RevIndexed(db)
    ensures node(Wildcard(e)).Exists() ==> node(Wildcard(e)).records != []
  {
    var w := Wildcard(e);
    assert ShowsAt(node(w), LookupName(db, zone, w));
    ScanIsBelow(db, zone, w);
    forall id | id in db.rows
      ensures !Below(db.rows[id].name, w)
    {
      assert ServableRow(encode, db.rows[id]);
      NothingBelowWildcard(db.rows[id].name, e);
    }
  }

  /** In a zone built by any run of the service and holding no DNAME at its apex, for every name
      in the zone whose path has nothing below a cut, the server finds what the standards'
      top-down match finds. */
  lemma {:induction false} ServedZoneAgrees(encode: Encoder, reqs: seq<(Request, int)>, node: Nodes, zone: Text,
                                            name: Text, qtype: u16)
    requires Shows(node, Run(encode, reqs), zone) && InZone(name, zone)
    requires DnameAt(node, zone) == [] && !Occluded(node, zone, name)
    ensures BottomUp(node, zone, name, qtype) == TopDown(node, zone, name, qtype)
  {
    RunSound(encode, reqs);
    var db := Run(encode, reqs);
    ShownTree(node, db, zone);
    AgreesIff(node, zone, name, qtype);
    WildcardHasRecordsOrNothing(encode, node, db, zone, Encloser(node, zone, name));
  }

  /** Exclusivity, as the walk sees it: a name with a CNAME has nothing else. */
  lemma {:induction false} ShownCnameAlone(node: Nodes, db: Db, zone: Text, n: Text)
    requires Shows(node, db, zone) && CnameAlone(db.rows)
    ensures OfType(node(n).records, TYPE_CNAME) != [] ==> |node(n).records| == 1 && n != zone
  {
    var rs := node(n).records;
    assert ShowsAt(node(n), LookupName(db, zone, n));
    if OfType(rs, TYPE_CNAME) != [] {
      var c := OfType(rs, TYPE_CNAME)[0];
      OfTypeMember(rs, TYPE_CNAME, c);
      var i :| i in db.rows && db.rows[i] == c && At(c, zone, n);
      forall r | r in rs
        ensures r == c
      {
        var j :| j in db.rows && db.rows[j] == r && At(r, zone, n);
      }
      assert forall i, j :: 0 <= i < j < |rs| ==> rs[i] in rs && rs[j] in rs;
    }
  }
}
