/** Finding the node that answers a name: the server's bottom-up walk, the top-down label match
    of the standards, and exactly when the two agree. */
module Lookup {
  import opened Bytes
  import opened Names
  import opened Tables

  /** What a lookup returns for one name, records in the order served. */
  datatype Found = Found(records: seq<Row>, hasChildren: bool) {
    predicate Exists() {
      records != [] || hasChildren
    }
  }

  /** The contents of one zone. */
  type Nodes = Text -> Found

  datatype Match =
    | Failed
    | Cut(at: Text, ns: seq<Row>)
    | Redirect(owner: Text, dname: Row)
    | Answer(records: seq<Row>, present: bool)

  function OfType(rs: seq<Row>, t: u16): seq<Row> {
    if rs == [] then []
    else OfType(rs[..|rs| - 1], t) + if rs[|rs| - 1].rtype == t then [rs[|rs| - 1]] else []
  }

  /** The filter keeps every record of the type, in order, and no other. */
  lemma {:induction false} OfTypeMember(rs: seq<Row>, t: u16, r: Row)
    ensures r in OfType(rs, t) <==> r in rs && r.rtype == t
  {
    if rs != [] {
      OfTypeMember(rs[..|rs| - 1], t, r);
      assert rs == rs[..|rs| - 1] + [rs[|rs| - 1]];
    }
  }

  method FilterType(rs: seq<Row>, t: u16) returns (out: seq<Row>)
    ensures out == OfType(rs, t)
  {
    out := [];
    for i := 0 to |rs|
      invariant out == OfType(rs[..i], t)
    {
      assert rs[..i + 1][..i] == rs[..i];
      if rs[i].rtype == t {
        out := out + [rs[i]];
      }
    }
    assert rs[..|rs|] == rs;
  }

  function NsAt(node: Nodes, n: Text): seq<Row> {
    OfType(node(n).records, TYPE_NS)
  }

  function DnameAt(node: Nodes, n: Text): seq<Row> {
    OfType(node(n).records, TYPE_DNAME)
  }

  function Wildcard(n: Text): Text {
    [STAR, DOT] + n
  }

  /** The wildcard of a name has the label "*" in front of its labels. */
  lemma {:induction false} WildcardIs(n: Text)
    ensures Labels(Wildcard(n)) == [[42]] + Labels(n)
  {
    assert Wildcard(n) == [42] + [DOT] + n;
    LabelsConcat([42], n);
    LabelsOfLabel([42]);
  }

  // ---- bottom up ---------------------------------------------------------------------

  /** Where the ancestor loop stops. */
  function Encloser(node: Nodes, zone: Text, n: Text): Text
    decreases |n|
  {
    if n == zone || DOT !in n then n
    else
      ParentBelow(n);
      var p := Parent(n);
      if p == zone || node(p).Exists() then p else Encloser(node, zone, p)
  }

  function AtEncloser(node: Nodes, zone: Text, e: Text): Match {
    if e != zone && NsAt(node, e) != [] then Cut(e, NsAt(node, e))
    else if e != zone && DnameAt(node, e) != [] then Redirect(e, DnameAt(node, e)[0])
    else Answer(node(Wildcard(e)).records, node(Wildcard(e)).records != [])
  }

  /** An exact match is looked at before anything above it. */
  function BottomUp(node: Nodes, zone: Text, name: Text, qtype: u16): Match {
    var found := node(name);
    if found.records != [] then
      if name != zone && qtype != TYPE_DS && NsAt(node, name) != [] then Cut(name, NsAt(node, name))
      else Answer(found.records, true)
    else if found.hasChildren || name == zone then Answer([], true)
    else AtEncloser(node, zone, Encloser(node, zone, name))
  }

  /** A resolver's view of one zone; `None` is a failed lookup. */
  type Lookups = Text -> Option<Found>

  /** The same view with failures read as empty. */
  function Nominal(look: Lookups): Nodes {
    n => if look(n).Some? then look(n).value else Found([], false)
  }

  /** The ancestor loop reads every name up to where it stops, and fails if any read does. */
  function EncloserOrFail(look: Lookups, zone: Text, n: Text): Option<Text>
    decreases |n|
  {
    if n == zone || DOT !in n then Some(n)
    else
      ParentBelow(n);
      var p := Parent(n);
      if look(p).None? then None
      else if p == zone || look(p).value.Exists() then Some(p)
      else EncloserOrFail(look, zone, p)
  }

  /** What the closest encloser of a name that does not exist has to say. */
  function FromAbove(look: Lookups, zone: Text, e: Option<Text>): Match {
    if e.None? then Failed
    else
      var m := AtEncloser(Nominal(look), zone, e.value);
      if m.Answer? && look(Wildcard(e.value)).None? then Failed else m
  }

  /** The walk with failures: `BottomUp` when every lookup it makes succeeds. */
  function Walk(look: Lookups, zone: Text, name: Text, qtype: u16): Match {
    if look(name).None? then Failed
    else if look(name).value.Exists() || name == zone then BottomUp(Nominal(look), zone, name, qtype)
    else FromAbove(look, zone, EncloserOrFail(look, zone, name))
  }

  lemma {:induction false} EncloserOrFailIs(look: Lookups, zone: Text, n: Text)
    ensures EncloserOrFail(look, zone, n).Some? ==>
              EncloserOrFail(look, zone, n).value == Encloser(Nominal(look), zone, n)
    ensures (forall m :: look(m).Some?) ==> EncloserOrFail(look, zone, n).Some?
    decreases |n|
  {
    if n != zone && DOT in n {
      ParentBelow(n);
      EncloserOrFailIs(look, zone, Parent(n));
    }
  }

  /** The climb from a name to its closest encloser looks `n` up: `n` is an ancestor, and those below it
      were looked up and do not exist. */
  ghost predicate ClimbReads(look: Lookups, zone: Text, name: Text, n: Text) {
    && name != zone && Below(name, n)
    && forall a :: Below(name, a) && Below(a, n) ==> a != zone && look(a).Some? && !look(a).value.Exists()
  }

  lemma {:induction false} ClimbReadsStep(look: Lookups, zone: Text, name: Text, n: Text)
    requires name != zone && DOT in name
    ensures var p := Parent(name);
            ClimbReads(look, zone, name, n) <==>
            n == p || (look(p).Some? && !look(p).value.Exists() && ClimbReads(look, zone, p, n))
  {
    var p := Parent(name);
    ParentBelow(name);
    forall a | Below(name, a)
      ensures a == p || Below(p, a)
    {
      BelowParent(name, a);
    }
    forall a | Below(p, a)
      ensures Below(name, a)
    {
      BelowTrans(name, p, a);
    }
    if n == p {
      forall a | Below(name, a)
        ensures !Below(a, p)
      {
        if Below(a, p) && Below(p, a) { BelowIrreflexive(a, p); }
        if a == p && Below(p, p) { BelowIrreflexive(p, p); }
      }
    }
  }

  lemma {:induction false} NoClimb(look: Lookups, zone: Text, name: Text, n: Text)
    requires name == zone || DOT !in name
    ensures !ClimbReads(look, zone, name, n)
  {
    if Below(name, n) { BelowParent(name, n); }
  }

  /** The climb fails if and only if some lookup it makes does. */
  lemma {:induction false} ClimbFailsIff(look: Lookups, zone: Text, name: Text)
    ensures EncloserOrFail(look, zone, name).None? <==> exists n :: ClimbReads(look, zone, name, n) && look(n).None?
    decreases |name|
  {
    if name == zone || DOT !in name {
      forall n
        ensures !ClimbReads(look, zone, name, n)
      {
        NoClimb(look, zone, name, n);
      }
    } else {
      var p := Parent(name);
      ParentBelow(name);
      ClimbFailsIff(look, zone, p);
      forall n
        ensures ClimbReads(look, zone, name, n) <==>
                n == p || (look(p).Some? && !look(p).value.Exists() && ClimbReads(look, zone, p, n))
      {
        ClimbReadsStep(look, zone, name, n);
      }
    }
  }

  /** Some lookup the walk depends on fails: that of the name itself; of an ancestor, if the name does
      not exist; or of the wildcard, if the closest encloser is neither a cut nor a redirection. */
  ghost predicate ReadFails(look: Lookups, zone: Text, name: Text) {
    || look(name).None?
    || (&& name != zone && !look(name).value.Exists()
        && (|| (exists n :: ClimbReads(look, zone, name, n) && look(n).None?)
            || (var e := Encloser(Nominal(look), zone, name);
                AtEncloser(Nominal(look), zone, e).Answer? && look(Wildcard(e)).None?)))
  }

  /** The walk fails if and only if some lookup it depends on does. */
  lemma {:induction false} WalkFailsIff(look: Lookups, zone: Text, name: Text, qtype: u16)
    ensures Walk(look, zone, name, qtype).Failed? <==> ReadFails(look, zone, name)
  {
    ClimbFailsIff(look, zone, name);
    EncloserOrFailIs(look, zone, name);
  }

  /** A walk that does not fail found what `BottomUp` finds, and without failing lookups it
      does not fail. */
  lemma {:induction false} WalkIsBottomUp(look: Lookups, zone: Text, name: Text, qtype: u16)
    ensures !Walk(look, zone, name, qtype).Failed? ==>
              Walk(look, zone, name, qtype) == BottomUp(Nominal(look), zone, name, qtype)
    ensures (forall m :: look(m).Some?) ==> !Walk(look, zone, name, qtype).Failed?
  {
    EncloserOrFailIs(look, zone, name);
  }

  /** The loop with its early returns computes `Walk`. */
  method LookupMatch(look: Lookups, zone: Text, name: Text, qtype: u16) returns (m: Match)
    ensures m == Walk(look, zone, name, qtype)
  {
    var found := look(name);
    if found.None? {
      return Failed;
    }
    if |found.value.records| > 0 {
      if name != zone && qtype != TYPE_DS {
        var ns := FilterType(found.value.records, TYPE_NS);
        if |ns| > 0 {
          return Cut(name, ns);
        }
      }
      return Answer(found.value.records, true);
    }
    if found.value.hasChildren || name == zone {
      return Answer([], true);
    }
    m := Climb(look, zone, name);
  }

  lemma {:induction false} ClimbStep(look: Lookups, zone: Text, n: Text)
    requires n != zone && DOT in n
    ensures var p := Parent(n);
            EncloserOrFail(look, zone, n) ==
            if look(p).None? then None
            else if p == zone || look(p).value.Exists() then Some(p)
            else EncloserOrFail(look, zone, p)
  {
  }

  /** What an encloser says, spelled out in the order the loop asks. */
  lemma {:induction false} StopsAbove(look: Lookups, zone: Text, e: Text)
    requires look(e).Some?
    ensures var ns, ds := OfType(look(e).value.records, TYPE_NS), OfType(look(e).value.records, TYPE_DNAME);
            var wild := look(Wildcard(e));
            FromAbove(look, zone, Some(e)) ==
            if e != zone && ns != [] then Cut(e, ns)
            else if e != zone && ds != [] then Redirect(e, ds[0])
            else if wild.None? then Failed
            else Answer(wild.value.records, wild.value.records != [])
  {
  }

  /** The ancestor loop. */
  method Climb(look: Lookups, zone: Text, name: Text) returns (m: Match)
    requires look(name).Some? && !look(name).value.Exists()
    ensures m == FromAbove(look, zone, EncloserOrFail(look, zone, name))
  {
    var encloser := name;
    while encloser != zone
      invariant EncloserOrFail(look, zone, encloser) == EncloserOrFail(look, zone, name)
      invariant look(encloser).Some? && look(encloser).value.records == []
      decreases |encloser|
    {
      var i := IndexDot(encloser);
      if i < 0 {
        break;
      }
      ParentBelow(encloser);
      ClimbStep(look, zone, encloser);
      encloser := encloser[i + 1..];
      var above := look(encloser);
      if above.None? {
        return Failed;
      }
      if encloser != zone {
        var ns := FilterType(above.value.records, TYPE_NS);
        if |ns| > 0 {
          StopsAbove(look, zone, encloser);
          return Cut(encloser, ns);
        }
        var dn := FilterType(above.value.records, TYPE_DNAME);
        if |dn| > 0 {
          StopsAbove(look, zone, encloser);
          return Redirect(encloser, dn[0]);
        }
      }
      if above.value.Exists() || encloser == zone {
        StopsAbove(look, zone, encloser);
        m := AtWildcard(look, encloser);
        return;
      }
    }
    m := AtWildcard(look, encloser);
  }

  method AtWildcard(look: Lookups, encloser: Text) returns (m: Match)
    ensures var w := look(Wildcard(encloser));
            m == if w.None? then Failed else Answer(w.value.records, w.value.records != [])
  {
    var wild := look(Wildcard(encloser));
    if wild.None? {
      return Failed;
    }
    return Answer(wild.value.records, |wild.value.records| > 0);
  }

  /** For any contents, the loop stops exactly at the longest ancestor inside the zone that
      exists, the apex counting as existing. */
  lemma {:induction false} EncloserIsClosest(node: Nodes, zone: Text, name: Text)
    requires Below(name, zone)
    ensures var e := Encloser(node, zone, name);
            && Below(name, e) && InZone(e, zone) && (e == zone || node(e).Exists())
            && forall n :: Below(name, n) && Below(n, e) ==> n != zone && !node(n).Exists()
    decreases |name|
  {
    var e := Encloser(node, zone, name);
    BelowParent(name, zone);
    var p := Parent(name);
    ParentBelow(name);
    BelowIrreflexive(name, zone);
    if p != zone && !node(p).Exists() {
      EncloserIsClosest(node, zone, p);
      BelowTrans(name, p, e);
    }
    forall n | Below(name, n) && Below(n, e)
      ensures n != zone && !node(n).Exists()
    {
      BelowParent(name, n);
      BelowIrreflexive(n, e);
      if n == zone { BelowIrreflexive(zone, e); }
    }
  }

  // ---- top down ----------------------------------------------------------------------

  /** How far matching the labels of a name down from the apex gets. */
  datatype Progress = Matched(node: Text) | Referred(cut: Text) | Stopped(encloser: Text)

  /** Section 4.3.2 of RFC 1034, step 3: match label by label downwards, leave at a zone cut,
      and stop where the next label does not exist. */
  function Descend(node: Nodes, zone: Text, name: Text): Progress
    decreases |name|
  {
    if name == zone || DOT !in name then Matched(name)
    else
      ParentBelow(name);
      match Descend(node, zone, Parent(name))
      case Matched(p) =>
        if p != zone && NsAt(node, p) != [] then Referred(p)
        else if node(name).Exists() then Matched(name)
        else Stopped(p)
      case other => other
  }

  /** The outcome of the match: step 3a and 3b of section 4.3.2 of RFC 1034, the DNAME test of
      section 3.2 of RFC 6672, and the wildcard of section 3.3.1 of RFC 4592, which need only
      exist. DS is answered on the parent's side of a cut. */
  function TopDown(node: Nodes, zone: Text, name: Text, qtype: u16): Match {
    match Descend(node, zone, name)
    case Referred(c) => Cut(c, NsAt(node, c))
    case Matched(n) =>
      if n != zone && qtype != TYPE_DS && NsAt(node, n) != [] then Cut(n, NsAt(node, n))
      else Answer(node(n).records, true)
    case Stopped(e) =>
      if DnameAt(node, e) != [] then Redirect(e, DnameAt(node, e)[0])
      else Answer(node(Wildcard(e)).records, node(Wildcard(e)).Exists())
  }

  /** Names below an existing name make it exist. */
  ghost predicate Tree(node: Nodes, zone: Text) {
    forall n :: Below(n, zone) && DOT in n && node(n).Exists() ==> Parent(n) == zone || node(Parent(n)).Exists()
  }

  /** A name on the path exists strictly below a cut on the path. */
  ghost predicate Occluded(node: Nodes, zone: Text, name: Text) {
    exists c, n :: InZone(name, n) && Below(n, c) && Below(c, zone) && NsAt(node, c) != [] && node(n).Exists()
  }

  lemma {:induction false} NsExists(node: Nodes, n: Text)
    ensures NsAt(node, n) != [] ==> node(n).Exists()
    ensures DnameAt(node, n) != [] ==> node(n).Exists()
  {
  }

  /** A node the descent matched exists, is the name asked for, and has no cut above it. */
  lemma {:induction false} MatchedMeans(node: Nodes, zone: Text, name: Text)
    requires InZone(name, zone)
    ensures Descend(node, zone, name).Matched? ==>
              && Descend(node, zone, name).node == name && (name == zone || node(name).Exists())
              && forall c :: Below(name, c) && Below(c, zone) ==> NsAt(node, c) == []
    decreases |name|
  {
    if name == zone {
      forall c | Below(name, c)
        ensures !Below(c, zone)
      {
        BelowIrreflexive(name, c);
      }
    } else {
      BelowParent(name, zone);
      ParentBelow(name);
      BelowIrreflexive(name, zone);
      MatchedMeans(node, zone, Parent(name));
      if Descend(node, zone, name).Matched? {
        forall c | Below(name, c) && Below(c, zone)
          ensures NsAt(node, c) == []
        {
          BelowParent(name, c);
        }
      }
    }
  }

  /** A referral is from a cut on the path with no cut above it. */
  lemma {:induction false} ReferredMeans(node: Nodes, zone: Text, name: Text)
    requires InZone(name, zone)
    ensures Descend(node, zone, name).Referred? ==>
              var c := Descend(node, zone, name).cut;
              && Below(name, c) && Below(c, zone) && NsAt(node, c) != []
              && forall o :: Below(c, o) && Below(o, zone) ==> NsAt(node, o) == []
    decreases |name|
  {
    if name != zone {
      BelowParent(name, zone);
      var p := Parent(name);
      ParentBelow(name);
      BelowIrreflexive(name, zone);
      ReferredMeans(node, zone, p);
      MatchedMeans(node, zone, p);
      if Descend(node, zone, name).Referred? && Descend(node, zone, p).Referred? {
        BelowTrans(name, p, Descend(node, zone, p).cut);
      }
    }
  }

  /** A stop is at the closest encloser of a name that does not exist, with no cut at or above it. */
  lemma {:induction false} StoppedMeans(node: Nodes, zone: Text, name: Text)
    requires InZone(name, zone) && Tree(node, zone)
    ensures Descend(node, zone, name).Stopped? ==>
              var e := Descend(node, zone, name).encloser;
              && e == Encloser(node, zone, name) && name != zone && !node(name).Exists()
              && (e == zone || NsAt(node, e) == [])
              && forall o :: Below(e, o) && Below(o, zone) ==> NsAt(node, o) == []
    decreases |name|
  {
    if name != zone {
      BelowParent(name, zone);
      var p := Parent(name);
      ParentBelow(name);
      BelowIrreflexive(name, zone);
      StoppedMeans(node, zone, p);
      MatchedMeans(node, zone, p);
    }
  }

  lemma {:induction false} MatchedAgrees(node: Nodes, zone: Text, name: Text, qtype: u16)
    requires InZone(name, zone) && Descend(node, zone, name).Matched?
    ensures BottomUp(node, zone, name, qtype) == TopDown(node, zone, name, qtype)
    ensures !Occluded(node, zone, name)
  {
    MatchedMeans(node, zone, name);
    forall c, n | InZone(name, n) && Below(n, c) && Below(c, zone)
      ensures NsAt(node, c) == []
    {
      if n != name { BelowTrans(name, n, c); }
    }
  }

  /** Nothing on the path exists below the closest encloser of a name that does not exist. */
  lemma {:induction false} NothingBelowEncloser(node: Nodes, zone: Text, name: Text, n: Text)
    requires Below(name, zone) && !node(name).Exists() && InZone(name, n) && node(n).Exists() && InZone(n, zone)
    ensures InZone(Encloser(node, zone, name), n)
  {
    var e := Encloser(node, zone, name);
    EncloserIsClosest(node, zone, name);
    assert Below(name, n);
    AncestorsComparable(name, e, n);
  }

  /** Away from the apex a DNAME at the encloser redirects; otherwise the wildcard, if it exists
      at all, has records of its own. */
  predicate PlainStop(node: Nodes, zone: Text, e: Text) {
    if DnameAt(node, e) != [] then e != zone
    else node(Wildcard(e)).Exists() ==> node(Wildcard(e)).records != []
  }

  lemma {:induction false} StoppedAgreesIff(node: Nodes, zone: Text, name: Text, qtype: u16)
    requires InZone(name, zone) && Tree(node, zone) && Descend(node, zone, name).Stopped?
    ensures BottomUp(node, zone, name, qtype) == TopDown(node, zone, name, qtype)
            <==> PlainStop(node, zone, Encloser(node, zone, name))
    ensures !Occluded(node, zone, name)
  {
    StoppedMeans(node, zone, name);
    var e := Encloser(node, zone, name);
    forall c, n | InZone(name, n) && Below(n, c) && Below(c, zone) && node(n).Exists()
      ensures NsAt(node, c) == []
    {
      BelowTrans(n, c, zone);
      NothingBelowEncloser(node, zone, name, n);
      if e != n { BelowTrans(e, n, c); }
    }
  }

  lemma {:induction false} ReferredClear(node: Nodes, zone: Text, name: Text, qtype: u16)
    requires InZone(name, zone) && Descend(node, zone, name).Referred? && !Occluded(node, zone, name)
    ensures BottomUp(node, zone, name, qtype) == TopDown(node, zone, name, qtype)
    ensures !node(name).Exists() && Encloser(node, zone, name) == Descend(node, zone, name).cut
  {
    ReferredMeans(node, zone, name);
    var c := Descend(node, zone, name).cut;
    BelowTrans(name, c, zone);
    BelowIrreflexive(name, zone);
    BelowIrreflexive(c, zone);
    NsExists(node, c);
    assert !node(name).Exists();
    var e := Encloser(node, zone, name);
    EncloserIsClosest(node, zone, name);
    AncestorsComparable(name, e, c);
    assert Below(e, c) ==> e == zone || node(e).Exists();
    if Below(e, c) && e == zone { BelowIrreflexive(zone, c); }
    assert !Below(e, c);
    assert Below(c, e) ==> !node(c).Exists();
  }

  lemma {:induction false} ReferredOccluded(node: Nodes, zone: Text, name: Text, qtype: u16)
    requires InZone(name, zone) && Descend(node, zone, name).Referred? && Occluded(node, zone, name)
    ensures BottomUp(node, zone, name, qtype) != TopDown(node, zone, name, qtype)
  {
    ReferredMeans(node, zone, name);
    var top := Descend(node, zone, name).cut;
    BelowTrans(name, top, zone);
    BelowIrreflexive(name, top);
    var c, n :| InZone(name, n) && Below(n, c) && Below(c, zone) && NsAt(node, c) != [] && node(n).Exists();
    if n != name { BelowTrans(name, n, c); }
    AncestorsComparable(name, c, top);
    assert InZone(c, top);
    if c != top { BelowTrans(n, c, top); }
    assert Below(n, top);
    BelowTrans(n, top, zone);
    if !node(name).Exists() {
      var e := Encloser(node, zone, name);
      NothingBelowEncloser(node, zone, name, n);
      if e != n { BelowTrans(e, n, top); }
      BelowIrreflexive(e, top);
    }
    OtherThanTop(node, zone, name, qtype, top);
  }

  lemma {:induction false} OtherThanTop(node: Nodes, zone: Text, name: Text, qtype: u16, top: Text)
    requires name != zone && name != top && Descend(node, zone, name) == Referred(top)
    requires !node(name).Exists() ==> Encloser(node, zone, name) != top
    ensures BottomUp(node, zone, name, qtype) != TopDown(node, zone, name, qtype)
  {
  }

  /** For every zone contents and every name in the zone, the server's bottom-up walk finds what
      the top-down match of the standards finds if and only if no name on the path exists
      below a cut on the path, and, for a name that does not exist and whose closest encloser is
      no cut, that encloser is not an apex with a DNAME and its wildcard, if it exists, has
      records. */
  lemma {:induction false} AgreesIff(node: Nodes, zone: Text, name: Text, qtype: u16)
    requires InZone(name, zone) && Tree(node, zone)
    ensures BottomUp(node, zone, name, qtype) == TopDown(node, zone, name, qtype) <==>
            && !Occluded(node, zone, name)
            && (name == zone || node(name).Exists()
                || (Encloser(node, zone, name) != zone && NsAt(node, Encloser(node, zone, name)) != [])
                || PlainStop(node, zone, Encloser(node, zone, name)))
  {
    match Descend(node, zone, name)
    case Matched(_) =>
      MatchedAgrees(node, zone, name, qtype);
      MatchedMeans(node, zone, name);
    case Stopped(_) =>
      StoppedAgreesIff(node, zone, name, qtype);
      StoppedMeans(node, zone, name);
    case Referred(_) =>
      ReferredMeans(node, zone, name);
      if Occluded(node, zone, name) {
        ReferredOccluded(node, zone, name, qtype);
      } else {
        ReferredClear(node, zone, name, qtype);
        BelowIrreflexive(Encloser(node, zone, name), zone);
      }
  }
}
