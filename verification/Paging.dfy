/** Keyset paging over the records of a zone, and the client loop that follows page tokens. */
module Paging {
  import opened Bytes
  import opened Tables
  import opened Service

  type Rows = map<nat, Row>

  datatype Page = Page(ids: seq<nat>, next: Option<nat>)

  /** `WHERE zone = $1 AND id > $2`. */
  function Wanted(rows: Rows, zone: Text, after: nat): set<nat> {
    set id | id in rows && rows[id].zone == zone && id > after
  }

  ghost predicate Ascending(s: seq<nat>) {
    forall i, j :: 0 <= i < j < |s| ==> s[i] < s[j]
  }

  lemma {:induction false} HasLeast(s: set<nat>)
    requires s != {}
    ensures exists m :: m in s && forall x :: x in s ==> m <= x
  {
    var y :| y in s;
    if s == {y} {
      assert y in s;
    } else {
      assert s - {y} != {};
      HasLeast(s - {y});
      var m :| m in s - {y} && forall x :: x in s - {y} ==> m <= x;
      var least := if y < m then y else m;
      assert forall x :: x in s ==> x == y || x in s - {y};
      assert least in s && forall x :: x in s ==> least <= x;
    }
  }

  function Least(s: set<nat>): (m: nat)
    requires s != {}
    ensures m in s && forall x :: x in s ==> m <= x
  {
    HasLeast(s);
    var m :| m in s && forall x :: x in s ==> m <= x;
    m
  }

  /** `ORDER BY id`. */
  function Ordered(s: set<nat>): seq<nat> {
    if s == {} then [] else
      var m := Least(s);
      [m] + Ordered(s - {m})
  }

  ghost predicate IsOrdered(r: seq<nat>, s: set<nat>) {
    Ascending(r) && forall x :: x in r <==> x in s
  }

  lemma {:induction false} OrderedIsOrdered(s: set<nat>)
    ensures IsOrdered(Ordered(s), s)
  {
    if s != {} {
      var m := Least(s);
      var rest := Ordered(s - {m});
      OrderedIsOrdered(s - {m});
      assert forall i :: 0 <= i < |rest| ==> rest[i] in s - {m};
      assert forall x :: x in Ordered(s) <==> x == m || x in rest;
    }
  }

  lemma {:induction false} EmptyOrder(a: seq<nat>, s: set<nat>)
    requires IsOrdered(a, s)
    ensures a == [] <==> s == {}
  {
    if a != [] { assert a[0] in a; }
    if s != {} {
      var x :| x in s;
      assert x in a;
    }
  }

  lemma {:induction false} OrderIsUnique(a: seq<nat>, b: seq<nat>, s: set<nat>)
    requires IsOrdered(a, s) && IsOrdered(b, s)
    ensures a == b
    decreases |a|
  {
    EmptyOrder(a, s);
    EmptyOrder(b, s);
    if a != [] {
      assert a[0] in a && a[0] in b;
      assert b[0] in b && b[0] in a;
      var i :| 0 <= i < |b| && b[i] == a[0];
      var j :| 0 <= j < |a| && a[j] == b[0];
      assert a[0] == b[0];
      TailOrdered(a, s);
      TailOrdered(b, s);
      OrderIsUnique(a[1..], b[1..], s - {a[0]});
      assert a == [a[0]] + a[1..] && b == [b[0]] + b[1..];
    }
  }

  lemma {:induction false} TailOrdered(a: seq<nat>, s: set<nat>)
    requires a != [] && IsOrdered(a, s)
    ensures IsOrdered(a[1..], s - {a[0]})
  {
  }

  /** Cutting a fetched listing to the limit, and turning the extra row into a token. */
  function Cut(all: seq<nat>, limit: nat): Page
    requires limit > 0
  {
    var fetched := if |all| > limit + 1 then all[..limit + 1] else all;
    if |fetched| > limit then Page(fetched[..limit], Some(fetched[limit - 1])) else Page(fetched, None)
  }

  /** One page of the zone's records past a token. */
  function ListRecords(rows: Rows, zone: Text, limit: nat, after: nat): Page
    requires limit > 0
  {
    Cut(Ordered(Wanted(rows, zone, after)), limit)
  }

  /** What a page promises of the rows it was drawn from: ascending ids, and none skipped up
      to its own token, or none at all without one. */
  ghost predicate Gapless(p: Page, want: set<nat>) {
    && Ascending(p.ids) && (forall x :: x in p.ids ==> x in want)
    && (p.next.None? ==> forall x :: x in want ==> x in p.ids)
    && (p.next.Some? ==>
          && p.next.value in p.ids && (forall x :: x in p.ids ==> x <= p.next.value)
          && (forall x :: x in want && x <= p.next.value ==> x in p.ids))
  }

  lemma {:induction false} CutIsGapless(all: seq<nat>, want: set<nat>, limit: nat)
    requires limit > 0 && IsOrdered(all, want)
    ensures Gapless(Cut(all, limit), want)
  {
  }

  lemma {:induction false} PageIsGapless(rows: Rows, zone: Text, limit: nat, after: nat)
    requires limit > 0
    ensures Gapless(ListRecords(rows, zone, limit, after), Wanted(rows, zone, after))
  {
    OrderedIsOrdered(Wanted(rows, zone, after));
    CutIsGapless(Ordered(Wanted(rows, zone, after)), Wanted(rows, zone, after), limit);
  }

  lemma {:induction false} OrderedSize(s: set<nat>)
    ensures |Ordered(s)| == |s|
  {
    if s != {} { OrderedSize(s - {Least(s)}); }
  }

  /** A page has as many records as asked for, or all there are, and a token exactly if there are
      more. */
  lemma {:induction false} PageIsFull(rows: Rows, zone: Text, limit: nat, after: nat)
    requires limit > 0
    ensures var p, n := ListRecords(rows, zone, limit, after), |Wanted(rows, zone, after)|;
            |p.ids| == (if n > limit then limit else n) && (p.next.Some? <==> n > limit)
  {
    OrderedSize(Wanted(rows, zone, after));
  }

  // ---- following tokens while the table changes --------------------------------------

  /** Page `i` was answered from `states[i]`, asked for with `tokens[i]`. */
  ghost predicate IsWalk(states: seq<Rows>, zone: Text, limit: nat, tokens: seq<nat>, pages: seq<Page>) {
    && limit > 0 && |states| == |tokens| == |pages|
    && (forall i :: 0 <= i < |pages| ==> pages[i] == ListRecords(states[i], zone, limit, tokens[i]))
    && Chained(tokens, pages)
  }

  /** Each page's token asks for the next page, and only the last has none. */
  ghost predicate Chained(tokens: seq<nat>, pages: seq<Page>) {
    && |tokens| == |pages| > 0
    && (forall i :: 0 <= i < |pages| - 1 ==> pages[i].next == Some(tokens[i + 1]))
    && pages[|pages| - 1].next == None
  }

  function Collected(pages: seq<Page>): seq<nat> {
    if pages == [] then [] else pages[0].ids + Collected(pages[1..])
  }

  lemma {:induction false} AscendingConcat(a: seq<nat>, b: seq<nat>, m: nat)
    requires Ascending(a) && Ascending(b)
    requires (forall x :: x in a ==> x <= m) && (forall x :: x in b ==> x > m)
    ensures Ascending(a + b)
  {
    var c := a + b;
    forall i, j | 0 <= i < j < |c|
      ensures c[i] < c[j]
    {
      if i < |a| && |a| <= j {
        assert c[i] in a && c[j] in b;
      }
    }
  }

  lemma {:induction false} GaplessWalk(states: seq<Rows>, zone: Text, tokens: seq<nat>, pages: seq<Page>)
    requires |states| == |pages| && Chained(tokens, pages)
    requires forall i :: 0 <= i < |pages| ==> Gapless(pages[i], Wanted(states[i], zone, tokens[i]))
    ensures Ascending(Collected(pages)) && (forall x :: x in Collected(pages) ==> x > tokens[0])
    ensures forall id :: (forall i :: 0 <= i < |states| ==> id in Wanted(states[i], zone, tokens[0])) ==>
            id in Collected(pages)
    decreases |pages|
  {
    var p := pages[0];
    assert Gapless(p, Wanted(states[0], zone, tokens[0]));
    if |pages| == 1 {
      assert Collected(pages[1..]) == [];
      assert Collected(pages) == p.ids;
    } else {
      var rest := Collected(pages[1..]);
      forall i | 0 <= i < |pages[1..]|
        ensures Gapless(pages[1..][i], Wanted(states[1..][i], zone, tokens[1..][i]))
      {
        assert Gapless(pages[i + 1], Wanted(states[i + 1], zone, tokens[i + 1]));
      }
      GaplessWalk(states[1..], zone, tokens[1..], pages[1..]);
      AscendingConcat(p.ids, rest, tokens[1]);
      forall id | forall i :: 0 <= i < |states| ==> id in Wanted(states[i], zone, tokens[0])
        ensures id in Collected(pages)
      {
        if id > tokens[1] {
          forall i | 0 <= i < |states[1..]|
            ensures id in Wanted(states[1..][i], zone, tokens[1..][0])
          {
            assert states[1..][i] == states[i + 1];
          }
          assert id in rest;
        } else {
          assert id in Wanted(states[0], zone, tokens[0]);
        }
      }
    }
  }

  /** Whatever is created and deleted between pages, a complete walk returns ids in strictly
      increasing order, hence each at most once, and returns every record that was there for
      the whole walk. */
  lemma {:induction false} WalkMissesNothing(states: seq<Rows>, zone: Text, limit: nat, tokens: seq<nat>,
                                             pages: seq<Page>)
    requires IsWalk(states, zone, limit, tokens, pages)
    ensures Ascending(Collected(pages))
    ensures forall id :: (forall i :: 0 <= i < |states| ==> id in Wanted(states[i], zone, tokens[0])) ==>
            id in Collected(pages)
  {
    forall i | 0 <= i < |pages|
      ensures Gapless(pages[i], Wanted(states[i], zone, tokens[i]))
    {
      PageIsGapless(states[i], zone, limit, tokens[i]);
    }
    GaplessWalk(states, zone, tokens, pages);
  }

  // ---- following tokens on a table at rest -------------------------------------------

  lemma {:induction false} OrderedTail(s: set<nat>, all: seq<nat>, n: nat, tail: set<nat>)
    requires IsOrdered(all, s) && 0 < n < |all| && tail == set x | x in s && x > all[n - 1]
    ensures IsOrdered(all[n..], tail) && |tail| < |s|
  {
    var rest := all[n..];
    forall x
      ensures x in rest <==> x in tail
    {
      if x in rest {
        var j :| 0 <= j < |rest| && rest[j] == x;
        assert all[n + j] == x && x in all;
      }
      if x in tail {
        assert x in all;
        var j :| 0 <= j < |all| && all[j] == x;
        assert rest[j - n] == x;
      }
    }
    assert all[n - 1] in all;
    SmallerSet(tail, s, all[n - 1]);
  }

  /** The first `n` ids of the full listing have been collected and `token` asks for the rest. */
  ghost predicate Reached(rows: Rows, zone: Text, token: nat, all: seq<nat>, ids: seq<nat>) {
    |ids| <= |all| && ids == all[..|ids|] && IsOrdered(all[|ids|..], Wanted(rows, zone, token))
  }

  lemma {:induction false} RestStep(rows: Rows, zone: Text, limit: nat, token: nat, rest: seq<nat>, p: Page)
    requires limit > 0 && IsOrdered(rest, Wanted(rows, zone, token))
    requires p == ListRecords(rows, zone, limit, token)
    ensures p.next.None? ==> p.ids == rest
    ensures p.next.Some? ==> |rest| > limit && p.ids == rest[..limit]
                             && IsOrdered(rest[limit..], Wanted(rows, zone, p.next.value))
                             && |Wanted(rows, zone, p.next.value)| < |Wanted(rows, zone, token)|
  {
    var want := Wanted(rows, zone, token);
    OrderedIsOrdered(want);
    OrderIsUnique(Ordered(want), rest, want);
    if p.next.Some? {
      var t := rest[limit - 1];
      assert t in rest;
      assert Wanted(rows, zone, t) == set x | x in want && x > t;
      OrderedTail(want, rest, limit, Wanted(rows, zone, t));
    }
  }

  lemma {:induction false} Regroup(all: seq<nat>, ids: seq<nat>, n: nat)
    requires |ids| + n <= |all| && ids == all[..|ids|]
    ensures ids + all[|ids|..][..n] == all[..|ids| + n] && all[|ids|..][n..] == all[|ids| + n..]
    ensures ids + all[|ids|..] == all
  {
  }

  /** Following a page's token reaches exactly the end of that page. */
  lemma {:induction false} PageStep(rows: Rows, zone: Text, limit: nat, token: nat, all: seq<nat>, ids: seq<nat>,
                                    p: Page)
    requires limit > 0 && Reached(rows, zone, token, all, ids) && p == ListRecords(rows, zone, limit, token)
    ensures p.next.None? ==> ids + p.ids == all
    ensures p.next.Some? ==> Reached(rows, zone, p.next.value, all, ids + p.ids)
                             && |Wanted(rows, zone, p.next.value)| < |Wanted(rows, zone, token)|
  {
    RestStep(rows, zone, limit, token, all[|ids|..], p);
    Regroup(all, ids, |p.ids|);
  }

  /** Against a table at rest the client loop ends, having collected the full listing. */
  method CollectAll(rows: Rows, zone: Text, limit: nat) returns (ids: seq<nat>)
    requires limit > 0
    ensures ids == Ordered(Wanted(rows, zone, 0))
  {
    ids := [];
    var token := 0;
    OrderedIsOrdered(Wanted(rows, zone, 0));
    ghost var all := Ordered(Wanted(rows, zone, 0));
    while true
      invariant Reached(rows, zone, token, all, ids)
      decreases |Wanted(rows, zone, token)|
    {
      var p := ListRecords(rows, zone, limit, token);
      PageStep(rows, zone, limit, token, all, ids, p);
      ids := ids + p.ids;
      if p.next.None? {
        return;
      }
      token := p.next.value;
    }
  }

  /** On any database a run of the service leaves, what the client collects is the zone's records,
      every one of them, in ascending order of their ids. */
  lemma {:induction false} ListingIsFull(encode: Encoder, reqs: seq<(Request, int)>, zone: Text, ids: seq<nat>)
    requires ids == Ordered(Wanted(Run(encode, reqs).rows, zone, 0))
    ensures var rows := Run(encode, reqs).rows;
            Ascending(ids) && forall id :: id in ids <==> id in rows && rows[id].zone == zone
  {
    RunSound(encode, reqs);
    OrderedIsOrdered(Wanted(Run(encode, reqs).rows, zone, 0));
  }

  lemma {:induction false} SmallerSet(a: set<nat>, b: set<nat>, x: nat)
    requires x in b && a <= b - {x}
    ensures |a| < |b|
  {
    if a != {} {
      var y :| y in a;
      SmallerSet(a - {y}, b - {y}, x);
    }
  }
}
