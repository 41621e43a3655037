/** The resolver's two caches and the loop that invalidates them. */
module CachedResolver {
  import opened Bytes
  import opened Names
  import opened Validation
  import opened Tables
  import opened ShardedCache
  import opened Service
  import I = Invalidation

  /** The text under which a name lookup is cached. */
  function CacheKey(zone: Text, name: Text): Text {
    zone + [NUL] + name
  }

  /** Keys of different lookups differ, zone names being free of NUL. */
  lemma {:induction false} CacheKeyInjective(z1: Text, n1: Text, z2: Text, n2: Text)
    requires NUL !in z1 && NUL !in z2 && CacheKey(z1, n1) == CacheKey(z2, n2)
    ensures z1 == z2 && n1 == n2
  {
    var k := CacheKey(z1, n1);
    assert k[|z1|] == NUL && k[|z2|] == NUL;
    assert z1 == k[..|z1|] && z2 == k[..|z2|];
    assert n1 == k[|z1| + 1..] && n2 == k[|z2| + 1..];
  }

  lemma {:induction false} ValidHasNoNul(zone: Text)
    requires ValidName(zone)
    ensures NUL !in zone
  {
    forall i | 0 <= i < |zone|
      ensures zone[i] != NUL
    {
      ValidByte(zone, i);
    }
  }

  /** The names the loop visits: the name and its ancestors, stopping at the zone. */
  function Visited(zone: Text, name: Text): set<Text>
    decreases |name|
  {
    {name} + if name == zone || DOT !in name then {} else (ParentBelow(name); Visited(zone, Parent(name)))
  }

  /** For a name in the zone, those are the name and its ancestors down to the apex. */
  lemma {:induction false} VisitedIsExact(zone: Text, name: Text, a: Text)
    requires InZone(name, zone)
    ensures a in Visited(zone, name) <==> InZone(name, a) && InZone(a, zone)
    decreases |name|
  {
    if name == zone {
      BelowIrreflexive(name, a);
    } else {
      BelowParent(name, zone);
      ParentBelow(name);
      VisitedIsExact(zone, Parent(name), a);
      if Below(name, a) { BelowParent(name, a); }
      if InZone(Parent(name), a) { InZoneTrans(name, Parent(name), a); }
    }
  }

  function KeysFor(zone: Text, names: set<Text>): set<Text> {
    set a | a in names :: CacheKey(zone, a)
  }

  lemma {:induction false} DropOneMore<V>(m: Shard<V>, zone: Text, done: set<Text>, name: Text)
    ensures m - KeysFor(zone, done) - {CacheKey(zone, name)} == m - KeysFor(zone, done + {name})
  {
  }

  lemma {:induction false} VisitedStep(zone: Text, name: Text)
    ensures name == zone || DOT !in name ==> Visited(zone, name) == {name}
    ensures !(name == zone || DOT !in name) ==>
              Visited(zone, name) == {name} + Visited(zone, Parent(name)) && |Parent(name)| < |name|
  {
  }

  // ---- the same loop as a program of atomic actions ----------------------------------

  /** A program run from start to end without interleaving. */
  function Executed(h: I.Hash, cache: map<I.Key, I.Answer>, p: I.Program): map<I.Key, I.Answer> {
    if p == [] then cache
    else Executed(h, map k | k in cache && !I.Removes(h, p[0], k) :: cache[k], p[1..])
  }

  lemma {:induction false} DropsFirst(h: I.Hash, p: I.Program, k: I.Key)
    requires p != []
    ensures I.Drops(h, p, k) <==> I.Removes(h, p[0], k) || I.Drops(h, p[1..], k)
  {
    assert p == [p[0]] + p[1..];
    I.ConcatDrops(h, [p[0]], p[1..], k);
    assert [p[0]][0] == p[0];
  }

  lemma {:induction false} ExecutedIs(h: I.Hash, cache: map<I.Key, I.Answer>, p: I.Program, k: I.Key)
    ensures k in Executed(h, cache, p) <==> k in cache && !I.Drops(h, p, k)
    ensures k in Executed(h, cache, p) ==> Executed(h, cache, p)[k] == cache[k]
    decreases |p|
  {
    if p != [] {
      ExecutedIs(h, map k | k in cache && !I.Removes(h, p[0], k) :: cache[k], p[1..], k);
      DropsFirst(h, p, k);
    }
  }

  lemma {:induction false} ClimbDropsVisited(h: I.Hash, zone: Text, name: Text, k: I.Key)
    ensures I.Drops(h, I.Climb(zone, name), k) <==> k.NameKey? && k.zone == zone && k.name in Visited(zone, name)
    decreases |name|
  {
    I.ClimbStepDrops(h, zone, name, k);
    var first := [I.Bump(I.Names), I.DropKey(I.NameKey(zone, name))];
    if name == zone || DOT !in name {
      assert I.Climb(zone, name) == first;
    } else {
      ParentBelow(name);
      ClimbDropsVisited(h, zone, Parent(name), k);
      I.ConcatDrops(h, first, I.Climb(zone, Parent(name)), k);
    }
  }

  /** Run without interleaving, the program of actions and the method on the caches do the same: of
      the name entries exactly those under the keys of the visited names go. */
  lemma {:induction false} ProgramIsMethod(h: I.Hash, cache: map<I.Key, I.Answer>, zone: Text, name: Text, k: I.Key)
    requires name != [] && k.NameKey? && NUL !in zone && NUL !in k.zone
    ensures k in Executed(h, cache, I.Invalidate(RecordChange(zone, name))) <==>
            k in cache && CacheKey(k.zone, k.name) !in KeysFor(zone, Visited(zone, name))
  {
    ExecutedIs(h, cache, I.Invalidate(RecordChange(zone, name)), k);
    I.ConcatDrops(h, I.Sweep(I.Zones), I.Climb(zone, name), k);
    I.SweepSparesNames(h, k);
    ClimbDropsVisited(h, zone, name, k);
    if a :| a in Visited(zone, name) && CacheKey(k.zone, k.name) == CacheKey(zone, a) {
      CacheKeyInjective(k.zone, k.name, zone, a);
    }
  }

  function Bound(maxEntries: int): int {
    if maxEntries > SHARDS then maxEntries else SHARDS
  }

  class CachedResolver {
    const zones: Cache<Option<Zone>>
    const names: Cache<NameSet>

    ghost predicate Valid()
      reads zones, names
    {
      zones.Valid() && names.Valid()
    }

    /** Each cache hashes with a seed of its own. */
    constructor (zoneHash: Text -> nat, nameHash: Text -> nat, maxEntries: int, ttl: int)
      ensures Valid() && fresh(zones) && fresh(names) && zones.hash == zoneHash && names.hash == nameHash
      ensures zones.Flat() == map[] && names.Flat() == map[]
      ensures 64 * zones.perShard <= Bound(maxEntries / 8 + 64) && maxEntries / 8 + 64 < 64 * (zones.perShard + 1)
      ensures 64 * names.perShard <= Bound(maxEntries) && maxEntries < 64 * (names.perShard + 1)
      ensures zones.ttl == names.ttl == ttl
    {
      zones := new Cache<Option<Zone>>(zoneHash, maxEntries / 8 + 64, ttl);
      names := new Cache<NameSet>(nameHash, maxEntries, ttl);
    }

    /** Everything cached about zones goes. Of the names, the zone's whole group goes when no
        name is given, and otherwise exactly the keys of the name and its ancestors down to
        the apex; nothing else is touched. */
    method Invalidate(zone: Text, name0: Text)
      requires Valid()
      modifies zones, names
      ensures Valid() && zones.Flat() == map[]
      ensures name0 == [] ==> FlatStep(old(names.Flat()), DeleteGroupOp(zone), names.Flat())
      ensures name0 != [] ==> names.Flat() == old(names.Flat()) - KeysFor(zone, Visited(zone, name0))
    {
      zones.Clear();
      if name0 == [] {
        names.DeleteGroup(zone);
      } else {
        DeleteUpwards(zone, name0);
      }
    }

    method DeleteUpwards(zone: Text, name0: Text)
      requires names.Valid()
      modifies names
      ensures names.Valid() && names.Flat() == old(names.Flat()) - KeysFor(zone, Visited(zone, name0))
    {
      var name := name0;
      ghost var done: set<Text> := {};
      while true
        invariant names.Valid()
        invariant done + Visited(zone, name) == Visited(zone, name0)
        invariant names.Flat() == old(names.Flat()) - KeysFor(zone, done)
        decreases |name|
      {
        VisitedStep(zone, name);
        DropOneMore(old(names.Flat()), zone, done, name);
        names.Delete(CacheKey(zone, name));
        done := done + {name};
        if name == zone {
          return;
        }
        var i := IndexDot(name);
        if i < 0 {
          return;
        }
        name := name[i + 1..];
      }
    }

    method InvalidateAll()
      requires Valid()
      modifies zones, names
      ensures Valid() && zones.Flat() == map[] && names.Flat() == map[]
    {
      zones.Clear();
      names.Clear();
    }
  }
}
