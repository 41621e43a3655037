/** The sharded, bounded, epoch-guarded cache. */
module ShardedCache {
  import opened Bytes

  const SHARDS := 64
  const FOREVER := 0x7fff_ffff_ffff_ffff

  datatype Entry<V> = Entry(value: V, group: Text, expires: int)

  type Shard<V> = map<Text, Entry<V>>

  function Home(hash: Text -> nat, k: Text): nat {
    hash(k) % SHARDS
  }

  ghost predicate Placed<V>(shards: seq<Shard<V>>, hash: Text -> nat) {
    forall i, k :: 0 <= i < |shards| && k in shards[i] ==> Home(hash, k) == i
  }

  function KeysOf<V>(shards: seq<Shard<V>>): set<Text> {
    set i, k | 0 <= i < |shards| && k in shards[i] :: k
  }

  /** The shards seen as one map. */
  function Flatten<V>(shards: seq<Shard<V>>, hash: Text -> nat): Shard<V>
    requires |shards| == SHARDS
  {
    map k | k in KeysOf(shards) && k in shards[Home(hash, k)] :: shards[Home(hash, k)][k]
  }

  lemma {:induction false} FlattenAt<V>(shards: seq<Shard<V>>, hash: Text -> nat, k: Text)
    requires |shards| == SHARDS && Placed(shards, hash)
    ensures k in Flatten(shards, hash) <==> k in shards[Home(hash, k)]
    ensures k in Flatten(shards, hash) ==> Flatten(shards, hash)[k] == shards[Home(hash, k)][k]
  {
  }

  function Total<V>(shards: seq<Shard<V>>): nat {
    if shards == [] then 0 else Total(shards[..|shards| - 1]) + |shards[|shards| - 1]|
  }

  /** The last shard adds keys none of the others holds. */
  lemma {:induction false} KeysOfSnoc<V>(init: seq<Shard<V>>, last: Shard<V>, hash: Text -> nat)
    requires Placed(init + [last], hash)
    ensures Placed(init, hash) && KeysOf(init + [last]) == KeysOf(init) + last.Keys && KeysOf(init) !! last.Keys
  {
    var all := init + [last];
    assert forall i :: 0 <= i < |init| ==> init[i] == all[i];
    assert all[|init|] == last;
    forall k | k in KeysOf(all)
      ensures k in KeysOf(init) + last.Keys
    {
      var i :| 0 <= i < |all| && k in all[i];
      assert i < |init| ==> k in init[i];
    }
    forall k | k in KeysOf(init)
      ensures k in KeysOf(all) && k !in last
    {
      var i :| 0 <= i < |init| && k in init[i];
      assert k in all[i] && Home(hash, k) == i;
      assert k in all[|init|] ==> Home(hash, k) == |init|;
    }
  }

  lemma {:induction false} TotalIsDistinctKeys<V>(shards: seq<Shard<V>>, hash: Text -> nat)
    requires Placed(shards, hash)
    ensures Total(shards) == |KeysOf(shards)|
  {
    if shards == [] {
      assert KeysOf(shards) == {};
    } else {
      var init, last := shards[..|shards| - 1], shards[|shards| - 1];
      assert shards == init + [last];
      KeysOfSnoc(init, last, hash);
      TotalIsDistinctKeys(init, hash);
    }
  }

  lemma {:induction false} TotalBound<V>(shards: seq<Shard<V>>, per: nat)
    requires forall i :: 0 <= i < |shards| ==> |shards[i]| <= per
    ensures Total(shards) <= |shards| * per
  {
    if shards != [] {
      TotalBound(shards[..|shards| - 1], per);
    }
  }

  // ---- operations on the flat view ---------------------------------------------------

  datatype Op<V> =
    | SetOp(key: Text, entry: Entry<V>)
    | SkippedSet
    | DeleteOp(key: Text)
    | DeleteGroupOp(group: Text)
    | ClearOp

  /** What one operation does to the flat map. A set may evict others but never alters them. */
  ghost predicate FlatStep<V>(m: Shard<V>, op: Op<V>, m': Shard<V>) {
    match op
    case SetOp(k, e) =>
      k in m' && m'[k] == e && forall o :: o in m' && o != k ==> o in m && m'[o] == m[o]
    case SkippedSet => m' == m
    case DeleteOp(k) => m' == m - {k}
    case DeleteGroupOp(g) => m' == map k | k in m && m[k].group != g :: m[k]
    case ClearOp => m' == map[]
  }

  /** The operation leaves no entry that `k` had before it. */
  predicate Ends<V>(op: Op<V>, k: Text, group: Text) {
    match op
    case SetOp(key, _) => key == k
    case SkippedSet => false
    case DeleteOp(key) => key == k
    case DeleteGroupOp(g) => g == group
    case ClearOp => true
  }

  ghost predicate IsHistory<V>(states: seq<Shard<V>>, ops: seq<Op<V>>) {
    && |states| == |ops| + 1 && states[0] == map[]
    && forall t :: 0 <= t < |ops| ==> FlatStep(states[t], ops[t], states[t + 1])
  }

  /** Over any history, what the cache holds for a key is what the last set of that key
      stored, and nothing since then deleted the key, its group or everything. */
  lemma {:induction false} HoldsLastSurvivingSet<V>(states: seq<Shard<V>>, ops: seq<Op<V>>, t: nat, k: Text)
    returns (s: nat)
    requires IsHistory(states, ops) && t < |states| && k in states[t]
    ensures s < t && ops[s] == SetOp(k, states[t][k])
    ensures forall u :: s < u < t ==> !Ends(ops[u], k, states[t][k].group)
  {
    assert t > 0;
    assert FlatStep(states[t - 1], ops[t - 1], states[t]);
    if ops[t - 1].SetOp? && ops[t - 1].key == k {
      s := t - 1;
    } else {
      s := HoldsLastSurvivingSet(states, ops, t - 1, k);
    }
  }

  // ---- one shard changed -------------------------------------------------------------

  /** A key lives in its own shard, so reading the flat map is reading that shard. */
  lemma {:induction false} FlattenAll<V>(shards: seq<Shard<V>>, hash: Text -> nat)
    requires |shards| == SHARDS && Placed(shards, hash)
    ensures forall k :: k in Flatten(shards, hash) <==> k in shards[Home(hash, k)]
    ensures forall k :: k in Flatten(shards, hash) ==> Flatten(shards, hash)[k] == shards[Home(hash, k)][k]
  {
  }

  lemma {:induction false} StoreInShard<V>(shards: seq<Shard<V>>, hash: Text -> nat, key: Text, kept: Shard<V>,
                                           e: Entry<V>)
    requires |shards| == SHARDS && Placed(shards, hash)
    requires forall k :: k in kept ==> k in shards[Home(hash, key)] && kept[k] == shards[Home(hash, key)][k]
    ensures var after := shards[Home(hash, key) := kept[key := e]];
            Placed(after, hash) && FlatStep(Flatten(shards, hash), SetOp(key, e), Flatten(after, hash))
  {
    var after := shards[Home(hash, key) := kept[key := e]];
    assert forall i :: 0 <= i < SHARDS && i != Home(hash, key) ==> after[i] == shards[i];
    FlattenAll(shards, hash);
    FlattenAll(after, hash);
  }

  lemma {:induction false} DeletePlaced<V>(shards: seq<Shard<V>>, hash: Text -> nat, key: Text, after: seq<Shard<V>>)
    requires |shards| == SHARDS && Placed(shards, hash)
    requires after == shards[Home(hash, key) := shards[Home(hash, key)] - {key}]
    ensures Placed(after, hash)
    ensures forall k :: (k in after[Home(hash, k)] <==> k in shards[Home(hash, k)] && k != key)
                        && (k in after[Home(hash, k)] ==> after[Home(hash, k)][k] == shards[Home(hash, k)][k])
  {
  }

  lemma {:induction false} DeleteInShard<V>(shards: seq<Shard<V>>, hash: Text -> nat, key: Text)
    requires |shards| == SHARDS && Placed(shards, hash)
    ensures var after := shards[Home(hash, key) := shards[Home(hash, key)] - {key}];
            Placed(after, hash) && FlatStep(Flatten(shards, hash), DeleteOp(key), Flatten(after, hash))
  {
    var after := shards[Home(hash, key) := shards[Home(hash, key)] - {key}];
    DeletePlaced(shards, hash, key, after);
    FlattenAll(shards, hash);
    FlattenAll(after, hash);
    assert Flatten(after, hash) == Flatten(shards, hash) - {key};
  }

  function Purged<V>(s: Shard<V>, group: Text): Shard<V> {
    map k | k in s && s[k].group != group :: s[k]
  }

  lemma {:induction false} PurgeShards<V>(shards: seq<Shard<V>>, hash: Text -> nat, group: Text, after: seq<Shard<V>>)
    requires |shards| == |after| == SHARDS && Placed(shards, hash)
    requires forall i :: 0 <= i < SHARDS ==> after[i] == Purged(shards[i], group)
    ensures Placed(after, hash) && FlatStep(Flatten(shards, hash), DeleteGroupOp(group), Flatten(after, hash))
    ensures forall i :: 0 <= i < SHARDS ==> |after[i]| <= |shards[i]|
  {
    FlattenAll(shards, hash);
    FlattenAll(after, hash);
    assert Flatten(after, hash) == Purged(Flatten(shards, hash), group);
    forall i | 0 <= i < SHARDS
      ensures |after[i]| <= |shards[i]|
    {
      SubsetSize(after[i].Keys, shards[i].Keys);
    }
  }

  // ---- the cache ---------------------------------------------------------------------

  class Cache<V> {
    const hash: Text -> nat
    const perShard: nat
    const ttl: int
    var shards: seq<Shard<V>>
    var epoch: nat
    var hits: nat
    var misses: nat

    ghost predicate Valid()
      reads this
    {
      && perShard >= 1 && |shards| == SHARDS && Placed(shards, hash)
      && forall i :: 0 <= i < SHARDS ==> |shards[i]| <= perShard
    }

    ghost function Flat(): Shard<V>
      requires Valid()
      reads this
    {
      Flatten(shards, hash)
    }

    constructor (hash: Text -> nat, maxEntries: int, ttl: int)
      ensures Valid() && Flat() == map[] && epoch == 0
      ensures 64 * perShard <= if maxEntries > 64 then maxEntries else 64
      ensures maxEntries < 64 * (perShard + 1)
      ensures this.hash == hash && this.ttl == ttl
    {
      var per := if maxEntries < SHARDS then 1 else maxEntries / SHARDS;
      this.hash, this.ttl, this.perShard := hash, ttl, per;
      shards := seq(SHARDS, i => map[]);
      epoch, hits, misses := 0, 0, 0;
    }

    method Get(key: Text, now: int) returns (v: Option<V>)
      requires Valid()
      modifies this`hits, this`misses
      ensures v == if key in Flat() && Flat()[key].expires > now then Some(Flat()[key].value) else None
    {
      FlattenAt(shards, hash, key);
      var s := shards[Home(hash, key)];
      if key in s && s[key].expires > now {
        hits := hits + 1;
        return Some(s[key].value);
      }
      misses := misses + 1;
      return None;
    }

    /** A set with a stale epoch does nothing; otherwise the entry is in place and others may
        have been evicted to stay within the bound. */
    method Set(key: Text, group: Text, value: V, epoch0: nat, now: int)
      requires Valid()
      modifies this`shards
      ensures Valid()
      ensures FlatStep(old(Flat()),
                       if epoch != epoch0 then SkippedSet
                       else SetOp(key, Entry(value, group, if ttl > 0 then now + ttl else FOREVER)),
                       Flat())
    {
      if epoch != epoch0 {
        return;
      }
      var home := Home(hash, key);
      var s := shards[home];
      if key !in s && |s| >= perShard {
        s := Evict(s, now);
      }
      var e := Entry(value, group, if ttl > 0 then now + ttl else FOREVER);
      StoreInShard(shards, hash, key, s, e);
      shards := shards[home := s[key := e]];
    }

    /** Expired entries go first; then any entries, until there is room for one more. */
    method Evict(s: Shard<V>, now: int) returns (r: Shard<V>)
      requires perShard >= 1
      ensures forall k :: k in r ==> k in s && r[k] == s[k] && r[k].expires > now
      ensures |r| < perShard
      ensures forall k :: k in s && s[k].expires > now && k !in r ==> |r| + 1 == perShard
    {
      r := s;
      var todo := s.Keys;
      while todo != {}
        invariant todo <= r.Keys <= s.Keys
        invariant forall k :: k in r ==> r[k] == s[k]
        invariant forall k :: k in s && k !in todo ==> (k in r <==> s[k].expires > now)
        decreases |todo|
      {
        var k :| k in todo;
        todo := todo - {k};
        if r[k].expires <= now {
          r := r - {k};
        }
      }
      todo := r.Keys;
      ghost var live := r;
      while todo != {}
        invariant todo <= r.Keys <= live.Keys
        invariant forall k :: k in r ==> r[k] == s[k]
        invariant r == live || |r| + 1 >= perShard
        invariant r.Keys == todo
        decreases |todo|
      {
        if |r| < perShard {
          return;
        }
        var k :| k in todo;
        todo := todo - {k};
        r := r - {k};
      }
    }

    method Delete(key: Text)
      requires Valid()
      modifies this`shards, this`epoch
      ensures Valid() && epoch == old(epoch) + 1 && FlatStep(old(Flat()), DeleteOp(key), Flat())
    {
      epoch := epoch + 1;
      var home := Home(hash, key);
      var s := shards[home];
      SubsetSize((s - {key}).Keys, s.Keys);
      DeleteInShard(shards, hash, key);
      shards := shards[home := s - {key}];
    }

    method DeleteGroup(group: Text)
      requires Valid()
      modifies this`shards, this`epoch
      ensures Valid() && epoch == old(epoch) + 1 && FlatStep(old(Flat()), DeleteGroupOp(group), Flat())
    {
      epoch := epoch + 1;
      ghost var before := shards;
      for i := 0 to SHARDS
        invariant |shards| == SHARDS && epoch == old(epoch) + 1
        invariant forall j :: i <= j < SHARDS ==> shards[j] == before[j]
        invariant forall j :: 0 <= j < i ==> shards[j] == Purged(before[j], group)
      {
        var s, todo := shards[i], shards[i].Keys;
        while todo != {}
          invariant todo <= s.Keys <= before[i].Keys
          invariant forall k :: k in s ==> s[k] == before[i][k]
          invariant forall k :: k in before[i] && k !in todo ==> (k in s <==> before[i][k].group != group)
          decreases |todo|
        {
          var k :| k in todo;
          todo := todo - {k};
          if s[k].group == group {
            s := s - {k};
          }
        }
        assert s == Purged(before[i], group);
        shards := shards[i := s];
      }
      PurgeShards(before, hash, group, shards);
    }

    method Clear()
      requires Valid()
      modifies this`shards, this`epoch
      ensures Valid() && epoch == old(epoch) + 1 && FlatStep(old(Flat()), ClearOp, Flat())
    {
      epoch := epoch + 1;
      for i := 0 to SHARDS
        invariant |shards| == SHARDS && epoch == old(epoch) + 1
        invariant forall j :: 0 <= j < i ==> shards[j] == map[]
      {
        shards := shards[i := map[]];
      }
    }

    /** The count is the number of keys held, and never exceeds the configured bound. */
    method Len() returns (n: nat)
      requires Valid()
      ensures n == |Flat()| <= SHARDS * perShard
    {
      n := 0;
      for i := 0 to SHARDS
        invariant n == Total(shards[..i])
      {
        assert shards[..i + 1][..i] == shards[..i];
        n := n + |shards[i]|;
      }
      assert shards[..SHARDS] == shards;
      TotalBound(shards, perShard);
      TotalIsDistinctKeys(shards, hash);
      assert Flat().Keys == KeysOf(shards) by {
        forall k | k in KeysOf(shards)
          ensures k in Flat()
        {
          var i :| 0 <= i < |shards| && k in shards[i];
          FlattenAt(shards, hash, k);
        }
      }
    }
  }

  lemma {:induction false} SubsetSize<T>(a: set<T>, b: set<T>)
    requires a <= b
    ensures |a| <= |b|
  {
    if a != {} {
      var x :| x in a;
      SubsetSize(a - {x}, b - {x});
    }
  }
}
