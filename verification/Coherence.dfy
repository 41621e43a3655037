/** One instance's caches, loaders and invalidation actions, step by step, and the invariant
    that ties them to the store. */
module Coherence {
  import opened Tables
  import opened Service
  import opened Invalidation

  /** A cache load in progress, by the point it has reached. */
  datatype Loader =
    | Begun(key: Key, epoch: nat)                    // epoch read, nothing queried
    | HalfRead(key: Key, epoch: nat)                 // first SELECT of a name lookup was empty
    | Loaded(key: Key, epoch: nat, value: Answer)    // about to call Set
    | Waiting(key: Key, epoch: nat, value: Answer)   // past the first epoch check
    | Locked(key: Key, epoch: nat, value: Answer)    // holding the shard lock
    | Writing(key: Key, value: Answer)               // past the second check, lock still held

  datatype Instance = Instance(cache: map<Key, Answer>, zoneEpoch: nat, nameEpoch: nat, loaders: map<nat, Loader>)

  function Epoch(s: Instance, side: Side): nat {
    if side == Zones then s.zoneEpoch else s.nameEpoch
  }

  ghost predicate Free(h: Hash, s: Instance, side: Side, shard: nat) {
    forall l :: l in s.loaders && (s.loaders[l].Locked? || s.loaders[l].Writing?) ==>
      !(SideOf(s.loaders[l].key) == side && ShardOf(h, s.loaders[l].key) == shard)
  }

  // ---- steps -------------------------------------------------------------------------

  datatype Move =
    | Begin(id: nat, key: Key)
    | Read(id: nat)
    | ReadChildren(id: nat)
    | FirstCheck(id: nat)
    | Acquire(id: nat)
    | SecondCheck(id: nat)
    | Write(id: nat)
    | Abandon(id: nat)
    | Vanish(key: Key)

  function With(s: Instance, id: nat, l: Loader): Instance {
    s.(loaders := s.loaders[id := l])
  }

  function Without(s: Instance, id: nat): Instance {
    s.(loaders := s.loaders - {id})
  }

  /** After a write: the new entry is in place, and eviction may have removed others. */
  ghost predicate Stored(before: map<Key, Answer>, k: Key, v: Answer, after: map<Key, Answer>) {
    && k in after && after[k] == v
    && forall o :: o in after && o != k ==> o in before && after[o] == before[o]
  }

  /** A step of a loader, or an entry vanishing by expiry, against the tables `db`. */
  ghost predicate Moves(h: Hash, s: Instance, s': Instance, db: Db, m: Move) {
    match m
    case Begin(id, k) =>
      id !in s.loaders && s' == With(s, id, Begun(k, Epoch(s, SideOf(k))))
    case Read(id) =>
      && id in s.loaders && s.loaders[id].Begun?
      && var l := s.loaders[id];
         if l.key.NameKey? && RowsAt(db, l.key.zone, l.key.name) == {} then
           s' == With(s, id, HalfRead(l.key, l.epoch))
         else if l.key.NameKey? then
           s' == With(s, id, Loaded(l.key, l.epoch, NameAnswer(NameSet(RowsAt(db, l.key.zone, l.key.name), false))))
         else
           s' == With(s, id, Loaded(l.key, l.epoch, ZoneAnswer(FindZone(db.zones, l.key.qname))))
    case ReadChildren(id) =>
      && id in s.loaders && s.loaders[id].HalfRead? && s.loaders[id].key.NameKey?
      && var l := s.loaders[id];
         s' == With(s, id, Loaded(l.key, l.epoch, NameAnswer(NameSet({}, AnyInScan(db, l.key.zone, l.key.name)))))
    case FirstCheck(id) =>
      && id in s.loaders && s.loaders[id].Loaded?
      && var l := s.loaders[id];
         s' == if Epoch(s, SideOf(l.key)) != l.epoch then Without(s, id)
               else With(s, id, Waiting(l.key, l.epoch, l.value))
    case Acquire(id) =>
      && id in s.loaders && s.loaders[id].Waiting?
      && var l := s.loaders[id];
         Free(h, s, SideOf(l.key), ShardOf(h, l.key)) && s' == With(s, id, Locked(l.key, l.epoch, l.value))
    case SecondCheck(id) =>
      && id in s.loaders && s.loaders[id].Locked?
      && var l := s.loaders[id];
         s' == if Epoch(s, SideOf(l.key)) != l.epoch then Without(s, id)
               else With(s, id, Writing(l.key, l.value))
    case Write(id) =>
      && id in s.loaders && s.loaders[id].Writing?
      && Stored(s.cache, s.loaders[id].key, s.loaders[id].value, s'.cache)
      && s' == Without(s, id).(cache := s'.cache)
    case Abandon(id) =>
      && id in s.loaders && !s.loaders[id].Locked? && !s.loaders[id].Writing?
      && s' == Without(s, id)
    case Vanish(k) =>
      s' == s.(cache := s.cache - {k})
  }

  /** One atomic action of an invalidation; deletes need the shard lock. */
  ghost predicate Performs(h: Hash, s: Instance, s': Instance, a: Action) {
    match a
    case Bump(Zones) => s' == s.(zoneEpoch := s.zoneEpoch + 1)
    case Bump(Names) => s' == s.(nameEpoch := s.nameEpoch + 1)
    case _ =>
      && (forall k :: Removes(h, a, k) ==> Free(h, s, SideOf(k), ShardOf(h, k)))
      && s' == s.(cache := map k | k in s.cache && !Removes(h, a, k) :: s.cache[k])
  }

  // ---- invariant ---------------------------------------------------------------------

  /** Some outstanding program will still delete the entry. */
  ghost predicate Covered(h: Hash, progs: set<Program>, k: Key) {
    exists p :: p in progs && Drops(h, p, k)
  }

  /** Some outstanding program will still raise the epoch and then delete the entry. */
  ghost predicate Fenced(h: Hash, progs: set<Program>, k: Key) {
    exists p :: p in progs && BumpsThenDrops(h, p, k)
  }

  ghost predicate EntriesOk(h: Hash, s: Instance, db: Db, progs: set<Program>, lost: set<Key>) {
    forall k :: k in s.cache && Watched(lost, k) && s.cache[k] != StoreAnswer(db, k) ==> Covered(h, progs, k)
  }

  /** A loader's epoch was read in the past. */
  predicate Timely(s: Instance, l: Loader) {
    (l.HalfRead? ==> l.key.NameKey?) && (!l.Writing? ==> l.epoch <= Epoch(s, SideOf(l.key)))
  }

  ghost predicate LoaderOk(h: Hash, s: Instance, db: Db, progs: set<Program>, lost: set<Key>, l: Loader) {
    && Timely(s, l)
    && (Watched(lost, l.key) ==>
          match l
          case Begun(k, e) => true
          case HalfRead(k, e) =>
            e == Epoch(s, SideOf(k)) ==> RowsAt(db, k.zone, k.name) == {} || Fenced(h, progs, k)
          case Writing(k, v) => v == StoreAnswer(db, k) || Covered(h, progs, k)
          case _ => l.epoch == Epoch(s, SideOf(l.key)) ==> l.value == StoreAnswer(db, l.key) || Fenced(h, progs, l.key))
  }

  ghost predicate LoadersOk(h: Hash, s: Instance, db: Db, progs: set<Program>, lost: set<Key>) {
    forall l :: l in s.loaders ==> LoaderOk(h, s, db, progs, lost, s.loaders[l])
  }

  /** `progs` are the invalidations this instance still owes: running, queued or due. Keys in `lost`
      are given up: an invalidation they needed went elsewhere. */
  ghost predicate Inv(h: Hash, s: Instance, db: Db, progs: set<Program>, lost: set<Key>) {
    EntriesOk(h, s, db, progs, lost) && LoadersOk(h, s, db, progs, lost)
  }

  lemma {:induction false} FencedIsCovered(h: Hash, progs: set<Program>, k: Key)
    requires Fenced(h, progs, k)
    ensures Covered(h, progs, k)
  {
  }

  /** The moving loader's own obligation after its step, whichever point it was at. */
  lemma {:induction false} MovedLoaderOk(h: Hash, s: Instance, s': Instance, db: Db, progs: set<Program>,
                                     lost: set<Key>, m: Move)
    requires Inv(h, s, db, progs, lost) && Moves(h, s, s', db, m) && !m.Vanish?
    ensures m.id in s'.loaders ==> LoaderOk(h, s', db, progs, lost, s'.loaders[m.id])
  {
  }

  lemma {:induction false} MovedEntriesOk(h: Hash, s: Instance, s': Instance, db: Db, progs: set<Program>,
                                     lost: set<Key>, m: Move)
    requires Inv(h, s, db, progs, lost) && Moves(h, s, s', db, m)
    ensures EntriesOk(h, s', db, progs, lost)
  {
    if m.Write? { assert LoaderOk(h, s, db, progs, lost, s.loaders[m.id]); }
  }

  lemma {:induction false} OtherLoaderStays(h: Hash, s: Instance, s': Instance, db: Db, m: Move, l: nat)
    requires Moves(h, s, s', db, m) && l in s'.loaders && (m.Vanish? || l != m.id)
    ensures l in s.loaders && s'.loaders[l] == s.loaders[l]
    ensures s'.zoneEpoch == s.zoneEpoch && s'.nameEpoch == s.nameEpoch
  {
  }

  /** Loader steps and expiry keep the invariant: a name lookup whose two reads straddle a
      commit included. */
  lemma {:induction false} MoveKeeps(h: Hash, s: Instance, s': Instance, db: Db, progs: set<Program>,
                                     lost: set<Key>, m: Move)
    requires Inv(h, s, db, progs, lost) && Moves(h, s, s', db, m)
    ensures Inv(h, s', db, progs, lost)
  {
    MovedEntriesOk(h, s, s', db, progs, lost, m);
    if !m.Vanish? { MovedLoaderOk(h, s, s', db, progs, lost, m); }
    forall l | l in s'.loaders
      ensures LoaderOk(h, s', db, progs, lost, s'.loaders[l])
    {
      if m.Vanish? || l != m.id { OtherLoaderStays(h, s, s', db, m, l); }
    }
  }

  /** `progs'` owes what `progs` owed, except that the first action of `p` is done. */
  ghost predicate Advanced(progs: set<Program>, p: Program, progs': set<Program>) {
    p in progs && p != [] && p[1..] in progs' && forall q :: q in progs && q != p ==> q in progs'
  }

  lemma {:induction false} CoveredAfter(h: Hash, progs: set<Program>, p: Program, progs': set<Program>, k: Key)
    requires Advanced(progs, p, progs')
    ensures Covered(h, progs, k) && !Removes(h, p[0], k) ==> Covered(h, progs', k)
    ensures Fenced(h, progs, k) && p[0] != Bump(SideOf(k)) ==> Fenced(h, progs', k)
  {
  }

  /** Performing the next action of an outstanding program keeps the invariant. */
  lemma {:induction false} PerformKeeps(h: Hash, s: Instance, s': Instance, db: Db,
                                        progs: set<Program>, p: Program, progs': set<Program>, lost: set<Key>)
    requires Inv(h, s, db, progs, lost) && Advanced(progs, p, progs') && Performs(h, s, s', p[0])
    ensures Inv(h, s', db, progs', lost)
  {
    forall k | k in s'.cache && Watched(lost, k) && s'.cache[k] != StoreAnswer(db, k)
      ensures Covered(h, progs', k)
    {
      CoveredAfter(h, progs, p, progs', k);
    }
    forall l | l in s'.loaders
      ensures LoaderOk(h, s', db, progs', lost, s'.loaders[l])
    {
      var load := s.loaders[l];
      assert LoaderOk(h, s, db, progs, lost, load);
      CoveredAfter(h, progs, p, progs', load.key);
    }
  }

  /** An action of a program nobody counts on does no harm. */
  lemma {:induction false} StrayActionKeeps(h: Hash, s: Instance, s': Instance, db: Db, progs: set<Program>,
                                            lost: set<Key>, a: Action)
    requires Inv(h, s, db, progs, lost) && Performs(h, s, s', a)
    ensures Inv(h, s', db, progs, lost)
  {
    forall l | l in s'.loaders
      ensures LoaderOk(h, s', db, progs, lost, s'.loaders[l])
    {
      assert LoaderOk(h, s, db, progs, lost, s.loaders[l]);
    }
  }

  /** The keys an instance has an entry for or is loading. */
  function Present(s: Instance): set<Key> {
    s.cache.Keys + set l | l in s.loaders :: s.loaders[l].key
  }

  /** A key without entry and loader need not be given up, and a fenced one can be taken back. */
  lemma {:induction false} LostKeeps(h: Hash, s: Instance, db: Db, progs: set<Program>, lost: set<Key>,
                                     lost': set<Key>)
    requires Inv(h, s, db, progs, lost)
    requires forall k :: k in Present(s) && Watched(lost', k) ==> Watched(lost, k) || Fenced(h, progs, k)
    ensures Inv(h, s, db, progs, lost')
  {
    forall k | k in s.cache && Watched(lost', k) && s.cache[k] != StoreAnswer(db, k)
      ensures Covered(h, progs, k)
    {
      assert k in Present(s);
    }
    forall l | l in s.loaders
      ensures LoaderOk(h, s, db, progs, lost', s.loaders[l])
    {
      assert LoaderOk(h, s, db, progs, lost, s.loaders[l]);
      assert s.loaders[l].key in Present(s);
    }
  }

  /** More can be owed, or owed differently, as long as nothing covered becomes uncovered. */
  lemma {:induction false} OwedKeeps(h: Hash, s: Instance, db: Db, progs: set<Program>, progs': set<Program>,
                                     lost: set<Key>)
    requires Inv(h, s, db, progs, lost)
    requires forall k :: Covered(h, progs, k) ==> Covered(h, progs', k)
    requires forall k :: Fenced(h, progs, k) ==> Fenced(h, progs', k)
    ensures Inv(h, s, db, progs', lost)
  {
  }

  /** A commit keeps the invariant when an invalidation fencing every altered key is owed. */
  lemma {:induction false} CommitKeeps(h: Hash, s: Instance, db: Db, db': Db, progs: set<Program>, lost: set<Key>)
    requires Inv(h, s, db, progs, lost)
    requires forall k :: k in Present(s) && Watched(lost, k) && !Fenced(h, progs, k) ==>
               StoreAnswer(db, k) == StoreAnswer(db', k)
    requires forall k: Key :: k in Present(s) && Watched(lost, k) && k.NameKey? && !Fenced(h, progs, k) ==>
               RowsAt(db, k.zone, k.name) == RowsAt(db', k.zone, k.name)
    ensures Inv(h, s, db', progs, lost)
  {
    forall l | l in s.loaders
      ensures LoaderOk(h, s, db', progs, lost, s.loaders[l])
    {
      assert LoaderOk(h, s, db, progs, lost, s.loaders[l]);
      assert s.loaders[l].key in Present(s);
    }
  }
}
