/** Any number of instances over one database, kept coherent by local invalidation, published
    change events and a full clear on reconnect. */
module Cluster {
  import opened Tables
  import opened Transactions
  import opened Service
  import opened Invalidation
  import opened Coherence

  /** Each instance hashes with seeds of its own. */
  type Hashes = nat -> Hash

  datatype Phase = Unstarted | Running(job: nat) | Finished

  /** A committed change: its local invalidation, and the instances its event has not reached. */
  datatype Pending = Pending(origin: nat, change: Change, local: Phase, targets: set<nat>)

  datatype Message = Message(origin: nat, change: Change)

  datatype Node = Node(inst: Instance, jobs: map<nat, Program>, queue: seq<Message>, connected: bool)

  datatype State = State(db: Db, nodes: map<nat, Node>, writes: map<nat, Pending>)

  // ---- what an instance still owes ---------------------------------------------------

  function Jobs(n: Node): set<Program> {
    set j | j in n.jobs :: n.jobs[j]
  }

  /** At its origin a change is due until its local invalidation starts; elsewhere, until its
      event arrives. */
  predicate Owes(w: Pending, i: nat) {
    if w.origin == i then w.local.Unstarted? else i in w.targets
  }

  function Due(writes: map<nat, Pending>, i: nat): set<Program> {
    set w | w in writes && Owes(writes[w], i) :: Invalidate(writes[w].change)
  }

  /** Queued events, those the instance sent itself not counted: it will ignore them. */
  function Queued(n: Node, i: nat): set<Program> {
    set m | m in n.queue && m.origin != i :: Invalidate(m.change)
  }

  function Owed(c: State, i: nat): set<Program>
    requires i in c.nodes
  {
    Jobs(c.nodes[i]) + Due(c.writes, i) + Queued(c.nodes[i], i) +
    if c.nodes[i].connected then {} else {InvalidateAll()}
  }

  // ---- steps -------------------------------------------------------------------------

  datatype Step =
    | Load(i: nat, move: Move)
    | Commit(w: nat, i: nat, req: Request, now: int)
    | StartLocal(w: nat, job: nat)
    | Perform(i: nat, job: nat)
    | FinishLocal(w: nat)
    | Deliver(w: nat, i: nat)
    | Handle(i: nat, job: nat)
    | Disconnect(i: nat)
    | Reconnect(i: nat, job: nat)

  function WithNode(c: State, i: nat, n: Node): State {
    c.(nodes := c.nodes[i := n])
  }

  ghost predicate NextLoad(h: Hash, c: State, c': State, i: nat, m: Move) {
    && i in c.nodes && i in c'.nodes
    && Moves(h, c.nodes[i].inst, c'.nodes[i].inst, c.db, m)
    && c' == WithNode(c, i, c.nodes[i].(inst := c'.nodes[i].inst))
  }

  /** The change `ch` is committed through instance `i`, taking the tables to `db'`. */
  predicate NextCommit(c: State, c': State, w: nat, i: nat, db': Db, ch: Change) {
    && w !in c.writes && i in c.nodes
    && c' == State(db', c.nodes, c.writes[w := Pending(i, ch, Unstarted, c.nodes.Keys)])
  }

  predicate NextStartLocal(c: State, c': State, w: nat, j: nat) {
    && w in c.writes && c.writes[w].local.Unstarted? && c.writes[w].origin in c.nodes
    && var i := c.writes[w].origin;
       j !in c.nodes[i].jobs &&
       c' == WithNode(c, i, c.nodes[i].(jobs := c.nodes[i].jobs[j := Invalidate(c.writes[w].change)]))
             .(writes := c.writes[w := c.writes[w].(local := Running(j))])
  }

  ghost predicate NextPerform(h: Hash, c: State, c': State, i: nat, j: nat) {
    && i in c.nodes && i in c'.nodes && j in c.nodes[i].jobs && c.nodes[i].jobs[j] != []
    && Performs(h, c.nodes[i].inst, c'.nodes[i].inst, c.nodes[i].jobs[j][0])
    && c' == WithNode(c, i, c.nodes[i].(inst := c'.nodes[i].inst,
                                        jobs := c.nodes[i].jobs[j := c.nodes[i].jobs[j][1..]]))
  }

  /** The local invalidation has run to its end; only now is the event published. */
  predicate NextFinishLocal(c: State, c': State, w: nat) {
    && w in c.writes && c.writes[w].local.Running? && c.writes[w].origin in c.nodes
    && var jobs := c.nodes[c.writes[w].origin].jobs;
       c.writes[w].local.job in jobs && jobs[c.writes[w].local.job] == [] &&
       c' == c.(writes := c.writes[w := c.writes[w].(local := Finished)])
  }

  /** The event reaches a subscriber, or is lost if that subscriber is disconnected. */
  predicate NextDeliver(c: State, c': State, w: nat, i: nat) {
    && w in c.writes && c.writes[w].local.Finished? && i in c.writes[w].targets && i in c.nodes
    && var writes := c.writes[w := c.writes[w].(targets := c.writes[w].targets - {i})];
       var n := c.nodes[i];
       if n.connected then
         var m := Message(c.writes[w].origin, c.writes[w].change);
         c' == WithNode(c, i, n.(queue := n.queue + [m])).(writes := writes)
       else c' == c.(writes := writes)
  }

  /** The subscriber takes the next event, ignoring its own. */
  predicate NextHandle(c: State, c': State, i: nat, j: nat) {
    && i in c.nodes && c.nodes[i].queue != [] && j !in c.nodes[i].jobs
    && var n := c.nodes[i];
       var m := n.queue[0];
       c' == WithNode(c, i, if m.origin == i then n.(queue := n.queue[1..])
                            else n.(queue := n.queue[1..], jobs := n.jobs[j := Invalidate(m.change)]))
  }

  /** The connection breaks, and any of the queued events may go with it. */
  ghost predicate NextDisconnect(c: State, c': State, i: nat) {
    && i in c.nodes && i in c'.nodes
    && (forall m :: m in c'.nodes[i].queue ==> m in c.nodes[i].queue)
    && c' == WithNode(c, i, c.nodes[i].(connected := false, queue := c'.nodes[i].queue))
  }

  predicate NextReconnect(c: State, c': State, i: nat, j: nat) {
    && i in c.nodes && !c.nodes[i].connected && j !in c.nodes[i].jobs
    && c' == WithNode(c, i, c.nodes[i].(connected := true, jobs := c.nodes[i].jobs[j := InvalidateAll()]))
  }

  ghost predicate Next(encode: Encoder, h: Hashes, c: State, c': State, step: Step) {
    match step
    case Load(i, m) => NextLoad(h(i), c, c', i, m)
    case Commit(w, i, req, now) =>
      var s := Serve(encode, c.db, req, now);
      s.outcome.Done? && s.notice.Some? && NextCommit(c, c', w, i, s.db, s.notice.value)
    case StartLocal(w, j) => NextStartLocal(c, c', w, j)
    case Perform(i, j) => NextPerform(h(i), c, c', i, j)
    case FinishLocal(w) => NextFinishLocal(c, c', w)
    case Deliver(w, i) => NextDeliver(c, c', w, i)
    case Handle(i, j) => NextHandle(c, c', i, j)
    case Disconnect(i) => NextDisconnect(c, c', i)
    case Reconnect(i, j) => NextReconnect(c, c', i, j)
  }

  ghost predicate Init(c: State) {
    && c.db == Db(map[], map[], 1) && c.writes == map[]
    && forall i :: i in c.nodes ==>
         c.nodes[i].inst == Instance(map[], c.nodes[i].inst.zoneEpoch, c.nodes[i].inst.nameEpoch, map[])
         && c.nodes[i].jobs == map[] && c.nodes[i].queue == []
  }

  // ---- keys that are given up --------------------------------------------------------

  /** The call wrote what alters the key and announced something else (see `NoticeAgreesIff`). */
  predicate Misses(encode: Encoder, db: Db, step: Step, k: Key) {
    && step.Commit? && k.NameKey? && Reaches(Written(step.req), k.zone, k.name)
    && var notice := Serve(encode, db, step.req, step.now).notice;
       notice.Some? && !Reaches(notice.value, k.zone, k.name)
  }

  /** The call announced a change that reaches the key. */
  predicate Mends(encode: Encoder, db: Db, step: Step, k: Key) {
    && step.Commit?
    && var notice := Serve(encode, db, step.req, step.now).notice;
       notice.Some? && Alters(notice.value, k)
  }

  /** The step does nothing for the key. */
  predicate Leaves(encode: Encoder, db: Db, step: Step, i: nat, k: Key, breaks: bool) {
    !Mends(encode, db, step, k) && !(breaks && step == Disconnect(i))
  }

  /** From `lost` to `lost'` keys are given up when a call misses them, and taken back when one mends
      them, when neither an entry nor a load is left, and, if `breaks`, when the connection breaks. */
  ghost predicate LostStep(encode: Encoder, c: State, c': State, step: Step, i: nat, lost: set<Key>, lost': set<Key>,
                           breaks: bool)
    requires i in c'.nodes
  {
    forall k :: k in Present(c'.nodes[i].inst) && k !in lost' ==>
      (k !in lost && !Misses(encode, c.db, step, k)) || !Leaves(encode, c.db, step, i, k, breaks)
  }

  // ---- the invariant -----------------------------------------------------------------

  ghost predicate NodeOk(h: Hash, c: State, i: nat, lost: set<Key>)
    requires i in c.nodes
  {
    Inv(h, c.nodes[i].inst, c.db, Owed(c, i), lost)
  }

  /** The keys each instance has given up. */
  type Strays = nat -> set<Key>

  ghost predicate NodesOk(h: Hashes, c: State, lost: Strays) {
    forall i :: i in c.nodes ==> NodeOk(h(i), c, i, lost(i))
  }

  ghost predicate OriginsOk(c: State) {
    && (forall w :: w in c.writes ==> c.writes[w].origin in c.nodes)
    && (forall i, m :: i in c.nodes && m in c.nodes[i].queue ==> m.origin in c.nodes)
  }

  ghost predicate ClusterInv(h: Hashes, c: State, lost: Strays) {
    Consistent(c.db) && OriginsOk(c) && NodesOk(h, c, lost)
  }

  lemma {:induction false} SubsetKeeps(h: Hash, s: Instance, db: Db, progs: set<Program>, progs': set<Program>,
                                       lost: set<Key>)
    requires Inv(h, s, db, progs, lost) && progs <= progs'
    ensures Inv(h, s, db, progs', lost)
  {
  }

  lemma {:induction false} ClearAllFences(h: Hash, progs: set<Program>, k: Key)
    requires InvalidateAll() in progs
    ensures Fenced(h, progs, k) && Covered(h, progs, k)
  {
    SweepReaches(h, SideOf(k), k);
    ConcatBumpsThenDrops(h, Sweep(Zones), Sweep(Names), k);
    assert Fenced(h, progs, k);
    FencedIsCovered(h, progs, k);
  }

  /** A full clear fences every key, so an instance that owes one may forget anything else, and
      need give up nothing. */
  lemma {:induction false} ClearAllKeeps(h: Hash, s: Instance, db: Db, progs: set<Program>, progs': set<Program>,
                                         lost: set<Key>, lost': set<Key>)
    requires Inv(h, s, db, progs, lost) && InvalidateAll() in progs'
    ensures Inv(h, s, db, progs', lost')
  {
    forall k
      ensures Fenced(h, progs', k) && Covered(h, progs', k)
    {
      ClearAllFences(h, progs', k);
    }
    OwedKeeps(h, s, db, progs, progs', lost);
    LostKeeps(h, s, db, progs', lost, lost');
  }

  /** Announcing `ch` fences every guarded key it alters, and only what `wr` alters is altered. */
  ghost predicate Fences(h: Hash, db: Db, db': Db, ch: Change, wr: Change) {
    forall k :: Guarded(k) ==>
      && (Alters(ch, k) ==> BumpsThenDrops(h, Invalidate(ch), k))
      && (!Alters(wr, k) ==>
            && StoreAnswer(db, k) == StoreAnswer(db', k)
            && (k.NameKey? ==> RowsAt(db, k.zone, k.name) == RowsAt(db', k.zone, k.name)))
  }

  /** A committed change alters only what it writes, and its invalidation fences what it announces. */
  lemma {:induction false} ServeFences(encode: Encoder, h: Hash, db: Db, req: Request, now: int)
    requires Consistent(db) && Serve(encode, db, req, now).outcome.Done?
    requires Serve(encode, db, req, now).notice.Some?
    ensures var s := Serve(encode, db, req, now); Fences(h, db, s.db, s.notice.value, Written(req))
  {
    var s := Serve(encode, db, req, now);
    var ch := s.notice.value;
    ServeConsistent(encode, db, req, now);
    ServeUntouched(encode, db, req, now);
    forall k | Guarded(k)
      ensures Alters(ch, k) ==> BumpsThenDrops(h, Invalidate(ch), k)
      ensures !Alters(Written(req), k) ==> StoreAnswer(db, k) == StoreAnswer(s.db, k)
      ensures !Alters(Written(req), k) && k.NameKey? ==> RowsAt(db, k.zone, k.name) == RowsAt(s.db, k.zone, k.name)
    {
      if Alters(ch, k) { InvalidateReaches(h, ch, k); }
      if !Alters(Written(req), k) { ChangeIsLocal(db, s.db, Written(req), k.zone, k.name); }
    }
  }

  /** The keys a commit leaves watched were watched before or are fenced by what it announced, and
      unless fenced it does not alter them. */
  ghost predicate Accounts(s: Instance, ch: Change, wr: Change, lost: set<Key>, lost': set<Key>) {
    forall k :: k in Present(s) && k !in lost' ==> Alters(ch, k) || (k !in lost && !Alters(wr, k))
  }

  lemma {:induction false} FencedCommit(h: Hash, s: Instance, db: Db, db': Db, progs: set<Program>, ch: Change,
                                        wr: Change, lost: set<Key>, lost': set<Key>)
    requires Inv(h, s, db, progs, lost) && Invalidate(ch) in progs
    requires Fences(h, db, db', ch, wr) && Accounts(s, ch, wr, lost, lost')
    ensures Inv(h, s, db', progs, lost')
  {
    assert forall k :: Guarded(k) && Alters(ch, k) ==> Fenced(h, progs, k);
    LostKeeps(h, s, db, progs, lost, lost');
    CommitKeeps(h, s, db, db', progs, lost');
  }

  lemma {:induction false} CommitAccounts(encode: Encoder, h: Hashes, c: State, c': State, step: Step, i: nat,
                                          lost: set<Key>, lost': set<Key>, breaks: bool)
    requires Next(encode, h, c, c', step) && step.Commit? && i in c.nodes && i in c'.nodes
    requires LostStep(encode, c, c', step, i, lost, lost', breaks)
    ensures c'.nodes[i] == c.nodes[i]
    ensures var ch := Serve(encode, c.db, step.req, step.now).notice.value;
            Accounts(c.nodes[i].inst, ch, Written(step.req), lost, lost')
  {
  }

  lemma {:induction false} CommitStep(h: Hash, c: State, c': State, w: nat, o: nat, ch: Change, wr: Change, i: nat,
                                      lost: set<Key>, lost': set<Key>)
    requires i in c.nodes && NodeOk(h, c, i, lost)
    requires NextCommit(c, c', w, o, c'.db, ch) && Fences(h, c.db, c'.db, ch, wr)
    requires Accounts(c.nodes[i].inst, ch, wr, lost, lost')
    ensures NodeOk(h, c', i, lost')
  {
    assert Owes(c'.writes[w], i);
    assert Invalidate(ch) in Due(c'.writes, i);
    forall q | q in Due(c.writes, i)
      ensures q in Due(c'.writes, i)
    {
      var v :| v in c.writes && Owes(c.writes[v], i) && q == Invalidate(c.writes[v].change);
      assert c'.writes[v] == c.writes[v];
    }
    SubsetKeeps(h, c.nodes[i].inst, c.db, Owed(c, i), Owed(c', i), lost);
    FencedCommit(h, c.nodes[i].inst, c.db, c'.db, Owed(c', i), ch, wr, lost, lost');
  }

  /** One pending write advanced, its change kept. */
  predicate Rewritten(c: State, c': State, w: nat) {
    w in c.writes && w in c'.writes && c'.writes[w].change == c.writes[w].change
    && c'.writes == c.writes[w := c'.writes[w]]
  }

  /** The programs due afterwards, with `moved`, include those due before. */
  lemma {:induction false} DueAfter(c: State, c': State, w: nat, i: nat, moved: set<Program>)
    requires Rewritten(c, c', w)
    requires Owes(c.writes[w], i) ==> Owes(c'.writes[w], i) || Invalidate(c.writes[w].change) in moved
    ensures Due(c.writes, i) <= Due(c'.writes, i) + moved
  {
    forall q | q in Due(c.writes, i)
      ensures q in Due(c'.writes, i) + moved
    {
      var v :| v in c.writes && Owes(c.writes[v], i) && q == Invalidate(c.writes[v].change);
      if v != w || Owes(c'.writes[w], i) { assert v in c'.writes && Owes(c'.writes[v], i); }
    }
  }

  lemma {:induction false} JobAdded(n: Node, n': Node, j: nat, p: Program)
    requires j !in n.jobs && n'.jobs == n.jobs[j := p]
    ensures Jobs(n) + {p} <= Jobs(n')
  {
    forall q | q in Jobs(n)
      ensures q in Jobs(n')
    {
      var m :| m in n.jobs && q == n.jobs[m];
      assert m in n'.jobs && n'.jobs[m] == q;
    }
    assert n'.jobs[j] == p;
  }

  lemma {:induction false} QueueGrown(n: Node, n': Node, i: nat)
    requires forall m :: m in n.queue ==> m in n'.queue
    ensures Queued(n, i) <= Queued(n', i)
  {
  }

  lemma {:induction false} PerformStep(h: Hash, c: State, c': State, i: nat, j: nat, lost: set<Key>)
    requires NextPerform(h, c, c', i, j) && NodeOk(h, c, i, lost)
    ensures NodeOk(h, c', i, lost)
  {
    var n, n' := c.nodes[i], c'.nodes[i];
    var p := n.jobs[j];
    assert n'.jobs[j] == p[1..];
    forall q | q in Jobs(n) && q != p
      ensures q in Jobs(n')
    {
      var m :| m in n.jobs && q == n.jobs[m];
      assert n'.jobs[m] == q;
    }
    assert p in Jobs(n) && p[1..] in Jobs(n');
    assert Queued(n, i) == Queued(n', i);
    assert Advanced(Owed(c, i), p, Owed(c', i));
    PerformKeeps(h, n.inst, n'.inst, c.db, Owed(c, i), p, Owed(c', i), lost);
  }

  /** What instance `i` owes does not shrink, or it owes a full clear. */
  ghost predicate StillOwed(c: State, c': State, i: nat)
    requires i in c.nodes && i in c'.nodes
  {
    Owed(c, i) <= Owed(c', i) || InvalidateAll() in Owed(c', i)
  }

  lemma {:induction false} StartLocalStep(c: State, c': State, w: nat, j: nat, i: nat)
    requires NextStartLocal(c, c', w, j) && i in c.nodes
    ensures StillOwed(c, c', i)
  {
    var n, n' := c.nodes[i], c'.nodes[i];
    assert Rewritten(c, c', w);
    QueueGrown(n, n', i);
    if c.writes[w].origin == i {
      JobAdded(n, n', j, Invalidate(c.writes[w].change));
      DueAfter(c, c', w, i, Jobs(n'));
    } else {
      DueAfter(c, c', w, i, {});
    }
  }

  lemma {:induction false} FinishLocalStep(c: State, c': State, w: nat, i: nat)
    requires NextFinishLocal(c, c', w) && i in c.nodes
    ensures StillOwed(c, c', i)
  {
    assert Rewritten(c, c', w);
    DueAfter(c, c', w, i, {});
  }

  /** Delivery moves the program from due to queued; an event lost was lost to a broken
      connection, and an instance's own event was never owed to it. */
  lemma {:induction false} DeliverStep(c: State, c': State, w: nat, target: nat, i: nat)
    requires NextDeliver(c, c', w, target) && i in c.nodes
    ensures StillOwed(c, c', i)
  {
    var n, n' := c.nodes[i], c'.nodes[i];
    assert Rewritten(c, c', w);
    QueueGrown(n, n', i);
    if target != i || c.writes[w].origin == i {
      DueAfter(c, c', w, i, {});
    } else if n.connected {
      var m := Message(c.writes[w].origin, c.writes[w].change);
      assert n'.queue[|n.queue|] == m;
      assert m in n'.queue && m.origin != i;
      assert Invalidate(m.change) in Queued(n', i);
      DueAfter(c, c', w, i, Queued(n', i));
    }
  }

  lemma {:induction false} HandleStep(c: State, c': State, i: nat, j: nat)
    requires NextHandle(c, c', i, j)
    ensures StillOwed(c, c', i)
  {
    var n, n' := c.nodes[i], c'.nodes[i];
    var m := n.queue[0];
    assert forall q :: q in n.queue <==> q == m || q in n.queue[1..];
    if m.origin != i { JobAdded(n, n', j, Invalidate(m.change)); }
    assert Queued(n, i) <= Queued(n', i) + Jobs(n');
  }

  lemma {:induction false} ReconnectStep(c: State, c': State, i: nat, j: nat)
    requires NextReconnect(c, c', i, j)
    ensures StillOwed(c, c', i)
  {
    JobAdded(c.nodes[i], c'.nodes[i], j, InvalidateAll());
  }

  lemma {:induction false} StillOwedKeeps(h: Hash, c: State, c': State, i: nat, lost: set<Key>)
    requires i in c.nodes && i in c'.nodes && StillOwed(c, c', i)
    requires c'.db == c.db && c'.nodes[i].inst == c.nodes[i].inst
    requires NodeOk(h, c, i, lost)
    ensures NodeOk(h, c', i, lost)
  {
    if Owed(c, i) <= Owed(c', i) {
      SubsetKeeps(h, c.nodes[i].inst, c.db, Owed(c, i), Owed(c', i), lost);
    } else {
      ClearAllKeeps(h, c.nodes[i].inst, c.db, Owed(c, i), Owed(c', i), lost, lost);
    }
  }

  lemma {:induction false} UnmovedNode(h: Hash, c: State, c': State, i: nat, lost: set<Key>)
    requires i in c.nodes && i in c'.nodes && c'.nodes[i] == c.nodes[i]
    requires c'.writes == c.writes && c'.db == c.db
    requires NodeOk(h, c, i, lost)
    ensures NodeOk(h, c', i, lost)
  {
  }

  lemma {:induction false} NextOrigins(encode: Encoder, h: Hashes, c: State, c': State, step: Step)
    requires OriginsOk(c) && Next(encode, h, c, c', step)
    ensures OriginsOk(c') && c'.nodes.Keys == c.nodes.Keys
  {
    match step
    case Handle(i, _) =>
      var q := c.nodes[i].queue;
      assert forall m :: m in q[1..] ==> m in q;
    case Commit(w, i, req, now) =>
      var s := Serve(encode, c.db, req, now);
      CommitOrigins(c, c', w, i, s.db, s.notice.value);
    case _ =>
  }

  lemma {:induction false} CommitOrigins(c: State, c': State, w: nat, i: nat, db': Db, ch: Change)
    requires OriginsOk(c) && NextCommit(c, c', w, i, db', ch)
    ensures OriginsOk(c') && c'.nodes.Keys == c.nodes.Keys
  {
  }

  lemma {:induction false} NextNode(encode: Encoder, h: Hashes, c: State, c': State, step: Step, i: nat, lost: set<Key>)
    requires Next(encode, h, c, c', step) && !step.Commit?
    requires i in c.nodes && i in c'.nodes && NodeOk(h(i), c, i, lost)
    ensures NodeOk(h(i), c', i, lost) && (step == Disconnect(i) ==> InvalidateAll() in Owed(c', i))
  {
    match step
    case Load(n, m) =>
      if n == i {
        assert Owed(c, i) == Owed(c', i);
        MoveKeeps(h(i), c.nodes[i].inst, c'.nodes[i].inst, c.db, Owed(c, i), lost, m);
      } else {
        UnmovedNode(h(i), c, c', i, lost);
      }
    case Perform(n, j) =>
      if n == i { PerformStep(h(i), c, c', i, j, lost); } else { UnmovedNode(h(i), c, c', i, lost); }
    case StartLocal(w, j) => StartLocalStep(c, c', w, j, i); StillOwedKeeps(h(i), c, c', i, lost);
    case FinishLocal(w) => FinishLocalStep(c, c', w, i); StillOwedKeeps(h(i), c, c', i, lost);
    case Deliver(w, n) => DeliverStep(c, c', w, n, i); StillOwedKeeps(h(i), c, c', i, lost);
    case Handle(n, j) =>
      if n == i { HandleStep(c, c', i, j); StillOwedKeeps(h(i), c, c', i, lost); }
      else { UnmovedNode(h(i), c, c', i, lost); }
    case Disconnect(n) =>
      if n == i { StillOwedKeeps(h(i), c, c', i, lost); } else { UnmovedNode(h(i), c, c', i, lost); }
    case Reconnect(n, j) =>
      if n == i { ReconnectStep(c, c', i, j); StillOwedKeeps(h(i), c, c', i, lost); }
      else { UnmovedNode(h(i), c, c', i, lost); }
  }

  lemma {:induction false} NextNodeLost(encode: Encoder, h: Hashes, c: State, c': State, step: Step, i: nat,
                                        lost: set<Key>, lost': set<Key>)
    requires Next(encode, h, c, c', step) && !step.Commit?
    requires i in c.nodes && i in c'.nodes && NodeOk(h(i), c, i, lost)
    requires LostStep(encode, c, c', step, i, lost, lost', true)
    ensures NodeOk(h(i), c', i, lost')
  {
    NextNode(encode, h, c, c', step, i, lost);
    var progs := Owed(c', i);
    if step == Disconnect(i) {
      ClearAllKeeps(h(i), c'.nodes[i].inst, c'.db, progs, progs, lost, lost');
    } else {
      LostKeeps(h(i), c'.nodes[i].inst, c'.db, progs, lost, lost');
    }
  }

  lemma {:induction false} OnlyCommitsWrite(encode: Encoder, h: Hashes, c: State, c': State, step: Step)
    requires Next(encode, h, c, c', step)
    ensures c'.db == if step.Commit? then Serve(encode, c.db, step.req, step.now).db else c.db
  {
  }

  lemma {:induction false} NextDb(encode: Encoder, h: Hashes, c: State, c': State, step: Step)
    requires Consistent(c.db) && Next(encode, h, c, c', step)
    ensures Consistent(c'.db)
  {
    OnlyCommitsWrite(encode, h, c, c', step);
    if step.Commit? { ServeConsistent(encode, c.db, step.req, step.now); }
  }

  lemma {:induction false} CommitNode(encode: Encoder, h: Hashes, c: State, c': State, step: Step, i: nat,
                                      lost: set<Key>, lost': set<Key>)
    requires Consistent(c.db) && Next(encode, h, c, c', step) && step.Commit?
    requires i in c.nodes && i in c'.nodes && NodeOk(h(i), c, i, lost)
    requires LostStep(encode, c, c', step, i, lost, lost', true)
    ensures NodeOk(h(i), c', i, lost')
  {
    var ch := Serve(encode, c.db, step.req, step.now).notice.value;
    ServeFences(encode, h(i), c.db, step.req, step.now);
    CommitAccounts(encode, h, c, c', step, i, lost, lost', true);
    CommitStep(h(i), c, c', step.w, step.i, ch, Written(step.req), i, lost, lost');
  }

  /** Every step of every instance keeps the cluster invariant. */
  lemma {:induction false} NextKeeps(encode: Encoder, h: Hashes, c: State, c': State, step: Step, lost: Strays,
                                     lost': Strays)
    requires ClusterInv(h, c, lost) && Next(encode, h, c, c', step)
    requires forall i :: i in c'.nodes ==> LostStep(encode, c, c', step, i, lost(i), lost'(i), true)
    ensures ClusterInv(h, c', lost')
  {
    NextOrigins(encode, h, c, c', step);
    NextDb(encode, h, c, c', step);
    forall i | i in c'.nodes
      ensures NodeOk(h(i), c', i, lost'(i))
    {
      assert i in c.nodes.Keys;
      if step.Commit? { CommitNode(encode, h, c, c', step, i, lost(i), lost'(i)); }
      else { NextNodeLost(encode, h, c, c', step, i, lost(i), lost'(i)); }
    }
  }

  // ---- runs --------------------------------------------------------------------------

  ghost predicate IsRun(encode: Encoder, h: Hashes, run: seq<State>, steps: seq<Step>) {
    && |run| == |steps| + 1 && Init(run[0])
    && forall t :: 0 <= t < |steps| ==> Next(encode, h, run[t], run[t + 1], steps[t])
  }

  lemma {:induction false} StepOfRun(encode: Encoder, h: Hashes, run: seq<State>, steps: seq<Step>, t: nat)
    requires IsRun(encode, h, run, steps) && 0 < t < |run|
    ensures Next(encode, h, run[t - 1], run[t], steps[t - 1])
  {
    assert run[t - 1 + 1] == run[t];
  }

  predicate PresentAt(c: State, i: nat, k: Key) {
    i in c.nodes && k in Present(c.nodes[i].inst)
  }

  ghost predicate PresentSince(run: seq<State>, s: nat, t: nat, i: nat, k: Key)
    requires t < |run|
  {
    forall u {:trigger run[u]} :: s <= u <= t ==> PresentAt(run[u], i, k)
  }

  ghost predicate LeftSince(encode: Encoder, run: seq<State>, steps: seq<Step>, s: nat, t: nat, i: nat, k: Key,
                            breaks: bool)
    requires t < |run| == |steps| + 1
  {
    forall u {:trigger steps[u]} :: s < u < t ==> Leaves(encode, run[u].db, steps[u], i, k, breaks)
  }

  /** Since the call at step `s`, instance `i` has had an entry for the key or a load of it all the
      time, no call has announced a change that reaches it and, if `breaks`, the connection has held. */
  ghost predicate Unmended(encode: Encoder, run: seq<State>, steps: seq<Step>, s: nat, t: nat, i: nat, k: Key,
                           breaks: bool)
    requires s <= t < |run| == |steps| + 1
  {
    PresentSince(run, s, t, i, k) && LeftSince(encode, run, steps, s, t, i, k, breaks)
  }

  /** Some past call missed the key and nothing has mended it since. */
  ghost predicate Astray(encode: Encoder, run: seq<State>, steps: seq<Step>, t: nat, i: nat, k: Key, breaks: bool)
    requires t < |run| == |steps| + 1
  {
    exists s :: 0 <= s < t && Misses(encode, run[s].db, steps[s], k) && Unmended(encode, run, steps, s, t, i, k, breaks)
  }

  ghost function StraysOf(encode: Encoder, run: seq<State>, steps: seq<Step>, t: nat, i: nat, breaks: bool): set<Key>
    requires t < |run| == |steps| + 1
  {
    if i in run[t].nodes then set k | k in Present(run[t].nodes[i].inst) && Astray(encode, run, steps, t, i, k, breaks)
    else {}
  }

  lemma {:induction false} PresentOn(run: seq<State>, s: nat, t: nat, i: nat, k: Key)
    requires 0 < t < |run| && PresentSince(run, s, t - 1, i, k) && PresentAt(run[t], i, k)
    ensures PresentSince(run, s, t, i, k)
  {
  }

  lemma {:induction false} LeftOn(encode: Encoder, run: seq<State>, steps: seq<Step>, s: nat, t: nat, i: nat, k: Key,
                                  breaks: bool)
    requires 0 < t < |run| == |steps| + 1 && LeftSince(encode, run, steps, s, t - 1, i, k, breaks)
    requires s < t - 1 ==> Leaves(encode, run[t - 1].db, steps[t - 1], i, k, breaks)
    ensures LeftSince(encode, run, steps, s, t, i, k, breaks)
  {
    forall u | s < u < t
      ensures Leaves(encode, run[u].db, steps[u], i, k, breaks)
    {
      if u < t - 1 { assert LeftSince(encode, run, steps, s, t - 1, i, k, breaks); }
    }
  }

  /** The strays of a run are given up and taken back as they should be. */
  lemma {:induction false} StraysStep(encode: Encoder, h: Hashes, run: seq<State>, steps: seq<Step>, t: nat, i: nat,
                                      breaks: bool)
    requires IsRun(encode, h, run, steps) && 0 < t < |run| && i in run[t - 1].nodes && i in run[t].nodes
    ensures LostStep(encode, run[t - 1], run[t], steps[t - 1], i, StraysOf(encode, run, steps, t - 1, i, breaks),
                     StraysOf(encode, run, steps, t, i, breaks), breaks)
  {
    var c, step := run[t - 1], steps[t - 1];
    var lost, lost' := StraysOf(encode, run, steps, t - 1, i, breaks), StraysOf(encode, run, steps, t, i, breaks);
    StepOfRun(encode, h, run, steps, t);
    forall k | k in Present(run[t].nodes[i].inst) && k !in lost' && (k in lost || Misses(encode, c.db, step, k))
      ensures !Leaves(encode, c.db, step, i, k, breaks)
    {
      if Leaves(encode, c.db, step, i, k, breaks) {
        StaysAstray(encode, h, run, steps, t, i, k, breaks);
      }
    }
  }

  lemma {:induction false} StaysAstray(encode: Encoder, h: Hashes, run: seq<State>, steps: seq<Step>, t: nat, i: nat,
                                       k: Key, breaks: bool)
    requires IsRun(encode, h, run, steps) && 0 < t < |run| && PresentAt(run[t], i, k) && i in run[t - 1].nodes
    requires Leaves(encode, run[t - 1].db, steps[t - 1], i, k, breaks)
    requires k in StraysOf(encode, run, steps, t - 1, i, breaks) || Misses(encode, run[t - 1].db, steps[t - 1], k)
    ensures Astray(encode, run, steps, t, i, k, breaks)
  {
    if Misses(encode, run[t - 1].db, steps[t - 1], k) {
      StepOfRun(encode, h, run, steps, t);
      assert PresentAt(run[t - 1], i, k);
      PresentOn(run, t - 1, t, i, k);
      LeftOn(encode, run, steps, t - 1, t, i, k, breaks);
    } else {
      var s :| 0 <= s < t - 1 && Misses(encode, run[s].db, steps[s], k)
               && Unmended(encode, run, steps, s, t - 1, i, k, breaks);
      PresentOn(run, s, t, i, k);
      LeftOn(encode, run, steps, s, t, i, k, breaks);
    }
  }

  ghost function StraysAt(encode: Encoder, run: seq<State>, steps: seq<Step>, t: nat): Strays
    requires t < |run| == |steps| + 1
  {
    (i: nat) => StraysOf(encode, run, steps, t, i, true)
  }

  lemma {:induction false} StartsRight(h: Hashes, c: State, lost: Strays)
    requires Init(c)
    ensures ClusterInv(h, c, lost)
  {
    EmptyConsistent();
  }

  lemma {:induction false} RunKeepsStep(encode: Encoder, h: Hashes, run: seq<State>, steps: seq<Step>, t: nat)
    requires IsRun(encode, h, run, steps) && 0 < t < |run|
    requires ClusterInv(h, run[t - 1], StraysAt(encode, run, steps, t - 1))
    ensures ClusterInv(h, run[t], StraysAt(encode, run, steps, t)) && run[t].nodes.Keys == run[t - 1].nodes.Keys
  {
    var lost, lost' := StraysAt(encode, run, steps, t - 1), StraysAt(encode, run, steps, t);
    StepOfRun(encode, h, run, steps, t);
    NextOrigins(encode, h, run[t - 1], run[t], steps[t - 1]);
    forall i | i in run[t].nodes
      ensures LostStep(encode, run[t - 1], run[t], steps[t - 1], i, lost(i), lost'(i), true)
    {
      assert i in run[t - 1].nodes.Keys;
      StraysStep(encode, h, run, steps, t, i, true);
    }
    NextKeeps(encode, h, run[t - 1], run[t], steps[t - 1], lost, lost');
  }

  lemma {:induction false} RunKeeps(encode: Encoder, h: Hashes, run: seq<State>, steps: seq<Step>, t: nat)
    requires IsRun(encode, h, run, steps) && t < |run|
    ensures ClusterInv(h, run[t], StraysAt(encode, run, steps, t)) && run[t].nodes.Keys == run[0].nodes.Keys
  {
    if t == 0 {
      StartsRight(h, run[0], StraysAt(encode, run, steps, 0));
    } else {
      RunKeeps(encode, h, run, steps, t - 1);
      RunKeepsStep(encode, h, run, steps, t);
    }
  }

  /** Why an entry may lawfully be stale at instance `i`. */
  ghost predicate Excused(h: Hash, c: State, i: nat, k: Key)
    requires i in c.nodes
  {
    || (exists j :: j in c.nodes[i].jobs && Drops(h, c.nodes[i].jobs[j], k))
    || (exists w :: w in c.writes && Owes(c.writes[w], i) && Drops(h, Invalidate(c.writes[w].change), k))
    || (exists m :: m in c.nodes[i].queue && m.origin != i && Drops(h, Invalidate(m.change), k))
    || !c.nodes[i].connected
  }

  lemma {:induction false} InvExcuses(h: Hash, c: State, i: nat, k: Key, lost: set<Key>)
    requires i in c.nodes && NodeOk(h, c, i, lost)
    requires k in c.nodes[i].inst.cache && Watched(lost, k) && c.nodes[i].inst.cache[k] != StoreAnswer(c.db, k)
    ensures Excused(h, c, i, k)
  {
    if c.nodes[i].connected {
      assert Covered(h, Owed(c, i), k);
      var p :| p in Owed(c, i) && Drops(h, p, k);
      if p in Jobs(c.nodes[i]) {
        var j :| j in c.nodes[i].jobs && p == c.nodes[i].jobs[j];
      } else if p in Due(c.writes, i) {
        var w :| w in c.writes && Owes(c.writes[w], i) && p == Invalidate(c.writes[w].change);
      } else {
        var m :| m in c.nodes[i].queue && m.origin != i && p == Invalidate(m.change);
      }
    }
  }

  /** Coherence. In every state of every run, on every instance, a cached answer that differs
      from what the store would answer now has a local invalidation still to delete it, a
      committed change due there or queued there whose invalidation will, a broken connection
      whose repair clears everything, or else a past call missed it, announcing another zone than
      it wrote, and since then the entry or a load of it has always been there, the connection has
      held and nothing announced has reached it. */
  lemma {:induction false} StaleIsExcused(encode: Encoder, h: Hashes, run: seq<State>, steps: seq<Step>, t: nat, i: nat,
                                          k: Key)
    requires IsRun(encode, h, run, steps) && t < |run|
    requires i in run[t].nodes && k in run[t].nodes[i].inst.cache && Guarded(k)
    ensures || run[t].nodes[i].inst.cache[k] == StoreAnswer(run[t].db, k)
            || Excused(h(i), run[t], i, k)
            || Astray(encode, run, steps, t, i, k, true)
  {
    var lost := StraysAt(encode, run, steps, t)(i);
    RunKeeps(encode, h, run, steps, t);
    assert NodeOk(h(i), run[t], i, lost);
    if run[t].nodes[i].inst.cache[k] != StoreAnswer(run[t].db, k) && k !in lost {
      InvExcuses(h(i), run[t], i, k, lost);
    }
  }

  /** Nothing is outstanding at instance `i`; events it sent itself may still be queued. */
  ghost predicate Quiet(c: State, i: nat)
    requires i in c.nodes
  {
    && c.nodes[i].connected
    && (forall j :: j in c.nodes[i].jobs ==> c.nodes[i].jobs[j] == [])
    && (forall w :: w in c.writes ==> !Owes(c.writes[w], i))
    && (forall m :: m in c.nodes[i].queue ==> m.origin == i)
  }

  /** Once the invalidations due at an instance have run, every guarded answer it holds is the store's,
      unless it is astray. */
  lemma {:induction false} QuietIsCoherent(encode: Encoder, h: Hashes, run: seq<State>, steps: seq<Step>, t: nat,
                                           i: nat, k: Key)
    requires IsRun(encode, h, run, steps) && t < |run|
    requires i in run[t].nodes && k in run[t].nodes[i].inst.cache && Guarded(k) && Quiet(run[t], i)
    requires !Astray(encode, run, steps, t, i, k, true)
    ensures run[t].nodes[i].inst.cache[k] == StoreAnswer(run[t].db, k)
  {
    StaleIsExcused(encode, h, run, steps, t, i, k);
  }

  // ---- one instance alone ------------------------------------------------------------

  /** Write `w` is a write of instance `i` whose invalidation runs there as a job. */
  predicate RunsAt(c: State, i: nat, w: nat)
    requires i in c.nodes
  {
    w in c.writes && c.writes[w].origin == i && c.writes[w].local.Running? && c.writes[w].local.job in c.nodes[i].jobs
  }

  function RunOf(c: State, i: nat, w: nat): Program
    requires i in c.nodes && RunsAt(c, i, w)
  {
    c.nodes[i].jobs[c.writes[w].local.job]
  }

  /** The invalidations of an instance's writes, due or running. Jobs that an event or a reconnect
      started are not among them. */
  function OfWrites(c: State, i: nat): set<Program>
    requires i in c.nodes
  {
    Due(c.writes, i) + set w | w in c.writes && RunsAt(c, i, w) :: RunOf(c, i, w)
  }

  /** With one instance, the invalidations of its own writes account for everything. */
  ghost predicate AloneOk(h: Hash, c: State, i: nat, lost: set<Key>) {
    && c.nodes.Keys == {i} && OriginsOk(c)
    && (forall w :: w in c.writes && c.writes[w].local.Running? ==> c.writes[w].local.job in c.nodes[i].jobs)
    && Inv(h, c.nodes[i].inst, c.db, OfWrites(c, i), lost)
  }

  /** Each write keeps what it stands for, and a running one its program. */
  ghost predicate WritesStay(c: State, c': State, i: nat)
    requires i in c.nodes && i in c'.nodes
  {
    forall w :: w in c.writes ==>
      && w in c'.writes && c'.writes[w].origin == c.writes[w].origin
      && c'.writes[w].change == c.writes[w].change && c'.writes[w].local == c.writes[w].local
      && (RunsAt(c, i, w) ==> RunsAt(c', i, w) && RunOf(c', i, w) == RunOf(c, i, w))
  }

  lemma {:induction false} StayingGrows(c: State, c': State, i: nat)
    requires i in c.nodes && i in c'.nodes && c.nodes.Keys == {i} && OriginsOk(c) && WritesStay(c, c', i)
    ensures OfWrites(c, i) <= OfWrites(c', i)
  {
    forall q | q in OfWrites(c, i)
      ensures q in OfWrites(c', i)
    {
      if q in Due(c.writes, i) {
        var w :| w in c.writes && Owes(c.writes[w], i) && q == Invalidate(c.writes[w].change);
        assert c.writes[w].origin in c.nodes.Keys;
        assert Owes(c'.writes[w], i);
      } else {
        var w :| w in c.writes && RunsAt(c, i, w) && q == RunOf(c, i, w);
        assert RunsAt(c', i, w);
      }
    }
  }

  /** A step that leaves the writes, the caches and the tables alone. */
  lemma {:induction false} AloneStays(h: Hash, c: State, c': State, i: nat, lost: set<Key>)
    requires AloneOk(h, c, i, lost) && c'.nodes.Keys == {i} && OriginsOk(c') && WritesStay(c, c', i)
    requires c'.writes.Keys == c.writes.Keys && c'.db == c.db
    requires c'.nodes[i].inst == c.nodes[i].inst && forall j :: j in c.nodes[i].jobs ==> j in c'.nodes[i].jobs
    ensures AloneOk(h, c', i, lost)
  {
    StayingGrows(c, c', i);
    SubsetKeeps(h, c.nodes[i].inst, c.db, OfWrites(c, i), OfWrites(c', i), lost);
    assert forall w :: w in c'.writes ==> w in c.writes.Keys;
  }

  lemma {:induction false} AloneCommits(h: Hash, c: State, c': State, i: nat, w: nat, o: nat, ch: Change, wr: Change,
                                        lost: set<Key>, lost': set<Key>)
    requires AloneOk(h, c, i, lost)
    requires NextCommit(c, c', w, o, c'.db, ch) && Fences(h, c.db, c'.db, ch, wr)
    requires Accounts(c.nodes[i].inst, ch, wr, lost, lost')
    ensures AloneOk(h, c', i, lost')
  {
    CommitOrigins(c, c', w, o, c'.db, ch);
    StayingGrows(c, c', i);
    assert o in c.nodes.Keys;
    assert Owes(c'.writes[w], i);
    assert Invalidate(ch) in Due(c'.writes, i);
    SubsetKeeps(h, c.nodes[i].inst, c.db, OfWrites(c, i), OfWrites(c', i), lost);
    FencedCommit(h, c.nodes[i].inst, c.db, c'.db, OfWrites(c', i), ch, wr, lost, lost');
  }

  lemma {:induction false} AloneServes(encode: Encoder, h: Hashes, c: State, c': State, step: Step, i: nat,
                                       lost: set<Key>, lost': set<Key>)
    requires AloneOk(h(i), c, i, lost) && Consistent(c.db) && Next(encode, h, c, c', step) && step.Commit?
    requires i in c'.nodes && LostStep(encode, c, c', step, i, lost, lost', false)
    ensures AloneOk(h(i), c', i, lost')
  {
    var ch := Serve(encode, c.db, step.req, step.now).notice.value;
    assert i in c.nodes.Keys;
    ServeFences(encode, h(i), c.db, step.req, step.now);
    CommitAccounts(encode, h, c, c', step, i, lost, lost', false);
    AloneCommits(h(i), c, c', i, step.w, step.i, ch, Written(step.req), lost, lost');
  }

  lemma {:induction false} AloneStarts(h: Hash, c: State, c': State, i: nat, w: nat, j: nat, lost: set<Key>)
    requires AloneOk(h, c, i, lost) && NextStartLocal(c, c', w, j) && OriginsOk(c')
    ensures AloneOk(h, c', i, lost)
  {
    assert c.writes[w].origin in c.nodes.Keys;
    assert RunsAt(c', i, w) && RunOf(c', i, w) == Invalidate(c.writes[w].change);
    forall q | q in OfWrites(c, i)
      ensures q in OfWrites(c', i)
    {
      if q in Due(c.writes, i) {
        var v :| v in c.writes && Owes(c.writes[v], i) && q == Invalidate(c.writes[v].change);
        assert v != w ==> Owes(c'.writes[v], i);
      } else {
        var v :| v in c.writes && RunsAt(c, i, v) && q == RunOf(c, i, v);
        assert v != w && RunsAt(c', i, v) && RunOf(c', i, v) == q;
      }
    }
    SubsetKeeps(h, c.nodes[i].inst, c.db, OfWrites(c, i), OfWrites(c', i), lost);
  }

  /** The job a write runs as moves on. */
  lemma {:induction false} AloneAdvances(c: State, c': State, h: Hash, i: nat, j: nat, w: nat, lost: set<Key>)
    requires AloneOk(h, c, i, lost) && NextPerform(h, c, c', i, j) && RunsAt(c, i, w) && c.writes[w].local.job == j
    ensures Advanced(OfWrites(c, i), c.nodes[i].jobs[j], OfWrites(c', i))
  {
    var p := c.nodes[i].jobs[j];
    assert RunsAt(c', i, w) && RunOf(c', i, w) == p[1..];
    assert RunOf(c, i, w) == p;
    forall q | q in OfWrites(c, i) && q != p
      ensures q in OfWrites(c', i)
    {
      if q !in Due(c.writes, i) {
        var v :| v in c.writes && RunsAt(c, i, v) && q == RunOf(c, i, v);
        assert c.writes[v].local.job != j;
        assert RunsAt(c', i, v) && RunOf(c', i, v) == q;
      }
    }
  }

  lemma {:induction false} AlonePerforms(h: Hash, c: State, c': State, i: nat, j: nat, lost: set<Key>)
    requires AloneOk(h, c, i, lost) && NextPerform(h, c, c', i, j) && OriginsOk(c')
    ensures AloneOk(h, c', i, lost)
  {
    var n, n' := c.nodes[i], c'.nodes[i];
    var p := n.jobs[j];
    if w :| w in c.writes && RunsAt(c, i, w) && c.writes[w].local.job == j {
      AloneAdvances(c, c', h, i, j, w, lost);
      PerformKeeps(h, n.inst, n'.inst, c.db, OfWrites(c, i), p, OfWrites(c', i), lost);
    } else {
      assert WritesStay(c, c', i);
      StayingGrows(c, c', i);
      StrayActionKeeps(h, n.inst, n'.inst, c.db, OfWrites(c, i), lost, p[0]);
      SubsetKeeps(h, n'.inst, c.db, OfWrites(c, i), OfWrites(c', i), lost);
    }
  }

  /** A finished invalidation has nothing left to delete. */
  lemma {:induction false} AloneFinishes(h: Hash, c: State, c': State, i: nat, w: nat, lost: set<Key>)
    requires AloneOk(h, c, i, lost) && NextFinishLocal(c, c', w) && OriginsOk(c')
    ensures AloneOk(h, c', i, lost)
  {
    assert c.writes[w].origin in c.nodes.Keys;
    forall q | q in OfWrites(c, i) && q != []
      ensures q in OfWrites(c', i)
    {
      if q in Due(c.writes, i) {
        var v :| v in c.writes && Owes(c.writes[v], i) && q == Invalidate(c.writes[v].change);
        assert v != w && Owes(c'.writes[v], i);
      } else {
        var v :| v in c.writes && RunsAt(c, i, v) && q == RunOf(c, i, v);
        assert v != w && RunsAt(c', i, v) && RunOf(c', i, v) == q;
      }
    }
    NonEmptyKeep(h, c.nodes[i].inst, c.db, OfWrites(c, i), OfWrites(c', i), lost);
  }

  lemma {:induction false} NonEmptyKeep(h: Hash, s: Instance, db: Db, progs: set<Program>, progs': set<Program>,
                                        lost: set<Key>)
    requires Inv(h, s, db, progs, lost) && forall q :: q in progs && q != [] ==> q in progs'
    ensures Inv(h, s, db, progs', lost)
  {
    OwedKeeps(h, s, db, progs, progs', lost);
  }

  lemma {:induction false} AloneLoads(h: Hash, c: State, c': State, i: nat, m: Move, lost: set<Key>)
    requires AloneOk(h, c, i, lost) && NextLoad(h, c, c', i, m) && OriginsOk(c')
    ensures AloneOk(h, c', i, lost)
  {
    assert WritesStay(c, c', i);
    StayingGrows(c, c', i);
    MoveKeeps(h, c.nodes[i].inst, c'.nodes[i].inst, c.db, OfWrites(c, i), lost, m);
    SubsetKeeps(h, c'.nodes[i].inst, c.db, OfWrites(c, i), OfWrites(c', i), lost);
  }

  lemma {:induction false} AloneDelivers(h: Hash, c: State, c': State, i: nat, w: nat, lost: set<Key>)
    requires AloneOk(h, c, i, lost) && NextDeliver(c, c', w, i) && OriginsOk(c')
    ensures AloneOk(h, c', i, lost)
  {
    assert WritesStay(c, c', i);
    AloneStays(h, c, c', i, lost);
  }

  /** The only events about are the instance's own, which it ignores. */
  lemma {:induction false} AloneHandles(h: Hash, c: State, c': State, i: nat, j: nat, lost: set<Key>)
    requires AloneOk(h, c, i, lost) && NextHandle(c, c', i, j) && OriginsOk(c')
    ensures AloneOk(h, c', i, lost)
  {
    assert c.nodes[i].queue[0] in c.nodes[i].queue;
    assert c.nodes[i].queue[0].origin in c.nodes.Keys;
    assert WritesStay(c, c', i);
    AloneStays(h, c, c', i, lost);
  }

  lemma {:induction false} AloneBreaks(h: Hash, c: State, c': State, i: nat, j: nat, lost: set<Key>)
    requires AloneOk(h, c, i, lost) && (NextDisconnect(c, c', i) || NextReconnect(c, c', i, j)) && OriginsOk(c')
    ensures AloneOk(h, c', i, lost)
  {
    assert WritesStay(c, c', i);
    AloneStays(h, c, c', i, lost);
  }

  lemma {:induction false} AloneNext(encode: Encoder, h: Hashes, c: State, c': State, step: Step, i: nat,
                                     lost: set<Key>)
    requires AloneOk(h(i), c, i, lost) && Next(encode, h, c, c', step) && !step.Commit?
    ensures AloneOk(h(i), c', i, lost)
  {
    NextOrigins(encode, h, c, c', step);
    assert forall n :: n in c.nodes ==> n in c.nodes.Keys;
    match step
    case Load(n, m) => AloneLoads(h(i), c, c', i, m, lost);
    case StartLocal(w, j) => AloneStarts(h(i), c, c', i, w, j, lost);
    case Perform(n, j) => AlonePerforms(h(i), c, c', i, j, lost);
    case FinishLocal(w) => AloneFinishes(h(i), c, c', i, w, lost);
    case Deliver(w, n) => AloneDelivers(h(i), c, c', i, w, lost);
    case Handle(n, j) => AloneHandles(h(i), c, c', i, j, lost);
    case Disconnect(n) => AloneBreaks(h(i), c, c', i, 0, lost);
    case Reconnect(n, j) => AloneBreaks(h(i), c, c', i, j, lost);
  }

  lemma {:induction false} AloneNextLost(encode: Encoder, h: Hashes, c: State, c': State, step: Step, i: nat,
                                         lost: set<Key>, lost': set<Key>)
    requires AloneOk(h(i), c, i, lost) && Consistent(c.db) && Next(encode, h, c, c', step)
    requires i in c'.nodes && LostStep(encode, c, c', step, i, lost, lost', false)
    ensures AloneOk(h(i), c', i, lost')
  {
    if step.Commit? {
      AloneServes(encode, h, c, c', step, i, lost, lost');
    } else {
      AloneNext(encode, h, c, c', step, i, lost);
      LostKeeps(h(i), c'.nodes[i].inst, c'.db, OfWrites(c', i), lost, lost');
    }
  }

  lemma {:induction false} AloneInit(h: Hash, c: State, i: nat, lost: set<Key>)
    requires Init(c) && c.nodes.Keys == {i}
    ensures AloneOk(h, c, i, lost)
  {
    assert i in c.nodes;
  }

  lemma {:induction false} AloneRunStep(encode: Encoder, h: Hashes, run: seq<State>, steps: seq<Step>, t: nat, i: nat)
    requires IsRun(encode, h, run, steps) && 0 < t < |run|
    requires AloneOk(h(i), run[t - 1], i, StraysOf(encode, run, steps, t - 1, i, false))
    ensures AloneOk(h(i), run[t], i, StraysOf(encode, run, steps, t, i, false))
  {
    RunKeeps(encode, h, run, steps, t - 1);
    RunKeeps(encode, h, run, steps, t);
    assert i in run[t - 1].nodes.Keys && i in run[t].nodes.Keys;
    StepOfRun(encode, h, run, steps, t);
    StraysStep(encode, h, run, steps, t, i, false);
    AloneNextLost(encode, h, run[t - 1], run[t], steps[t - 1], i, StraysOf(encode, run, steps, t - 1, i, false),
      StraysOf(encode, run, steps, t, i, false));
  }

  lemma {:induction false} AloneRun(encode: Encoder, h: Hashes, run: seq<State>, steps: seq<Step>, t: nat, i: nat)
    requires IsRun(encode, h, run, steps) && t < |run| && run[0].nodes.Keys == {i}
    ensures AloneOk(h(i), run[t], i, StraysOf(encode, run, steps, t, i, false))
  {
    if t == 0 {
      AloneInit(h(i), run[0], i, StraysOf(encode, run, steps, 0, i, false));
    } else {
      AloneRun(encode, h, run, steps, t - 1, i);
      AloneRunStep(encode, h, run, steps, t, i);
    }
  }

  /** One instance alone, connected or not: a stale entry always has a write of that instance,
      committed and not yet started on its invalidation, or started and with that very entry
      still to delete; or else a past call missed it, and since then the entry or a load of it has
      always been there and nothing announced has reached it. */
  lemma {:induction false} SingleInstanceCoherent(encode: Encoder, h: Hashes, run: seq<State>, steps: seq<Step>, t: nat,
                                                  i: nat, k: Key)
    requires IsRun(encode, h, run, steps) && t < |run| && run[0].nodes.Keys == {i} && i in run[t].nodes
    requires k in run[t].nodes[i].inst.cache && Guarded(k)
    ensures || run[t].nodes[i].inst.cache[k] == StoreAnswer(run[t].db, k)
            || (exists w :: w in run[t].writes && run[t].writes[w].local.Unstarted?
                            && Drops(h(i), Invalidate(run[t].writes[w].change), k))
            || (exists w :: w in run[t].writes && RunsAt(run[t], i, w) && Drops(h(i), RunOf(run[t], i, w), k))
            || Astray(encode, run, steps, t, i, k, false)
  {
    AloneRun(encode, h, run, steps, t, i);
    AloneCovers(h(i), run[t], i, k, StraysOf(encode, run, steps, t, i, false));
  }

  lemma {:induction false} AloneCovers(h: Hash, c: State, i: nat, k: Key, lost: set<Key>)
    requires AloneOk(h, c, i, lost) && k in c.nodes[i].inst.cache && Guarded(k)
    ensures || c.nodes[i].inst.cache[k] == StoreAnswer(c.db, k)
            || (exists w :: w in c.writes && c.writes[w].local.Unstarted?
                            && Drops(h, Invalidate(c.writes[w].change), k))
            || (exists w :: w in c.writes && RunsAt(c, i, w) && Drops(h, RunOf(c, i, w), k))
            || k in lost
  {
    if c.nodes[i].inst.cache[k] != StoreAnswer(c.db, k) && Watched(lost, k) {
      assert Covered(h, OfWrites(c, i), k);
      var q :| q in OfWrites(c, i) && Drops(h, q, k);
      if q in Due(c.writes, i) {
        var w :| w in c.writes && Owes(c.writes[w], i) && q == Invalidate(c.writes[w].change);
        assert c.writes[w].origin in c.nodes.Keys;
      } else {
        var w :| w in c.writes && RunsAt(c, i, w) && q == RunOf(c, i, w);
      }
    }
  }
}
