/** The weak cache that commons up hashed types.

    The table does not own its entries: a type's link count can drop to zero while the table
    still points at it, and only `beforeDispose`, under the lock, takes the entry out.  Every
    thread runs `commonUpType` or `Release` as a series of atomic steps; a run is any
    interleaving of those steps.  Addresses may be reused as soon as an object is freed.

    `shape`, `entered` and `owners` are history variables: what the object denotes, whether it
    was ever put in the table, and who holds each of its links.  No step reads them to decide
    what to do, except that a caller only uses links it holds. */
module TypeCache {
  import opened Options

  type Addr = int
  type Thread = int

  /** A base type: absent, one of the permanent singletons (integers, booleans, ...), or a hashed type. */
  datatype Child<+A> = NoChild | Singleton(id: nat) | Shared(to: A)

  /** Everything `equals` compares apart from the base type pointer. */
  datatype Fields = Fields(hashKind: nat, length: nat, extra: seq<int>)

  /** What `getHash` hashes and `equals` compares: the base type takes part by address. */
  datatype Key = Key(fields: Fields, child: Child<Addr>)

  /** What a type denotes: the same fields all the way down. */
  datatype Shape = Shape(fields: Fields, child: Child<Shape>)

  datatype Owner = ByThread(t: Thread) | ByParent(a: Addr)

  /** `xxcount`: a number of links, or DEAD_PSEUDO_COUNT once disposal has begun. */
  datatype RefCount = Links(n: nat) | DeadMark

  datatype Obj = Obj(key: Key, refs: RefCount, observed: bool,
                     shape: Shape, entered: bool, owners: multiset<Owner>)

  /** The result a call of `commonUpType` is about to return, and the shape that was asked for. */
  datatype Ret = Ret(addr: Addr, goal: Shape)

  datatype Pc =
    | Idle
    // commonUpType
    | Want(cand: Addr)                       // waiting for typeCS
    | Locked(cand: Addr)                     // about to call addOrFind
    | Found(cand: Addr, other: Addr)         // about to call isAliveAndLink
    | Failed(cand: Addr, other: Addr)        // about to call replace
    | Leave(ret: Ret, drop: Option<Addr>)    // about to leave the critical block
    // Release, with the result (if any) that is returned once it has finished
    | Releasing(obj: Addr, after: Option<Ret>)      // about to decrement the count
    | Zeroed(obj: Addr, after: Option<Ret>)         // the count went from 1 to 0
    | Marked(obj: Addr, after: Option<Ret>)         // dead mark stored; beforeDispose waits for typeCS
    | DisposeLocked(obj: Addr, after: Option<Ret>)  // about to test `observed`
    | DisposeDone(obj: Addr, after: Option<Ret>)    // about to leave the critical block
    | Deleting(obj: Addr, after: Option<Ret>)       // about to run the destructor

  datatype State = State(heap: map<Addr, Obj>, table: map<Key, Addr>, lock: Option<Thread>, pcs: map<Thread, Pc>)

  datatype Step =
    | New(t: Thread, at: Addr, fields: Fields, child: Child<Addr>)
    | AddLink(t: Thread, a: Addr)
    | Give(t: Thread, to: Thread, a: Addr)
    | StartRelease(t: Thread, a: Addr)
    | Advance(t: Thread)

  // ----- state access ---------------------------------------------------------------------------

  /** Stands for whatever is read through a dangling address. */
  const GARBAGE: Obj := Obj(Key(Fields(0, 0, []), NoChild), DeadMark, false, Shape(Fields(0, 0, []), NoChild), false,
                            multiset{})

  function At(heap: map<Addr, Obj>, a: Addr): Obj {
    if a in heap then heap[a] else GARBAGE
  }

  function PcOf(pcs: map<Thread, Pc>, t: Thread): Pc {
    if t in pcs then pcs[t] else Idle
  }

  function Put(s: State, a: Addr, o: Obj): State {
    s.(heap := s.heap[a := o])
  }

  function Go(s: State, t: Thread, pc: Pc): State {
    s.(pcs := s.pcs[t := pc])
  }

  predicate Alive(o: Obj) {
    o.refs.Links? && o.refs.n > 0
  }

  predicate Owns(s: State, t: Thread, a: Addr) {
    a in s.heap && ByThread(t) in s.heap[a].owners
  }

  // ----- the steps ------------------------------------------------------------------------------

  function ChildShape(heap: map<Addr, Obj>, child: Child<Addr>): Child<Shape> {
    match child
    case NoChild => NoChild
    case Singleton(id) => Singleton(id)
    case Shared(c) => Shared(At(heap, c).shape)
  }

  /** What a caller must respect: it passes on, links and releases only what it holds.  The
      critical section admits one thread. */
  predicate Enabled(s: State, step: Step) {
    match step
    case New(t, a, _, child) =>
      PcOf(s.pcs, t).Idle? && a !in s.heap && (child.Shared? ==> Owns(s, t, child.to))
    case AddLink(t, a) => PcOf(s.pcs, t).Idle? && Owns(s, t, a)
    case Give(t, to, a) => PcOf(s.pcs, t).Idle? && Owns(s, t, a)
    case StartRelease(t, a) => PcOf(s.pcs, t).Idle? && Owns(s, t, a)
    case Advance(t) =>
      match PcOf(s.pcs, t)
      case Idle => false
      case Want(_) => s.lock.None?
      case Marked(_, _) => s.lock.None?
      case _ => true
  }

  /** `new CSomeTypeInfo(basetype, ...)`: the caller's link to the base type moves into the object. */
  function DoNew(s: State, t: Thread, a: Addr, fields: Fields, child: Child<Addr>): State {
    var o := Obj(Key(fields, child), Links(1), false, Shape(fields, ChildShape(s.heap, child)), false,
                 multiset{ByThread(t)});
    var s1 :=
      if child.Shared? then
        var c := At(s.heap, child.to);
        Put(s, child.to, c.(owners := c.owners - multiset{ByThread(t)} + multiset{ByParent(a)}))
      else s;
    Go(Put(s1, a, o), t, Want(a))
  }

  function DoAddLink(s: State, t: Thread, a: Addr): State {
    var o := At(s.heap, a);
    if o.refs.Links? then Put(s, a, o.(refs := Links(o.refs.n + 1), owners := o.owners + multiset{ByThread(t)})) else s
  }

  function DoGive(s: State, t: Thread, to: Thread, a: Addr): State {
    var o := At(s.heap, a);
    Put(s, a, o.(owners := o.owners - multiset{ByThread(t)} + multiset{ByThread(to)}))
  }

  /** `addOrFind`: insert the candidate, or report the entry that equals it. */
  function DoAddOrFind(s: State, t: Thread, c: Addr): State {
    var o := At(s.heap, c);
    if o.key in s.table then
      Go(s, t, Found(c, s.table[o.key]))
    else
      var s1 := Put(s, c, o.(observed := true, entered := true)).(table := s.table[o.key := c]);
      Go(s1, t, Leave(Ret(c, o.shape), None))
  }

  /** `isAliveAndLink`: the compare-and-exchange loop, at the point where it succeeds or gives up. */
  function DoTryLink(s: State, t: Thread, c: Addr, m: Addr): State {
    var o := At(s.heap, m);
    if Alive(o) then
      Go(Put(s, m, o.(refs := Links(o.refs.n + 1), owners := o.owners + multiset{ByThread(t)})),
         t, Leave(Ret(m, At(s.heap, c).shape), Some(c)))
    else
      Go(s, t, Failed(c, m))
  }

  /** `replace`: the entry that equals the candidate is told it is no longer observed. */
  function DoReplace(s: State, t: Thread, c: Addr): State {
    var o := At(s.heap, c);
    var s1 := if o.key in s.table then Put(s, s.table[o.key], At(s.heap, s.table[o.key]).(observed := false)) else s;
    var s2 := Put(s1, c, o.(observed := true, entered := true)).(table := s.table[o.key := c]);
    Go(s2, t, Leave(Ret(c, o.shape), None))
  }

  function DoFetchSub(s: State, t: Thread, a: Addr, after: Option<Ret>): State {
    var o := At(s.heap, a);
    if o.refs.Links? && o.refs.n > 0 then
      var s1 := Put(s, a, o.(refs := Links(o.refs.n - 1), owners := o.owners - multiset{ByThread(t)}));
      Go(s1, t, if o.refs.n == 1 then Zeroed(a, after) else Idle)
    else s
  }

  /** `if (observed) removeExact(this)`: the entry goes only if it is this very object. */
  function DoUnhook(s: State, t: Thread, a: Addr, after: Option<Ret>): State {
    var o := At(s.heap, a);
    var s1 :=
      if o.observed && o.key in s.table && s.table[o.key] == a then
        Put(s, a, o.(observed := false)).(table := s.table - {o.key})
      else s;
    Go(s1, t, DisposeDone(a, after))
  }

  /** The destructor: the base type link passes to this thread, which then releases it.  The
      memory is handed back at once, which only adds interleavings. */
  function DoDelete(s: State, t: Thread, a: Addr, after: Option<Ret>): State {
    var o := At(s.heap, a);
    match o.key.child
    case Shared(c) =>
      var co := At(s.heap, c);
      var s1 := Put(s, c, co.(owners := co.owners - multiset{ByParent(a)} + multiset{ByThread(t)}));
      Go(s1.(heap := s1.heap - {a}), t, Releasing(c, after))
    case _ =>
      Go(s.(heap := s.heap - {a}), t, Idle)
  }

  function DoAdvance(s: State, t: Thread): State {
    match PcOf(s.pcs, t)
    case Idle => s
    case Want(c) => Go(s.(lock := Some(t)), t, Locked(c))
    case Locked(c) => DoAddOrFind(s, t, c)
    case Found(c, m) => DoTryLink(s, t, c, m)
    case Failed(c, _) => DoReplace(s, t, c)
    case Leave(r, drop) =>
      Go(s.(lock := None), t, if drop.Some? then Releasing(drop.value, Some(r)) else Idle)
    case Releasing(a, after) => DoFetchSub(s, t, a, after)
    case Zeroed(a, after) => Go(Put(s, a, At(s.heap, a).(refs := DeadMark)), t, Marked(a, after))
    case Marked(a, after) => Go(s.(lock := Some(t)), t, DisposeLocked(a, after))
    case DisposeLocked(a, after) => DoUnhook(s, t, a, after)
    case DisposeDone(a, after) => Go(s.(lock := None), t, Deleting(a, after))
    case Deleting(a, after) => DoDelete(s, t, a, after)
  }

  function Apply(s: State, step: Step): State {
    match step
    case New(t, a, fields, child) => DoNew(s, t, a, fields, child)
    case AddLink(t, a) => DoAddLink(s, t, a)
    case Give(t, to, a) => DoGive(s, t, to, a)
    case StartRelease(t, a) => Go(s, t, Releasing(a, None))
    case Advance(t) => DoAdvance(s, t)
  }

  const START: State := State(map[], map[], None, map[])

  /** The state after a run from the empty cache, if every step was enabled when it was taken. */
  function Run(steps: seq<Step>): Option<State> {
    if steps == [] then Some(START)
    else
      var before := Run(steps[..|steps| - 1]);
      var last := steps[|steps| - 1];
      if before.Some? && Enabled(before.value, last) then Some(Apply(before.value, last)) else None
  }

  // ----- what every state of every run satisfies ------------------------------------------------

  ghost predicate CountOk(o: Obj) {
    if o.refs.Links? then o.refs.n == |o.owners| else o.owners == multiset{}
  }

  /** Links are counted exactly, and a dead object has no owner left. */
  ghost predicate CountsOk(heap: map<Addr, Obj>) {
    forall a | a in heap :: CountOk(heap[a])
  }

  /** An object holds one link to its base type for as long as it is allocated, and no one else
      holds a link in its name. */
  ghost predicate ParentsOk(heap: map<Addr, Obj>) {
    && (forall a | a in heap :: ParentOk(heap, heap[a], a))
    && (forall c, p | c in heap && ByParent(p) in heap[c].owners :: p in heap && heap[p].key.child == Shared(c))
  }

  ghost predicate ParentOk(heap: map<Addr, Obj>, o: Obj, a: Addr) {
    && o.shape == Shape(o.key.fields, ChildShape(heap, o.key.child))
    && (o.key.child.Shared? ==>
          o.key.child.to in heap && heap[o.key.child.to].entered && heap[o.key.child.to].owners[ByParent(a)] == 1)
  }

  /** An object is observed exactly when it is the table's entry for its key; an object that went
      through the table and is still alive is observed. */
  ghost predicate TableOk(heap: map<Addr, Obj>, table: map<Key, Addr>) {
    && (forall k | k in table :: table[k] in heap && heap[table[k]].key == k && heap[table[k]].observed)
    && (forall a | a in heap :: ObservedOk(heap[a], a, table))
  }

  ghost predicate ObservedOk(o: Obj, a: Addr, table: map<Key, Addr>) {
    && (o.observed ==> o.key in table && table[o.key] == a && o.entered)
    && (o.entered && Alive(o) ==> o.observed)
  }

  predicate Dying(pc: Pc) {
    pc.Zeroed? || pc.Marked? || pc.DisposeLocked? || pc.DisposeDone? || pc.Deleting?
  }

  predicate InBlock(pc: Pc) {
    pc.Locked? || pc.Found? || pc.Failed? || pc.Leave? || pc.DisposeLocked? || pc.DisposeDone?
  }

  /** The candidate that only this thread knows about. */
  predicate Private(pc: Pc, a: Addr) {
    match pc
    case Want(c) => c == a
    case Locked(c) => c == a
    case Found(c, _) => c == a
    case Failed(c, _) => c == a
    case Leave(_, drop) => drop == Some(a)
    case Releasing(o, _) => o == a
    case _ => false
  }

  predicate Holds(heap: map<Addr, Obj>, t: Thread, a: Addr, n: nat) {
    a in heap && heap[a].owners[ByThread(t)] >= n
  }

  /** A candidate nobody else has a link to. */
  predicate Fresh(heap: map<Addr, Obj>, t: Thread, a: Addr) {
    a in heap && !heap[a].entered && !heap[a].observed && heap[a].owners == multiset{ByThread(t)}
  }

  /** A result that is safe to return: linked by this thread, and what was asked for. */
  predicate Good(heap: map<Addr, Obj>, t: Thread, r: Ret) {
    Holds(heap, t, r.addr, 1) && heap[r.addr].entered && heap[r.addr].shape == r.goal
  }

  predicate Pending(heap: map<Addr, Obj>, t: Thread, after: Option<Ret>) {
    after.Some? ==> Good(heap, t, after.value)
  }

  /** The entry that equals the candidate stays in the table while the lock is held. */
  predicate Matches(heap: map<Addr, Obj>, table: map<Key, Addr>, c: Addr, m: Addr) {
    c in heap && m in heap && heap[c].key in table && table[heap[c].key] == m
  }

  predicate Marked'(heap: map<Addr, Obj>, a: Addr) {
    a in heap && heap[a].refs == DeadMark
  }

  /** What one thread may rely on, whatever the others do. */
  predicate ThreadOk(heap: map<Addr, Obj>, table: map<Key, Addr>, t: Thread, pc: Pc) {
    match pc
    case Idle => true
    case Want(c) => Fresh(heap, t, c)
    case Locked(c) => Fresh(heap, t, c)
    case Found(c, m) => Fresh(heap, t, c) && Matches(heap, table, c, m)
    case Failed(c, m) => Fresh(heap, t, c) && Matches(heap, table, c, m) && !Alive(heap[m])
    case Leave(r, drop) => Good(heap, t, r) && (drop.Some? ==> Fresh(heap, t, drop.value))
    case Releasing(a, after) =>
      Pending(heap, t, after) && Holds(heap, t, a, if after.Some? && after.value.addr == a then 2 else 1)
    case Zeroed(a, after) => Pending(heap, t, after) && a in heap && heap[a].refs == Links(0)
    case Marked(a, after) => Pending(heap, t, after) && Marked'(heap, a)
    case DisposeLocked(a, after) => Pending(heap, t, after) && Marked'(heap, a)
    case DisposeDone(a, after) => Pending(heap, t, after) && Marked'(heap, a) && !heap[a].observed
    case Deleting(a, after) => Pending(heap, t, after) && Marked'(heap, a) && !heap[a].observed
  }

  ghost predicate ThreadsOk(s: State) {
    forall t: Thread :: ThreadOk(s.heap, s.table, t, PcOf(s.pcs, t))
  }

  /** Only the thread that made it holds a link to an object that has not been in the table. */
  ghost predicate PrivateOk(heap: map<Addr, Obj>, pcs: map<Thread, Pc>) {
    forall a: Addr, t: Thread | a in heap && !heap[a].entered && ByThread(t) in heap[a].owners ::
      heap[a].owners == multiset{ByThread(t)} && Private(PcOf(pcs, t), a)
  }

  ghost predicate LockOk(pcs: map<Thread, Pc>, lock: Option<Thread>) {
    forall t: Thread :: InBlock(PcOf(pcs, t)) ==> lock == Some(t)
  }

  /** Each dying object is disposed of by one thread. */
  ghost predicate OneDisposer(pcs: map<Thread, Pc>) {
    forall t: Thread, u: Thread ::
           t != u && Dying(PcOf(pcs, t)) && Dying(PcOf(pcs, u)) ==> PcOf(pcs, t).obj != PcOf(pcs, u).obj
  }

  ghost predicate Inv(s: State) {
    && CountsOk(s.heap) && ParentsOk(s.heap) && TableOk(s.heap, s.table) && ThreadsOk(s)
    && PrivateOk(s.heap, s.pcs) && LockOk(s.pcs, s.lock) && OneDisposer(s.pcs)
  }

  // ----- every step keeps it ---------------------------------------------------------------------

  /** Moving one thread on: what has to be shown about the others is about their locks and disposals. */
  lemma PcsOk(pcs: map<Thread, Pc>, lock: Option<Thread>, t: Thread, pc: Pc, lock': Option<Thread>)
    requires LockOk(pcs, lock) && OneDisposer(pcs)
    requires if InBlock(pc) then lock' == Some(t) && (InBlock(PcOf(pcs, t)) || lock.None?)
             else lock' == (if InBlock(PcOf(pcs, t)) then None else lock)
    requires Dying(pc) ==> forall u: Thread :: u != t && Dying(PcOf(pcs, u)) ==> PcOf(pcs, u).obj != pc.obj
    ensures LockOk(pcs[t := pc], lock') && OneDisposer(pcs[t := pc])
  {
    var pcs' := pcs[t := pc];
    assert forall u: Thread :: PcOf(pcs', u) == if u == t then pc else PcOf(pcs, u);
    forall u: Thread | InBlock(PcOf(pcs', u)) ensures lock' == Some(u) {
      if u != t { assert InBlock(PcOf(pcs, u)); assert lock == Some(u); }
    }
  }

  /** A step that leaves the heap and the table alone. */
  lemma QuietStep(s: State, t: Thread, pc: Pc, lock: Option<Thread>)
    requires Inv(s)
    requires ThreadOk(s.heap, s.table, t, pc)
    requires forall a: Addr :: Private(PcOf(s.pcs, t), a) ==> Private(pc, a)
    requires if InBlock(pc) then lock == Some(t) && (InBlock(PcOf(s.pcs, t)) || s.lock.None?)
             else lock == (if InBlock(PcOf(s.pcs, t)) then None else s.lock)
    requires Dying(pc) ==> Dying(PcOf(s.pcs, t)) && PcOf(s.pcs, t).obj == pc.obj
    ensures Inv(Go(s.(lock := lock), t, pc))
  {
    var s' := Go(s.(lock := lock), t, pc);
    assert forall u: Thread :: PcOf(s'.pcs, u) == if u == t then pc else PcOf(s.pcs, u);
    PcsOk(s.pcs, s.lock, t, pc, lock);
    assert PrivateOk(s'.heap, s'.pcs);
    forall u: Thread ensures ThreadOk(s'.heap, s'.table, u, PcOf(s'.pcs, u)) {
      assert ThreadOk(s.heap, s.table, u, PcOf(s.pcs, u));
    }
  }

  lemma StartReleaseKeepsInv(s: State, t: Thread, a: Addr)
    requires Inv(s) && Enabled(s, StartRelease(t, a))
    ensures Inv(Apply(s, StartRelease(t, a)))
  {
    QuietStep(s, t, Releasing(a, None), s.lock);
  }

  lemma QuietAdvance(s: State, t: Thread)
    requires Inv(s) && Enabled(s, Advance(t))
    requires var pc := PcOf(s.pcs, t); pc.Want? || pc.Leave? || pc.Marked? || pc.DisposeDone?
    ensures Inv(Apply(s, Advance(t)))
  {
    assert ThreadOk(s.heap, s.table, t, PcOf(s.pcs, t));
    match PcOf(s.pcs, t)
    case Want(c) => QuietStep(s, t, Locked(c), Some(t));
    case Leave(r, drop) =>
      QuietStep(s, t, if drop.Some? then Releasing(drop.value, Some(r)) else Idle, None);
    case Marked(a, after) => QuietStep(s, t, DisposeLocked(a, after), Some(t));
    case DisposeDone(a, after) => QuietStep(s, t, Deleting(a, after), None);
  }

  // Steps that rewrite one object in place.

  lemma ParentsKept(heap: map<Addr, Obj>, a: Addr, o: Obj)
    requires ParentsOk(heap) && a in heap
    requires o.key == heap[a].key && o.shape == heap[a].shape && (heap[a].entered ==> o.entered)
    requires forall p: Addr :: o.owners[ByParent(p)] == heap[a].owners[ByParent(p)]
    ensures ParentsOk(heap[a := o])
  {
    var heap' := heap[a := o];
    forall b: Addr | b in heap' ensures ParentOk(heap', heap'[b], b) {
      assert ParentOk(heap, heap[b], b);
    }
    forall c: Addr, p: Addr | c in heap' && ByParent(p) in heap'[c].owners
      ensures p in heap' && heap'[p].key.child == Shared(c)
    {
      assert ByParent(p) in heap[c].owners;
    }
  }

  lemma TableKept(heap: map<Addr, Obj>, table: map<Key, Addr>, a: Addr, o: Obj)
    requires TableOk(heap, table) && a in heap
    requires o.key == heap[a].key && o.observed == heap[a].observed && o.entered == heap[a].entered
    requires Alive(o) ==> Alive(heap[a])
    ensures TableOk(heap[a := o], table)
  {
    assert ObservedOk(heap[a], a, table);
  }

  lemma PrivateKept(heap: map<Addr, Obj>, pcs: map<Thread, Pc>, a: Addr, o: Obj, t: Thread, pc: Pc)
    requires PrivateOk(heap, pcs)
    requires o.entered || forall u: Thread :: ByThread(u) in o.owners ==>
                 u == t && o.owners == multiset{ByThread(t)} && Private(pc, a)
    requires forall b: Addr :: b != a && Private(PcOf(pcs, t), b) ==> Private(pc, b) || (b in heap ==> heap[b].entered)
    ensures PrivateOk(heap[a := o], pcs[t := pc])
  {
    var pcs' := pcs[t := pc];
    assert forall u: Thread :: PcOf(pcs', u) == if u == t then pc else PcOf(pcs, u);
    var heap' := heap[a := o];
    forall b: Addr, u: Thread | b in heap' && !heap'[b].entered && ByThread(u) in heap'[b].owners
      ensures heap'[b].owners == multiset{ByThread(u)} && Private(PcOf(pcs', u), b)
    {
      if b != a { assert ByThread(u) in heap[b].owners; }
    }
  }

  /** What one thread does to an object leaves another thread's expectations alone. */
  lemma OtherKept(heap: map<Addr, Obj>, table: map<Key, Addr>, a: Addr, o: Obj, u: Thread, pc: Pc)
    requires ThreadOk(heap, table, u, pc) && a in heap
    requires o.key == heap[a].key && o.shape == heap[a].shape && (heap[a].entered ==> o.entered)
    requires o.owners[ByThread(u)] >= heap[a].owners[ByThread(u)]
    requires !Fresh(heap, u, a)
    requires !Alive(heap[a]) ==> !Alive(o)
    requires Dying(pc) && pc.obj == a ==> o.refs == heap[a].refs && (o.observed ==> heap[a].observed)
    ensures ThreadOk(heap[a := o], table, u, pc)
  {
  }

  /** A type somebody holds a link to is alive. */
  lemma HeldIsAlive(heap: map<Addr, Obj>, a: Addr, w: Owner)
    requires CountsOk(heap) && a in heap && w in heap[a].owners
    ensures Alive(heap[a])
  {
    assert CountOk(heap[a]);
    assert |heap[a].owners| > 0;
  }

  lemma OwnersDiffer(o: Obj, t: Thread, u: Thread)
    requires t != u && ByThread(t) in o.owners
    ensures o.owners != multiset{ByThread(u)}
  {
    assert ByThread(t) !in multiset{ByThread(u)};
  }

  /** A step that rewrites one object, without moving it in or out of the table. */
  lemma InPlaceStep(s: State, t: Thread, a: Addr, o: Obj, pc: Pc)
    requires Inv(s) && a in s.heap && CountOk(o)
    requires o.key == s.heap[a].key && o.shape == s.heap[a].shape
    requires o.observed == s.heap[a].observed && o.entered == s.heap[a].entered
    requires forall p: Addr :: o.owners[ByParent(p)] == s.heap[a].owners[ByParent(p)]
    requires forall u: Thread ::
               u != t ==> o.owners[ByThread(u)] >= s.heap[a].owners[ByThread(u)] && !Fresh(s.heap, u, a)
    requires Alive(o) ==> Alive(s.heap[a])
    requires forall u: Thread ::
               u != t && Dying(PcOf(s.pcs, u)) && PcOf(s.pcs, u).obj == a ==> o.refs == s.heap[a].refs && !Dying(pc)
    requires ThreadOk(s.heap[a := o], s.table, t, pc)
    requires o.entered || forall u: Thread :: ByThread(u) in o.owners ==>
                 u == t && o.owners == multiset{ByThread(t)} && Private(pc, a)
    requires forall b: Addr ::
               b != a && Private(PcOf(s.pcs, t), b) ==> Private(pc, b) || (b in s.heap ==> s.heap[b].entered)
    requires InBlock(pc) <==> InBlock(PcOf(s.pcs, t))
    requires Dying(pc) ==> pc.obj == a
    ensures Inv(Go(Put(s, a, o), t, pc))
  {
    var s' := Go(Put(s, a, o), t, pc);
    ParentsKept(s.heap, a, o);
    TableKept(s.heap, s.table, a, o);
    PrivateKept(s.heap, s.pcs, a, o, t, pc);
    PcsOk(s.pcs, s.lock, t, pc, s.lock);
    forall u: Thread ensures ThreadOk(s'.heap, s'.table, u, PcOf(s'.pcs, u)) {
      if u != t {
        assert ThreadOk(s.heap, s.table, u, PcOf(s.pcs, u));
        OtherKept(s.heap, s.table, a, o, u, PcOf(s.pcs, u));
      }
    }
  }

  lemma DropLinkFacts(owners: multiset<Owner>, t: Thread)
    requires ByThread(t) in owners
    ensures |owners - multiset{ByThread(t)}| == |owners| - 1
    ensures forall w: Owner :: w != ByThread(t) ==> (owners - multiset{ByThread(t)})[w] == owners[w]
    ensures (owners - multiset{ByThread(t)})[ByThread(t)] == owners[ByThread(t)] - 1
  {
  }

  /** A live object is not being disposed of. */
  lemma NotDying(s: State, a: Addr)
    requires ThreadsOk(s) && a in s.heap && Alive(s.heap[a])
    ensures forall u: Thread :: Dying(PcOf(s.pcs, u)) ==> PcOf(s.pcs, u).obj != a
  {
    forall u: Thread | Dying(PcOf(s.pcs, u)) ensures PcOf(s.pcs, u).obj != a {
      assert ThreadOk(s.heap, s.table, u, PcOf(s.pcs, u));
    }
  }

  /** One link of several is dropped. */
  lemma DropsALink(s: State, t: Thread, a: Addr)
    requires Inv(s) && PcOf(s.pcs, t).Releasing? && PcOf(s.pcs, t).obj == a
    requires a in s.heap && ByThread(t) in s.heap[a].owners && CountOk(s.heap[a]) && s.heap[a].refs.n > 1
    ensures Inv(Go(Put(s, a, s.heap[a].(refs := Links(s.heap[a].refs.n - 1),
                                        owners := s.heap[a].owners - multiset{ByThread(t)})), t, Idle))
  {
    var o := s.heap[a];
    DropLinkFacts(o.owners, t);
    NotDying(s, a);
    forall u: Thread | u != t ensures !Fresh(s.heap, u, a) { OwnersDiffer(o, t, u); }
    assert o.entered;
    InPlaceStep(s, t, a, o.(refs := Links(o.refs.n - 1), owners := o.owners - multiset{ByThread(t)}), Idle);
  }

  /** The last link is dropped: from now on nobody can link the object again. */
  lemma DropsLastLink(s: State, t: Thread, a: Addr)
    requires Inv(s) && PcOf(s.pcs, t).Releasing? && PcOf(s.pcs, t).obj == a
    requires a in s.heap && ByThread(t) in s.heap[a].owners && CountOk(s.heap[a]) && s.heap[a].refs == Links(1)
    ensures Inv(Go(Put(s, a, s.heap[a].(refs := Links(0), owners := s.heap[a].owners - multiset{ByThread(t)})), t,
                   Zeroed(a, PcOf(s.pcs, t).after)))
  {
    var o := s.heap[a];
    var after := PcOf(s.pcs, t).after;
    DropLinkFacts(o.owners, t);
    NotDying(s, a);
    assert forall w: Owner :: w != ByThread(t) ==> w !in o.owners;
    assert ThreadOk(s.heap, s.table, t, PcOf(s.pcs, t));
    InPlaceStep(s, t, a, o.(refs := Links(0), owners := o.owners - multiset{ByThread(t)}), Zeroed(a, after));
  }

  lemma HoldsWhatItReleases(s: State, t: Thread)
    requires Inv(s) && PcOf(s.pcs, t).Releasing?
    ensures var a := PcOf(s.pcs, t).obj; Owns(s, t, a) && Alive(s.heap[a]) && CountOk(s.heap[a])
  {
    assert ThreadOk(s.heap, s.table, t, PcOf(s.pcs, t));
    HeldIsAlive(s.heap, PcOf(s.pcs, t).obj, ByThread(t));
  }

  lemma ReleasingKeepsInv(s: State, t: Thread)
    requires Inv(s) && PcOf(s.pcs, t).Releasing?
    ensures Inv(DoFetchSub(s, t, PcOf(s.pcs, t).obj, PcOf(s.pcs, t).after))
  {
    HoldsWhatItReleases(s, t);
    var a := PcOf(s.pcs, t).obj;
    if s.heap[a].refs.n == 1 { DropsLastLink(s, t, a); } else { DropsALink(s, t, a); }
  }

  lemma AddLinkKeepsInv(s: State, t: Thread, a: Addr)
    requires Inv(s) && Enabled(s, AddLink(t, a))
    ensures Inv(Apply(s, AddLink(t, a)))
  {
    OwnedByIdle(s, t, a);
    var o := s.heap[a];
    InPlaceStep(s, t, a, o.(refs := Links(o.refs.n + 1), owners := o.owners + multiset{ByThread(t)}), Idle);
    SamePc(s, t, Apply(s, AddLink(t, a)));
  }

  lemma GiveKeepsInv(s: State, t: Thread, to: Thread, a: Addr)
    requires Inv(s) && Enabled(s, Give(t, to, a))
    ensures Inv(Apply(s, Give(t, to, a)))
  {
    OwnedByIdle(s, t, a);
    var o := s.heap[a];
    InPlaceStep(s, t, a, o.(owners := o.owners - multiset{ByThread(t)} + multiset{ByThread(to)}), Idle);
    SamePc(s, t, Apply(s, Give(t, to, a)));
  }

  /** What an idle thread holds has been through the table, and is alive. */
  lemma OwnedByIdle(s: State, t: Thread, a: Addr)
    requires Inv(s) && PcOf(s.pcs, t).Idle? && Owns(s, t, a)
    ensures s.heap[a].entered && Alive(s.heap[a]) && CountOk(s.heap[a])
    ensures forall u: Thread :: !Fresh(s.heap, u, a)
    ensures forall u: Thread :: Dying(PcOf(s.pcs, u)) ==> PcOf(s.pcs, u).obj != a
  {
    HeldIsAlive(s.heap, a, ByThread(t));
    NotDying(s, a);
  }

  /** Spelling out that an idle thread is idle changes nothing. */
  lemma SamePc(s: State, t: Thread, s': State)
    requires PcOf(s'.pcs, t).Idle? && Inv(Go(s', t, Idle))
    ensures Inv(s')
  {
    var s1 := Go(s', t, Idle);
    assert forall u: Thread :: PcOf(s1.pcs, u) == PcOf(s'.pcs, u);
    forall u: Thread ensures ThreadOk(s'.heap, s'.table, u, PcOf(s'.pcs, u)) {
      assert ThreadOk(s1.heap, s1.table, u, PcOf(s1.pcs, u));
    }
    assert LockOk(s'.pcs, s'.lock);
    assert OneDisposer(s'.pcs);
    assert PrivateOk(s'.heap, s'.pcs);
  }

  lemma ZeroedKeepsInv(s: State, t: Thread)
    requires Inv(s) && PcOf(s.pcs, t).Zeroed?
    ensures Inv(DoAdvance(s, t))
  {
    var pc := PcOf(s.pcs, t);
    var a := pc.obj;
    assert ThreadOk(s.heap, s.table, t, pc);
    assert CountOk(s.heap[a]);
    NoOwners(s.heap[a]);
    InPlaceStep(s, t, a, s.heap[a].(refs := DeadMark), Marked(a, pc.after));
  }

  lemma NoOwners(o: Obj)
    requires CountOk(o) && !Alive(o)
    ensures o.owners == multiset{}
    ensures forall t: Thread :: o.owners != multiset{ByThread(t)}
  {
    assert forall t: Thread :: ByThread(t) in multiset{ByThread(t)};
  }

  lemma FoundKeepsInv(s: State, t: Thread)
    requires Inv(s) && PcOf(s.pcs, t).Found?
    ensures Inv(DoAdvance(s, t))
  {
    var pc := PcOf(s.pcs, t);
    var c, m := pc.cand, pc.other;
    assert ThreadOk(s.heap, s.table, t, pc);
    var o := s.heap[m];
    assert ObservedOk(o, m, s.table);
    if Alive(o) {
      assert CountOk(o);
      var o' := o.(refs := Links(o.refs.n + 1), owners := o.owners + multiset{ByThread(t)});
      NotDying(s, m);
      SameKeySameShape(s.heap, c, m);
      InPlaceStep(s, t, m, o', Leave(Ret(m, s.heap[c].shape), Some(c)));
    } else {
      QuietStep(s, t, Failed(c, m), s.lock);
    }
  }

  /** Equal keys name the same base type, so they denote the same type. */
  lemma SameKeySameShape(heap: map<Addr, Obj>, a: Addr, b: Addr)
    requires ParentsOk(heap) && a in heap && b in heap && heap[a].key == heap[b].key
    ensures heap[a].shape == heap[b].shape
  {
    assert ParentOk(heap, heap[a], a) && ParentOk(heap, heap[b], b);
  }

  // Steps that change the table.

  /** While this thread holds the lock, no other thread depends on the table. */
  lemma OtherTable(s: State, heap: map<Addr, Obj>, table: map<Key, Addr>, t: Thread, u: Thread)
    requires LockOk(s.pcs, s.lock) && s.lock == Some(t) && u != t
    requires ThreadOk(heap, s.table, u, PcOf(s.pcs, u))
    ensures ThreadOk(heap, table, u, PcOf(s.pcs, u))
  {
    assert !InBlock(PcOf(s.pcs, u));
  }

  lemma LockedKeepsInv(s: State, t: Thread)
    requires Inv(s) && PcOf(s.pcs, t).Locked?
    ensures Inv(DoAdvance(s, t))
  {
    var pc := PcOf(s.pcs, t);
    var c := pc.cand;
    assert ThreadOk(s.heap, s.table, t, pc);
    var o := s.heap[c];
    if o.key in s.table {
      QuietStep(s, t, Found(c, s.table[o.key]), s.lock);
    } else {
      EnterTable(s, t, c, s.heap, s.table);
    }
  }

  /** Putting the candidate in the table, over a heap and a table from which an equal entry has gone. */
  lemma EnterTable(s: State, t: Thread, c: Addr, heap: map<Addr, Obj>, table: map<Key, Addr>)
    requires Inv(s) && s.lock == Some(t) && InBlock(PcOf(s.pcs, t)) && !Dying(PcOf(s.pcs, t))
    requires forall b: Addr :: Private(PcOf(s.pcs, t), b) ==> b == c
    requires CountsOk(heap) && ParentsOk(heap) && TableOk(heap, table) && PrivateOk(heap, s.pcs)
    requires forall u: Thread :: u != t ==> ThreadOk(heap, s.table, u, PcOf(s.pcs, u))
    requires Fresh(heap, t, c) && heap[c].key !in table
    ensures var o := heap[c];
            Inv(State(heap[c := o.(observed := true, entered := true)], table[o.key := c], s.lock,
                      s.pcs[t := Leave(Ret(c, o.shape), None)]))
  {
    var o := heap[c];
    var o' := o.(observed := true, entered := true);
    var pc' := Leave(Ret(c, o.shape), None);
    var s' := State(heap[c := o'], table[o.key := c], s.lock, s.pcs[t := pc']);
    assert CountOk(o') by { assert CountOk(o); }
    ParentsKept(heap, c, o');
    PrivateKept(heap, s.pcs, c, o', t, pc');
    PcsOk(s.pcs, s.lock, t, pc', s.lock);
    EntersTable(heap, table, c);
    forall u: Thread ensures ThreadOk(s'.heap, s'.table, u, PcOf(s'.pcs, u)) {
      if u != t {
        OwnersDiffer(o, t, u);
        HeldIsAlive(heap, c, ByThread(t));
        OtherKept(heap, s.table, c, o', u, PcOf(s.pcs, u));
        OtherTable(s, s'.heap, s'.table, t, u);
      }
    }
  }

  lemma EntersTable(heap: map<Addr, Obj>, table: map<Key, Addr>, c: Addr)
    requires TableOk(heap, table) && c in heap && heap[c].key !in table
    ensures TableOk(heap[c := heap[c].(observed := true, entered := true)], table[heap[c].key := c])
  {
    var heap', table' := heap[c := heap[c].(observed := true, entered := true)], table[heap[c].key := c];
    forall a: Addr | a in heap' ensures ObservedOk(heap'[a], a, table') {
      if a != c { assert ObservedOk(heap[a], a, table); }
    }
  }

  /** An entry that is dead can be told it is no longer observed. */
  lemma LeavesTable(heap: map<Addr, Obj>, table: map<Key, Addr>, m: Addr)
    requires TableOk(heap, table) && m in heap && heap[m].observed && !Alive(heap[m])
    ensures TableOk(heap[m := heap[m].(observed := false)], table - {heap[m].key})
  {
    var heap', table' := heap[m := heap[m].(observed := false)], table - {heap[m].key};
    assert ObservedOk(heap[m], m, table);
    forall a: Addr | a in heap' ensures ObservedOk(heap'[a], a, table') {
      assert ObservedOk(heap[a], a, table);
    }
  }

  lemma FailedKeepsInv(s: State, t: Thread)
    requires Inv(s) && PcOf(s.pcs, t).Failed?
    ensures Inv(DoAdvance(s, t))
  {
    var pc := PcOf(s.pcs, t);
    var c, m := pc.cand, pc.other;
    assert ThreadOk(s.heap, s.table, t, pc);
    var o := s.heap[m];
    assert ObservedOk(o, m, s.table);
    var o' := o.(observed := false);
    var heap, table := s.heap[m := o'], s.table - {o.key};
    assert CountOk(o);
    NoOwners(o);
    ParentsKept(s.heap, m, o');
    LeavesTable(s.heap, s.table, m);
    forall u: Thread | u != t ensures ThreadOk(heap, s.table, u, PcOf(s.pcs, u)) {
      assert ThreadOk(s.heap, s.table, u, PcOf(s.pcs, u));
      OtherKept(s.heap, s.table, m, o', u, PcOf(s.pcs, u));
    }
    assert PrivateOk(heap, s.pcs);
    EnterTable(s, t, c, heap, table);
    assert table[o.key := c] == s.table[o.key := c];
  }

  lemma DisposeLockedKeepsInv(s: State, t: Thread)
    requires Inv(s) && PcOf(s.pcs, t).DisposeLocked?
    ensures Inv(DoAdvance(s, t))
  {
    var pc := PcOf(s.pcs, t);
    var a := pc.obj;
    assert ThreadOk(s.heap, s.table, t, pc);
    var o := s.heap[a];
    assert ObservedOk(o, a, s.table);
    var pc' := DisposeDone(a, pc.after);
    if o.observed {
      var o' := o.(observed := false);
      var s' := Go(Put(s, a, o').(table := s.table - {o.key}), t, pc');
      assert CountOk(o);
      NoOwners(o);
      ParentsKept(s.heap, a, o');
      LeavesTable(s.heap, s.table, a);
      PrivateKept(s.heap, s.pcs, a, o', t, pc');
      PcsOk(s.pcs, s.lock, t, pc', s.lock);
      forall u: Thread ensures ThreadOk(s'.heap, s'.table, u, PcOf(s'.pcs, u)) {
        if u != t {
          assert ThreadOk(s.heap, s.table, u, PcOf(s.pcs, u));
          OtherKept(s.heap, s.table, a, o', u, PcOf(s.pcs, u));
          OtherTable(s, s'.heap, s'.table, t, u);
        }
      }
    } else {
      QuietStep(s, t, pc', s.lock);
    }
  }

  // Steps that allocate and free.

  /** A dead object that is out of the table is mentioned by nobody but the thread that frees it. */
  lemma Unmentioned(s: State, t: Thread, a: Addr, heap: map<Addr, Obj>, u: Thread)
    requires Inv(s) && u != t && Dying(PcOf(s.pcs, t)) && PcOf(s.pcs, t).obj == a
    requires a in s.heap && !Alive(s.heap[a]) && !s.heap[a].observed
    requires a in heap && heap[a] == s.heap[a] && ThreadOk(heap, s.table, u, PcOf(s.pcs, u))
    ensures ThreadOk(heap - {a}, s.table, u, PcOf(s.pcs, u))
  {
    assert CountOk(s.heap[a]);
    NoOwners(s.heap[a]);
    assert forall k | k in s.table :: s.table[k] != a;
  }

  /** Nothing has a dead object for its base type. */
  lemma NoChildren(heap: map<Addr, Obj>, a: Addr)
    requires CountsOk(heap) && ParentsOk(heap) && a in heap && !Alive(heap[a])
    ensures forall b: Addr :: b in heap ==> heap[b].key.child != Shared(a)
  {
    assert CountOk(heap[a]);
    NoOwners(heap[a]);
    forall b: Addr | b in heap ensures heap[b].key.child != Shared(a) {
      assert ParentOk(heap, heap[b], b);
    }
  }

  lemma ParentsAfterFree(heap: map<Addr, Obj>, a: Addr)
    requires CountsOk(heap) && a in heap && !Alive(heap[a])
    requires forall b: Addr :: b in heap ==> heap[b].key.child != Shared(a)
    requires forall b: Addr | b in heap && b != a :: ParentOk(heap, heap[b], b)
    requires forall c: Addr, p: Addr | c in heap && ByParent(p) in heap[c].owners ::
               p in heap && p != a && heap[p].key.child == Shared(c)
    ensures ParentsOk(heap - {a})
  {
    var heap' := heap - {a};
    forall b: Addr | b in heap' ensures ParentOk(heap', heap'[b], b) {
      assert ParentOk(heap, heap[b], b);
    }
  }

  lemma FreeLeaf(s: State, t: Thread)
    requires Inv(s) && PcOf(s.pcs, t).Deleting? && PcOf(s.pcs, t).obj in s.heap
    requires !s.heap[PcOf(s.pcs, t).obj].key.child.Shared?
    ensures Inv(DoDelete(s, t, PcOf(s.pcs, t).obj, PcOf(s.pcs, t).after))
  {
    var a := PcOf(s.pcs, t).obj;
    assert ThreadOk(s.heap, s.table, t, PcOf(s.pcs, t));
    var s' := Go(s.(heap := s.heap - {a}), t, Idle);
    NoChildren(s.heap, a);
    ParentsAfterFree(s.heap, a);
    PcsOk(s.pcs, s.lock, t, Idle, s.lock);
    FreedPrivate(s, t, a, Idle);
    forall u: Thread ensures ThreadOk(s'.heap, s'.table, u, PcOf(s'.pcs, u)) {
      if u != t {
        assert ThreadOk(s.heap, s.table, u, PcOf(s.pcs, u));
        Unmentioned(s, t, a, s.heap, u);
      }
    }
    FreedTable(s.heap, s.table, a);
  }

  lemma FreedTable(heap: map<Addr, Obj>, table: map<Key, Addr>, a: Addr)
    requires TableOk(heap, table) && a in heap && !heap[a].observed
    ensures TableOk(heap - {a}, table)
  {
    forall b: Addr | b in heap - {a} ensures ObservedOk((heap - {a})[b], b, table) {
      assert ObservedOk(heap[b], b, table);
    }
  }

  lemma FreedPrivate(s: State, t: Thread, a: Addr, pc: Pc)
    requires PrivateOk(s.heap, s.pcs) && Dying(PcOf(s.pcs, t))
    ensures PrivateOk(s.heap - {a}, s.pcs[t := pc])
  {
    var heap', pcs' := s.heap - {a}, s.pcs[t := pc];
    forall b: Addr, u: Thread | b in heap' && !heap'[b].entered && ByThread(u) in heap'[b].owners
      ensures heap'[b].owners == multiset{ByThread(u)} && Private(PcOf(pcs', u), b)
    {
      assert Private(PcOf(s.pcs, u), b);
    }
  }

  /** Passing the base type link from the object about to be freed to the thread that frees it. */
  lemma TakesBackChild(s: State, t: Thread, a: Addr)
    requires Inv(s) && PcOf(s.pcs, t).Deleting? && PcOf(s.pcs, t).obj == a && a in s.heap
    requires s.heap[a].key.child.Shared?
    ensures var c := s.heap[a].key.child.to;
            && c in s.heap && c != a && s.heap[c].entered && ByParent(a) in s.heap[c].owners
            && Alive(s.heap[c]) && CountOk(s.heap[c])
  {
    assert ParentOk(s.heap, s.heap[a], a);
    assert ThreadOk(s.heap, s.table, t, PcOf(s.pcs, t));
    HeldIsAlive(s.heap, s.heap[a].key.child.to, ByParent(a));
  }

  lemma RehandedParents(heap: map<Addr, Obj>, a: Addr, c: Addr, t: Thread)
    requires ParentsOk(heap) && a in heap && c in heap && c != a && heap[a].key.child == Shared(c)
    ensures var heap' := heap[c := heap[c].(owners := heap[c].owners - multiset{ByParent(a)} + multiset{ByThread(t)})];
            && (forall b: Addr | b in heap' && b != a :: ParentOk(heap', heap'[b], b))
            && (forall d: Addr, p: Addr | d in heap' && ByParent(p) in heap'[d].owners ::
                  p in heap' && p != a && heap'[p].key.child == Shared(d))
  {
    var o' := heap[c].(owners := heap[c].owners - multiset{ByParent(a)} + multiset{ByThread(t)});
    var heap' := heap[c := o'];
    assert ParentOk(heap, heap[a], a);
    assert o'.owners[ByParent(a)] == 0;
    assert forall p: Addr :: p != a ==> o'.owners[ByParent(p)] == heap[c].owners[ByParent(p)];
    forall b: Addr | b in heap' && b != a ensures ParentOk(heap', heap'[b], b) {
      assert ParentOk(heap, heap[b], b);
    }
    forall d: Addr, p: Addr | d in heap' && ByParent(p) in heap'[d].owners
      ensures p in heap' && p != a && heap'[p].key.child == Shared(d)
    {
      assert ByParent(p) in heap[d].owners;
    }
  }

  lemma FreeParentHeap(s: State, t: Thread, a: Addr, c: Addr, o: Obj)
    requires Inv(s) && PcOf(s.pcs, t).Deleting? && PcOf(s.pcs, t).obj == a && a in s.heap
    requires s.heap[a].key.child == Shared(c) && c in s.heap && c != a && s.heap[c].entered
             && ByParent(a) in s.heap[c].owners
    requires o == s.heap[c].(owners := s.heap[c].owners - multiset{ByParent(a)} + multiset{ByThread(t)})
    requires CountOk(s.heap[c])
    ensures CountsOk(s.heap[c := o] - {a}) && ParentsOk(s.heap[c := o] - {a}) && TableOk(s.heap[c := o] - {a}, s.table)
  {
    var heap := s.heap[c := o];
    assert ThreadOk(s.heap, s.table, t, PcOf(s.pcs, t));
    NoChildren(s.heap, a);
    RehandedParents(s.heap, a, c, t);
    assert CountOk(o);
    ParentsAfterFree(heap, a);
    TableKept(s.heap, s.table, c, o);
    FreedTable(heap, s.table, a);
  }

  lemma FreeParent(s: State, t: Thread)
    requires Inv(s) && PcOf(s.pcs, t).Deleting? && PcOf(s.pcs, t).obj in s.heap
    requires s.heap[PcOf(s.pcs, t).obj].key.child.Shared?
    ensures Inv(DoDelete(s, t, PcOf(s.pcs, t).obj, PcOf(s.pcs, t).after))
  {
    var a, after := PcOf(s.pcs, t).obj, PcOf(s.pcs, t).after;
    TakesBackChild(s, t, a);
    var c := s.heap[a].key.child.to;
    var o' := s.heap[c].(owners := s.heap[c].owners - multiset{ByParent(a)} + multiset{ByThread(t)});
    var heap := s.heap[c := o'];
    FreeParentHeap(s, t, a, c, o');
    PcsOk(s.pcs, s.lock, t, Releasing(c, after), s.lock);
    FreedPrivate(s.(heap := heap), t, a, Releasing(c, after));
    FreeParentThreads(s, t, a, c, o');
  }

  lemma FreeParentThreads(s: State, t: Thread, a: Addr, c: Addr, o: Obj)
    requires Inv(s) && PcOf(s.pcs, t).Deleting? && PcOf(s.pcs, t).obj == a && a in s.heap
    requires c in s.heap && c != a && s.heap[c].entered && Alive(s.heap[c])
    requires o == s.heap[c].(owners := s.heap[c].owners - multiset{ByParent(a)} + multiset{ByThread(t)})
    ensures var s' := Go(s.(heap := s.heap[c := o] - {a}), t, Releasing(c, PcOf(s.pcs, t).after));
            ThreadsOk(s')
  {
    var heap := s.heap[c := o];
    var after := PcOf(s.pcs, t).after;
    var s' := Go(s.(heap := heap - {a}), t, Releasing(c, after));
    assert ThreadOk(s.heap, s.table, t, PcOf(s.pcs, t));
    assert CountOk(s.heap[a]);
    NoOwners(s.heap[a]);
    NotDying(s, c);
    forall u: Thread ensures ThreadOk(s'.heap, s'.table, u, PcOf(s'.pcs, u)) {
      if u != t {
        assert ThreadOk(s.heap, s.table, u, PcOf(s.pcs, u));
        OtherKept(s.heap, s.table, c, o, u, PcOf(s.pcs, u));
        Unmentioned(s, t, a, heap, u);
      }
    }
  }

  lemma DeletingKeepsInv(s: State, t: Thread)
    requires Inv(s) && PcOf(s.pcs, t).Deleting?
    ensures Inv(DoDelete(s, t, PcOf(s.pcs, t).obj, PcOf(s.pcs, t).after))
  {
    assert ThreadOk(s.heap, s.table, t, PcOf(s.pcs, t));
    if s.heap[PcOf(s.pcs, t).obj].key.child.Shared? { FreeParent(s, t); } else { FreeLeaf(s, t); }
  }

  /** An unused address comes into use: nobody had anything to say about it. */
  lemma Grown(heap: map<Addr, Obj>, table: map<Key, Addr>, a: Addr, o: Obj, u: Thread, pc: Pc)
    requires a !in heap && ThreadOk(heap, table, u, pc)
    ensures ThreadOk(heap[a := o], table, u, pc)
  {
  }

  lemma GrownTable(heap: map<Addr, Obj>, table: map<Key, Addr>, a: Addr, o: Obj)
    requires TableOk(heap, table) && a !in heap && !o.observed && !o.entered
    ensures TableOk(heap[a := o], table)
  {
  }

  lemma GrownPrivate(heap: map<Addr, Obj>, pcs: map<Thread, Pc>, t: Thread, a: Addr, o: Obj)
    requires PrivateOk(heap, pcs) && PcOf(pcs, t).Idle? && o.owners == multiset{ByThread(t)}
    ensures PrivateOk(heap[a := o], pcs[t := Want(a)])
  {
    var heap', pcs' := heap[a := o], pcs[t := Want(a)];
    forall b: Addr, u: Thread | b in heap' && !heap'[b].entered && ByThread(u) in heap'[b].owners
      ensures heap'[b].owners == multiset{ByThread(u)} && Private(PcOf(pcs', u), b)
    {
      if b != a { assert Private(PcOf(pcs, u), b); }
    }
  }

  /** The heap part of allocating `a`, when its base type (if hashed) has been handed the link. */
  lemma GrownParents(heap: map<Addr, Obj>, heap1: map<Addr, Obj>, a: Addr, o: Obj)
    requires ParentsOk(heap) && a !in heap && heap1.Keys == heap.Keys
    requires forall b: Addr | b in heap ::
               heap1[b].key == heap[b].key && heap1[b].shape == heap[b].shape && heap1[b].entered == heap[b].entered
    requires forall b: Addr, p: Addr | b in heap && p != a ::
               heap1[b].owners[ByParent(p)] == heap[b].owners[ByParent(p)]
    requires forall b: Addr | b in heap && ByParent(a) in heap1[b].owners :: o.key.child == Shared(b)
    requires ParentOk(heap1, o, a) && (forall p: Addr :: ByParent(p) !in o.owners)
    ensures ParentsOk(heap1[a := o])
  {
    var heap' := heap1[a := o];
    forall b: Addr | b in heap' ensures ParentOk(heap', heap'[b], b) {
      if b != a { assert ParentOk(heap, heap[b], b); }
    }
    forall c: Addr, p: Addr | c in heap' && ByParent(p) in heap'[c].owners
      ensures p in heap' && heap'[p].key.child == Shared(c)
    {
      if p != a && c != a { assert ByParent(p) in heap[c].owners; }
    }
  }

  lemma NewLeaf(s: State, t: Thread, a: Addr, fields: Fields, child: Child<Addr>)
    requires Inv(s) && Enabled(s, New(t, a, fields, child)) && !child.Shared?
    ensures Inv(DoNew(s, t, a, fields, child))
  {
    var o := Obj(Key(fields, child), Links(1), false, Shape(fields, ChildShape(s.heap, child)), false,
                 multiset{ByThread(t)});
    var s' := Go(Put(s, a, o), t, Want(a));
    assert forall b: Addr | b in s.heap :: ByParent(a) !in s.heap[b].owners;
    GrownParents(s.heap, s.heap, a, o);
    GrownTable(s.heap, s.table, a, o);
    GrownPrivate(s.heap, s.pcs, t, a, o);
    PcsOk(s.pcs, s.lock, t, Want(a), s.lock);
    forall u: Thread ensures ThreadOk(s'.heap, s'.table, u, PcOf(s'.pcs, u)) {
      if u != t {
        assert ThreadOk(s.heap, s.table, u, PcOf(s.pcs, u));
        Grown(s.heap, s.table, a, o, u, PcOf(s.pcs, u));
      }
    }
  }

  lemma NewParentThreads(s: State, t: Thread, a: Addr, o: Obj, c: Addr, co: Obj)
    requires Inv(s) && PcOf(s.pcs, t).Idle? && a !in s.heap && Owns(s, t, c)
    requires o.owners == multiset{ByThread(t)} && !o.entered && !o.observed
    requires co == s.heap[c].(owners := s.heap[c].owners - multiset{ByThread(t)} + multiset{ByParent(a)})
    ensures ThreadsOk(Go(Put(Put(s, c, co), a, o), t, Want(a)))
  {
    var s' := Go(Put(Put(s, c, co), a, o), t, Want(a));
    OwnedByIdle(s, t, c);
    forall u: Thread ensures ThreadOk(s'.heap, s'.table, u, PcOf(s'.pcs, u)) {
      if u != t {
        assert ThreadOk(s.heap, s.table, u, PcOf(s.pcs, u));
        OtherKept(s.heap, s.table, c, co, u, PcOf(s.pcs, u));
        Grown(s.heap[c := co], s.table, a, o, u, PcOf(s.pcs, u));
      }
    }
  }

  lemma NewParentHeap(s: State, t: Thread, a: Addr, fields: Fields, c: Addr, co: Obj, o: Obj)
    requires Inv(s) && PcOf(s.pcs, t).Idle? && a !in s.heap && Owns(s, t, c) && s.heap[c].entered && CountOk(s.heap[c])
    requires co == s.heap[c].(owners := s.heap[c].owners - multiset{ByThread(t)} + multiset{ByParent(a)})
    requires o == Obj(Key(fields, Shared(c)), Links(1), false, Shape(fields, Shared(s.heap[c].shape)), false,
                      multiset{ByThread(t)})
    ensures var heap := s.heap[c := co][a := o]; CountsOk(heap) && ParentsOk(heap) && TableOk(heap, s.table)
  {
    var heap1 := s.heap[c := co];
    assert forall b: Addr | b in s.heap :: ByParent(a) !in s.heap[b].owners;
    assert CountOk(co);
    assert co.owners[ByParent(a)] == 1;
    GrownParents(s.heap, heap1, a, o);
    TableKept(s.heap, s.table, c, co);
    GrownTable(heap1, s.table, a, o);
  }

  lemma NewParent(s: State, t: Thread, a: Addr, fields: Fields, c: Addr)
    requires Inv(s) && Enabled(s, New(t, a, fields, Shared(c)))
    ensures Inv(DoNew(s, t, a, fields, Shared(c)))
  {
    OwnedByIdle(s, t, c);
    var o := Obj(Key(fields, Shared(c)), Links(1), false, Shape(fields, Shared(s.heap[c].shape)), false,
                 multiset{ByThread(t)});
    var co := s.heap[c].(owners := s.heap[c].owners - multiset{ByThread(t)} + multiset{ByParent(a)});
    NewParentHeap(s, t, a, fields, c, co, o);
    PrivateKept(s.heap, s.pcs, c, co, t, Idle);
    SamePcs(s.pcs, t);
    GrownPrivate(s.heap[c := co], s.pcs[t := Idle], t, a, o);
    assert s.pcs[t := Idle][t := Want(a)] == s.pcs[t := Want(a)];
    PcsOk(s.pcs, s.lock, t, Want(a), s.lock);
    NewParentThreads(s, t, a, o, c, co);
  }

  lemma SamePcs(pcs: map<Thread, Pc>, t: Thread)
    ensures PcOf(pcs[t := Idle], t) == Idle
  {
  }

  lemma NewKeepsInv(s: State, t: Thread, a: Addr, fields: Fields, child: Child<Addr>)
    requires Inv(s) && Enabled(s, New(t, a, fields, child))
    ensures Inv(DoNew(s, t, a, fields, child))
  {
    match child
    case Shared(c) => NewParent(s, t, a, fields, c);
    case _ => NewLeaf(s, t, a, fields, child);
  }

  lemma AdvanceKeepsInv(s: State, t: Thread)
    requires Inv(s) && Enabled(s, Advance(t))
    ensures Inv(DoAdvance(s, t))
  {
    match PcOf(s.pcs, t)
    case Locked(c) => LockedKeepsInv(s, t);
    case Found(c, m) => FoundKeepsInv(s, t);
    case Failed(c, m) => FailedKeepsInv(s, t);
    case Releasing(a, after) => ReleasingKeepsInv(s, t);
    case Zeroed(a, after) => ZeroedKeepsInv(s, t);
    case DisposeLocked(a, after) => DisposeLockedKeepsInv(s, t);
    case Deleting(a, after) => DeletingKeepsInv(s, t);
    case _ => QuietAdvance(s, t);
  }

  lemma StepKeepsInv(s: State, step: Step)
    requires Inv(s) && Enabled(s, step)
    ensures Inv(Apply(s, step))
  {
    match step
    case New(t, a, fields, child) => NewKeepsInv(s, t, a, fields, child);
    case AddLink(t, a) => AddLinkKeepsInv(s, t, a);
    case Give(t, to, a) => GiveKeepsInv(s, t, to, a);
    case StartRelease(t, a) => StartReleaseKeepsInv(s, t, a);
    case Advance(t) => AdvanceKeepsInv(s, t);
  }

  /** Every object whose count has reached zero has a thread that is disposing of it. */
  ghost predicate NoOrphans(s: State) {
    forall a: Addr | a in s.heap && !Alive(s.heap[a]) :: exists t: Thread :: DisposedBy(s.pcs, t, a)
  }

  predicate DisposedBy(pcs: map<Thread, Pc>, t: Thread, a: Addr) {
    Dying(PcOf(pcs, t)) && PcOf(pcs, t).obj == a
  }

  lemma NoNewOrphans(s: State, s': State, t: Thread, pc: Pc)
    requires NoOrphans(s) && s'.pcs == s.pcs[t := pc]
    requires forall a: Addr | a in s'.heap && !Alive(s'.heap[a]) ::
               || (Dying(pc) && pc.obj == a)
               || (a in s.heap && !Alive(s.heap[a]) && !DisposedBy(s.pcs, t, a))
    ensures NoOrphans(s')
  {
    assert forall u: Thread :: PcOf(s'.pcs, u) == if u == t then pc else PcOf(s.pcs, u);
    forall a: Addr | a in s'.heap && !Alive(s'.heap[a]) ensures exists u: Thread :: DisposedBy(s'.pcs, u, a) {
      if Dying(pc) && pc.obj == a {
        assert DisposedBy(s'.pcs, t, a);
      } else {
        var u: Thread :| DisposedBy(s.pcs, u, a);
        assert DisposedBy(s'.pcs, u, a);
      }
    }
  }

  lemma CallerKeepsNoOrphans(s: State, step: Step)
    requires Inv(s) && NoOrphans(s) && Enabled(s, step) && !step.Advance?
    ensures NoOrphans(Apply(s, step))
  {
    var t, s' := step.t, Apply(s, step);
    var s1 := s'.(pcs := s.pcs[t := PcOf(s'.pcs, t)]);
    if !step.StartRelease? && !(step.New? && !step.child.Shared?) {
      OwnedByIdle(s, t, if step.New? then step.child.to else step.a);
    }
    NoNewOrphans(s, s1, t, PcOf(s'.pcs, t));
    assert forall u: Thread :: PcOf(s1.pcs, u) == PcOf(s'.pcs, u);
    forall a: Addr | a in s'.heap && !Alive(s'.heap[a]) ensures exists u: Thread :: DisposedBy(s'.pcs, u, a) {
      var u: Thread :| DisposedBy(s1.pcs, u, a);
      assert DisposedBy(s'.pcs, u, a);
    }
  }

  /** Of a thread's own steps, only dropping the last link kills, and only the destructor ends a disposal. */
  lemma DeathsOfAStep(s: State, t: Thread)
    requires Inv(s) && Enabled(s, Advance(t))
    requires var pc := PcOf(s.pcs, t); !pc.Releasing? && !pc.Deleting?
    ensures var s' := DoAdvance(s, t);
            forall a: Addr | a in s'.heap && !Alive(s'.heap[a]) :: a in s.heap && !Alive(s.heap[a])
    ensures var pc, pc' := PcOf(s.pcs, t), PcOf(DoAdvance(s, t).pcs, t);
            Dying(pc) ==> Dying(pc') && pc'.obj == pc.obj
  {
    assert ThreadOk(s.heap, s.table, t, PcOf(s.pcs, t));
  }

  lemma DeathOfRelease(s: State, t: Thread)
    requires Inv(s) && PcOf(s.pcs, t).Releasing?
    ensures NoOrphans(s) ==> NoOrphans(DoFetchSub(s, t, PcOf(s.pcs, t).obj, PcOf(s.pcs, t).after))
  {
    HoldsWhatItReleases(s, t);
    if NoOrphans(s) {
      var s' := DoFetchSub(s, t, PcOf(s.pcs, t).obj, PcOf(s.pcs, t).after);
      NoNewOrphans(s, s', t, PcOf(s'.pcs, t));
    }
  }

  lemma DeathOfDelete(s: State, t: Thread)
    requires Inv(s) && PcOf(s.pcs, t).Deleting?
    ensures NoOrphans(s) ==> NoOrphans(DoDelete(s, t, PcOf(s.pcs, t).obj, PcOf(s.pcs, t).after))
  {
    var a := PcOf(s.pcs, t).obj;
    assert ThreadOk(s.heap, s.table, t, PcOf(s.pcs, t));
    if s.heap[a].key.child.Shared? { TakesBackChild(s, t, a); }
    if NoOrphans(s) {
      var s' := DoDelete(s, t, a, PcOf(s.pcs, t).after);
      NoNewOrphans(s, s', t, PcOf(s'.pcs, t));
    }
  }

  lemma ThreadKeepsNoOrphans(s: State, t: Thread)
    requires Inv(s) && NoOrphans(s) && Enabled(s, Advance(t))
    ensures NoOrphans(DoAdvance(s, t))
  {
    match PcOf(s.pcs, t)
    case Releasing(_, _) => DeathOfRelease(s, t);
    case Deleting(_, _) => DeathOfDelete(s, t);
    case _ =>
      DeathsOfAStep(s, t);
      NoNewOrphans(s, DoAdvance(s, t), t, PcOf(DoAdvance(s, t).pcs, t));
  }

  // ----- what holds over every run ---------------------------------------------------------------

  lemma {:induction false} EveryRunKeepsInv(steps: seq<Step>)
    requires Run(steps).Some?
    ensures Inv(Run(steps).value) && NoOrphans(Run(steps).value)
  {
    if steps != [] {
      var before, last := steps[..|steps| - 1], steps[|steps| - 1];
      EveryRunKeepsInv(before);
      StepKeepsInv(Run(before).value, last);
      if last.Advance? {
        ThreadKeepsNoOrphans(Run(before).value, last.t);
      } else {
        CallerKeepsNoOrphans(Run(before).value, last);
      }
    }
  }

  /** A type that has been through the table and has not been released for the last time. */
  predicate Live(s: State, a: Addr) {
    a in s.heap && s.heap[a].entered && Alive(s.heap[a])
  }

  /** At most one live type per key, and it is the one that is found. */
  lemma OneLiveTypePerKey(steps: seq<Step>, a: Addr)
    requires Run(steps).Some? && Live(Run(steps).value, a)
    ensures var s := Run(steps).value;
            && s.heap[a].key in s.table && s.table[s.heap[a].key] == a
            && forall b: Addr :: Live(s, b) && s.heap[b].key == s.heap[a].key ==> b == a
  {
    EveryRunKeepsInv(steps);
    var s := Run(steps).value;
    assert ObservedOk(s.heap[a], a, s.table);
    forall b: Addr | Live(s, b) ensures ObservedOk(s.heap[b], b, s.table) {}
  }

  lemma ObservedIffTableEntry(steps: seq<Step>, a: Addr)
    requires Run(steps).Some? && a in Run(steps).value.heap
    ensures var s := Run(steps).value;
            s.heap[a].observed <==> s.heap[a].key in s.table && s.table[s.heap[a].key] == a
  {
    EveryRunKeepsInv(steps);
    var s := Run(steps).value;
    assert ObservedOk(s.heap[a], a, s.table);
  }

  /** The base type of any allocated type is live, even when the type itself is already dead but
      still in the table: this is what lets keys compare base types by address. */
  lemma BaseTypesStayLive(steps: seq<Step>, a: Addr)
    requires Run(steps).Some? && a in Run(steps).value.heap && Run(steps).value.heap[a].key.child.Shared?
    ensures Live(Run(steps).value, Run(steps).value.heap[a].key.child.to)
  {
    EveryRunKeepsInv(steps);
    BaseTypeLive(Run(steps).value, a);
  }

  lemma BaseTypeLive(s: State, a: Addr)
    requires Inv(s) && a in s.heap && s.heap[a].key.child.Shared?
    ensures Live(s, s.heap[a].key.child.to)
  {
    assert ParentOk(s.heap, s.heap[a], a);
    HeldIsAlive(s.heap, s.heap[a].key.child.to, ByParent(a));
  }

  /** Comparing live types by address is comparing them by structure, to any depth. */
  lemma PointerEqualityIsStructural(steps: seq<Step>, a: Addr, b: Addr)
    requires Run(steps).Some? && Live(Run(steps).value, a) && Live(Run(steps).value, b)
    ensures a == b <==> Run(steps).value.heap[a].shape == Run(steps).value.heap[b].shape
  {
    EveryRunKeepsInv(steps);
    if Run(steps).value.heap[a].shape == Run(steps).value.heap[b].shape {
      SameShapeSameAddress(Run(steps).value, a, b);
    }
  }

  lemma {:induction false} SameShapeSameAddress(s: State, a: Addr, b: Addr)
    requires Inv(s) && Live(s, a) && Live(s, b) && s.heap[a].shape == s.heap[b].shape
    ensures a == b
    decreases s.heap[a].shape
  {
    assert ParentOk(s.heap, s.heap[a], a) && ParentOk(s.heap, s.heap[b], b);
    assert ObservedOk(s.heap[a], a, s.table) && ObservedOk(s.heap[b], b, s.table);
    if s.heap[a].key.child.Shared? {
      BaseTypeLive(s, a);
      BaseTypeLive(s, b);
      SameShapeSameAddress(s, s.heap[a].key.child.to, s.heap[b].key.child.to);
    }
    assert s.heap[a].key == s.heap[b].key;
  }

  /** A call returns when its thread goes idle with a result. */
  predicate Returns(s: State, step: Step, r: Ret) {
    && step.Advance? && Enabled(s, step)
    && Result(PcOf(s.pcs, step.t)) == Some(r)
    && PcOf(Apply(s, step).pcs, step.t).Idle?
  }

  function Result(pc: Pc): Option<Ret> {
    match pc
    case Leave(r, _) => Some(r)
    case Releasing(_, after) => after
    case Zeroed(_, after) => after
    case Marked(_, after) => after
    case DisposeLocked(_, after) => after
    case DisposeDone(_, after) => after
    case Deleting(_, after) => after
    case _ => None
  }

  lemma ReturnKeepsResult(s: State, step: Step, r: Ret)
    requires Inv(s) && Returns(s, step, r)
    ensures var heap' := Apply(s, step).heap; Good(heap', step.t, r)
  {
    var t, pc := step.t, PcOf(s.pcs, step.t);
    assert ThreadOk(s.heap, s.table, t, pc);
    match pc
    case Leave(_, _) =>
    case Releasing(_, _) => HoldsWhatItReleases(s, t);
    case Deleting(a, _) => NoChildren(s.heap, a); assert CountOk(s.heap[a]); NoOwners(s.heap[a]);
  }

  /** `commonUpType` never returns a dead type: what it returns is live, linked for the caller, and
      denotes what the caller asked for. */
  lemma ReturnsALinkedLiveType(steps: seq<Step>, step: Step, r: Ret)
    requires Run(steps).Some? && Returns(Run(steps).value, step, r)
    ensures var s' := Apply(Run(steps).value, step);
            Live(s', r.addr) && Owns(s', step.t, r.addr) && s'.heap[r.addr].shape == r.goal
  {
    EveryRunKeepsInv(steps);
    var s := Run(steps).value;
    StepKeepsInv(s, step);
    ReturnKeepsResult(s, step, r);
    HeldIsAlive(Apply(s, step).heap, r.addr, ByThread(step.t));
  }

  /** The goal of a call is the shape its candidate was built with. */
  lemma GoalIsTheCandidate(s: State, t: Thread)
    requires Inv(s) && Enabled(s, Advance(t))
    requires var pc := PcOf(s.pcs, t); pc.Locked? || pc.Found? || pc.Failed?
    ensures var c := PcOf(s.pcs, t).cand;
            var pc' := PcOf(DoAdvance(s, t).pcs, t);
            && (pc'.Leave? ==> c in s.heap && pc'.ret.goal == s.heap[c].shape)
            && (!pc'.Leave? ==> Private(pc', c) && DoAdvance(s, t).heap == s.heap)
  {
    assert ThreadOk(s.heap, s.table, t, PcOf(s.pcs, t));
  }

  /** The assertions in addObserver, removeObserver and beforeDispose at each step. */
  predicate AssertsHold(s: State, step: Step) {
    if !step.Advance? then true else
      match PcOf(s.pcs, step.t)
      case Locked(c) => At(s.heap, c).key in s.table || !At(s.heap, c).observed
      case Failed(c, m) =>
        var k := At(s.heap, c).key;
        k in s.table && At(s.heap, s.table[k]).observed && !At(s.heap, c).observed && s.table[k] != c
      case DisposeLocked(a, _) =>
        var o := At(s.heap, a);
        o.observed ==> o.key in s.table && s.table[o.key] == a
      case DisposeDone(a, _) => !At(s.heap, a).observed
      case _ => true
  }

  /** The objects a step reads or writes. */
  function Touched(s: State, step: Step): set<Addr> {
    match step
    case New(_, _, _, child) => if child.Shared? then {child.to} else {}
    case AddLink(_, a) => {a}
    case Give(_, _, a) => {a}
    case StartRelease(_, a) => {a}
    case Advance(t) =>
      match PcOf(s.pcs, t)
      case Idle => {}
      case Want(c) => {c}
      case Locked(c) => {c} + (if At(s.heap, c).key in s.table then {s.table[At(s.heap, c).key]} else {})
      case Found(c, m) => {c, m}
      case Failed(c, m) => {c, m} + (if At(s.heap, c).key in s.table then {s.table[At(s.heap, c).key]} else {})
      case Leave(r, drop) => {r.addr} + (if drop.Some? then {drop.value} else {})
      case Deleting(a, _) => {a} + (if At(s.heap, a).key.child.Shared? then {At(s.heap, a).key.child.to} else {})
      case _ => {PcOf(s.pcs, t).obj}
  }

  /** No step of any run fails an assertion or touches an object that has been freed. */
  lemma NoAssertFailsAndNothingDangles(steps: seq<Step>, step: Step)
    requires Run(steps).Some? && Enabled(Run(steps).value, step)
    ensures AssertsHold(Run(steps).value, step)
    ensures Touched(Run(steps).value, step) <= Run(steps).value.heap.Keys
  {
    EveryRunKeepsInv(steps);
    var s := Run(steps).value;
    if step.Advance? {
      var pc := PcOf(s.pcs, step.t);
      assert ThreadOk(s.heap, s.table, step.t, pc);
      match pc
      case DisposeLocked(a, _) => assert ObservedOk(s.heap[a], a, s.table);
      case Deleting(a, _) => assert ParentOk(s.heap, s.heap[a], a);
      case _ =>
    }
  }

  lemma QuiescentObject(s: State, a: Addr)
    requires Inv(s) && NoOrphans(s) && a in s.heap && forall t: Thread :: PcOf(s.pcs, t).Idle?
    ensures Live(s, a) && s.heap[a].key in s.table && s.table[s.heap[a].key] == a
  {
    assert Alive(s.heap[a]);
    assert CountOk(s.heap[a]);
    assert s.heap[a].owners != multiset{};
    var w :| w in s.heap[a].owners;
    if w.ByParent? { assert ParentOk(s.heap, s.heap[w.a], w.a); }
    assert ObservedOk(s.heap[a], a, s.table);
  }

  /** Nothing leaks: when no call is in progress the table lists exactly the allocated types, all live. */
  lemma QuiescentTableIsExact(steps: seq<Step>)
    requires Run(steps).Some? && forall t: Thread :: PcOf(Run(steps).value.pcs, t).Idle?
    ensures var s := Run(steps).value;
            forall a: Addr :: a in s.heap <==> a in s.table.Values && Live(s, a)
  {
    EveryRunKeepsInv(steps);
    var s := Run(steps).value;
    forall a: Addr | a in s.heap ensures a in s.table.Values && Live(s, a) {
      QuiescentObject(s, a);
    }
  }
}
