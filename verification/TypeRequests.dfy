/** What the calls of `commonUpType` in a run ask for, read off the run's steps, and what they get. */
module TypeRequests {
  import opened Options
  import opened TypeCache

  // ----- what a run asks for ------------------------------------------------------------------------

  /** The structure of the type last built at an address, by the arguments of the steps alone. */
  function ShapeBuilt(steps: seq<Step>, a: Addr): Option<Shape>
    decreases |steps|, 0
  {
    if steps == [] then None
    else
      var front, last := steps[..|steps| - 1], steps[|steps| - 1];
      if last.New? && last.at == a then Some(ShapeAsked(front, last.fields, last.child)) else ShapeBuilt(front, a)
  }

  /** The structure that such fields over such a base type denote, after these steps. */
  function ShapeAsked(steps: seq<Step>, fields: Fields, child: Child<Addr>): Shape
    decreases |steps|, 1
  {
    match child
    case NoChild => Shape(fields, NoChild)
    case Singleton(id) => Shape(fields, Singleton(id))
    case Shared(c) =>
      var base := ShapeBuilt(steps, c);
      Shape(fields, if base.Some? then Shared(base.value) else NoChild)
  }

  datatype Request = Request(fields: Fields, child: Child<Addr>, shape: Shape)

  /** What the last call of a thread asks for. */
  function Asked(steps: seq<Step>, t: Thread): Option<Request> {
    if steps == [] then None
    else
      var front, last := steps[..|steps| - 1], steps[|steps| - 1];
      if last.New? && last.t == t then
        Some(Request(last.fields, last.child, ShapeAsked(front, last.fields, last.child)))
      else Asked(front, t)
  }

  // ----- every type is what was asked for -----------------------------------------------------------

  /** An object never changes its key or its structure. */
  ghost predicate Lasting(heap: map<Addr, Obj>, heap': map<Addr, Obj>) {
    forall a | a in heap && a in heap' :: heap'[a].key == heap[a].key && heap'[a].shape == heap[a].shape
  }

  lemma OneObjectLasts(heap: map<Addr, Obj>, a: Addr, o: Obj)
    requires a in heap && o.key == heap[a].key && o.shape == heap[a].shape
    ensures Lasting(heap, heap[a := o]) && heap[a := o].Keys == heap.Keys
  {
  }

  lemma TableStepLasts(s: State, t: Thread, c: Addr)
    requires c in s.heap && (s.heap[c].key in s.table ==> s.table[s.heap[c].key] in s.heap)
    ensures Lasting(s.heap, DoAddOrFind(s, t, c).heap) && DoAddOrFind(s, t, c).heap.Keys == s.heap.Keys
    ensures Lasting(s.heap, DoReplace(s, t, c).heap) && DoReplace(s, t, c).heap.Keys == s.heap.Keys
  {
  }

  lemma LinkLasts(s: State, t: Thread, c: Addr, m: Addr)
    requires m in s.heap
    ensures Lasting(s.heap, DoTryLink(s, t, c, m).heap) && DoTryLink(s, t, c, m).heap.Keys == s.heap.Keys
  {
  }

  lemma FetchSubLasts(s: State, t: Thread, a: Addr, after: Option<Ret>)
    requires a in s.heap
    ensures Lasting(s.heap, DoFetchSub(s, t, a, after).heap) && DoFetchSub(s, t, a, after).heap.Keys == s.heap.Keys
  {
  }

  lemma UnhookLasts(s: State, t: Thread, a: Addr, after: Option<Ret>)
    requires a in s.heap
    ensures Lasting(s.heap, DoUnhook(s, t, a, after).heap) && DoUnhook(s, t, a, after).heap.Keys == s.heap.Keys
  {
  }

  lemma DeleteLasts(s: State, t: Thread, a: Addr, after: Option<Ret>)
    requires a in s.heap && (s.heap[a].key.child.Shared? ==> s.heap[a].key.child.to in s.heap)
    ensures Lasting(s.heap, DoDelete(s, t, a, after).heap)
    ensures DoDelete(s, t, a, after).heap.Keys == s.heap.Keys - {a}
  {
  }

  lemma AdvanceLasts(s: State, t: Thread)
    requires Inv(s) && Enabled(s, Advance(t))
    ensures Lasting(s.heap, DoAdvance(s, t).heap) && DoAdvance(s, t).heap.Keys <= s.heap.Keys
  {
    assert ThreadOk(s.heap, s.table, t, PcOf(s.pcs, t));
    match PcOf(s.pcs, t)
    case Locked(c) => TableStepLasts(s, t, c);
    case Failed(c, _) => TableStepLasts(s, t, c);
    case Found(c, m) => LinkLasts(s, t, c, m);
    case Releasing(a, after) => FetchSubLasts(s, t, a, after);
    case DisposeLocked(a, after) => UnhookLasts(s, t, a, after);
    case Zeroed(a, _) => OneObjectLasts(s.heap, a, s.heap[a].(refs := DeadMark));
    case Deleting(a, after) =>
      if s.heap[a].key.child.Shared? { TakesBackChild(s, t, a); }
      DeleteLasts(s, t, a, after);
    case _ =>
  }

  lemma NewIsAsked(s: State, t: Thread, a: Addr, fields: Fields, child: Child<Addr>)
    requires Enabled(s, New(t, a, fields, child))
    ensures var heap := DoNew(s, t, a, fields, child).heap;
            && Lasting(s.heap, heap) && heap.Keys == s.heap.Keys + {a}
            && heap[a].key == Key(fields, child) && heap[a].shape == Shape(fields, ChildShape(s.heap, child))
  {
  }

  lemma StepLasts(s: State, step: Step)
    requires Inv(s) && Enabled(s, step)
    ensures Lasting(s.heap, Apply(s, step).heap)
    ensures forall a | a in Apply(s, step).heap && a !in s.heap :: step.New? && a == step.at
  {
    match step
    case New(t, a, fields, child) => NewIsAsked(s, t, a, fields, child);
    case Advance(t) => AdvanceLasts(s, t);
    case _ =>
  }

  /** Every type in the heap has the structure that was asked for when it was built. */
  lemma {:induction false} ShapesAreBuilt(steps: seq<Step>, a: Addr)
    requires Run(steps).Some? && a in Run(steps).value.heap
    ensures ShapeBuilt(steps, a) == Some(Run(steps).value.heap[a].shape)
    decreases |steps|
  {
    var front, last := steps[..|steps| - 1], steps[|steps| - 1];
    var s := Run(front).value;
    EveryRunKeepsInv(front);
    StepLasts(s, last);
    if last.New? && last.at == a {
      NewIsAsked(s, last.t, a, last.fields, last.child);
      if last.child.Shared? { ShapesAreBuilt(front, last.child.to); }
    } else {
      ShapesAreBuilt(front, a);
    }
  }

  /** The object has what was asked for. */
  predicate Answers(heap: map<Addr, Obj>, a: Addr, q: Request) {
    a in heap && heap[a].key == Key(q.fields, q.child) && heap[a].shape == q.shape
  }

  /** The candidate of a call that has no result yet. */
  function Candidate(pc: Pc): Option<Addr> {
    match pc
    case Want(c) => Some(c)
    case Locked(c) => Some(c)
    case Found(c, _) => Some(c)
    case Failed(c, _) => Some(c)
    case _ => None
  }

  /** A call's candidate, and then its result, is what the call asks for. */
  predicate Serves(heap: map<Addr, Obj>, pc: Pc, q: Option<Request>) {
    && (Candidate(pc).Some? ==> q.Some? && Answers(heap, Candidate(pc).value, q.value))
    && (Result(pc).Some? ==> q.Some? && Answers(heap, Result(pc).value.addr, q.value))
  }

  /** Where a thread's step leads its call. */
  lemma NextOfCall(s: State, t: Thread)
    requires Inv(s) && Enabled(s, Advance(t))
    ensures var pc, pc' := PcOf(s.pcs, t), PcOf(DoAdvance(s, t).pcs, t);
            && (Candidate(pc').Some? ==> Candidate(pc') == Candidate(pc))
            && (Result(pc').Some? ==> Result(pc') == Result(pc)
                                      || (Candidate(pc).Some? && pc'.ret.addr in s.heap
                                          && s.heap[pc'.ret.addr].key == s.heap[Candidate(pc).value].key))
  {
    assert ThreadOk(s.heap, s.table, t, PcOf(s.pcs, t));
  }

  /** Candidates and results are objects that the thread holds. */
  lemma CallsHold(s: State, t: Thread)
    requires Inv(s)
    ensures var pc := PcOf(s.pcs, t);
            && (Candidate(pc).Some? ==> Candidate(pc).value in s.heap)
            && (Result(pc).Some? ==> Result(pc).value.addr in s.heap)
  {
    assert ThreadOk(s.heap, s.table, t, PcOf(s.pcs, t));
  }

  lemma ServesOn(s: State, t: Thread, q: Option<Request>)
    requires Inv(s) && Enabled(s, Advance(t)) && Inv(DoAdvance(s, t)) && Serves(s.heap, PcOf(s.pcs, t), q)
    ensures var s' := DoAdvance(s, t); Serves(s'.heap, PcOf(s'.pcs, t), q)
  {
    var s' := DoAdvance(s, t);
    NextOfCall(s, t);
    AdvanceLasts(s, t);
    CallsHold(s', t);
    var pc, pc' := PcOf(s.pcs, t), PcOf(s'.pcs, t);
    if Candidate(pc).Some? && pc'.Leave? {
      CallsHold(s, t);
      SameKeySameShape(s.heap, Candidate(pc).value, pc'.ret.addr);
    }
  }

  /** What other threads do leaves a call as it is. */
  lemma OthersServe(s: State, step: Step, t: Thread, q: Option<Request>)
    requires Inv(s) && Enabled(s, step) && Inv(Apply(s, step)) && Serves(s.heap, PcOf(s.pcs, t), q)
    requires PcOf(Apply(s, step).pcs, t) == PcOf(s.pcs, t)
    ensures Serves(Apply(s, step).heap, PcOf(s.pcs, t), q)
  {
    StepLasts(s, step);
    CallsHold(Apply(s, step), t);
  }

  /** A step moves no other thread on. */
  ghost predicate MovesOnly(pcs: map<Thread, Pc>, pcs': map<Thread, Pc>, t: Thread) {
    forall u | u != t :: PcOf(pcs', u) == PcOf(pcs, u)
  }

  lemma AdvanceMovesOnly(s: State, t: Thread)
    ensures MovesOnly(s.pcs, DoAdvance(s, t).pcs, t)
  {
    match PcOf(s.pcs, t)
    case Locked(c) =>
    case Found(c, m) =>
    case Failed(c, _) =>
    case Releasing(a, after) =>
    case DisposeLocked(a, after) =>
    case Deleting(a, after) =>
    case _ =>
  }

  lemma OthersStay(s: State, step: Step, t: Thread)
    requires Enabled(s, step) && step.t != t
    ensures PcOf(Apply(s, step).pcs, t) == PcOf(s.pcs, t)
  {
    if step.Advance? { AdvanceMovesOnly(s, step.t); }
  }

  lemma NewServes(s: State, steps: seq<Step>, step: Step)
    requires Run(steps) == Some(s) && step.New? && Enabled(s, step) && Inv(s)
    ensures var s', q := Apply(s, step), Asked(steps + [step], step.t);
            Serves(s'.heap, PcOf(s'.pcs, step.t), q)
  {
    assert (steps + [step])[..|steps|] == steps;
    NewIsAsked(s, step.t, step.at, step.fields, step.child);
    if step.child.Shared? { ShapesAreBuilt(steps, step.child.to); }
  }

  lemma {:induction false} EveryCallServes(steps: seq<Step>, t: Thread)
    requires Run(steps).Some?
    ensures var s := Run(steps).value; Serves(s.heap, PcOf(s.pcs, t), Asked(steps, t))
    decreases |steps|
  {
    if steps != [] {
      var front, last := steps[..|steps| - 1], steps[|steps| - 1];
      assert steps == front + [last];
      var s := Run(front).value;
      EveryCallServes(front, t);
      EveryRunKeepsInv(front);
      StepKeepsInv(s, last);
      if last.t != t {
        OthersStay(s, last, t);
        OthersServe(s, last, t, Asked(front, t));
      } else {
        match last
        case New(_, _, _, _) => NewServes(s, front, last);
        case Advance(_) => ServesOn(s, t, Asked(front, t));
        case _ =>
      }
    }
  }

  /** Whatever a call returns is live, linked for the caller, and has the fields and the base type that the
      call's step gives, and so the structure that they denote. */
  lemma ReturnsWhatIsAsked(steps: seq<Step>, step: Step, r: Ret)
    requires Run(steps).Some? && Returns(Run(steps).value, step, r)
    ensures var s', q := Apply(Run(steps).value, step), Asked(steps, step.t);
            && Live(s', r.addr) && Owns(s', step.t, r.addr)
            && q.Some? && s'.heap[r.addr].key == Key(q.value.fields, q.value.child)
            && s'.heap[r.addr].shape == q.value.shape
  {
    var s := Run(steps).value;
    EveryCallServes(steps, step.t);
    EveryRunKeepsInv(steps);
    ReturnsALinkedLiveType(steps, step, r);
    StepLasts(s, step);
  }

  // ----- two calls -----------------------------------------------------------------------------------

  /** The call that ends at a step of the run returns the address. */
  ghost predicate ReturnedAt(steps: seq<Step>, i: nat, a: Addr)
    requires i < |steps|
  {
    Run(steps[..i]).Some? && exists r: Ret :: r.addr == a && Returns(Run(steps[..i]).value, steps[i], r)
  }

  /** The object has not been freed since. */
  ghost predicate KeptFrom(steps: seq<Step>, i: nat, a: Addr) {
    forall k | i < k <= |steps| :: AllocatedAfter(steps, k, a)
  }

  ghost predicate AllocatedAfter(steps: seq<Step>, k: nat, a: Addr)
    requires k <= |steps|
  {
    Run(steps[..k]).Some? && a in Run(steps[..k]).value.heap
  }

  lemma PrefixRuns(steps: seq<Step>, k: nat)
    requires k < |steps| && Run(steps[..k + 1]).Some?
    ensures Run(steps[..k]).Some? && Enabled(Run(steps[..k]).value, steps[k])
    ensures Run(steps[..k + 1]) == Some(Apply(Run(steps[..k]).value, steps[k]))
  {
    assert steps[..k + 1][..k] == steps[..k] && steps[..k + 1][k] == steps[k];
  }

  ghost function KeyAfter(steps: seq<Step>, k: nat, a: Addr): Key
    requires k <= |steps| && AllocatedAfter(steps, k, a)
  {
    Run(steps[..k]).value.heap[a].key
  }

  lemma OneStepKept(steps: seq<Step>, k: nat, a: Addr)
    requires k < |steps| && AllocatedAfter(steps, k, a) && AllocatedAfter(steps, k + 1, a)
    ensures KeyAfter(steps, k + 1, a) == KeyAfter(steps, k, a)
  {
    PrefixRuns(steps, k);
    EveryRunKeepsInv(steps[..k]);
    StepLasts(Run(steps[..k]).value, steps[k]);
  }

  lemma {:induction false} KeyKept(steps: seq<Step>, i: nat, a: Addr, n: nat)
    requires i < n <= |steps| && KeptFrom(steps, i, a)
    ensures AllocatedAfter(steps, n, a) && AllocatedAfter(steps, i + 1, a)
    ensures KeyAfter(steps, n, a) == KeyAfter(steps, i + 1, a)
    decreases n
  {
    assert AllocatedAfter(steps, n, a);
    if n > i + 1 {
      KeyKept(steps, i, a, n - 1);
      OneStepKept(steps, n - 1, a);
    }
  }

  /** A type that has been returned and not freed since still is what the call asked for. */
  lemma ReturnedStays(steps: seq<Step>, i: nat, a: Addr)
    requires Run(steps).Some? && i < |steps| && ReturnedAt(steps, i, a) && KeptFrom(steps, i, a)
    ensures var q := Asked(steps[..i], steps[i].t);
            q.Some? && a in Run(steps).value.heap && Run(steps).value.heap[a].key == Key(q.value.fields, q.value.child)
  {
    var r: Ret :| r.addr == a && Returns(Run(steps[..i]).value, steps[i], r);
    assert AllocatedAfter(steps, i + 1, a);
    PrefixRuns(steps, i);
    ReturnsWhatIsAsked(steps[..i], steps[i], r);
    KeyKept(steps, i, a, |steps|);
    assert steps[..|steps|] == steps;
  }

  /** Two calls of a run, of any threads, whose results are both still live: they were given one address
      if and only if they asked for the same fields over the same base type. */
  lemma OneAddressIffOneRequest(steps: seq<Step>, i: nat, j: nat, a: Addr, b: Addr)
    requires Run(steps).Some? && i < |steps| && j < |steps|
    requires ReturnedAt(steps, i, a) && KeptFrom(steps, i, a) && Live(Run(steps).value, a)
    requires ReturnedAt(steps, j, b) && KeptFrom(steps, j, b) && Live(Run(steps).value, b)
    ensures var p, q := Asked(steps[..i], steps[i].t), Asked(steps[..j], steps[j].t);
            && p.Some? && q.Some?
            && (a == b <==> p.value.fields == q.value.fields && p.value.child == q.value.child)
  {
    ReturnedStays(steps, i, a);
    ReturnedStays(steps, j, b);
    OneLiveTypePerKey(steps, a);
  }

  // ----- every call ends -----------------------------------------------------------------------------

  /** The lock is held only by a thread inside the critical block. */
  ghost predicate LockHeld(s: State) {
    s.lock.Some? ==> InBlock(PcOf(s.pcs, s.lock.value))
  }

  lemma LockStaysHeld(s: State, step: Step)
    requires Inv(s) && LockHeld(s) && Enabled(s, step)
    ensures LockHeld(Apply(s, step))
  {
    if step.Advance? { assert ThreadOk(s.heap, s.table, step.t, PcOf(s.pcs, step.t)); }
  }

  lemma {:induction false} LockIsHeld(steps: seq<Step>)
    requires Run(steps).Some?
    ensures LockHeld(Run(steps).value)
  {
    if steps != [] {
      var front := steps[..|steps| - 1];
      LockIsHeld(front);
      EveryRunKeepsInv(front);
      LockStaysHeld(Run(front).value, steps[|steps| - 1]);
    }
  }

  /** No run ends in a deadlock: while a call is in progress, some thread can take a step. */
  lemma NoDeadlock(steps: seq<Step>, t: Thread) returns (u: Thread)
    requires Run(steps).Some? && !PcOf(Run(steps).value.pcs, t).Idle?
    ensures Enabled(Run(steps).value, Advance(u))
  {
    LockIsHeld(steps);
    var s := Run(steps).value;
    u := if s.lock.Some? then s.lock.value else t;
  }

  function Depth(shape: Shape): nat {
    if shape.child.Shared? then 1 + Depth(shape.child.to) else 0
  }

  /** The most steps that releasing a type of some structure can take. */
  function ReleaseSteps(shape: Shape): nat {
    6 * (Depth(shape) + 1)
  }

  /** The most steps that a thread still has to take. */
  function StepsLeft(heap: map<Addr, Obj>, pc: Pc): int {
    match pc
    case Idle => 0
    case Want(c) => ReleaseSteps(At(heap, c).shape) + 4
    case Locked(c) => ReleaseSteps(At(heap, c).shape) + 3
    case Found(c, _) => ReleaseSteps(At(heap, c).shape) + 2
    case Failed(_, _) => 2
    case Leave(_, drop) => 1 + if drop.Some? then ReleaseSteps(At(heap, drop.value).shape) else 0
    case Releasing(a, _) => ReleaseSteps(At(heap, a).shape)
    case Zeroed(a, _) => ReleaseSteps(At(heap, a).shape) - 1
    case Marked(a, _) => ReleaseSteps(At(heap, a).shape) - 2
    case DisposeLocked(a, _) => ReleaseSteps(At(heap, a).shape) - 3
    case DisposeDone(a, _) => ReleaseSteps(At(heap, a).shape) - 4
    case Deleting(a, _) => ReleaseSteps(At(heap, a).shape) - 5
  }

  ghost predicate FewerLeft(s: State, t: Thread) {
    var s' := DoAdvance(s, t);
    0 <= StepsLeft(s'.heap, PcOf(s'.pcs, t)) < StepsLeft(s.heap, PcOf(s.pcs, t))
  }

  lemma QuietLess(s: State, t: Thread)
    requires Enabled(s, Advance(t))
    requires var pc := PcOf(s.pcs, t); pc.Want? || pc.Leave? || pc.Marked? || pc.DisposeDone?
    ensures FewerLeft(s, t)
  {
  }

  lemma CallLess(s: State, t: Thread)
    requires Inv(s)
    requires var pc := PcOf(s.pcs, t); pc.Locked? || pc.Found? || pc.Failed?
    ensures FewerLeft(s, t)
  {
    var pc := PcOf(s.pcs, t);
    assert ThreadOk(s.heap, s.table, t, pc);
    if pc.Found? { LinkLasts(s, t, pc.cand, pc.other); }
  }

  lemma ReleaseLess(s: State, t: Thread)
    requires Inv(s)
    requires var pc := PcOf(s.pcs, t); pc.Releasing? || pc.Zeroed? || pc.DisposeLocked?
    ensures FewerLeft(s, t)
  {
    var pc := PcOf(s.pcs, t);
    assert ThreadOk(s.heap, s.table, t, pc);
    if pc.Releasing? {
      HoldsWhatItReleases(s, t);
      FetchSubLasts(s, t, pc.obj, pc.after);
    }
    if pc.DisposeLocked? { UnhookLasts(s, t, pc.obj, pc.after); }
  }

  lemma DeleteLess(s: State, t: Thread)
    requires Inv(s) && PcOf(s.pcs, t).Deleting?
    ensures FewerLeft(s, t)
  {
    var a := PcOf(s.pcs, t).obj;
    assert ThreadOk(s.heap, s.table, t, PcOf(s.pcs, t));
    if s.heap[a].key.child.Shared? { TakesBackChild(s, t, a); }
    assert ParentOk(s.heap, s.heap[a], a);
  }

  lemma OneStepLess(s: State, t: Thread)
    requires Inv(s) && Enabled(s, Advance(t))
    ensures FewerLeft(s, t)
  {
    match PcOf(s.pcs, t)
    case Locked(_) => CallLess(s, t);
    case Found(_, _) => CallLess(s, t);
    case Failed(_, _) => CallLess(s, t);
    case Releasing(_, _) => ReleaseLess(s, t);
    case Zeroed(_, _) => ReleaseLess(s, t);
    case DisposeLocked(_, _) => ReleaseLess(s, t);
    case Deleting(_, _) => DeleteLess(s, t);
    case _ => QuietLess(s, t);
  }

  /** The object that the steps left of a call depend on. */
  function Subject(pc: Pc): Option<Addr> {
    match pc
    case Idle => None
    case Want(c) => Some(c)
    case Locked(c) => Some(c)
    case Found(c, _) => Some(c)
    case Failed(_, _) => None
    case Leave(_, drop) => drop
    case _ => Some(pc.obj)
  }

  lemma SubjectIsHeld(s: State, t: Thread)
    requires Inv(s)
    ensures Subject(PcOf(s.pcs, t)).Some? ==> Subject(PcOf(s.pcs, t)).value in s.heap
  {
    assert ThreadOk(s.heap, s.table, t, PcOf(s.pcs, t));
  }

  lemma SameLeft(heap: map<Addr, Obj>, heap': map<Addr, Obj>, pc: Pc)
    requires Lasting(heap, heap')
    requires Subject(pc).Some? ==> Subject(pc).value in heap && Subject(pc).value in heap'
    ensures StepsLeft(heap', pc) == StepsLeft(heap, pc)
  {
  }

  /** What other threads do leaves the steps left as they are. */
  lemma OthersLeave(s: State, step: Step, t: Thread)
    requires Inv(s) && Enabled(s, step) && Inv(Apply(s, step))
    requires PcOf(Apply(s, step).pcs, t) == PcOf(s.pcs, t)
    ensures StepsLeft(Apply(s, step).heap, PcOf(s.pcs, t)) == StepsLeft(s.heap, PcOf(s.pcs, t))
  {
    StepLasts(s, step);
    SubjectIsHeld(s, t);
    SubjectIsHeld(Apply(s, step), t);
    SameLeft(s.heap, Apply(s, step).heap, PcOf(s.pcs, t));
  }

  /** The steps that a thread has taken in its last call, of `commonUpType` or of Release. */
  function StepsTaken(steps: seq<Step>, t: Thread): nat {
    if steps == [] then 0
    else
      var front, last := steps[..|steps| - 1], steps[|steps| - 1];
      if last.t != t || last.AddLink? || last.Give? then StepsTaken(front, t)
      else if last.Advance? then StepsTaken(front, t) + 1
      else 0
  }

  /** The structure that a thread's last call is about. */
  function CalledFor(steps: seq<Step>, t: Thread): Option<Shape> {
    if steps == [] then None
    else
      var front, last := steps[..|steps| - 1], steps[|steps| - 1];
      if last.t != t then CalledFor(front, t)
      else if last.New? then Some(ShapeAsked(front, last.fields, last.child))
      else if last.StartRelease? then ShapeBuilt(front, last.a)
      else CalledFor(front, t)
  }

  lemma CallBegins(s: State, steps: seq<Step>, step: Step)
    requires Run(steps) == Some(s) && Inv(s) && Enabled(s, step) && (step.New? || step.StartRelease?)
    ensures var s', shape := Apply(s, step), CalledFor(steps + [step], step.t);
            shape.Some? && StepsLeft(s'.heap, PcOf(s'.pcs, step.t)) <= ReleaseSteps(shape.value) + 4
  {
    assert (steps + [step])[..|steps|] == steps;
    if step.New? { NewServes(s, steps, step); } else { ShapesAreBuilt(steps, step.a); }
  }

  lemma OneStepTaken(steps: seq<Step>, step: Step, t: Thread)
    ensures StepsTaken(steps + [step], t) ==
            if step.t != t || step.AddLink? || step.Give? then StepsTaken(steps, t)
            else if step.Advance? then StepsTaken(steps, t) + 1
            else 0
    ensures step.t != t || !(step.New? || step.StartRelease?) ==> CalledFor(steps + [step], t) == CalledFor(steps, t)
  {
    assert (steps + [step])[..|steps|] == steps;
  }

  /** What a thread has done and has left to do in its call is within what the call's type allows. */
  ghost predicate Within(s: State, t: Thread, taken: nat, shape: Option<Shape>) {
    var left := StepsLeft(s.heap, PcOf(s.pcs, t));
    0 <= left
    && if shape.None? then PcOf(s.pcs, t).Idle? && taken == 0 else taken + left <= ReleaseSteps(shape.value) + 4
  }

  lemma StaysWithin(s: State, steps: seq<Step>, step: Step, t: Thread)
    requires Run(steps) == Some(s) && Inv(s) && Enabled(s, step) && Inv(Apply(s, step))
    requires Within(s, t, StepsTaken(steps, t), CalledFor(steps, t))
    ensures Within(Apply(s, step), t, StepsTaken(steps + [step], t), CalledFor(steps + [step], t))
  {
    OneStepTaken(steps, step, t);
    if step.t != t {
      OthersStay(s, step, t);
      OthersLeave(s, step, t);
    } else {
      match step
      case New(_, _, _, _) => CallBegins(s, steps, step);
      case StartRelease(_, _) => CallBegins(s, steps, step);
      case Advance(_) => OneStepLess(s, t);
      case _ =>
    }
  }

  /** Every call ends: however the threads take turns, none takes more steps than the depth of the type it
      is about allows. */
  lemma {:induction false} CallsAreShort(steps: seq<Step>, t: Thread)
    requires Run(steps).Some?
    ensures Within(Run(steps).value, t, StepsTaken(steps, t), CalledFor(steps, t))
  {
    if steps != [] {
      var front, last := steps[..|steps| - 1], steps[|steps| - 1];
      assert steps == front + [last];
      CallsAreShort(front, t);
      EveryRunKeepsInv(front);
      StepKeepsInv(Run(front).value, last);
      StaysWithin(Run(front).value, front, last, t);
    }
  }

  lemma EveryCallEnds(steps: seq<Step>, t: Thread)
    requires Run(steps).Some? && CalledFor(steps, t).Some?
    ensures StepsTaken(steps, t) <= 6 * Depth(CalledFor(steps, t).value) + 10
    ensures StepsTaken(steps, t) == 6 * Depth(CalledFor(steps, t).value) + 10 ==> PcOf(Run(steps).value.pcs, t).Idle?
  {
    CallsAreShort(steps, t);
    EveryRunKeepsInv(steps);
    assert ThreadOk(Run(steps).value.heap, Run(steps).value.table, t, PcOf(Run(steps).value.pcs, t));
  }

  /** A call of `commonUpType` ends only by returning. */
  lemma CallsReturn(steps: seq<Step>, t: Thread)
    requires Run(steps).Some? && Enabled(Run(steps).value, Advance(t))
    requires var pc := PcOf(Run(steps).value.pcs, t); Candidate(pc).Some? || Result(pc).Some?
    ensures var s := Run(steps).value;
            var pc, pc' := PcOf(s.pcs, t), PcOf(DoAdvance(s, t).pcs, t);
            if pc'.Idle? then Result(pc).Some? && Returns(s, Advance(t), Result(pc).value)
            else Candidate(pc').Some? || Result(pc').Some?
  {
    EveryRunKeepsInv(steps);
    assert ThreadOk(Run(steps).value.heap, Run(steps).value.table, t, PcOf(Run(steps).value.pcs, t));
  }

  /** An idle thread can ask for any type over a base type it holds. */
  lemma AnyTypeCanBeAskedFor(steps: seq<Step>, t: Thread, a: Addr, fields: Fields, child: Child<Addr>)
    requires Run(steps).Some? && PcOf(Run(steps).value.pcs, t).Idle? && a !in Run(steps).value.heap
    requires child.Shared? ==> Owns(Run(steps).value, t, child.to)
    ensures var more := steps + [New(t, a, fields, child)];
            Run(more).Some? && Asked(more, t) == Some(Request(fields, child, ShapeAsked(steps, fields, child)))
            && Candidate(PcOf(Run(more).value.pcs, t)) == Some(a)
  {
    var more := steps + [New(t, a, fields, child)];
    assert more[..|steps|] == steps;
  }

  /** An idle thread can link, pass on and release whatever it holds. */
  lemma HeldLinksCanBeUsed(steps: seq<Step>, t: Thread, to: Thread, a: Addr)
    requires Run(steps).Some? && PcOf(Run(steps).value.pcs, t).Idle? && Owns(Run(steps).value, t, a)
    ensures Run(steps + [AddLink(t, a)]).Some? && Run(steps + [Give(t, to, a)]).Some?
    ensures Run(steps + [StartRelease(t, a)]).Some?
  {
    assert (steps + [AddLink(t, a)])[..|steps|] == steps && (steps + [Give(t, to, a)])[..|steps|] == steps
           && (steps + [StartRelease(t, a)])[..|steps|] == steps;
  }
}
