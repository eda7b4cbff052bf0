/** A whole traversal of recorded files: the metadata is collected in advance if the filter asks for it, else
    while the events go by, and the filter passes on what it should. */
module Traversal {
  import opened Options
  import opened Events
  import opened MetaState
  import opened FilterTerms
  import opened EventFilter

  /** The file that the event of each item was read from. */
  type InputFn = nat -> string

  /** The events that a filter visits: with all that a pre-scan has found, else with what is known by then. */
  function Visits(derive: DeriveFn, scanned: Option<Known>, run: seq<Item>, input: InputFn): seq<Visit>
    requires scanned.None? ==> After(derive, run).Some?
  {
    if run == [] then []
    else
      var n := |run| - 1;
      var front := Visits(derive, scanned, run[..n], input);
      match run[n]
      case Opened => front
      case Seen(e) =>
        if scanned.Some? then front + [Visit(Remapped(scanned.value, e), scanned.value.meta, input(n))]
        else
          var step := Next(derive, After(derive, run[..n]).value, e).value;
          front + [Visit(step.event, step.known.meta, input(n))]
  }

  /** What is known before the traversal proper. */
  function Scanned(derive: DeriveFn, recording: seq<Item>, preScan: bool): Option<Known> {
    if preScan then After(derive, recording) else None
  }

  // ----- the filter in a traversal ------------------------------------------------------------------

  lemma {:induction false} ScannedVisits(derive: DeriveFn, known: Known, run: seq<Item>, input: InputFn)
    ensures forall v | v in Visits(derive, Some(known), run, input) :: v.meta == known.meta
  {
    if run != [] { ScannedVisits(derive, known, run[..|run| - 1], input); }
  }

  /** The verdict on a trace never changes in a traversal that has had the pre-scan the filter asks for. */
  lemma TraversalIsSteady(ops: TextOps, c: Config, derive: DeriveFn, scanned: Option<Known>, run: seq<Item>,
                          input: InputFn)
    requires scanned.None? ==> After(derive, run).Some?
    requires PreScanRequired(c) ==> scanned.Some?
    ensures SteadyRun(ops, c, Visits(derive, scanned, run, input))
  {
    if scanned.Some? { ScannedVisits(derive, scanned.value, run, input); }
    SteadyIf(ops, c, Visits(derive, scanned, run, input));
  }

  /** The collector sees an item. */
  method Collect(state: MetaInfoState, item: Item) returns (ok: bool)
    requires state.Valid()
    modifies state
    ensures state.Valid()
    ensures NextKnown(state.derive, old(state.Shown()), item) == if ok then Some(state.Shown()) else None
  {
    ok := true;
    match item
    case Opened => state.OnFile();
    case Seen(e) =>
      var event;
      ok, event := state.OnEvent(e);
  }

  lemma {:induction false} NoneStaysNone(derive: DeriveFn, run: seq<Item>, i: nat)
    requires i <= |run| && After(derive, run[..i]).None?
    ensures After(derive, run).None?
  {
    if i == |run| {
      assert run[..i] == run;
    } else {
      assert run[..|run| - 1][..i] == run[..i];
      NoneStaysNone(derive, run[..|run| - 1], i);
    }
  }

  lemma KnownNext(derive: DeriveFn, run: seq<Item>, i: nat)
    requires i < |run| && After(derive, run[..i]).Some?
    ensures After(derive, run[..i + 1]) == NextKnown(derive, After(derive, run[..i]).value, run[i])
  {
    assert run[..i + 1] == run[..i] + [run[i]];
    OneItemMore(derive, run[..i], run[i]);
  }

  /** `preScanEvents` */
  method PreScan(state: MetaInfoState, recording: seq<Item>) returns (ok: bool)
    requires state.Valid() && state.Shown() == NOTHING
    modifies state
    ensures state.Valid() && After(state.derive, recording) == if ok then Some(state.Shown()) else None
  {
    for i := 0 to |recording|
      invariant state.Valid() && After(state.derive, recording[..i]) == Some(state.Shown())
    {
      KnownNext(state.derive, recording, i);
      ok := Collect(state, recording[i]);
      if !ok {
        NoneStaysNone(state.derive, recording, i + 1);
        return;
      }
    }
    assert recording[..|recording|] == recording;
    ok := true;
  }

  /** An event on its way to the filter: after a pre-scan it only gets the number of its file. */
  method PassOn(state: MetaInfoState, scanned: bool, e: Event) returns (ok: bool, event: Event)
    requires state.Valid()
    modifies state
    ensures state.Valid()
    ensures scanned ==> ok && state.Shown() == old(state.Shown()) && event == Remapped(state.Shown(), e)
    ensures !scanned ==>
              Next(state.derive, old(state.Shown()), e) == if ok then Some(Step(state.Shown(), event)) else None
  {
    if scanned {
      ok := true;
      event := state.TryRemapFileId(e);
    } else {
      ok, event := state.OnEvent(e);
    }
  }

  /** What the state holds when so much of a recording has been visited. */
  ghost predicate UpToDate(k: Known, derive: DeriveFn, scanned: Option<Known>, run: seq<Item>) {
    if scanned.Some? then k == scanned.value else After(derive, run) == Some(k)
  }

  lemma OneVisitMore(derive: DeriveFn, scanned: Option<Known>, run: seq<Item>, i: nat, input: InputFn)
    requires i < |run| && (scanned.None? ==> After(derive, run[..i + 1]).Some?)
    ensures scanned.None? ==>
              After(derive, run[..i]).Some?
              && NextKnown(derive, After(derive, run[..i]).value, run[i]) == After(derive, run[..i + 1])
    ensures Visits(derive, scanned, run[..i + 1], input) == Visits(derive, scanned, run[..i], input) +
              match run[i]
              case Opened => []
              case Seen(e) =>
                if scanned.Some? then [Visit(Remapped(scanned.value, e), scanned.value.meta, input(i))]
                else
                  var step := Next(derive, After(derive, run[..i]).value, e).value;
                  [Visit(step.event, step.known.meta, input(i))]
  {
    assert run[..i + 1][..i] == run[..i] && run[..i + 1][i] == run[i];
  }

  /** One more visit to a filter, when the verdict on its trace is what it was. */
  method VisitOne(f: Filter, v: Visit, ghost visits: seq<Visit>)
    requires f.Configured() && f.Remembers(visits) && f.forwarded == Passing(f.ops, f.config, visits)
    requires Steady(f.ops, f.config, visits + [v], v)
    modifies f`forwarded, f.Terms
    ensures f.Remembers(visits + [v]) && f.forwarded == Passing(f.ops, f.config, visits + [v])
  {
    ghost var passed := f.VisitEvent(v, visits);
    assert (visits + [v])[..|visits|] == visits;
  }

  lemma LastIsSteady(ops: TextOps, c: Config, visits: seq<Visit>, v: Visit)
    requires SteadyRun(ops, c, visits + [v])
    ensures Steady(ops, c, visits + [v], v)
  {
    var run, n := visits + [v], |visits|;
    assert run[..n + 1] == run && run[n] == v;
    assert Steady(ops, c, run[..n + 1], run[n]);
  }

  /** So much of a recording has been visited. */
  ghost predicate Visited(f: Filter, known: Known, derive: DeriveFn, scanned: Option<Known>, run: seq<Item>,
                          input: InputFn)
    requires f.Configured()
    reads f, f.Terms
  {
    UpToDate(known, derive, scanned, run)
    && f.Remembers(Visits(derive, scanned, run, input))
    && f.forwarded == Passing(f.ops, f.config, Visits(derive, scanned, run, input))
  }

  /** An event is passed on and visited. */
  method VisitSeen(f: Filter, state: MetaInfoState, recording: seq<Item>, i: nat, preScan: bool, input: InputFn,
                   ghost scanned: Option<Known>)
    returns (ok: bool)
    requires i < |recording| && recording[i].Seen? && state.Valid() && state !in f.Terms && f.Configured()
    requires preScan == scanned.Some? && (PreScanRequired(f.config) ==> preScan)
    requires Visited(f, state.Shown(), state.derive, scanned, recording[..i], input)
    modifies state, f`forwarded, f.Terms
    ensures state.Valid()
    ensures ok ==> Visited(f, state.Shown(), state.derive, scanned, recording[..i + 1], input)
    ensures !ok ==> After(state.derive, recording).None?
  {
    ghost var derive := state.derive;
    ghost var visits := Visits(derive, scanned, recording[..i], input);
    if scanned.None? { KnownNext(derive, recording, i); }
    var event;
    ok, event := PassOn(state, preScan, recording[i].event);
    if !ok {
      NoneStaysNone(derive, recording, i + 1);
      return;
    }
    OneVisitMore(derive, scanned, recording, i, input);
    TraversalIsSteady(f.ops, f.config, derive, scanned, recording[..i + 1], input);
    var v := Visit(event, state.meta, input(i));
    LastIsSteady(f.ops, f.config, visits, v);
    VisitOne(f, v, visits);
  }

  /** After a pre-scan a source is not counted again. */
  method VisitOpened(f: Filter, state: MetaInfoState, recording: seq<Item>, i: nat, preScan: bool, input: InputFn,
                     ghost scanned: Option<Known>)
    requires i < |recording| && recording[i].Opened? && state.Valid() && state !in f.Terms && f.Configured()
    requires preScan == scanned.Some?
    requires Visited(f, state.Shown(), state.derive, scanned, recording[..i], input)
    modifies state
    ensures state.Valid() && Visited(f, state.Shown(), state.derive, scanned, recording[..i + 1], input)
  {
    if scanned.None? { KnownNext(state.derive, recording, i); }
    OneVisitMore(state.derive, scanned, recording, i, input);
    assert Visits(state.derive, scanned, recording[..i + 1], input)
        == Visits(state.derive, scanned, recording[..i], input);
    if !preScan { state.OnFile(); }
  }

  /** `traverseEvents`: with the pre-scan that its filter asks for, or one that something else asks for, a
      filter passes on exactly what passes, in order.  It fails exactly when the metadata cannot be collected. */
  method Traverse(f: Filter, derive: DeriveFn, recording: seq<Item>, preScan: bool, input: InputFn)
    returns (ok: bool)
    requires f.Configured() && f.Remembers([]) && f.forwarded == [] && (PreScanRequired(f.config) ==> preScan)
    modifies f`forwarded, f.Terms
    ensures ok <==> After(derive, recording).Some?
    ensures ok ==>
              f.forwarded ==
              Passing(f.ops, f.config, Visits(derive, Scanned(derive, recording, preScan), recording, input))
  {
    var state := new MetaInfoState(derive);
    if preScan {
      ok := PreScan(state, recording);
      if !ok { return; }
    }
    ghost var scanned := Scanned(derive, recording, preScan);
    for i := 0 to |recording|
      invariant state.Valid() && state.derive == derive
      invariant Visited(f, state.Shown(), derive, scanned, recording[..i], input)
    {
      if recording[i].Opened? {
        VisitOpened(f, state, recording, i, preScan, input, scanned);
      } else {
        ok := VisitSeen(f, state, recording, i, preScan, input, scanned);
        if !ok { return; }
      }
    }
    assert recording[..|recording|] == recording;
    ok := true;
  }
}
