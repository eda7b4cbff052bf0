/** The event filter: a link in a chain of visitors that passes on the events that satisfy every term
    configured.  The configuration is complete before the first event is visited. */
module EventFilter {
  import opened Options
  import opened Events
  import opened FilterTerms
  import Extractor

  datatype Bools = Bools(acceptsFalse: bool, acceptsTrue: bool) {
    predicate Accepts(b: bool) {
      if b then acceptsTrue else acceptsFalse
    }
  }

  datatype SearchTerm = SearchTerm(bit: nat, accepted: Bools)

  datatype TraceConfig = TraceConfig(patterns: Patterns, servicePatterns: Patterns)

  /** The terms, by the attribute they test.  File numbers and trace IDs have terms of their own. */
  datatype Config = Config(
    inputFile: Option<Patterns>,
    acceptedEvents: set<EventKind>,
    texts: map<Attr, Patterns>,
    numbers: map<Attr, Ranges>,
    bools: map<Attr, Bools>,
    searchFlags: seq<SearchTerm>,
    fileId: Option<FileIdConfig>,
    traceId: Option<TraceConfig>)

  // ----- what passes ------------------------------------------------------------------------------

  /** A path also passes as the logical name of the file that the event announces. */
  ghost predicate PathPasses(ops: TextOps, patterns: Patterns, v: Visit, path: string) {
    TextPasses(ops, patterns, path)
    || (v.event.kind.FileInformation? && LogicalNameOf(v.meta, v.event) != ""
        && TextPasses(ops, patterns, LogicalNameOf(v.meta, v.event)))
  }

  ghost predicate TextAttrPasses(ops: TextOps, c: Config, v: Visit, a: Attr)
    requires a in v.event.attrs && TypeOf(a) == Str
  {
    if a == EventTraceId then
      c.traceId.Some? ==> TracePasses(ops, c.traceId.value.patterns, c.traceId.value.servicePatterns, v.meta,
                                      TextOf(v.event, a))
    else a in c.texts ==>
      if a == Attr.Path then PathPasses(ops, c.texts[a], v, TextOf(v.event, a))
        else TextPasses(ops, c.texts[a], TextOf(v.event, a))
  }

  ghost predicate NumberAttrPasses(ops: TextOps, c: Config, history: seq<Visit>, v: Visit, a: Attr)
    requires a in v.event.attrs && IsNumeric(a)
  {
    if a == FileId then c.fileId.Some? ==> FileIdPasses(ops, c.fileId.value, history, Num(v.event, a))
    else a in c.numbers ==> NumberPasses(c.numbers[a], Num(v.event, a))
  }

  ghost predicate BoolAttrPasses(c: Config, v: Visit, a: Attr)
    requires a in v.event.attrs && TypeOf(a) == Bool
  {
    a in c.bools ==> assert Admits(a, v.event.attrs[a]); c.bools[a].Accepts(v.event.attrs[a].flag)
  }

  /** The term of an attribute, if there is one, accepts its value. */
  ghost predicate AttrPasses(ops: TextOps, c: Config, history: seq<Visit>, v: Visit, a: Attr)
    requires a in v.event.attrs
  {
    if TypeOf(a) == Str then TextAttrPasses(ops, c, v, a)
    else if IsNumeric(a) then NumberAttrPasses(ops, c, history, v, a)
    else BoolAttrPasses(c, v, a)
  }

  ghost predicate FlagsPass(c: Config, e: Event) {
    SearchFlags in e.attrs ==> forall s | s in c.searchFlags :: s.accepted.Accepts(Extractor.HasFlag(e, s.bit))
  }

  /** An event passes when its file, its type, each of its attributes, its search flags, and the node
      kind that a payload implies satisfy their terms.  `history` ends with the event's own visit. */
  ghost predicate Passes(ops: TextOps, c: Config, history: seq<Visit>, v: Visit) {
    && (c.inputFile.Some? ==> TextPasses(ops, c.inputFile.value, BaseName(v.inputPath)))
    && (c.acceptedEvents != {} ==> v.event.kind in c.acceptedEvents)
    && (forall a | a in v.event.attrs :: AttrPasses(ops, c, history, v, a))
    && FlagsPass(c, v.event)
    && (v.event.kind.IndexPayload? && NodeKind in c.numbers ==> NumberPasses(c.numbers[NodeKind], LEAF_NODE))
  }

  /** The events of a run that pass, in order. */
  ghost function Passing(ops: TextOps, c: Config, run: seq<Visit>): seq<Visit> {
    if run == [] then []
    else
      var last := run[|run| - 1];
      var front := Passing(ops, c, run[..|run| - 1]);
      if Passes(ops, c, run, last) then front + [last] else front
  }

  // ----- when services count ----------------------------------------------------------------------

  /** What the trace ID term says of a trace, given the services known at a visit. */
  ghost predicate TraceVerdict(ops: TextOps, c: TraceConfig, meta: Meta, traceId: string) {
    TracePasses(ops, c.patterns, c.servicePatterns, meta, traceId)
  }

  /** The verdict on a visit's trace is what it was at every visit to that trace so far. */
  ghost predicate Steady(ops: TextOps, c: Config, history: seq<Visit>, v: Visit) {
    c.traceId.Some? && EventTraceId in v.event.attrs ==>
      var t := TextOf(v.event, EventTraceId);
      forall w | w in history && Carries(w, t) ::
        TraceVerdict(ops, c.traceId.value, w.meta, t) == TraceVerdict(ops, c.traceId.value, v.meta, t)
  }

  ghost predicate SteadyRun(ops: TextOps, c: Config, run: seq<Visit>) {
    forall i | 0 <= i < |run| :: Steady(ops, c, run[..i + 1], run[i])
  }

  /** Only a term with service patterns asks for the services in advance. */
  predicate PreScanRequired(c: Config) {
    c.traceId.Some? && c.traceId.value.servicePatterns != []
  }

  /** Services that change do not matter to a filter that does not ask for them, nor do those of other
      traces. */
  lemma SteadyIf(ops: TextOps, c: Config, run: seq<Visit>)
    requires PreScanRequired(c) ==>
               forall v, w, t | v in run && w in run && Carries(v, t) && Carries(w, t) ::
                 ServiceOf(v.meta, t) == ServiceOf(w.meta, t)
    ensures SteadyRun(ops, c, run)
  {
    forall i | 0 <= i < |run| ensures Steady(ops, c, run[..i + 1], run[i]) {
      assert forall w | w in run[..i + 1] :: w in run;
    }
  }

  /** The visits that are chosen. */
  function Chosen(run: seq<Visit>, passed: seq<bool>): seq<Visit>
    requires |passed| == |run|
  {
    if run == [] then []
    else
      var n := |run| - 1;
      Chosen(run[..n], passed[..n]) + (if passed[n] then [run[n]] else [])
  }

  /** A decision is right, unless the verdict on the trace has changed. */
  ghost predicate Right(ops: TextOps, c: Config, history: seq<Visit>, v: Visit, passed: bool) {
    Steady(ops, c, history, v) ==> (passed <==> Passes(ops, c, history, v))
  }

  ghost predicate DecidedRightly(ops: TextOps, c: Config, run: seq<Visit>, passed: seq<bool>)
    requires |passed| <= |run|
  {
    forall i | 0 <= i < |passed| :: Right(ops, c, run[..i + 1], run[i], passed[i])
  }

  lemma PrefixMore(run: seq<Visit>, i: nat)
    requires i < |run|
    ensures run[..i + 1] == run[..i] + [run[i]] && run[..i + 1][..i] == run[..i] && run[..i + 1][i] == run[i]
  {
  }

  lemma OneDecisionMore(ops: TextOps, c: Config, run: seq<Visit>, passed: seq<bool>, one: bool)
    requires |passed| < |run| && DecidedRightly(ops, c, run, passed)
    requires Right(ops, c, run[..|passed| + 1], run[|passed|], one)
    ensures DecidedRightly(ops, c, run, passed + [one])
  {
    forall i | 0 <= i <= |passed| ensures Right(ops, c, run[..i + 1], run[i], (passed + [one])[i]) {
      if i < |passed| { assert Right(ops, c, run[..i + 1], run[i], passed[i]); }
    }
  }

  lemma DecisionsBefore(passed: seq<bool>, one: bool)
    ensures (passed + [one])[..|passed|] == passed && (passed + [one])[|passed|] == one
  {
  }

  lemma LastChoice(run: seq<Visit>, passed: seq<bool>)
    requires |passed| == |run| && run != []
    ensures var n := |run| - 1;
            Chosen(run, passed) == Chosen(run[..n], passed[..n]) + (if passed[n] then [run[n]] else [])
  {
  }

  lemma OneChoiceMore(run: seq<Visit>, passed: seq<bool>, one: bool)
    requires |passed| < |run|
    ensures var i := |passed|;
            Chosen(run[..i + 1], passed + [one]) == Chosen(run[..i], passed) + (if one then [run[i]] else [])
  {
    PrefixMore(run, |passed|);
    DecisionsBefore(passed, one);
    LastChoice(run[..|passed| + 1], passed + [one]);
  }

  lemma {:induction false} ChosenArePassing(ops: TextOps, c: Config, run: seq<Visit>, passed: seq<bool>)
    requires |passed| == |run| && forall i | 0 <= i < |run| :: passed[i] <==> Passes(ops, c, run[..i + 1], run[i])
    ensures Chosen(run, passed) == Passing(ops, c, run)
  {
    if run != [] {
      var n := |run| - 1;
      assert run[..n + 1] == run;
      forall i | 0 <= i < n ensures passed[..n][i] <==> Passes(ops, c, run[..n][..i + 1], run[..n][i]) {
        assert run[..n][..i + 1] == run[..i + 1];
      }
      ChosenArePassing(ops, c, run[..n], passed[..n]);
    }
  }

  lemma SteadyChosenArePassing(ops: TextOps, c: Config, run: seq<Visit>, passed: seq<bool>)
    requires |passed| == |run| && DecidedRightly(ops, c, run, passed) && SteadyRun(ops, c, run)
    ensures Chosen(run, passed) == Passing(ops, c, run)
  {
    forall i | 0 <= i < |run| ensures passed[i] <==> Passes(ops, c, run[..i + 1], run[i]) {
      assert Right(ops, c, run[..i + 1], run[i], passed[i]);
    }
    ChosenArePassing(ops, c, run, passed);
  }

  // ----- the filter -------------------------------------------------------------------------------

  /** One term for each text attribute that is tested. */
  method MakeTextTerms(ops: TextOps, patterns: map<Attr, Patterns>)
    returns (terms: map<Attr, StringTerm>, ghost objects: set<object>)
    ensures fresh(objects) && forall a :: a in terms <==> a in patterns
    ensures forall a | a in terms ::
              terms[a] in objects && terms[a].ops == ops && terms[a].Holds(patterns[a])
    ensures forall a, b | a in terms && b in terms && a != b :: terms[a] != terms[b]
  {
    terms, objects := map[], {};
    var todo := patterns.Keys;
    while todo != {}
      invariant todo <= patterns.Keys && fresh(objects) && forall a :: a in terms <==> a in patterns && a !in todo
      invariant forall a | a in terms ::
                  terms[a] in objects && terms[a].ops == ops && terms[a].Holds(patterns[a])
      invariant forall a, b | a in terms && b in terms && a != b :: terms[a] != terms[b]
      decreases |todo|
    {
      var a :| a in todo;
      var term := new StringTerm.Of(ops, patterns[a]);
      terms, objects, todo := terms[a := term], objects + {term}, todo - {a};
    }
  }

  /** The terms of the input file, of the file number and of the trace ID, if there are any. */
  method MakeOtherTerms(ops: TextOps, config: Config)
    returns (input: StringTerm?, files: FileIdTerm?, traces: TraceIdTerm?)
    ensures input != null <==> config.inputFile.Some?
    ensures input != null ==> fresh(input) && input.ops == ops && input.Holds(config.inputFile.value)
    ensures files != null <==> config.fileId.Some?
    ensures files != null ==> fresh(files) && files.ops == ops && files.config == config.fileId.value && files.Knows([])
    ensures traces != null <==> config.traceId.Some?
    ensures traces != null ==>
              && fresh(traces) && traces.ops == ops && traces.patterns == config.traceId.value.patterns
              && traces.servicePatterns == config.traceId.value.servicePatterns && traces.knownValues == map[]
  {
    input, files, traces := null, null, null;
    if config.inputFile.Some? { input := new StringTerm.Of(ops, config.inputFile.value); }
    if config.fileId.Some? { files := new FileIdTerm(ops, config.fileId.value); }
    if config.traceId.Some? {
      traces := new TraceIdTerm(ops, config.traceId.value.patterns, config.traceId.value.servicePatterns);
    }
  }

  class Filter {
    const ops: TextOps
    const config: Config
    const textTerms: map<Attr, StringTerm>
    const inputTerm: StringTerm?
    const fileIdTerm: FileIdTerm?
    const traceIdTerm: TraceIdTerm?
    /** What has been passed to the next link. */
    var forwarded: seq<Visit>

    /** The objects that remember something. */
    ghost const Terms: set<object>

    /** The terms are those of the configuration, and no two share an object. */
    ghost predicate Configured() {
      && this !in Terms && (forall a :: a in textTerms <==> a in config.texts)
      && (forall a | a in textTerms :: textTerms[a] in Terms && textTerms[a].ops == ops && textTerms[a] != inputTerm)
      && (forall a, b | a in textTerms && b in textTerms && a != b :: textTerms[a] != textTerms[b])
      && (inputTerm != null <==> config.inputFile.Some?)
      && (inputTerm != null ==> inputTerm in Terms && inputTerm.ops == ops)
      && (fileIdTerm != null <==> config.fileId.Some?)
      && (fileIdTerm != null ==>
          fileIdTerm in Terms && fileIdTerm.ops == ops && fileIdTerm.config == config.fileId.value)
      && (traceIdTerm != null <==> config.traceId.Some?)
      && (traceIdTerm != null ==>
            && traceIdTerm in Terms && traceIdTerm.ops == ops && traceIdTerm.patterns == config.traceId.value.patterns
            && traceIdTerm.servicePatterns == config.traceId.value.servicePatterns)
    }

    /** Everything remembered comes from the history. */
    ghost predicate Remembers(history: seq<Visit>)
      requires Configured()
      reads Terms
    {
      && (forall a | a in textTerms :: textTerms[a].Holds(config.texts[a]))
      && (inputTerm != null ==> inputTerm.Holds(config.inputFile.value))
      && (fileIdTerm != null ==> fileIdTerm.Knows(history))
      && (traceIdTerm != null ==> traceIdTerm.Recalls(history))
    }

    /** A filter as it is when the configuration is complete. */
    constructor (ops: TextOps, config: Config)
      ensures this.ops == ops && this.config == config && forwarded == [] && fresh(Terms)
      ensures Configured() && Remembers([])
    {
      var texts;
      ghost var terms: set<object>;
      texts, terms := MakeTextTerms(ops, config.texts);
      var input, files, traces := MakeOtherTerms(ops, config);
      this.ops, this.config, textTerms, inputTerm, fileIdTerm, traceIdTerm := ops, config, texts, input, files, traces;
      if input != null { terms := terms + {input}; }
      if files != null { terms := terms + {files}; }
      if traces != null { terms := terms + {traces}; }
      Terms, forwarded := terms, [];
      new;
      assert traceIdTerm != null ==> traceIdTerm.Recalls([]);
      assert forall a | a in textTerms :: textTerms[a].Holds(config.texts[a]);
    }

    method MatchTrace(v: Visit, traceId: string, ghost history: seq<Visit>) returns (matched: bool)
      requires Configured() && Remembers(history) && v in history && traceIdTerm != null && Carries(v, traceId)
      modifies traceIdTerm
      ensures Remembers(history)
      ensures Steady(ops, config, history, v) ==>
                (matched <==> TraceVerdict(ops, config.traceId.value, v.meta, traceId))
    {
      matched := traceIdTerm.Recall(v, traceId, history);
    }

    method MatchStored(v: Visit, a: Attr, text: string, ghost history: seq<Visit>) returns (matched: bool)
      requires Configured() && Remembers(history) && a in textTerms
      modifies textTerms[a]
      ensures Remembers(history) && (matched <==> TextPasses(ops, config.texts[a], text))
    {
      matched := textTerms[a].Matches(text);
    }

    /** The term of the path, which looks at the logical name too. */
    method MatchPath(v: Visit, path: string, ghost history: seq<Visit>) returns (matched: bool)
      requires Configured() && Remembers(history) && Attr.Path in textTerms
      modifies textTerms[Attr.Path]
      ensures Remembers(history) && (matched <==> PathPasses(ops, config.texts[Attr.Path], v, path))
    {
      matched := MatchStored(v, Attr.Path, path, history);
      if matched || !v.event.kind.FileInformation? { return; }
      var logicalName := LogicalNameOf(v.meta, v.event);
      if logicalName != "" { matched := MatchText(ops, config.texts[Attr.Path], logicalName); }
    }

    method MatchTextAttr(v: Visit, a: Attr, ghost history: seq<Visit>) returns (matched: bool)
      requires Configured() && Remembers(history) && v in history && a in v.event.attrs && TypeOf(a) == Str
      modifies Terms
      ensures Remembers(history)
      ensures Steady(ops, config, history, v) ==> (matched <==> TextAttrPasses(ops, config, v, a))
    {
      var text := TextOf(v.event, a);
      if a == EventTraceId {
        if traceIdTerm == null { return true; }
        matched := MatchTrace(v, text, history);
      } else if a !in textTerms {
        return true;
      } else if a == Attr.Path {
        matched := MatchPath(v, text, history);
      } else {
        matched := MatchStored(v, a, text, history);
      }
    }

    method MatchNumberAttr(v: Visit, a: Attr, ghost history: seq<Visit>) returns (matched: bool)
      requires Configured() && (fileIdTerm != null ==> fileIdTerm.Knows(history))
      requires a in v.event.attrs && IsNumeric(a)
      ensures matched <==> NumberAttrPasses(ops, config, history, v, a)
    {
      if a == FileId {
        if fileIdTerm == null { return true; }
        matched := fileIdTerm.Matches(Num(v.event, a), history);
      } else {
        if a !in config.numbers { return true; }
        matched := MatchNumber(config.numbers[a], Num(v.event, a));
      }
    }

    method MatchAttribute(v: Visit, a: Attr, ghost history: seq<Visit>) returns (matched: bool)
      requires Configured() && Remembers(history) && v in history && a in v.event.attrs
      modifies Terms
      ensures Remembers(history)
      ensures Steady(ops, config, history, v) ==> (matched <==> AttrPasses(ops, config, history, v, a))
    {
      if TypeOf(a) == Str {
        matched := MatchTextAttr(v, a, history);
      } else {
        matched := MatchOtherAttr(v, a, history);
      }
    }

    /** A number or a truth value; these terms remember nothing of the attribute. */
    method MatchOtherAttr(v: Visit, a: Attr, ghost history: seq<Visit>) returns (matched: bool)
      requires Configured() && (fileIdTerm != null ==> fileIdTerm.Knows(history))
      requires a in v.event.attrs && TypeOf(a) != Str
      ensures matched <==> AttrPasses(ops, config, history, v, a)
    {
      if IsNumeric(a) {
        matched := MatchNumberAttr(v, a, history);
      } else {
        matched := MatchBoolAttr(v, a);
      }
    }

    method MatchBoolAttr(v: Visit, a: Attr) returns (matched: bool)
      requires a in v.event.attrs && TypeOf(a) == Bool
      ensures matched <==> BoolAttrPasses(config, v, a)
    {
      if a !in config.bools { return true; }
      assert Admits(a, v.event.attrs[a]);
      matched := config.bools[a].Accepts(v.event.attrs[a].flag);
    }

    /** The loop over the assigned attributes, in whatever order they come. */
    method MatchAttributes(v: Visit, ghost history: seq<Visit>) returns (matched: bool)
      requires Configured() && Remembers(history) && v in history
      modifies Terms
      ensures Remembers(history)
      ensures Steady(ops, config, history, v) ==>
                (matched <==> forall a | a in v.event.attrs :: AttrPasses(ops, config, history, v, a))
    {
      var todo := v.event.attrs.Keys;
      while todo != {}
        invariant todo <= v.event.attrs.Keys && Remembers(history)
        invariant Steady(ops, config, history, v) ==>
                    forall a | a in v.event.attrs && a !in todo :: AttrPasses(ops, config, history, v, a)
        decreases |todo|
      {
        var a :| a in todo;
        var ok := MatchAttribute(v, a, history);
        if !ok { return false; }
        todo := todo - {a};
      }
      return true;
    }

    method MatchFlags(e: Event) returns (matched: bool)
      ensures matched <==> FlagsPass(config, e)
    {
      if SearchFlags !in e.attrs { return true; }
      for i := 0 to |config.searchFlags|
        invariant forall s | s in config.searchFlags[..i] :: s.accepted.Accepts(Extractor.HasFlag(e, s.bit))
      {
        var s := config.searchFlags[i];
        if !s.accepted.Accepts(Extractor.HasFlag(e, s.bit)) { return false; }
        assert config.searchFlags[..i + 1] == config.searchFlags[..i] + [s];
      }
      assert config.searchFlags[..|config.searchFlags|] == config.searchFlags;
      return true;
    }

    /** The tests of `visitEvent`, in its order. */
    method Matches(v: Visit, ghost history: seq<Visit>) returns (matched: bool)
      requires Configured() && Remembers(history) && v in history
      modifies Terms
      ensures Remembers(history)
      ensures Steady(ops, config, history, v) ==> (matched <==> Passes(ops, config, history, v))
    {
      if inputTerm != null {
        var ok := inputTerm.Matches(BaseName(v.inputPath));
        if !ok { return false; }
      }
      if config.acceptedEvents != {} && v.event.kind !in config.acceptedEvents { return false; }
      matched := MatchAttributes(v, history);
      if !matched { return; }
      matched := MatchFlags(v.event);
      if !matched { return; }
      if v.event.kind.IndexPayload? && NodeKind in config.numbers {
        matched := MatchNumber(config.numbers[NodeKind], LEAF_NODE);
      }
    }

    /** Only the file number term looks at an event in advance. */
    method Observe(v: Visit, ghost history: seq<Visit>)
      requires Configured() && Remembers(history)
      modifies fileIdTerm
      ensures Remembers(history + [v])
    {
      if traceIdTerm != null { traceIdTerm.RecallsMore(history, v); }
      if fileIdTerm != null { fileIdTerm.Observe(v, history); }
    }

    /** `visitEvent`: every term sees the event before any can refuse it. */
    method VisitEvent(v: Visit, ghost history: seq<Visit>) returns (ghost passed: bool)
      requires Configured() && Remembers(history)
      modifies this`forwarded, Terms
      ensures Remembers(history + [v])
      ensures forwarded == old(forwarded) + (if passed then [v] else [])
      ensures Right(ops, config, history + [v], v, passed)
    {
      Observe(v, history);
      var matched := Matches(v, history + [v]);
      if matched { forwarded := forwarded + [v]; }
      passed := matched;
    }
  }

  /** A whole run, whatever services become known in its course: every visit whose trace has the verdict
      it had before is decided rightly, and if that is so of all, what is forwarded is exactly what
      passes, in order. */
  method Run(f: Filter, run: seq<Visit>) returns (ghost passed: seq<bool>)
    requires f.Configured() && f.Remembers([]) && f.forwarded == []
    modifies f`forwarded, f.Terms
    ensures |passed| == |run| && f.forwarded == Chosen(run, passed)
    ensures DecidedRightly(f.ops, f.config, run, passed)
    ensures SteadyRun(f.ops, f.config, run) ==> f.forwarded == Passing(f.ops, f.config, run)
  {
    passed := [];
    for i := 0 to |run|
      invariant |passed| == i && f.Remembers(run[..i]) && f.forwarded == Chosen(run[..i], passed)
      invariant DecidedRightly(f.ops, f.config, run, passed)
    {
      PrefixMore(run, i);
      ghost var one := f.VisitEvent(run[i], run[..i]);
      OneDecisionMore(f.ops, f.config, run, passed, one);
      OneChoiceMore(run, passed, one);
      passed := passed + [one];
    }
    assert run[..|run|] == run;
    if SteadyRun(f.ops, f.config, run) { SteadyChosenArePassing(f.ops, f.config, run, passed); }
  }
}
