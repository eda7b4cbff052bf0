/** The terms of the event filter.  Wildcard matching and the comparison of texts without regard to
    case are parameters. */
module FilterTerms {
  import opened Options
  import opened Events

  // ----- allowing and denying ---------------------------------------------------------------------

  /** What one pattern says of a value: whether it denies rather than allows, and whether it applies. */
  datatype Rule = Rule(deny: bool, hit: bool)

  /** A value is refused if a denying rule applies.  Otherwise, if any rule allows, one of those has to
      apply, and if all rules deny, the value passes.  Without rules nothing passes. */
  ghost predicate Verdict(rules: set<Rule>) {
    && Rule(true, true) !in rules
    && (if Rule(false, true) in rules || Rule(false, false) in rules then Rule(false, true) in rules
        else Rule(true, false) in rules)
  }

  // ----- text -------------------------------------------------------------------------------------

  datatype Comparison =
    | Default | Wildcard | Equal | NotEqual | LessThan | LessThanOrEqual | GreaterThanOrEqual | GreaterThan
    | ElementOf | NotElementOf | Except

  datatype Pattern = Pattern(text: string, comparison: Comparison)

  /** `WildMatch` and `stricmp`. */
  datatype TextOps = TextOps(wild: (string, string) -> bool, compare: (string, string) -> int)

  predicate IsTextComparison(c: Comparison) {
    c !in {ElementOf, NotElementOf, Except}
  }

  function TextRule(ops: TextOps, p: Pattern, value: string): Rule
    requires IsTextComparison(p.comparison)
  {
    var order := ops.compare(value, p.text);
    match p.comparison
    case Default => Rule(false, ops.wild(value, p.text))
    case Wildcard => Rule(false, ops.wild(value, p.text))
    case Equal => Rule(false, order == 0)
    case NotEqual => Rule(true, order == 0)
    case LessThan => Rule(false, order < 0)
    case LessThanOrEqual => Rule(false, order <= 0)
    case GreaterThanOrEqual => Rule(false, order >= 0)
    case GreaterThan => Rule(false, order > 0)
  }

  type Patterns = ps: seq<Pattern> | forall p | p in ps :: IsTextComparison(p.comparison)

  /** Whether a text passes some patterns. */
  ghost predicate TextPasses(ops: TextOps, patterns: Patterns, value: string) {
    Verdict(set p | p in patterns :: TextRule(ops, p, value))
  }

  /** `StringMatchHelper::matches` */
  method MatchText(ops: TextOps, patterns: Patterns, value: string) returns (matched: bool)
    ensures matched <==> TextPasses(ops, patterns, value)
  {
    var positiveMatch, hasPositive, hasNegative := false, false, false;
    ghost var rules := set p | p in patterns :: TextRule(ops, p, value);
    for i := 0 to |patterns|
      invariant positiveMatch <==> exists j | 0 <= j < i :: TextRule(ops, patterns[j], value) == Rule(false, true)
      invariant hasPositive <==> exists j | 0 <= j < i :: !TextRule(ops, patterns[j], value).deny
      invariant hasNegative <==> exists j | 0 <= j < i :: TextRule(ops, patterns[j], value).deny
      invariant forall j | 0 <= j < i :: TextRule(ops, patterns[j], value) != Rule(true, true)
    {
      var p := patterns[i];
      var order := ops.compare(value, p.text);
      match p.comparison
      case Default => hasPositive := true; positiveMatch := positiveMatch || ops.wild(value, p.text);
      case Wildcard => hasPositive := true; positiveMatch := positiveMatch || ops.wild(value, p.text);
      case Equal => hasPositive := true; positiveMatch := positiveMatch || order == 0;
      case NotEqual =>
        hasNegative := true;
        if order == 0 {
          assert TextRule(ops, p, value) in rules;
          return false;
        }
      case LessThan => hasPositive := true; positiveMatch := positiveMatch || order < 0;
      case LessThanOrEqual => hasPositive := true; positiveMatch := positiveMatch || order <= 0;
      case GreaterThanOrEqual => hasPositive := true; positiveMatch := positiveMatch || order >= 0;
      case GreaterThan => hasPositive := true; positiveMatch := positiveMatch || order > 0;
    }
    assert forall j | 0 <= j < |patterns| :: TextRule(ops, patterns[j], value) in rules;
    assert forall r | r in rules :: exists j | 0 <= j < |patterns| :: r == TextRule(ops, patterns[j], value);
    if hasPositive { return positiveMatch; }
    return hasNegative;
  }

  /** `StringFilterTerm`: verdicts are remembered. */
  class StringTerm {
    const ops: TextOps
    var patterns: Patterns
    var knownValues: map<string, bool>

    /** What is remembered is what the patterns say. */
    ghost predicate Agrees()
      reads this
    {
      forall v | v in knownValues :: knownValues[v] <==> TextPasses(ops, patterns, v)
    }

    ghost predicate Holds(ps: Patterns)
      reads this
    {
      patterns == ps && Agrees()
    }

    constructor (ops: TextOps)
      ensures this.ops == ops && patterns == [] && knownValues == map[] && Agrees()
    {
      this.ops, patterns, knownValues := ops, [], map[];
    }

    /** A term that patterns have been added to already. */
    constructor Of(ops: TextOps, patterns: Patterns)
      ensures this.ops == ops && Holds(patterns)
    {
      this.ops, this.patterns, knownValues := ops, patterns, map[];
    }

    /** `acceptToken`.  What is remembered already stays, right or wrong: it is still what the patterns
        say exactly if the new pattern changes none of the verdicts. */
    method AcceptToken(token: string, comparison: Comparison) returns (ok: bool)
      modifies this`patterns
      ensures ok <==> IsTextComparison(comparison)
      ensures patterns ==
              if ok && Pattern(token, comparison) !in old(patterns) then old(patterns) + [Pattern(token, comparison)]
              else old(patterns)
      ensures old(Agrees()) ==>
                (Agrees() <==> forall v | v in knownValues ::
                                 TextPasses(ops, old(patterns), v) <==> TextPasses(ops, patterns, v))
    {
      if !IsTextComparison(comparison) { return false; }
      if Pattern(token, comparison) !in patterns { patterns := patterns + [Pattern(token, comparison)]; }
      return true;
    }

    /** `matchesValue` */
    method Matches(value: string) returns (matched: bool)
      modifies this`knownValues
      ensures matched <==> if value in old(knownValues) then old(knownValues[value])
              else TextPasses(ops, patterns, value)
      ensures knownValues == if value in old(knownValues) then old(knownValues) else old(knownValues)[value := matched]
      ensures old(Agrees()) ==> Agrees() && (matched <==> TextPasses(ops, patterns, value))
    {
      if value in knownValues { return knownValues[value]; }
      matched := MatchText(ops, patterns, value);
      knownValues := knownValues[value := matched];
    }
  }

  /** A pattern that is added after a value has been remembered need not be seen: here the term refuses
      a value that its patterns accept, because it remembers what fewer patterns said. */
  method LatePatternIsMissed(ops: TextOps, value: string) returns (term: StringTerm, before: bool, after: bool)
    requires ops.compare(value, value) == 0
    ensures fresh(term) && !before && !after && TextPasses(ops, term.patterns, value)
  {
    term := new StringTerm(ops);
    NoPatternsRefuse(ops, value);
    before := term.Matches(value);
    var ok := term.AcceptToken(value, Equal);
    after := term.Matches(value);
    assert term.patterns == [Pattern(value, Equal)];
    EqualAccepts(ops, value);
  }

  lemma EqualAccepts(ops: TextOps, value: string)
    requires ops.compare(value, value) == 0
    ensures TextPasses(ops, [Pattern(value, Equal)], value)
  {
    var ps: Patterns := [Pattern(value, Equal)];
    assert (set p | p in ps :: TextRule(ops, p, value)) == {TextRule(ops, ps[0], value)};
  }

  // ----- numbers ----------------------------------------------------------------------------------

  datatype Range = Range(first: nat, last: nat, comparison: Comparison)

  /** `acceptRange` only admits these. */
  predicate IsRange(r: Range) {
    && r.first <= r.last && r.comparison !in {Wildcard, Except}
    && (r.comparison in {Equal, NotEqual} ==> r.first == r.last)
  }

  type Ranges = rs: seq<Range> | forall r | r in rs :: IsRange(r)

  function RangeRule(r: Range, value: nat): Rule
    requires IsRange(r)
  {
    match r.comparison
    case NotElementOf => Rule(true, r.first <= value <= r.last)
    case NotEqual => Rule(true, r.first == value)
    case Equal => Rule(false, r.first == value)
    case LessThan => Rule(false, value < r.first)
    case LessThanOrEqual => Rule(false, value <= r.first)
    case GreaterThanOrEqual => Rule(false, r.last <= value)
    case GreaterThan => Rule(false, r.last < value)
    case _ => Rule(false, r.first <= value <= r.last)
  }

  ghost predicate NumberPasses(ranges: Ranges, value: nat) {
    Verdict(set r | r in ranges :: RangeRule(r, value))
  }

  /** `acceptRange`; a range that is already there is not accepted again. */
  method AcceptRange(ranges: Ranges, r: Range) returns (ok: bool, after: Ranges)
    ensures ok <==> IsRange(r) && r !in ranges
    ensures after == if ok then ranges + [r] else ranges
  {
    if r.comparison in {Wildcard, Except} { return false, ranges; }
    if r.comparison in {Equal, NotEqual} && r.first != r.last { return false, ranges; }
    if r.first <= r.last {
      if r in ranges { return false, ranges; }
      return true, ranges + [r];
    }
    return false, ranges;
  }

  /** `UnsignedFilterTerm::matches` */
  method MatchNumber(ranges: Ranges, value: nat) returns (matched: bool)
    ensures matched <==> NumberPasses(ranges, value)
  {
    var positiveMatch, hasPositive, hasNegative := false, false, false;
    ghost var rules := set r | r in ranges :: RangeRule(r, value);
    for i := 0 to |ranges|
      invariant positiveMatch <==> exists j | 0 <= j < i :: RangeRule(ranges[j], value) == Rule(false, true)
      invariant hasPositive <==> exists j | 0 <= j < i :: !RangeRule(ranges[j], value).deny
      invariant hasNegative <==> exists j | 0 <= j < i :: RangeRule(ranges[j], value).deny
      invariant forall j | 0 <= j < i :: RangeRule(ranges[j], value) != Rule(true, true)
    {
      var r := ranges[i];
      match r.comparison
      case NotElementOf =>
        hasNegative := true;
        if r.first <= value <= r.last {
          assert RangeRule(r, value) in rules;
          return false;
        }
      case NotEqual =>
        hasNegative := true;
        if r.first == value {
          assert RangeRule(r, value) in rules;
          return false;
        }
      case Equal => hasPositive := true; positiveMatch := positiveMatch || r.first == value;
      case LessThan => hasPositive := true; positiveMatch := positiveMatch || value < r.first;
      case LessThanOrEqual => hasPositive := true; positiveMatch := positiveMatch || value <= r.first;
      case GreaterThanOrEqual => hasPositive := true; positiveMatch := positiveMatch || r.last <= value;
      case GreaterThan => hasPositive := true; positiveMatch := positiveMatch || r.last < value;
      case _ => hasPositive := true; positiveMatch := positiveMatch || r.first <= value <= r.last;
    }
    assert forall j | 0 <= j < |ranges| :: RangeRule(ranges[j], value) in rules;
    assert forall s | s in rules :: exists j | 0 <= j < |ranges| :: s == RangeRule(ranges[j], value);
    if hasPositive { return positiveMatch; }
    return hasNegative;
  }

  // ----- what a term sees -------------------------------------------------------------------------

  /** An event, the metadata known when it is visited, and the path of the file it was read from. */
  datatype Visit = Visit(event: Event, meta: Meta, inputPath: string)

  // ----- file numbers -----------------------------------------------------------------------------

  /** The patterns of a file number term, and of the texts that its files can be known by. */
  datatype FileIdConfig = FileIdConfig(ranges: Ranges, paths: Patterns, planes: Patterns, logicalNames: Patterns)

  ghost predicate TextMatches(ops: TextOps, patterns: Patterns, text: string) {
    patterns != [] && text != "" && TextPasses(ops, patterns, text)
  }

  /** One of the texts that a file is announced with matches. */
  ghost predicate SomeTextMatches(ops: TextOps, c: FileIdConfig, path: string, plane: string, logicalName: string) {
    TextMatches(ops, c.paths, path) || TextMatches(ops, c.planes, plane)
      || TextMatches(ops, c.logicalNames, logicalName)
  }

  /** The visit announces the file under a text that matches. */
  ghost predicate Announces(ops: TextOps, c: FileIdConfig, v: Visit, id: nat) {
    && v.event.kind.FileInformation? && OptionalNum(v.event, FileId) == id
    && SomeTextMatches(ops, c, OptionalText(v.event, Attr.Path), PlaneOf(v.meta, v.event),
                       LogicalNameOf(v.meta, v.event))
  }

  ghost predicate Announced(ops: TextOps, c: FileIdConfig, history: seq<Visit>, id: nat) {
    exists v | v in history :: Announces(ops, c, v, id)
  }

  /** The file number matches, or some visit up to now has announced the file under a matching text. */
  ghost predicate FileIdPasses(ops: TextOps, c: FileIdConfig, history: seq<Visit>, id: nat) {
    NumberPasses(c.ranges, id) || Announced(ops, c, history, id)
  }

  lemma AnnouncedMore(ops: TextOps, c: FileIdConfig, history: seq<Visit>, v: Visit)
    ensures forall id: nat ::
              Announced(ops, c, history + [v], id) <==> Announced(ops, c, history, id) || Announces(ops, c, v, id)
  {
    assert v in history + [v];
    assert forall w :: w in history + [v] <==> w in history || w == v;
  }

  class FileIdTerm {
    const ops: TextOps
    const config: FileIdConfig
    var matchedDerivations: set<nat>

    constructor (ops: TextOps, config: FileIdConfig)
      ensures this.ops == ops && this.config == config && Knows([])
    {
      this.ops, this.config, matchedDerivations := ops, config, {};
    }

    /** The files announced so far are those of the history. */
    ghost predicate Knows(history: seq<Visit>)
      reads this
    {
      forall id: nat :: id in matchedDerivations <==> Announced(ops, config, history, id)
    }

    method ObserveMatchedText(patterns: Patterns, text: string, id: nat)
      modifies this`matchedDerivations
      ensures matchedDerivations ==
              if TextPasses(ops, patterns, text) && text != "" then old(matchedDerivations) + {id}
              else old(matchedDerivations)
    {
      if text != "" {
        var matched := MatchText(ops, patterns, text);
        if matched { matchedDerivations := matchedDerivations + {id}; }
      }
    }

    method Observe(v: Visit, ghost history: seq<Visit>)
      requires Knows(history)
      modifies this`matchedDerivations
      ensures Knows(history + [v])
    {
      AnnouncedMore(ops, config, history, v);
      if v.event.kind.FileInformation? { ObserveFile(v); }
    }

    lemma FileAnnounces(v: Visit)
      requires v.event.kind.FileInformation?
      ensures var matches := SomeTextMatches(ops, config, OptionalText(v.event, Attr.Path), PlaneOf(v.meta, v.event),
                                             LogicalNameOf(v.meta, v.event));
              forall n: nat :: Announces(ops, config, v, n) <==> n == OptionalNum(v.event, FileId) && matches
    {
    }

    method ObserveFile(v: Visit)
      requires v.event.kind.FileInformation?
      modifies this`matchedDerivations
      ensures forall n: nat :: n in matchedDerivations <==> n in old(matchedDerivations) || Announces(ops, config, v, n)
    {
      var id := OptionalNum(v.event, FileId);
      var path, plane, logicalName := OptionalText(v.event, Attr.Path), PlaneOf(v.meta, v.event),
        LogicalNameOf(v.meta, v.event);
      FileAnnounces(v);
      ObserveTexts(path, plane, logicalName, id);
    }

    method ObserveTexts(path: string, plane: string, logicalName: string, id: nat)
      modifies this`matchedDerivations
      ensures matchedDerivations ==
              if SomeTextMatches(ops, config, path, plane, logicalName) then old(matchedDerivations) + {id}
              else old(matchedDerivations)
    {
      if config.paths != [] { ObserveMatchedText(config.paths, path, id); }
      if config.planes != [] { ObserveMatchedText(config.planes, plane, id); }
      if config.logicalNames != [] { ObserveMatchedText(config.logicalNames, logicalName, id); }
    }

    method Matches(id: nat, ghost history: seq<Visit>) returns (matched: bool)
      requires Knows(history)
      ensures matched <==> FileIdPasses(ops, config, history, id)
    {
      if id in matchedDerivations { return true; }
      matched := MatchNumber(config.ranges, id);
    }
  }

  // ----- trace IDs --------------------------------------------------------------------------------

  /** The trace is matched by its own text, or by the name of the service that it belongs to. */
  ghost predicate TracePasses(ops: TextOps, patterns: Patterns, servicePatterns: Patterns, meta: Meta,
                              traceId: string) {
    TextPasses(ops, patterns, traceId) || TextMatches(ops, servicePatterns, ServiceOf(meta, traceId))
  }

  predicate Carries(v: Visit, traceId: string) {
    EventTraceId in v.event.attrs && TextOf(v.event, EventTraceId) == traceId
  }

  /** The verdict on a trace at some visit to it. */
  ghost predicate Said(ops: TextOps, patterns: Patterns, servicePatterns: Patterns, history: seq<Visit>,
                       traceId: string, verdict: bool) {
    exists w | w in history ::
      Carries(w, traceId) && (verdict <==> TracePasses(ops, patterns, servicePatterns, w.meta, traceId))
  }

  class TraceIdTerm {
    const ops: TextOps
    const patterns: Patterns
    const servicePatterns: Patterns
    var knownValues: map<string, bool>

    constructor (ops: TextOps, patterns: Patterns, servicePatterns: Patterns)
      ensures this.ops == ops && this.patterns == patterns && this.servicePatterns == servicePatterns
      ensures knownValues == map[]
    {
      this.ops, this.patterns, this.servicePatterns, knownValues := ops, patterns, servicePatterns, map[];
    }

    /** What is remembered is what the patterns say, given which service each trace belongs to. */
    ghost predicate Agrees(meta: Meta)
      reads this
    {
      forall t | t in knownValues :: knownValues[t] <==> TracePasses(ops, patterns, servicePatterns, meta, t)
    }

    /** What is remembered was said at some visit. */
    ghost predicate Recalls(history: seq<Visit>)
      reads `knownValues
    {
      forall t | t in knownValues :: Said(ops, patterns, servicePatterns, history, t, knownValues[t])
    }

    lemma RecallsMore(history: seq<Visit>, v: Visit)
      requires Recalls(history)
      ensures Recalls(history + [v])
    {
      forall t | t in knownValues ensures Said(ops, patterns, servicePatterns, history + [v], t, knownValues[t]) {
        var w :| w in history && Carries(w, t)
          && (knownValues[t] <==> TracePasses(ops, patterns, servicePatterns, w.meta, t));
        assert w in history + [v];
      }
    }

    /** `matches` within a history: the answer was said at some visit to the trace, maybe this one. */
    method Recall(v: Visit, traceId: string, ghost history: seq<Visit>) returns (matched: bool)
      requires Recalls(history) && v in history && Carries(v, traceId)
      modifies this`knownValues
      ensures Recalls(history) && Said(ops, patterns, servicePatterns, history, traceId, matched)
    {
      ghost var was := knownValues;
      matched := Matches(v, traceId);
      assert Said(ops, patterns, servicePatterns, history, traceId, matched) by {
        if traceId in was { assert Said(ops, patterns, servicePatterns, history, traceId, was[traceId]); }
      }
    }

    /** `matches`.  A match is forgotten when the query stops; a mismatch is kept. */
    method Matches(v: Visit, traceId: string) returns (matched: bool)
      modifies this`knownValues
      ensures matched <==> if traceId in old(knownValues) then old(knownValues[traceId])
                           else TracePasses(ops, patterns, servicePatterns, v.meta, traceId)
      ensures knownValues == MemoryAfter(old(knownValues), traceId, matched, v.event.kind.QueryStop?)
      ensures old(Agrees(v.meta)) ==>
              Agrees(v.meta) && (matched <==> TracePasses(ops, patterns, servicePatterns, v.meta, traceId))
    {
      if traceId in knownValues {
        matched := knownValues[traceId];
        if matched && v.event.kind.QueryStop? { knownValues := knownValues - {traceId}; }
      } else {
        matched := MatchText(ops, patterns, traceId);
        if !matched && servicePatterns != [] {
          var service := ServiceOf(v.meta, traceId);
          if service != "" { matched := MatchText(ops, servicePatterns, service); }
        }
        if !v.event.kind.QueryStop? { knownValues := knownValues[traceId := matched]; }
      }
    }
  }

  /** What is remembered after a trace has been answered for; a stopped query is forgotten if it matched,
      and not stored. */
  function MemoryAfter(known: map<string, bool>, traceId: string, matched: bool, stops: bool): map<string, bool> {
    if !stops then known[traceId := matched] else if matched then known - {traceId} else known
  }

  // ----- what the memory answers when services change ---------------------------------------------

  /** A visit to a trace: what the patterns say of it at that time, and whether its query stops. */
  datatype Query = Query(traceId: string, verdict: bool, stops: bool)

  /** The visit whose verdict is remembered for a trace. */
  function Stored(queries: seq<Query>, traceId: string): (at: Option<nat>)
    ensures at.Some? ==> at.value < |queries| && queries[at.value].traceId == traceId
  {
    if queries == [] then None
    else
      var n := |queries| - 1;
      var at := Stored(queries[..n], traceId);
      if queries[n].traceId != traceId then at
      else if at.None? then if queries[n].stops then None else Some(n)
      else if queries[n].stops && queries[at.value].verdict then None
      else at
  }

  /** No verdict is other when it is read than it was when it was stored. */
  ghost predicate NoneOutOfDate(queries: seq<Query>) {
    forall i | 0 <= i < |queries| ::
      var at := Stored(queries[..i], queries[i].traceId);
      at.Some? ==> queries[at.value].verdict == queries[i].verdict
  }

  /** The answer to a visit: the verdict that is stored, if one is. */
  ghost function AnswerTo(queries: seq<Query>, i: nat): bool
    requires i < |queries|
  {
    var at := Stored(queries[..i], queries[i].traceId);
    if at.Some? then queries[at.value].verdict else queries[i].verdict
  }

  ghost function Answers(queries: seq<Query>): (answers: seq<bool>)
    ensures |answers| == |queries|
  {
    seq(|queries|, i requires 0 <= i < |queries| => AnswerTo(queries, i))
  }

  lemma AnswersAreVerdicts(queries: seq<Query>)
    ensures (forall i | 0 <= i < |queries| :: Answers(queries)[i] == queries[i].verdict) <==> NoneOutOfDate(queries)
  {
    forall i | 0 <= i < |queries| ensures Answers(queries)[i] == AnswerTo(queries, i) {
    }
  }

  lemma OneAnswerMore(queries: seq<Query>, i: nat, matched: bool)
    requires i < |queries|
    requires var at := Stored(queries[..i], queries[i].traceId);
             matched <==> if at.Some? then queries[..i][at.value].verdict else queries[i].verdict
    ensures Answers(queries)[..i] + [matched] == Answers(queries)[..i + 1]
    ensures queries[..i + 1] == queries[..i] + [queries[i]]
  {
    assert Answers(queries)[i] == AnswerTo(queries, i) == matched;
  }

  /** The memory holds the verdicts of the visits that stored them. */
  ghost predicate Remembered(known: map<string, bool>, queries: seq<Query>) {
    && (forall t :: t in known <==> Stored(queries, t).Some?)
    && (forall t | t in known :: known[t] == queries[Stored(queries, t).value].verdict)
  }

  lemma OneQueryMore(known: map<string, bool>, queries: seq<Query>, q: Query, matched: bool)
    requires Remembered(known, queries)
    requires matched <==> if q.traceId in known then known[q.traceId] else q.verdict
    ensures Remembered(MemoryAfter(known, q.traceId, matched, q.stops), queries + [q])
  {
    assert (queries + [q])[..|queries|] == queries;
  }

  function Asked(v: Visit): string {
    OptionalText(v.event, EventTraceId)
  }

  ghost function QueryOf(term: TraceIdTerm, v: Visit): Query {
    Query(Asked(v), TracePasses(term.ops, term.patterns, term.servicePatterns, v.meta, Asked(v)),
          v.event.kind.QueryStop?)
  }

  ghost function QueriesOf(term: TraceIdTerm, visits: seq<Visit>): (queries: seq<Query>)
    ensures |queries| == |visits|
  {
    seq(|visits|, i requires 0 <= i < |visits| => QueryOf(term, visits[i]))
  }

  /** A fresh term over any visits, whatever services are known at each: its answers are those of the
      patterns if and only if no verdict has changed between the visit that stored it and one that reads it. */
  method AskAll(term: TraceIdTerm, visits: seq<Visit>) returns (answers: seq<bool>)
    requires term.knownValues == map[]
    modifies term`knownValues
    ensures |answers| == |visits|
    ensures var queries := QueriesOf(term, visits);
            (forall i | 0 <= i < |visits| :: answers[i] == queries[i].verdict) <==> NoneOutOfDate(queries)
  {
    ghost var queries := QueriesOf(term, visits);
    answers := [];
    for i := 0 to |visits|
      invariant answers == Answers(queries)[..i] && Remembered(term.knownValues, queries[..i])
    {
      var matched := AskOne(term, visits[i], queries[i], queries[..i]);
      OneAnswerMore(queries, i, matched);
      answers := answers + [matched];
    }
    AnswersAreVerdicts(queries);
  }

  method AskOne(term: TraceIdTerm, v: Visit, ghost q: Query, ghost before: seq<Query>) returns (matched: bool)
    requires Remembered(term.knownValues, before)
    requires q == QueryOf(term, v)
    modifies term`knownValues
    ensures Remembered(term.knownValues, before + [q])
    ensures var at := Stored(before, q.traceId); matched <==> if at.Some? then before[at.value].verdict else q.verdict
  {
    ghost var known := term.knownValues;
    matched := term.Matches(v, Asked(v));
    OneQueryMore(known, before, q, matched);
  }

  /** Services that do not change keep every verdict. */
  lemma FixedServicesAreFine(term: TraceIdTerm, visits: seq<Visit>)
    requires forall v, w | v in visits && w in visits :: v.meta.services == w.meta.services
    ensures NoneOutOfDate(QueriesOf(term, visits))
  {
    var queries := QueriesOf(term, visits);
    forall i | 0 <= i < |queries| && Stored(queries[..i], queries[i].traceId).Some?
      ensures queries[Stored(queries[..i], queries[i].traceId).value].verdict == queries[i].verdict
    {
      var at := Stored(queries[..i], queries[i].traceId).value;
      assert ServiceOf(visits[at].meta, Asked(visits[at])) == ServiceOf(visits[i].meta, Asked(visits[i]));
    }
  }

  /** A trace that is refused before its service is known stays refused, although the patterns accept it
      by then.  A caller that collects the services first, as `preScanRequired` asks, never gets here. */
  method LateServiceIsMissed(ops: TextOps, servicePatterns: Patterns, event: Event, traceId: string, service: string)
    returns (before: bool, after: bool, ghost late: Visit)
    requires !event.kind.QueryStop?
    requires traceId != "" && service != "" && TextPasses(ops, servicePatterns, service)
    ensures !before && !after && late.event == event && TracePasses(ops, [], servicePatterns, late.meta, traceId)
  {
    NoPatternsRefuse(ops, traceId);
    var early: Visit := Visit(event, Meta(map[], map[], map[], map[]), "");
    var known: Visit := Visit(event, Meta(map[], map[], map[], map[traceId := service]), "");
    var term := new TraceIdTerm(ops, [], servicePatterns);
    before := term.Matches(early, traceId);
    after := term.Matches(known, traceId);
    late := known;
    assert ServiceOf(known.meta, traceId) == service;
    if servicePatterns == [] { NoPatternsRefuse(ops, service); }
  }

  lemma NoPatternsRefuse(ops: TextOps, value: string)
    ensures !TextPasses(ops, [], value)
  {
    var none: Patterns := [];
    assert (set p | p in none :: TextRule(ops, p, value)) == {};
  }
}
