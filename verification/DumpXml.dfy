/** The XML dump.  Output is a sequence of tokens, with the line breaks and the indentation left out;
    values are taken before they are escaped. */
module DumpXml {
  import opened Options
  import opened DumpRun

  datatype Token =
    | Open(name: string)      // <name
    | Attribute(name: string, value: string)
    | EndOpen                 // >
    | SelfClose               // />
    | Close(name: string)     // </name>

  // ----- elements (section 3 of XML 1.0) ----------------------------------------------------------

  datatype Element = Element(name: string, attrs: seq<Text>, children: Elements)
  datatype Elements = NoElement | More(first: Element, rest: Elements)

  datatype Parsed<T> = Parsed(value: T, rest: seq<Token>)

  function ParseAttributes(ts: seq<Token>): (r: Parsed<seq<Text>>)
    ensures |r.rest| <= |ts|
  {
    if ts != [] && ts[0].Attribute? then
      var r := ParseAttributes(ts[1..]);
      Parsed([Text(ts[0].name, ts[0].value)] + r.value, r.rest)
    else Parsed([], ts)
  }

  /** An element: an empty tag, or an opening tag, elements and the closing tag of the same name. */
  function ParseElement(ts: seq<Token>): (r: Option<Parsed<Element>>)
    ensures r.Some? ==> |r.value.rest| < |ts|
    decreases |ts|, 0
  {
    if ts == [] || !ts[0].Open? then None
    else
      var attrs := ParseAttributes(ts[1..]);
      if attrs.rest == [] then None
      else if attrs.rest[0].SelfClose? then Some(Parsed(Element(ts[0].name, attrs.value, NoElement), attrs.rest[1..]))
      else if attrs.rest[0].EndOpen? then
        var children := ParseElements(attrs.rest[1..]);
        if children.Some? && children.value.rest != [] && children.value.rest[0] == Close(ts[0].name) then
          Some(Parsed(Element(ts[0].name, attrs.value, children.value.value), children.value.rest[1..]))
        else None
      else None
  }

  function ParseElements(ts: seq<Token>): (r: Option<Parsed<Elements>>)
    ensures r.Some? ==> |r.value.rest| <= |ts|
    decreases |ts|, 1
  {
    if ts == [] || !ts[0].Open? then Some(Parsed(NoElement, ts))
    else
      var first := ParseElement(ts);
      if first.None? then None
      else
        var rest := ParseElements(first.value.rest);
        if rest.None? then None else Some(Parsed(More(first.value.value, rest.value.value), rest.value.rest))
  }

  // ----- the visitor ------------------------------------------------------------------------------

  datatype State = Idle | Header | InEvents | Footer

  /** `appendXMLAttr`, which leaves out an attribute without a name. */
  function AttributeTokens(fields: seq<Field>): seq<Token> {
    if fields == [] then []
    else
      var f := fields[|fields| - 1];
      AttributeTokens(fields[..|fields| - 1]) + (if f.name == "" then [] else [Attribute(f.name, f.value)])
  }

  class XmlVisitor {
    const flags: MetaFlags
    var fileVisitDepth: nat
    var state: State
    var markup: seq<Token>
    var out: seq<Token>
    var indentLevel: nat

    ghost function Emitted(): seq<Token>
      reads this
    {
      out + markup
    }

    constructor (flags: MetaFlags)
      ensures this.flags == flags && fileVisitDepth == 0 && state == Idle && Emitted() == [] && indentLevel == 0
    {
      this.flags, fileVisitDepth, state, markup, out, indentLevel := flags, 0, Idle, [], [], 0;
    }

    method OpenElement(name: string, complete: bool)
      modifies this`markup, this`indentLevel
      ensures Emitted() == old(Emitted()) + (if complete then [Open(name), EndOpen] else [Open(name)])
      ensures indentLevel == old(indentLevel) + 1
    {
      indentLevel := indentLevel + 1;
      markup := markup + [Open(name)];
      if complete { markup := markup + [EndOpen]; }
    }

    method Flush()
      modifies this`markup, this`out
      ensures Emitted() == old(Emitted()) && markup == []
    {
      out := out + markup;
      markup := [];
    }

    method CloseElement()
      requires indentLevel > 0
      modifies this`markup, this`out, this`indentLevel
      ensures Emitted() == old(Emitted()) + [SelfClose] && indentLevel == old(indentLevel) - 1 && markup == []
    {
      markup := markup + [SelfClose];
      indentLevel := indentLevel - 1;
      Flush();
    }

    method CloseNamed(name: string)
      requires indentLevel > 0
      modifies this`markup, this`out, this`indentLevel
      ensures Emitted() == old(Emitted()) + [Close(name)] && indentLevel == old(indentLevel) - 1 && markup == []
    {
      markup := markup + [Close(name)];
      indentLevel := indentLevel - 1;
      Flush();
    }

    method RecordAll(fields: seq<Field>)
      modifies this`markup
      ensures Emitted() == old(Emitted()) + AttributeTokens(fields)
    {
      for i := 0 to |fields|
        invariant Emitted() == old(Emitted()) + AttributeTokens(fields[..i])
      {
        assert fields[..i + 1][..i] == fields[..i];
        ghost var before := Emitted();
        if fields[i].name != "" {
          markup := markup + [Attribute(fields[i].name, fields[i].value)];
          assert Emitted() == before + [Attribute(fields[i].name, fields[i].value)];
        } else {
          assert AttributeTokens(fields[..i + 1]) == AttributeTokens(fields[..i]);
        }
      }
      assert fields[..|fields|] == fields;
    }

    method VisitFile(path: string, version: string)
      modifies this
      ensures fileVisitDepth == old(fileVisitDepth) + 1
      ensures old(fileVisitDepth) > 0 ==>
              state == old(state) && Emitted() == old(Emitted()) && indentLevel == old(indentLevel)
      ensures old(fileVisitDepth) == 0 ==>
                && state == Header && indentLevel == old(indentLevel) + 2
                && Emitted() == old(Emitted())
                   + ([Open("EventFile"), EndOpen, Open("Header")] + AttributeTokens(HeaderFields(path, version)))
    {
      fileVisitDepth := fileVisitDepth + 1;
      if fileVisitDepth != 1 { return; }
      state := Header;
      OpenElement("EventFile", true);
      OpenElement("Header", false);
      RecordAll(HeaderFields(path, version));
    }

    /** `visitEvent`, from the event's name to its departure. */
    method VisitEvent(e: SourceEvent)
      requires state.Header? ==> indentLevel > 0
      modifies this
      ensures fileVisitDepth == old(fileVisitDepth)
      ensures state == (if old(state).Header? then InEvents else old(state))
      ensures indentLevel == if old(state).Header? then old(indentLevel) - 1 else old(indentLevel)
      ensures Emitted() == old(Emitted())
              + ((if old(state).Header? then [SelfClose] else []) + Empty("Event", Recorded(flags, e)))
    {
      RecordEvent(Recorded(flags, e));
    }

    method RecordEvent(fields: seq<Field>)
      requires state.Header? ==> indentLevel > 0
      modifies this`state, this`markup, this`out, this`indentLevel
      ensures state == (if old(state).Header? then InEvents else old(state))
      ensures indentLevel == if old(state).Header? then old(indentLevel) - 1 else old(indentLevel)
      ensures Emitted() == old(Emitted()) + ((if old(state).Header? then [SelfClose] else []) + Empty("Event", fields))
    {
      if state.Header? {
        CloseElement();
        state := InEvents;
      }
      OpenElement("Event", false);
      RecordAll(fields);
      CloseElement();
    }

    method DepartFile(bytesRead: string)
      requires fileVisitDepth > 0
      requires fileVisitDepth == 1 ==> indentLevel == if state.Header? then 2 else 1
      modifies this
      ensures fileVisitDepth == old(fileVisitDepth) - 1
      ensures fileVisitDepth > 0 ==>
              state == old(state) && Emitted() == old(Emitted()) && indentLevel == old(indentLevel)
      ensures fileVisitDepth == 0 ==>
                && state == Footer && indentLevel == 0 && markup == []
                && Emitted() == old(Emitted()) + ((if old(state).Header? then [SelfClose] else [])
                                + Empty("Footer", FooterFields(bytesRead)) + [Close("EventFile")])
    {
      fileVisitDepth := fileVisitDepth - 1;
      if fileVisitDepth != 0 { return; }
      if state.Header? { CloseElement(); }
      state := Footer;
      OpenElement("Footer", false);
      RecordAll(FooterFields(bytesRead));
      CloseElement();
      CloseNamed("EventFile");
    }
  }

  /** An element without content. */
  function Empty(name: string, fields: seq<Field>): seq<Token> {
    [Open(name)] + AttributeTokens(fields) + [SelfClose]
  }

  // ----- a whole run ------------------------------------------------------------------------------

  function EventTokens(events: seq<seq<Field>>): seq<Token> {
    if events == [] then [] else EventTokens(events[..|events| - 1]) + Empty("Event", events[|events| - 1])
  }

  /** What has been written after the header and some events. */
  function SoFar(header: seq<Field>, events: seq<seq<Field>>): seq<Token> {
    [Open("EventFile"), EndOpen, Open("Header")] + AttributeTokens(header)
    + (if events == [] then [] else [SelfClose] + EventTokens(events))
  }

  lemma SoFarMore(header: seq<Field>, events: seq<seq<Field>>, e: seq<Field>)
    ensures SoFar(header, events + [e]) == SoFar(header, events)
            + ((if events == [] then [SelfClose] else []) + Empty("Event", e))
  {
    assert (events + [e])[..|events|] == events;
    assert EventTokens(events + [e]) == EventTokens(events) + Empty("Event", e);
  }

  ghost predicate Midway(v: XmlVisitor, header: seq<Field>, events: seq<seq<Field>>)
    reads v
  {
    && v.Emitted() == SoFar(header, events)
    && (if events == [] then v.state.Header? && v.indentLevel == 2 else v.state.InEvents? && v.indentLevel == 1)
  }

  /** A call that leaves the outermost visit open. */
  method Inside(v: XmlVisitor, call: Call, ghost header: seq<Field>, ghost events: seq<seq<Field>>)
    requires Midway(v, header, events) && v.fileVisitDepth > 0 && v.fileVisitDepth + Step(call) > 0
    modifies v
    ensures Midway(v, header, if call.VisitEvent? then events + [Recorded(v.flags, call.event)] else events)
    ensures v.fileVisitDepth == old(v.fileVisitDepth) + Step(call)
  {
    match call
    case VisitFile(path, version) => v.VisitFile(path, version);
    case VisitEvent(e) =>
      v.VisitEvent(e);
      SoFarMore(header, events, Recorded(v.flags, e));
    case DepartFile(bytesRead) => v.DepartFile(bytesRead);
  }

  function RunTokens(flags: MetaFlags, run: seq<Call>): seq<Token>
    requires OneVisit(run)
  {
    StartsAndEnds(run);
    var events := EventsOf(flags, run);
    SoFar(HeaderFields(run[0].path, run[0].version), events)
    + ((if events == [] then [SelfClose] else []) + Empty("Footer", FooterFields(run[|run| - 1].bytesRead))
       + [Close("EventFile")])
  }

  /** The call that ends the outermost visit. */
  method Finish(v: XmlVisitor, bytesRead: string, ghost header: seq<Field>, ghost events: seq<seq<Field>>)
    returns (out: seq<Token>)
    requires Midway(v, header, events) && v.fileVisitDepth == 1
    modifies v
    ensures out == SoFar(header, events) + ((if events == [] then [SelfClose] else [])
                                            + Empty("Footer", FooterFields(bytesRead)) + [Close("EventFile")])
  {
    v.DepartFile(bytesRead);
    out := v.out;
  }

  /** The calls between the first and the last. */
  method Between(v: XmlVisitor, flags: MetaFlags, run: seq<Call>, ghost header: seq<Field>)
    requires OneVisit(run) && v.flags == flags && v.fileVisitDepth == Depth(run[..1])
    requires Midway(v, header, EventsOf(flags, run[..1]))
    modifies v
    ensures Midway(v, header, EventsOf(flags, run[..|run| - 1])) && v.fileVisitDepth == Depth(run[..|run| - 1])
  {
    for i := 1 to |run| - 1
      invariant Midway(v, header, EventsOf(flags, run[..i])) && v.fileVisitDepth == Depth(run[..i])
    {
      InnerCall(flags, run, i);
      Inside(v, run[i], header, EventsOf(flags, run[..i]));
    }
  }

  /** The tokens of a run. */
  method Dump(flags: MetaFlags, run: seq<Call>) returns (out: seq<Token>)
    requires OneVisit(run)
    ensures out == RunTokens(flags, run)
  {
    StartsAndEnds(run);
    var v := new XmlVisitor(flags);
    ghost var header := HeaderFields(run[0].path, run[0].version);
    v.VisitFile(run[0].path, run[0].version);
    OneCallMore(flags, run, 0);
    Between(v, flags, run, header);
    LastCall(flags, run);
    out := Finish(v, run[|run| - 1].bytesRead, header, EventsOf(flags, run));
  }

  // ----- reading it back --------------------------------------------------------------------------

  predicate Named(fields: seq<Field>) {
    forall f | f in fields :: f.name != ""
  }

  lemma FirstApart(first: Token, tail: seq<Token>, more: seq<Token>)
    ensures [first] + tail + more == [first] + (tail + more)
  {
  }

  lemma AttributeFirst(a: Token, tail: seq<Token>)
    requires a.Attribute?
    ensures var r := ParseAttributes(tail);
            ParseAttributes([a] + tail) == Parsed([Text(a.name, a.value)] + r.value, r.rest)
  {
    assert ([a] + tail)[1..] == tail;
  }

  lemma PlainFront(fields: seq<Field>)
    requires fields != []
    ensures Plain(fields) == [Text(fields[0].name, fields[0].value)] + Plain(fields[1..])
  {
  }

  lemma {:induction false} AttributesParseBack(fields: seq<Field>, more: seq<Token>)
    requires Named(fields) && more != [] && !more[0].Attribute?
    ensures ParseAttributes(AttributeTokens(fields) + more) == Parsed(Plain(fields), more)
    decreases |fields|
  {
    if fields == [] {
      assert AttributeTokens(fields) + more == more && Plain(fields) == [];
    } else {
      AttributesParseBack(fields[1..], more);
      var first, tail := Attribute(fields[0].name, fields[0].value), AttributeTokens(fields[1..]);
      AttributeTokensFront(fields);
      FirstApart(first, tail, more);
      AttributeFirst(first, tail + more);
      PlainFront(fields);
    }
  }

  lemma {:induction false} AttributeTokensFront(fields: seq<Field>)
    requires Named(fields)
    ensures AttributeTokens(fields) ==
            if fields == [] then [] else [Attribute(fields[0].name, fields[0].value)] + AttributeTokens(fields[1..])
  {
    if |fields| > 1 {
      AttributeTokensFront(fields[..|fields| - 1]);
      assert fields[..|fields| - 1][1..] == fields[1..][..|fields| - 2];
    }
  }

  function Leaf(name: string, fields: seq<Field>): Element {
    Element(name, Plain(fields), NoElement)
  }

  lemma EmptyParsesBack(name: string, fields: seq<Field>, more: seq<Token>)
    requires Named(fields)
    ensures ParseElement(Empty(name, fields) + more) == Some(Parsed(Leaf(name, fields), more))
  {
    var ts := Empty(name, fields) + more;
    assert ts[1..] == AttributeTokens(fields) + ([SelfClose] + more);
    AttributesParseBack(fields, [SelfClose] + more);
    assert ([SelfClose] + more)[1..] == more;
  }

  /** The elements of some events, followed by others. */
  function Leaves(events: seq<seq<Field>>, rest: Elements): Elements {
    if events == [] then rest else More(Leaf("Event", events[0]), Leaves(events[1..], rest))
  }

  lemma {:induction false} EventTokensFront(events: seq<seq<Field>>)
    requires events != []
    ensures EventTokens(events) == Empty("Event", events[0]) + EventTokens(events[1..])
  {
    if |events| > 1 {
      EventTokensFront(events[..|events| - 1]);
      assert events[..|events| - 1][1..] == events[1..][..|events| - 2];
    }
  }

  lemma EventsShape(events: seq<seq<Field>>, more: seq<Token>)
    requires events != []
    ensures EventTokens(events) + more == Empty("Event", events[0]) + (EventTokens(events[1..]) + more)
  {
    EventTokensFront(events);
  }

  lemma ElementFirst(ts: seq<Token>, first: Element, tail: seq<Token>)
    requires ParseElement(ts) == Some(Parsed(first, tail)) && ParseElements(tail).Some?
    ensures ParseElements(ts) == Some(Parsed(More(first, ParseElements(tail).value.value),
                                             ParseElements(tail).value.rest))
  {
  }

  lemma {:induction false} EventsParseBack(events: seq<seq<Field>>, more: seq<Token>)
    requires (forall e | e in events :: Named(e)) && ParseElements(more).Some?
    ensures var after := ParseElements(more).value;
            ParseElements(EventTokens(events) + more) == Some(Parsed(Leaves(events, after.value), after.rest))
  {
    if events == [] {
      assert EventTokens(events) + more == more;
    } else {
      EventsParseBack(events[1..], more);
      var tail := EventTokens(events[1..]) + more;
      EventsShape(events, more);
      EmptyParsesBack("Event", events[0], tail);
      ElementFirst(Empty("Event", events[0]) + tail, Leaf("Event", events[0]), tail);
    }
  }

  /** The element of a dump. */
  function DocElement(header: seq<Field>, events: seq<seq<Field>>, footer: seq<Field>): Element {
    Element("EventFile", [], More(Leaf("Header", header), Leaves(events, More(Leaf("Footer", footer), NoElement))))
  }

  lemma RootParses(inner: seq<Token>, children: Elements)
    requires ParseElements(inner + [Close("EventFile")]) == Some(Parsed(children, [Close("EventFile")]))
    ensures ParseElement([Open("EventFile"), EndOpen] + inner + [Close("EventFile")]) ==
            Some(Parsed(Element("EventFile", [], children), []))
  {
    var ts := [Open("EventFile"), EndOpen] + inner + [Close("EventFile")];
    assert ts[1..] == [EndOpen] + (inner + [Close("EventFile")]);
    assert ts[1..][1..] == inner + [Close("EventFile")];
  }

  lemma InnerParses(header: seq<Field>, events: seq<seq<Field>>, footer: seq<Field>)
    requires Named(header) && Named(footer) && forall e | e in events :: Named(e)
    ensures ParseElements(Empty("Header", header)
                          + (EventTokens(events) + (Empty("Footer", footer) + [Close("EventFile")]))) ==
            Some(Parsed(DocElement(header, events, footer).children, [Close("EventFile")]))
  {
    var end := [Close("EventFile")];
    EmptyParsesBack("Footer", footer, end);
    ElementFirst(Empty("Footer", footer) + end, Leaf("Footer", footer), end);
    EventsParseBack(events, Empty("Footer", footer) + end);
    var tail := EventTokens(events) + (Empty("Footer", footer) + end);
    EmptyParsesBack("Header", header, tail);
    ElementFirst(Empty("Header", header) + tail, Leaf("Header", header), tail);
  }

  lemma Regroup(h: seq<Token>, e: seq<Token>, f: seq<Token>, c: seq<Token>)
    ensures [Open("EventFile"), EndOpen, Open("Header")] + h + ([SelfClose] + e) + ([] + f + c) ==
            [Open("EventFile"), EndOpen] + ([Open("Header")] + h + [SelfClose] + (e + f)) + c
    ensures [Open("EventFile"), EndOpen, Open("Header")] + h + [] + ([SelfClose] + f + c) ==
            [Open("EventFile"), EndOpen] + ([Open("Header")] + h + [SelfClose] + ([] + f)) + c
  {
  }

  /** The dump of a run is one well-nested element. */
  lemma RunParses(flags: MetaFlags, run: seq<Call>)
    requires OneVisit(run)
    ensures ParseElement(RunTokens(flags, run)) == Some(Parsed(RunElement(flags, run), []))
  {
    StartsAndEnds(run);
    EventsDistinct(flags, run);
    var header, events := HeaderFields(run[0].path, run[0].version), EventsOf(flags, run);
    var footer := FooterFields(run[|run| - 1].bytesRead);
    var end := [Close("EventFile")];
    Regroup(AttributeTokens(header), EventTokens(events), Empty("Footer", footer), end);
    var inner := Empty("Header", header) + (EventTokens(events) + Empty("Footer", footer));
    assert inner + end == Empty("Header", header) + (EventTokens(events) + (Empty("Footer", footer) + end));
    InnerParses(header, events, footer);
    RootParses(inner, DocElement(header, events, footer).children);
  }

  function RunElement(flags: MetaFlags, run: seq<Call>): Element
    requires OneVisit(run)
  {
    StartsAndEnds(run);
    DocElement(HeaderFields(run[0].path, run[0].version), EventsOf(flags, run), FooterFields(run[|run| - 1].bytesRead))
  }

  function EventTexts(e: Elements): Option<Doc> {
    match e
    case NoElement => None
    case More(first, rest) =>
      if first.children.More? then None
      else if first.name == "Footer" && rest.NoElement? then Some(Doc([], [], first.attrs))
      else if first.name == "Event" then
        var more := EventTexts(rest);
        if more.Some? then Some(Doc([], [first.attrs] + more.value.events, more.value.footer)) else None
      else None
  }

  /** The dump that an element stands for. */
  function DocFrom(e: Element): Option<Doc> {
    if e.name == "EventFile" && e.children.More? && e.children.first.name == "Header"
      && e.children.first.children.NoElement? then
      var rest := EventTexts(e.children.rest);
      if rest.Some? then Some(rest.value.(header := e.children.first.attrs)) else None
    else None
  }

  lemma {:induction false} LeavesDenote(events: seq<seq<Field>>, footer: seq<Field>)
    ensures EventTexts(Leaves(events, More(Leaf("Footer", footer), NoElement))) ==
            Some(Doc([], PlainEvents(events), Plain(footer)))
  {
    if events == [] {
      assert PlainEvents(events) == [];
    } else {
      LeavesDenote(events[1..], footer);
      assert PlainEvents(events) == [Plain(events[0])] + PlainEvents(events[1..]);
    }
  }

  /** No start tag repeats an attribute name (the uniqueness constraint of section 3.1). */
  predicate UniqueAttributes(e: Element) {
    (forall i, j | 0 <= i < j < |e.attrs| :: e.attrs[i].name != e.attrs[j].name) && UniqueInAll(e.children)
  }

  predicate UniqueInAll(e: Elements) {
    e.NoElement? || (UniqueAttributes(e.first) && UniqueInAll(e.rest))
  }

  lemma LeafIsUnique(name: string, fields: seq<Field>)
    ensures UniqueAttributes(Leaf(name, fields)) <==> DistinctNames(fields)
  {
    var texts := Plain(fields);
    if UniqueAttributes(Leaf(name, fields)) {
      assert forall i, j | 0 <= i < j < |texts| :: texts[i].name != texts[j].name;
      assert forall i | 0 <= i < |fields| :: fields[i].name == texts[i].name;
    }
  }

  lemma {:induction false} LeavesAreUnique(events: seq<seq<Field>>, rest: Elements)
    ensures UniqueInAll(Leaves(events, rest)) <==> UniqueInAll(rest) && forall e | e in events :: DistinctNames(e)
  {
    if events != [] {
      LeavesAreUnique(events[1..], rest);
      LeafIsUnique("Event", events[0]);
      assert forall e :: e in events <==> e == events[0] || e in events[1..];
    }
  }

  /** The element stands for the document that the run describes, and no start tag repeats a name. */
  lemma DumpDenotesDoc(flags: MetaFlags, run: seq<Call>)
    requires OneVisit(run)
    ensures DocFrom(RunElement(flags, run)) == Some(DocOf(flags, run))
    ensures UniqueAttributes(RunElement(flags, run))
  {
    StartsAndEnds(run);
    EventsDistinct(flags, run);
    var header, events := HeaderFields(run[0].path, run[0].version), EventsOf(flags, run);
    var footer := FooterFields(run[|run| - 1].bytesRead);
    LeavesDenote(events, footer);
    assert header[0].name[0] != header[1].name[0];
    LeafIsUnique("Header", header);
    LeafIsUnique("Footer", footer);
    LeavesAreUnique(events, More(Leaf("Footer", footer), NoElement));
  }
}
