/** The JSON dump.  Output is a sequence of tokens; a key token includes its colon, and the white
    space between tokens, which the visitor writes before every key, value and bracket, is left out. */
module DumpJson {
  import opened Options
  import opened DumpRun

  datatype Token =
    | LBrace | RBrace | LBracket | RBracket | Comma | Key(name: string) | Quoted(text: string) | Bare(text: string)

  // ----- JSON text (sections 4 and 5 of RFC 8259) -------------------------------------------------

  datatype Json = Obj(members: Members) | Arr(items: Items) | Str(text: string) | Raw(text: string)
  datatype Members = NoMember | Member(key: string, value: Json, rest: Members)
  datatype Items = NoItem | Item(value: Json, rest: Items)

  datatype Parsed<T> = Parsed(value: T, rest: seq<Token>)

  /** A value: an object or array whose elements are separated by single commas, a string, or a literal. */
  function ParseValue(ts: seq<Token>): (r: Option<Parsed<Json>>)
    ensures r.Some? ==> |r.value.rest| < |ts|
    decreases |ts|, 0
  {
    if ts == [] then None
    else match ts[0]
      case Quoted(text) => Some(Parsed(Str(text), ts[1..]))
      case Bare(text) => Some(Parsed(Raw(text), ts[1..]))
      case LBrace =>
        if |ts| > 1 && ts[1] == RBrace then Some(Parsed(Obj(NoMember), ts[2..]))
        else
          var r := ParseMembers(ts[1..]);
          if r.Some? then Some(Parsed(Obj(r.value.value), r.value.rest)) else None
      case LBracket =>
        if |ts| > 1 && ts[1] == RBracket then Some(Parsed(Arr(NoItem), ts[2..]))
        else
          var r := ParseItems(ts[1..]);
          if r.Some? then Some(Parsed(Arr(r.value.value), r.value.rest)) else None
      case _ => None
  }

  function ParseMembers(ts: seq<Token>): (r: Option<Parsed<Members>>)
    ensures r.Some? ==> |r.value.rest| < |ts|
    decreases |ts|, 1
  {
    if ts == [] || !ts[0].Key? then None
    else
      var v := ParseValue(ts[1..]);
      if v.None? || v.value.rest == [] then None
      else if v.value.rest[0] == RBrace then Some(Parsed(Member(ts[0].name, v.value.value, NoMember),
                                                         v.value.rest[1..]))
      else if v.value.rest[0] == Comma then
        var r := ParseMembers(v.value.rest[1..]);
        if r.Some? then Some(Parsed(Member(ts[0].name, v.value.value, r.value.value), r.value.rest)) else None
      else None
  }

  function ParseItems(ts: seq<Token>): (r: Option<Parsed<Items>>)
    ensures r.Some? ==> |r.value.rest| < |ts|
    decreases |ts|, 1
  {
    var v := ParseValue(ts);
    if v.None? || v.value.rest == [] then None
    else if v.value.rest[0] == RBracket then Some(Parsed(Item(v.value.value, NoItem), v.value.rest[1..]))
    else if v.value.rest[0] == Comma then
      var r := ParseItems(v.value.rest[1..]);
      if r.Some? then Some(Parsed(Item(v.value.value, r.value.value), r.value.rest)) else None
    else None
  }

  function Written(j: Json): (ts: seq<Token>)
    ensures ts != [] && ts[0] !in {RBrace, RBracket, Comma}
  {
    match j
    case Obj(members) => [LBrace] + WrittenMembers(members) + [RBrace]
    case Arr(items) => [LBracket] + WrittenItems(items) + [RBracket]
    case Str(text) => [Quoted(text)]
    case Raw(text) => [Bare(text)]
  }

  function WrittenMembers(m: Members): seq<Token> {
    match m
    case NoMember => []
    case Member(key, value, rest) =>
      [Key(key)] + Written(value) + (if rest.NoMember? then [] else [Comma]) + WrittenMembers(rest)
  }

  function WrittenItems(i: Items): seq<Token> {
    match i
    case NoItem => []
    case Item(value, rest) => Written(value) + (if rest.NoItem? then [] else [Comma]) + WrittenItems(rest)
  }

  lemma Bracketed(open: Token, mid: seq<Token>, close: Token, more: seq<Token>)
    ensures var ts := [open] + mid + [close] + more;
            && ts[0] == open && ts[1..] == mid + [close] + more
            && (if mid == [] then ts[1] == close && ts[2..] == more else ts[1] == mid[0])
  {
    var ts := [open] + mid + [close] + more;
    assert ts[1..] == mid + [close] + more;
    assert ts[1] == ts[1..][0] && ts[2..] == ts[1..][1..];
  }

  /** What follows a value in a container: its end, or a comma and the rest. */
  lemma Follows(tail: seq<Token>, close: Token, more: seq<Token>)
    ensures var ts := (if tail == [] then [] else [Comma]) + tail + [close] + more;
            ts[0] == (if tail == [] then close else Comma)
              && ts[1..] == if tail == [] then more else tail + [close] + more
  {
  }

  lemma {:induction false} ParsesBack(j: Json, more: seq<Token>)
    ensures ParseValue(Written(j) + more) == Some(Parsed(j, more))
  {
    var ts := Written(j) + more;
    match j
    case Str(_) => assert ts[1..] == more;
    case Raw(_) => assert ts[1..] == more;
    case Obj(members) =>
      Bracketed(LBrace, WrittenMembers(members), RBrace, more);
      if members.Member? { MembersParseBack(members, more); }
    case Arr(items) =>
      Bracketed(LBracket, WrittenItems(items), RBracket, more);
      if items.Item? { ItemsParseBack(items, more); }
  }

  lemma MembersStep(ts: seq<Token>, key: string, v: Json, after: seq<Token>)
    requires ts != [] && ts[0] == Key(key) && ParseValue(ts[1..]) == Some(Parsed(v, after)) && after != []
    ensures after[0] == RBrace ==> ParseMembers(ts) == Some(Parsed(Member(key, v, NoMember), after[1..]))
    ensures var r := ParseMembers(after[1..]);
            after[0] == Comma && r.Some? ==>
              ParseMembers(ts) == Some(Parsed(Member(key, v, r.value.value), r.value.rest))
  {
  }

  lemma ItemsStep(ts: seq<Token>, v: Json, after: seq<Token>)
    requires ParseValue(ts) == Some(Parsed(v, after)) && after != []
    ensures after[0] == RBracket ==> ParseItems(ts) == Some(Parsed(Item(v, NoItem), after[1..]))
    ensures var r := ParseItems(after[1..]);
            after[0] == Comma && r.Some? ==> ParseItems(ts) == Some(Parsed(Item(v, r.value.value), r.value.rest))
  {
  }

  lemma MemberShape(key: Token, value: seq<Token>, comma: seq<Token>, tail: seq<Token>, close: Token, more: seq<Token>)
    ensures var ts := [key] + value + comma + tail + [close] + more;
            ts[0] == key && ts[1..] == value + (comma + tail + [close] + more)
  {
  }

  lemma {:induction false} MembersParseBack(m: Members, more: seq<Token>)
    requires m.Member?
    ensures ParseMembers(WrittenMembers(m) + [RBrace] + more) == Some(Parsed(m, more))
  {
    var ts := WrittenMembers(m) + [RBrace] + more;
    var tail := WrittenMembers(m.rest);
    var comma := if m.rest.NoMember? then [] else [Comma];
    var after := comma + tail + [RBrace] + more;
    MemberShape(Key(m.key), Written(m.value), comma, tail, RBrace, more);
    ParsesBack(m.value, after);
    assert tail == [] <==> m.rest.NoMember?;
    Follows(tail, RBrace, more);
    MembersStep(ts, m.key, m.value, after);
    if m.rest.Member? { MembersParseBack(m.rest, more); }
  }

  lemma ItemShape(value: seq<Token>, comma: seq<Token>, tail: seq<Token>, more: seq<Token>)
    ensures value + comma + tail + [RBracket] + more == value + (comma + tail + [RBracket] + more)
  {
  }

  lemma {:induction false} ItemsParseBack(i: Items, more: seq<Token>)
    requires i.Item?
    ensures ParseItems(WrittenItems(i) + [RBracket] + more) == Some(Parsed(i, more))
  {
    var ts := WrittenItems(i) + [RBracket] + more;
    var tail := WrittenItems(i.rest);
    var after := (if i.rest.NoItem? then [] else [Comma]) + tail + [RBracket] + more;
    ItemShape(Written(i.value), if i.rest.NoItem? then [] else [Comma], tail, more);
    ParsesBack(i.value, after);
    assert tail == [] <==> i.rest.NoItem?;
    Follows(tail, RBracket, more);
    ItemsStep(ts, i.value, after);
    if i.rest.Item? { ItemsParseBack(i.rest, more); }
  }

  // ----- the visitor ------------------------------------------------------------------------------

  datatype State = Idle | Header | InEvents

  function FieldTokens(f: Field): seq<Token> {
    [Key(f.name), if f.quoted then Quoted(f.value) else Bare(f.value)]
  }

  /** Fields written one after the other, the first without a comma if nothing comes before it. */
  function Joined(fields: seq<Field>, first: bool): seq<Token> {
    if fields == [] then []
    else
      var n := |fields| - 1;
      Joined(fields[..n], first) + (if n == 0 && first then [] else [Comma]) + FieldTokens(fields[n])
  }

  class JsonVisitor {
    const flags: MetaFlags
    var fileVisitDepth: nat
    var state: State
    var markup: seq<Token>
    var out: seq<Token>
    var firstFlags: seq<bool>
    var firstEvent: bool

    /** Everything written so far. */
    ghost function Emitted(): seq<Token>
      reads this
    {
      out + markup
    }

    constructor (flags: MetaFlags)
      ensures this.flags == flags && fileVisitDepth == 0 && state == Idle && markup == [] && out == []
      ensures firstFlags == [] && firstEvent
    {
      this.flags := flags;
      fileVisitDepth, state, markup, out, firstFlags, firstEvent := 0, Idle, [], [], [], true;
    }

    method Append(ts: seq<Token>)
      modifies this`markup
      ensures Emitted() == old(Emitted()) + ts
    {
      markup := markup + ts;
    }

    method Dump()
      modifies this`markup, this`out
      ensures Emitted() == old(Emitted()) && markup == []
    {
      out := out + markup;
      markup := [];
    }

    /** A comma, except before the first element of a container and outside all of them. */
    method ConditionalDelimiter()
      modifies this`markup, this`firstFlags
      ensures var n := |old(firstFlags)|;
              && Emitted() == old(Emitted()) + (if n > 0 && !old(firstFlags)[n - 1] then [Comma] else [])
              && firstFlags == if n > 0 then old(firstFlags)[..n - 1] + [false] else []
    {
      if firstFlags != [] {
        if !firstFlags[|firstFlags| - 1] { Append([Comma]); }
        else { firstFlags := firstFlags[|firstFlags| - 1 := false]; }
      }
    }

    method OpenContainer(name: string, token: Token)
      modifies this`markup, this`firstFlags
      ensures var n := |old(firstFlags)|;
              && Emitted() == old(Emitted()) + (if n > 0 && !old(firstFlags)[n - 1] then [Comma] else [])
                              + (if name != "" then [Key(name)] else []) + [token]
              && firstFlags == (if n > 0 then old(firstFlags)[..n - 1] + [false] else []) + [true]
    {
      ConditionalDelimiter();
      if name != "" { Append([Key(name)]); }
      Append([token]);
      firstFlags := firstFlags + [true];
    }

    method CloseContainer(token: Token)
      requires firstFlags != []
      modifies this`markup, this`firstFlags
      ensures Emitted() == old(Emitted()) + [token] && firstFlags == old(firstFlags)[..|old(firstFlags)| - 1]
    {
      firstFlags := firstFlags[..|firstFlags| - 1];
      Append([token]);
    }

    method CloseElement()
      requires firstFlags != []
      modifies this`markup, this`firstFlags, this`out
      ensures Emitted() == old(Emitted()) + [RBrace] && firstFlags == old(firstFlags)[..|old(firstFlags)| - 1]
              && markup == []
    {
      CloseContainer(RBrace);
      Dump();
    }

    method RecordAttribute(f: Field)
      requires firstFlags != []
      modifies this`markup, this`firstFlags
      ensures var n := |old(firstFlags)|;
              && Emitted() == old(Emitted()) + (if old(firstFlags)[n - 1] then [] else [Comma]) + FieldTokens(f)
              && firstFlags == old(firstFlags)[..n - 1] + [false]
    {
      ConditionalDelimiter();
      Append(FieldTokens(f));
    }

    /** Recording several attributes in a container that was just opened. */
    method RecordAll(fields: seq<Field>)
      requires firstFlags != [] && firstFlags[|firstFlags| - 1] && fields != []
      modifies this`markup, this`firstFlags
      ensures Emitted() == old(Emitted()) + Joined(fields, true)
      ensures firstFlags == old(firstFlags)[..|old(firstFlags)| - 1] + [false]
    {
      ghost var front := firstFlags[..|firstFlags| - 1];
      for i := 0 to |fields|
        invariant Emitted() == old(Emitted()) + Joined(fields[..i], true)
        invariant firstFlags == front + [i == 0]
      {
        RecordAttribute(fields[i]);
        assert fields[..i + 1][..i] == fields[..i];
      }
      assert fields[..|fields|] == fields;
    }

    /** The start of the document and its header, which stays open. */
    method OpenHeader(fields: seq<Field>)
      requires fields != []
      modifies this`markup, this`firstFlags
      ensures old(firstFlags) == [] ==>
                firstFlags == [false, false] && Emitted() == old(Emitted()) + Opening(fields)
    {
      OpenContainer("", LBrace);
      OpenContainer("Header", LBrace);
      RecordAll(fields);
    }

    method VisitFile(path: string, version: string)
      modifies this
      ensures fileVisitDepth == old(fileVisitDepth) + 1 && firstEvent == old(firstEvent)
      ensures old(fileVisitDepth) > 0 ==>
              state == old(state) && Emitted() == old(Emitted()) && firstFlags == old(firstFlags)
      ensures old(fileVisitDepth) == 0 && old(firstFlags) == [] ==>
                state == Header && firstFlags == [false, false]
                  && Emitted() == old(Emitted()) + Opening(HeaderFields(path, version))
    {
      fileVisitDepth := fileVisitDepth + 1;
      if fileVisitDepth != 1 { return; }
      state := Header;
      OpenHeader(HeaderFields(path, version));
    }

    /** An element that is opened, given its attributes and closed. */
    method WriteElement(name: string, fields: seq<Field>)
      requires firstFlags != [] && fields != []
      modifies this`markup, this`firstFlags, this`out
      ensures var n := |old(firstFlags)|;
              && Emitted() == old(Emitted()) + ((if old(firstFlags)[n - 1] then [] else [Comma])
                              + (if name != "" then [Key(name)] else []) + Object(fields))
              && firstFlags == old(firstFlags)[..n - 1] + [false] && markup == []
    {
      OpenContainer(name, LBrace);
      RecordAll(fields);
      CloseElement();
    }

    /** `visitEvent`, from the event's name to its departure. */
    method VisitEvent(e: SourceEvent)
      requires firstFlags == [false, false] && (state.Header? <==> firstEvent)
      modifies this`markup, this`out, this`state, this`firstFlags, this`firstEvent
      ensures state == (if old(state).Header? then InEvents else old(state)) && !firstEvent
              && firstFlags == [false, false]
      ensures Emitted() == old(Emitted()) + EventTokens(old(firstEvent), Recorded(flags, e))
    {
      RecordEvent(Recorded(flags, e));
    }

    method RecordEvent(fields: seq<Field>)
      requires firstFlags == [false, false] && (state.Header? <==> firstEvent) && fields != []
      modifies this`markup, this`out, this`state, this`firstFlags, this`firstEvent
      ensures state == (if old(state).Header? then InEvents else old(state)) && !firstEvent
              && firstFlags == [false, false]
      ensures Emitted() == old(Emitted()) + EventTokens(old(firstEvent), fields)
    {
      StartEvents();
      WriteElement("", fields);
    }

    /** The first event ends the header and starts the array of events. */
    method StartEvents()
      requires firstFlags == [false, false] && (state.Header? <==> firstEvent)
      modifies this`markup, this`out, this`state, this`firstFlags, this`firstEvent
      ensures state == (if old(state).Header? then InEvents else old(state)) && !firstEvent
      ensures firstFlags == [false, old(firstEvent)]
      ensures Emitted() == if old(firstEvent) then old(Emitted()) + [RBrace, Comma, Key("Event"), LBracket]
              else old(Emitted())
    {
      if state.Header? {
        CloseElement();
        state := InEvents;
      }
      if firstEvent {
        OpenContainer("Event", LBracket);
        firstEvent := false;
      }
    }

    method DepartFile(bytesRead: string)
      requires fileVisitDepth > 0
      requires fileVisitDepth == 1 ==> firstFlags == [false, false] && (state.Header? || state.InEvents?)
      modifies this
      ensures fileVisitDepth == old(fileVisitDepth) - 1 && state == old(state) && firstEvent == old(firstEvent)
      ensures fileVisitDepth > 0 ==> Emitted() == old(Emitted()) && firstFlags == old(firstFlags)
      ensures fileVisitDepth == 0 ==>
                && Emitted() == old(Emitted())
                   + ([if state.Header? then RBrace else RBracket] + Closing(FooterFields(bytesRead)))
                && firstFlags == [] && markup == []
    {
      fileVisitDepth := fileVisitDepth - 1;
      if fileVisitDepth != 0 { return; }
      if state.Header? { CloseElement(); }
      else if state.InEvents? { CloseContainer(RBracket); }
      WriteElement("Footer", FooterFields(bytesRead));
      CloseElement();
    }
  }

  // ----- a whole run ------------------------------------------------------------------------------

  function Object(fields: seq<Field>): seq<Token> {
    [LBrace] + Joined(fields, true) + [RBrace]
  }

  /** An event that follows the header or another event. */
  function EventTokens(first: bool, fields: seq<Field>): seq<Token> {
    (if first then [RBrace, Comma, Key("Event"), LBracket] else [Comma]) + Object(fields)
  }

  function Opening(header: seq<Field>): seq<Token> {
    [LBrace, Key("Header"), LBrace] + Joined(header, true)
  }

  function Closing(footer: seq<Field>): seq<Token> {
    [Comma, Key("Footer")] + Object(footer) + [RBrace]
  }

  function Objects(events: seq<seq<Field>>): seq<Token> {
    if events == [] then []
    else
      var n := |events| - 1;
      Objects(events[..n]) + (if n == 0 then [] else [Comma]) + Object(events[n])
  }

  /** What has been written after the header and some events. */
  function SoFar(header: seq<Field>, events: seq<seq<Field>>): seq<Token> {
    Opening(header) + (if events == [] then [] else [RBrace, Comma, Key("Event"), LBracket] + Objects(events))
  }

  /** Where the visitor is after the header and some events. */
  ghost predicate Midway(v: JsonVisitor, header: seq<Field>, events: seq<seq<Field>>)
    reads v
  {
    && v.firstFlags == [false, false] && v.Emitted() == SoFar(header, events)
    && (if events == [] then v.state.Header? && v.firstEvent else v.state.InEvents? && !v.firstEvent)
  }

  /** A call that leaves the outermost visit open. */
  method Inside(v: JsonVisitor, call: Call, ghost header: seq<Field>, ghost events: seq<seq<Field>>)
    requires Midway(v, header, events) && v.fileVisitDepth > 0 && v.fileVisitDepth + Step(call) > 0
    modifies v
    ensures Midway(v, header, if call.VisitEvent? then events + [Recorded(v.flags, call.event)] else events)
    ensures v.fileVisitDepth == old(v.fileVisitDepth) + Step(call)
  {
    match call
    case VisitFile(path, version) => v.VisitFile(path, version);
    case VisitEvent(e) =>
      v.VisitEvent(e);
      SoFarMore(header, events, Recorded(v.flags, e));
    case DepartFile(bytesRead) => v.DepartFile(bytesRead);
  }

  lemma SoFarMore(header: seq<Field>, events: seq<seq<Field>>, e: seq<Field>)
    ensures SoFar(header, events + [e]) == SoFar(header, events) + EventTokens(events == [], e)
  {
    var more := events + [e];
    assert more[..|events|] == events;
    assert Objects(more) == Objects(events) + (if events == [] then [] else [Comma]) + Object(e);
  }

  /** The calls between the first and the last. */
  method Between(v: JsonVisitor, flags: MetaFlags, run: seq<Call>, ghost header: seq<Field>)
    requires OneVisit(run) && v.flags == flags && v.fileVisitDepth == Depth(run[..1])
    requires Midway(v, header, EventsOf(flags, run[..1]))
    modifies v
    ensures Midway(v, header, EventsOf(flags, run[..|run| - 1])) && v.fileVisitDepth == Depth(run[..|run| - 1])
  {
    for i := 1 to |run| - 1
      invariant Midway(v, header, EventsOf(flags, run[..i])) && v.fileVisitDepth == Depth(run[..i])
    {
      InnerCall(flags, run, i);
      Inside(v, run[i], header, EventsOf(flags, run[..i]));
    }
  }

  /** The tokens of a run. */
  method Dump(flags: MetaFlags, run: seq<Call>) returns (out: seq<Token>)
    requires OneVisit(run)
    ensures out == Written(RunJson(flags, run))
  {
    StartsAndEnds(run);
    var v := new JsonVisitor(flags);
    ghost var header := HeaderFields(run[0].path, run[0].version);
    v.VisitFile(run[0].path, run[0].version);
    OneCallMore(flags, run, 0);
    Between(v, flags, run, header);
    LastCall(flags, run);
    out := Finish(v, run[|run| - 1].bytesRead, header, EventsOf(flags, run));
  }

  /** The call that ends the outermost visit. */
  method Finish(v: JsonVisitor, bytesRead: string, ghost header: seq<Field>, ghost events: seq<seq<Field>>)
    returns (out: seq<Token>)
    requires Midway(v, header, events) && v.fileVisitDepth == 1
    modifies v
    ensures out == Written(JsonOf(header, events, FooterFields(bytesRead)))
    ensures v.firstFlags == [] && v.markup == []
  {
    v.DepartFile(bytesRead);
    out := v.out;
    assert out + [] == out;
    WholeIsWritten(header, events, FooterFields(bytesRead));
  }

  function RunJson(flags: MetaFlags, run: seq<Call>): Json
    requires OneVisit(run)
  {
    StartsAndEnds(run);
    JsonOf(HeaderFields(run[0].path, run[0].version), EventsOf(flags, run), FooterFields(run[|run| - 1].bytesRead))
  }

  // ----- the same as a JSON value -----------------------------------------------------------------

  function AddMember(m: Members, key: string, value: Json): Members {
    match m
    case NoMember => Member(key, value, NoMember)
    case Member(k, v, rest) => Member(k, v, AddMember(rest, key, value))
  }

  function AddItem(i: Items, value: Json): Items {
    match i
    case NoItem => Item(value, NoItem)
    case Item(v, rest) => Item(v, AddItem(rest, value))
  }

  function FieldsOf(fields: seq<Field>): Members {
    if fields == [] then NoMember
    else
      var f := fields[|fields| - 1];
      AddMember(FieldsOf(fields[..|fields| - 1]), f.name, if f.quoted then Str(f.value) else Raw(f.value))
  }

  function ItemsOf(events: seq<seq<Field>>): Items {
    if events == [] then NoItem else AddItem(ItemsOf(events[..|events| - 1]), Obj(FieldsOf(events[|events| - 1])))
  }

  /** What follows the header. */
  function Tail(events: seq<seq<Field>>, footer: seq<Field>): Members {
    var end := Member("Footer", Obj(FieldsOf(footer)), NoMember);
    if events == [] then end else Member("Event", Arr(ItemsOf(events)), end)
  }

  /** The JSON value of a dump; without events there is no event array. */
  function JsonOf(header: seq<Field>, events: seq<seq<Field>>, footer: seq<Field>): Json {
    Obj(Member("Header", Obj(FieldsOf(header)), Tail(events, footer)))
  }

  /** One more part after `head`, a comma and `rest`, when `rest` is not empty. */
  lemma OneMorePart(head: seq<Token>, rest: seq<Token>, last: seq<Token>)
    ensures head + [Comma] + (rest + [Comma] + last) == head + [Comma] + rest + [Comma] + last
    ensures head + [] + [] == head && [] + [] + last == last
  {
  }

  lemma {:induction false} WrittenAddMember(m: Members, key: string, value: Json)
    ensures WrittenMembers(AddMember(m, key, value)) ==
            WrittenMembers(m) + (if m.NoMember? then [] else [Comma]) + ([Key(key)] + Written(value))
  {
    if m.Member? {
      WrittenAddMember(m.rest, key, value);
      OneMorePart([Key(m.key)] + Written(m.value), WrittenMembers(m.rest), [Key(key)] + Written(value));
    } else {
      OneMorePart([], [], [Key(key)] + Written(value));
    }
  }

  lemma {:induction false} WrittenAddItem(i: Items, value: Json)
    ensures WrittenItems(AddItem(i, value)) == WrittenItems(i) + (if i.NoItem? then [] else [Comma]) + Written(value)
  {
    if i.Item? {
      WrittenAddItem(i.rest, value);
      OneMorePart(Written(i.value), WrittenItems(i.rest), Written(value));
    } else {
      OneMorePart([], [], Written(value));
    }
  }

  lemma {:induction false} JoinedIsWritten(fields: seq<Field>)
    ensures Joined(fields, true) == WrittenMembers(FieldsOf(fields))
  {
    if fields != [] {
      var f := fields[|fields| - 1];
      JoinedIsWritten(fields[..|fields| - 1]);
      WrittenAddMember(FieldsOf(fields[..|fields| - 1]), f.name, if f.quoted then Str(f.value) else Raw(f.value));
    }
  }

  lemma {:induction false} ObjectsAreWritten(events: seq<seq<Field>>)
    ensures Objects(events) == WrittenItems(ItemsOf(events))
  {
    if events != [] {
      var front, last := events[..|events| - 1], events[|events| - 1];
      ObjectsAreWritten(front);
      JoinedIsWritten(last);
      WrittenAddItem(ItemsOf(front), Obj(FieldsOf(last)));
    }
  }

  lemma ObjectIsWritten(fields: seq<Field>)
    ensures Written(Obj(FieldsOf(fields))) == Object(fields)
  {
    JoinedIsWritten(fields);
  }

  lemma EventMemberIsWritten(events: seq<seq<Field>>, end: Members)
    requires end.Member?
    ensures WrittenMembers(Member("Event", Arr(ItemsOf(events)), end)) ==
            [Key("Event"), LBracket] + Objects(events) + [RBracket, Comma] + WrittenMembers(end)
  {
    ObjectsAreWritten(events);
  }

  lemma HeaderMemberIsWritten(header: seq<Field>, rest: Members)
    requires rest.Member?
    ensures Written(Obj(Member("Header", Obj(FieldsOf(header)), rest))) ==
            Opening(header) + ([RBrace, Comma] + WrittenMembers(rest) + [RBrace])
  {
    ObjectIsWritten(header);
    HeaderShape(Joined(header, true), WrittenMembers(rest));
  }

  lemma HeaderShape(j: seq<Token>, w: seq<Token>)
    ensures [LBrace] + ([Key("Header")] + ([LBrace] + j + [RBrace]) + [Comma] + w) + [RBrace]
            == [LBrace, Key("Header"), LBrace] + j + ([RBrace, Comma] + w + [RBrace])
  {
  }

  lemma EmptyShape(o: seq<Token>, f: seq<Token>)
    ensures o + [] + ([RBrace] + ([Comma, Key("Footer")] + f + [RBrace]))
            == o + ([RBrace, Comma] + ([] + ([Key("Footer")] + f)) + [RBrace])
  {
  }

  lemma EventsShape(o: seq<Token>, e: seq<Token>, f: seq<Token>)
    ensures o + ([RBrace, Comma, Key("Event"), LBracket] + e) + ([RBracket] + ([Comma, Key("Footer")] + f + [RBrace]))
            == o + ([RBrace, Comma] + ([Key("Event"), LBracket] + e + [RBracket, Comma] + ([Key("Footer")] + f))
                    + [RBrace])
  {
  }

  lemma TailIsWritten(events: seq<seq<Field>>, footer: seq<Field>)
    ensures WrittenMembers(Tail(events, footer)) ==
            (if events == [] then [] else [Key("Event"), LBracket] + Objects(events) + [RBracket, Comma])
            + ([Key("Footer")] + Object(footer))
  {
    ObjectIsWritten(footer);
    var end := Member("Footer", Obj(FieldsOf(footer)), NoMember);
    assert WrittenMembers(end) == [Key("Footer")] + Object(footer);
    if events != [] { EventMemberIsWritten(events, end); }
  }

  lemma WholeIsWritten(header: seq<Field>, events: seq<seq<Field>>, footer: seq<Field>)
    ensures SoFar(header, events) + ([if events == [] then RBrace else RBracket] + Closing(footer))
            == Written(JsonOf(header, events, footer))
  {
    HeaderMemberIsWritten(header, Tail(events, footer));
    TailIsWritten(events, footer);
    EmptyShape(Opening(header), Object(footer));
    EventsShape(Opening(header), Objects(events), Object(footer));
  }

  // ----- reading it back --------------------------------------------------------------------------

  function TextsOf(m: Members): Option<seq<Text>> {
    match m
    case NoMember => Some([])
    case Member(key, value, rest) =>
      var more := TextsOf(rest);
      if more.Some? && (value.Str? || value.Raw?) then Some([Text(key, value.text)] + more.value) else None
  }

  function EventTexts(i: Items): Option<seq<seq<Text>>> {
    match i
    case NoItem => Some([])
    case Item(value, rest) =>
      var more := EventTexts(rest);
      if more.Some? && value.Obj? && TextsOf(value.members).Some? then Some([TextsOf(value.members).value] + more.value)
        else None
  }

  /** The object under one key, whose values are all texts or literals. */
  function SectionOf(m: Members, key: string): Option<seq<Text>> {
    if m.Member? && m.key == key && m.value.Obj? then TextsOf(m.value.members) else None
  }

  /** The dump that a JSON value stands for. */
  function DocFrom(j: Json): Option<Doc> {
    if !j.Obj? || SectionOf(j.members, "Header").None? then None
    else
      var header, rest := SectionOf(j.members, "Header").value, j.members.rest;
      var hasEvents := rest.Member? && rest.key == "Event" && rest.value.Arr?;
      var events := if hasEvents then EventTexts(rest.value.items) else Some([]);
      var last := if hasEvents then rest.rest else rest;
      if events.None? || SectionOf(last, "Footer").None? || last.rest.Member? then None
      else Some(Doc(header, events.value, SectionOf(last, "Footer").value))
  }

  lemma {:induction false} TextsOfAdd(m: Members, key: string, value: Json)
    requires TextsOf(m).Some? && (value.Str? || value.Raw?)
    ensures TextsOf(AddMember(m, key, value)) == Some(TextsOf(m).value + [Text(key, value.text)])
  {
    if m.NoMember? {
      assert [Text(key, value.text)] + [] == [] + [Text(key, value.text)];
    } else {
      TextsOfAdd(m.rest, key, value);
      var head, last := [Text(m.key, m.value.text)], [Text(key, value.text)];
      assert head + TextsOf(m.rest).value + last == head + (TextsOf(m.rest).value + last);
    }
  }

  lemma {:induction false} FieldsAreTexts(fields: seq<Field>)
    ensures TextsOf(FieldsOf(fields)) == Some(Plain(fields))
  {
    if fields == [] {
      assert Plain(fields) == [];
    } else {
      var f := fields[|fields| - 1];
      var front := fields[..|fields| - 1];
      FieldsAreTexts(front);
      TextsOfAdd(FieldsOf(front), f.name, if f.quoted then Str(f.value) else Raw(f.value));
      assert Plain(fields) == Plain(front) + [Text(f.name, f.value)];
    }
  }

  lemma {:induction false} EventTextsAdd(i: Items, m: Members)
    requires EventTexts(i).Some? && TextsOf(m).Some?
    ensures EventTexts(AddItem(i, Obj(m))) == Some(EventTexts(i).value + [TextsOf(m).value])
  {
    if i.NoItem? {
      assert [TextsOf(m).value] + [] == [] + [TextsOf(m).value];
    } else {
      EventTextsAdd(i.rest, m);
      var head, last := [TextsOf(i.value.members).value], [TextsOf(m).value];
      assert head + EventTexts(i.rest).value + last == head + (EventTexts(i.rest).value + last);
    }
  }

  lemma {:induction false} EventsAreTexts(events: seq<seq<Field>>)
    ensures EventTexts(ItemsOf(events)) == Some(PlainEvents(events))
  {
    if events == [] {
      assert PlainEvents(events) == [];
    } else {
      var front, last := events[..|events| - 1], events[|events| - 1];
      EventsAreTexts(front);
      FieldsAreTexts(last);
      EventTextsAdd(ItemsOf(front), FieldsOf(last));
      assert PlainEvents(events) == PlainEvents(front) + [Plain(last)];
    }
  }

  /** The dump of a run is one JSON value, and it stands for the document that the run describes. */
  lemma DumpDenotesDoc(flags: MetaFlags, run: seq<Call>, out: seq<Token>)
    requires OneVisit(run) && out == Written(RunJson(flags, run))
    ensures exists j :: ParseValue(out) == Some(Parsed(j, [])) && DocFrom(j) == Some(DocOf(flags, run))
  {
    ParsesBack(RunJson(flags, run), []);
    assert out + [] == out;
    StartsAndEnds(run);
    var events := EventsOf(flags, run);
    FieldsAreTexts(HeaderFields(run[0].path, run[0].version));
    EventsAreTexts(events);
    FieldsAreTexts(FooterFields(run[|run| - 1].bytesRead));
    if events == [] { assert PlainEvents(events) == []; }
  }
}
