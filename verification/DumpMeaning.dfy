/** What a dump says of the events dumped, told from the run alone. */
module DumpMeaning {
  import opened Options
  import opened DumpRun
  import opened DumpAgreement
  import Events
  import Json = DumpJson
  import Xml = DumpXml
  import Tree = DumpTree

  /** The events of a run, in order. */
  function Visited(run: seq<Call>): seq<SourceEvent> {
    if run == [] then []
    else if run[0].VisitEvent? then [run[0].event] + Visited(run[1..])
    else Visited(run[1..])
  }

  /** The place of a metadata field among the others. */
  function Place(name: string): nat {
    if name == "meta.ServiceName" then 0
    else if name == "meta.LogicalFileName" then 1
    else if name == "meta.Path" then 2
    else 3
  }

  /** The text is there exactly if it is asked for and not empty. */
  predicate ThereIf(on: bool, name: string, value: string, texts: seq<Text>) {
    (exists i | 0 <= i < |texts| :: texts[i].name == name) == (on && value != "")
    && forall i | 0 <= i < |texts| && texts[i].name == name :: texts[i].value == value
  }

  /** Just the metadata asked for, each once, in its place. */
  predicate ShowsMeta(texts: seq<Text>, flags: MetaFlags, e: SourceEvent) {
    && ThereIf(flags.service, "meta.ServiceName", e.service, texts)
    && ThereIf(flags.logicalName, "meta.LogicalFileName", e.logicalName, texts)
    && ThereIf(flags.path, "meta.Path", e.path, texts)
    && ThereIf(flags.plane, "meta.Plane", e.plane, texts)
    && (forall i | 0 <= i < |texts| ::
          texts[i].name in {"meta.ServiceName", "meta.LogicalFileName", "meta.Path", "meta.Plane"})
    && forall i, j | 0 <= i < j < |texts| :: Place(texts[i].name) < Place(texts[j].name)
  }

  /** First the event's name, then all its attributes under their own names, then the metadata. */
  predicate ShowsEvent(entry: seq<Text>, flags: MetaFlags, e: SourceEvent) {
    var n := 1 + |e.attributes|;
    && |entry| >= n && entry[0] == Text("name", e.name)
    && (forall k | 0 <= k < |e.attributes| ::
          entry[1 + k] == Text(Events.AttrName(e.attributes[k].attr), e.attributes[k].value))
    && ShowsMeta(entry[n..], flags, e)
  }

  predicate Describes(doc: Doc, flags: MetaFlags, run: seq<Call>)
    requires OneVisit(run)
  {
    StartsAndEnds(run);
    && doc.header == [Text("filename", run[0].path), Text("version", run[0].version)]
    && doc.footer == [Text("bytesRead", run[|run| - 1].bytesRead)]
    && |doc.events| == |Visited(run)|
    && forall i | 0 <= i < |doc.events| :: ShowsEvent(doc.events[i], flags, Visited(run)[i])
  }

  // ----- what is recorded says it --------------------------------------------------------------------

  lemma MetaNamesDiffer()
    ensures "meta.ServiceName" != "meta.LogicalFileName" && "meta.Path" != "meta.Plane"
    ensures "meta.ServiceName" != "meta.Path" && "meta.ServiceName" != "meta.Plane"
    ensures "meta.LogicalFileName" != "meta.Path" && "meta.LogicalFileName" != "meta.Plane"
  {
    assert "meta.ServiceName"[5] == 'S' && "meta.LogicalFileName"[5] == 'L' && "meta.Path"[5] == 'P'
           && "meta.Plane"[5] == 'P';
    assert "meta.Path"[6] == 'a' && "meta.Plane"[6] == 'l';
  }

  function OneText(on: bool, name: string, value: string): (texts: seq<Text>)
    ensures |texts| <= 1 && forall t | t in texts :: t.name == name
  {
    if on && value != "" then [Text(name, value)] else []
  }

  predicate Lacks(texts: seq<Text>, name: string) {
    forall i | 0 <= i < |texts| :: texts[i].name != name
  }

  lemma ThereAlone(on: bool, name: string, value: string, before: seq<Text>, after: seq<Text>)
    requires Lacks(before, name) && Lacks(after, name)
    ensures ThereIf(on, name, value, before + OneText(on, name, value) + after)
  {
    var texts := before + OneText(on, name, value) + after;
    if on && value != "" { assert texts[|before|].name == name; }
  }

  lemma PlainMetaField(on: bool, name: string, value: string)
    ensures Plain(MetaField(on, name, value)) == OneText(on, name, value)
  {
  }

  lemma PlainConcat(a: seq<Field>, b: seq<Field>)
    ensures Plain(a + b) == Plain(a) + Plain(b)
  {
  }

  lemma PlainMeta(flags: MetaFlags, e: SourceEvent)
    ensures Plain(MetaFields(flags, e)) ==
            OneText(flags.service, "meta.ServiceName", e.service)
            + OneText(flags.logicalName, "meta.LogicalFileName", e.logicalName)
            + OneText(flags.path, "meta.Path", e.path) + OneText(flags.plane, "meta.Plane", e.plane)
  {
    var a := MetaField(flags.service, "meta.ServiceName", e.service);
    var b := MetaField(flags.logicalName, "meta.LogicalFileName", e.logicalName);
    var c := MetaField(flags.path, "meta.Path", e.path);
    var d := MetaField(flags.plane, "meta.Plane", e.plane);
    PlainConcat(a, b);
    PlainConcat(a + b, c);
    PlainConcat(a + b + c, d);
    PlainMetaField(flags.service, "meta.ServiceName", e.service);
    PlainMetaField(flags.logicalName, "meta.LogicalFileName", e.logicalName);
    PlainMetaField(flags.path, "meta.Path", e.path);
    PlainMetaField(flags.plane, "meta.Plane", e.plane);
  }

  lemma Regrouped(a: seq<Text>, b: seq<Text>, c: seq<Text>, d: seq<Text>)
    ensures a + b + c + d == [] + a + (b + c + d) == a + b + (c + d) == a + b + c + d + []
  {
  }

  lemma FourThere(a: seq<Text>, b: seq<Text>, c: seq<Text>, d: seq<Text>, flags: MetaFlags, e: SourceEvent)
    requires a == OneText(flags.service, "meta.ServiceName", e.service)
    requires b == OneText(flags.logicalName, "meta.LogicalFileName", e.logicalName)
    requires c == OneText(flags.path, "meta.Path", e.path) && d == OneText(flags.plane, "meta.Plane", e.plane)
    requires Lacks(b + c + d, "meta.ServiceName") && Lacks(a, "meta.LogicalFileName")
    requires Lacks(c + d, "meta.LogicalFileName") && Lacks(a + b, "meta.Path") && Lacks(d, "meta.Path")
    requires Lacks(a + b + c, "meta.Plane")
    ensures ThereIf(flags.service, "meta.ServiceName", e.service, a + b + c + d)
    ensures ThereIf(flags.logicalName, "meta.LogicalFileName", e.logicalName, a + b + c + d)
    ensures ThereIf(flags.path, "meta.Path", e.path, a + b + c + d)
    ensures ThereIf(flags.plane, "meta.Plane", e.plane, a + b + c + d)
  {
    Regrouped(a, b, c, d);
    ThereAlone(flags.service, "meta.ServiceName", e.service, [], b + c + d);
    ThereAlone(flags.logicalName, "meta.LogicalFileName", e.logicalName, a, c + d);
    ThereAlone(flags.path, "meta.Path", e.path, a + b, d);
    ThereAlone(flags.plane, "meta.Plane", e.plane, a + b + c, []);
  }

  lemma NamesOfParts(flags: MetaFlags, e: SourceEvent, a: seq<Text>, b: seq<Text>, c: seq<Text>, d: seq<Text>)
    requires a == OneText(flags.service, "meta.ServiceName", e.service)
    requires b == OneText(flags.logicalName, "meta.LogicalFileName", e.logicalName)
    requires c == OneText(flags.path, "meta.Path", e.path) && d == OneText(flags.plane, "meta.Plane", e.plane)
    ensures Lacks(b + c + d, "meta.ServiceName") && Lacks(a, "meta.LogicalFileName")
    ensures Lacks(c + d, "meta.LogicalFileName") && Lacks(a + b, "meta.Path") && Lacks(d, "meta.Path")
    ensures Lacks(a + b + c, "meta.Plane")
  {
    MetaNamesDiffer();
  }

  lemma MetaIsShown(flags: MetaFlags, e: SourceEvent)
    ensures ShowsMeta(Plain(MetaFields(flags, e)), flags, e)
  {
    var a := OneText(flags.service, "meta.ServiceName", e.service);
    var b := OneText(flags.logicalName, "meta.LogicalFileName", e.logicalName);
    var c := OneText(flags.path, "meta.Path", e.path);
    var d := OneText(flags.plane, "meta.Plane", e.plane);
    PlainMeta(flags, e);
    NamesOfParts(flags, e, a, b, c, d);
    FourThere(a, b, c, d, flags, e);
    InPlace(a, b, c, d);
  }

  lemma InPlace(a: seq<Text>, b: seq<Text>, c: seq<Text>, d: seq<Text>)
    requires |a| <= 1 && |b| <= 1 && |c| <= 1 && |d| <= 1
    requires (forall t | t in a :: t.name == "meta.ServiceName") && (forall t | t in c :: t.name == "meta.Path")
             && (forall t | t in b :: t.name == "meta.LogicalFileName") && (forall t | t in d :: t.name == "meta.Plane")
    ensures var texts := a + b + c + d;
            && (forall i | 0 <= i < |texts| ::
                  texts[i].name in {"meta.ServiceName", "meta.LogicalFileName", "meta.Path", "meta.Plane"})
            && forall i, j | 0 <= i < j < |texts| :: Place(texts[i].name) < Place(texts[j].name)
  {
    MetaNamesDiffer();
    var texts := a + b + c + d;
    forall i | 0 <= i < |texts|
      ensures texts[i].name in {"meta.ServiceName", "meta.LogicalFileName", "meta.Path", "meta.Plane"}
      ensures Place(texts[i].name) ==
              if i < |a| then 0 else if i < |a + b| then 1 else if i < |a + b + c| then 2 else 3
    {
      if i < |a| { assert texts[i] in a; }
      else if i < |a + b| { assert texts[i] in b; }
      else if i < |a + b + c| { assert texts[i] in c; }
      else { assert texts[i] in d; }
    }
  }

  lemma AttributesAreShown(e: SourceEvent, k: nat)
    requires k < |e.attributes|
    ensures |Plain(AttributeFields(e))| == |e.attributes|
    ensures Plain(AttributeFields(e))[k] == Text(Events.AttrName(e.attributes[k].attr), e.attributes[k].value)
  {
  }

  lemma FrontIsShown(e: SourceEvent)
    ensures var front := Plain([Field("name", e.name, true)] + AttributeFields(e));
            && |front| == 1 + |e.attributes| && front[0] == Text("name", e.name)
            && forall k | 0 <= k < |e.attributes| ::
                 front[1 + k] == Text(Events.AttrName(e.attributes[k].attr), e.attributes[k].value)
  {
    var name := [Field("name", e.name, true)];
    PlainConcat(name, AttributeFields(e));
    assert Plain(name) == [Text("name", e.name)];
    forall k | 0 <= k < |e.attributes|
      ensures ([Text("name", e.name)] + Plain(AttributeFields(e)))[1 + k] ==
              Text(Events.AttrName(e.attributes[k].attr), e.attributes[k].value)
    {
      AttributesAreShown(e, k);
    }
  }

  lemma ShowsBoth(front: seq<Text>, rest: seq<Text>, flags: MetaFlags, e: SourceEvent)
    requires |front| == 1 + |e.attributes| && front[0] == Text("name", e.name) && ShowsMeta(rest, flags, e)
    requires forall k | 0 <= k < |e.attributes| ::
               front[1 + k] == Text(Events.AttrName(e.attributes[k].attr), e.attributes[k].value)
    ensures ShowsEvent(front + rest, flags, e)
  {
    assert (front + rest)[|front|..] == rest;
  }

  lemma RecordedIsShown(flags: MetaFlags, e: SourceEvent)
    ensures ShowsEvent(Plain(Recorded(flags, e)), flags, e)
  {
    var front := [Field("name", e.name, true)] + AttributeFields(e);
    FrontIsShown(e);
    MetaIsShown(flags, e);
    ShowsBoth(Plain(front), Plain(MetaFields(flags, e)), flags, e);
    PlainConcat(front, MetaFields(flags, e));
  }

  lemma {:induction false} VisitedOfFront(run: seq<Call>)
    requires run != []
    ensures var front, last := run[..|run| - 1], run[|run| - 1];
            Visited(run) == Visited(front) + (if last.VisitEvent? then [last.event] else [])
  {
    if |run| > 1 {
      VisitedOfFront(run[1..]);
      assert run[1..][..|run| - 2] == run[..|run| - 1][1..];
    }
  }

  lemma {:induction false} EventsAreShown(flags: MetaFlags, run: seq<Call>)
    ensures var events, visited := PlainEvents(EventsOf(flags, run)), Visited(run);
            |events| == |visited| && forall i | 0 <= i < |events| :: ShowsEvent(events[i], flags, visited[i])
  {
    if run != [] {
      var last := run[|run| - 1];
      EventsAreShown(flags, run[..|run| - 1]);
      VisitedOfFront(run);
      if last.VisitEvent? { RecordedIsShown(flags, last.event); }
    }
  }

  lemma DocDescribes(flags: MetaFlags, run: seq<Call>)
    requires OneVisit(run)
    ensures Describes(DocOf(flags, run), flags, run)
  {
    StartsAndEnds(run);
    EventsAreShown(flags, run);
  }

  // ----- quotes in JSON ------------------------------------------------------------------------------

  function NthMember(m: Json.Members, k: nat): Option<Json.Json> {
    if m.NoMember? then None else if k == 0 then Some(m.value) else NthMember(m.rest, k - 1)
  }

  function NthItem(i: Json.Items, k: nat): Option<Json.Json> {
    if i.NoItem? then None else if k == 0 then Some(i.value) else NthItem(i.rest, k - 1)
  }

  lemma {:induction false} NthOfAdded(m: Json.Members, key: string, value: Json.Json, n: nat, k: nat)
    requires NthMember(m, n).None? && (n > 0 ==> NthMember(m, n - 1).Some?)
    ensures NthMember(Json.AddMember(m, key, value), k) == if k == n then Some(value) else NthMember(m, k)
  {
    if m.Member? && k > 0 && n > 0 { NthOfAdded(m.rest, key, value, n - 1, k - 1); }
  }

  lemma {:induction false} NthItemOfAdded(i: Json.Items, value: Json.Json, n: nat, k: nat)
    requires NthItem(i, n).None? && (n > 0 ==> NthItem(i, n - 1).Some?)
    ensures NthItem(Json.AddItem(i, value), k) == if k == n then Some(value) else NthItem(i, k)
  {
    if i.Item? && k > 0 && n > 0 { NthItemOfAdded(i.rest, value, n - 1, k - 1); }
  }

  function ValueOf(quoted: bool, text: string): Json.Json {
    if quoted then Json.Str(text) else Json.Raw(text)
  }

  lemma {:induction false} NthOfFields(fields: seq<Field>, k: nat)
    ensures NthMember(Json.FieldsOf(fields), k) ==
            if k < |fields| then Some(ValueOf(fields[k].quoted, fields[k].value)) else None
  {
    if fields != [] {
      var n := |fields| - 1;
      NthOfFields(fields[..n], k);
      NthOfFields(fields[..n], n);
      if n > 0 { NthOfFields(fields[..n], n - 1); }
      NthOfAdded(Json.FieldsOf(fields[..n]), fields[n].name, ValueOf(fields[n].quoted, fields[n].value), n, k);
    }
  }

  lemma {:induction false} NthOfItems(events: seq<seq<Field>>, k: nat)
    ensures NthItem(Json.ItemsOf(events), k) ==
            if k < |events| then Some(Json.Obj(Json.FieldsOf(events[k]))) else None
  {
    if events != [] {
      var n := |events| - 1;
      NthOfItems(events[..n], k);
      NthOfItems(events[..n], n);
      if n > 0 { NthOfItems(events[..n], n - 1); }
      NthItemOfAdded(Json.ItemsOf(events[..n]), Json.Obj(Json.FieldsOf(events[n])), n, k);
    }
  }

  /** Texts and timestamps are quoted, numbers and flags are not. */
  function JsonValue(a: Assigned): Json.Json {
    match Events.TypeOf(a.attr)
    case Str => Json.Str(a.value)
    case Timestamp => Json.Str(a.value)
    case _ => Json.Raw(a.value)
  }

  /** The attributes of an event are quoted as their types ask for; its name and metadata are texts. */
  ghost predicate QuotesEvent(m: Json.Members, e: SourceEvent) {
    && NthMember(m, 0) == Some(Json.Str(e.name))
    && (forall k | 0 <= k < |e.attributes| :: NthMember(m, 1 + k) == Some(JsonValue(e.attributes[k])))
    && forall k: nat | k > |e.attributes| && NthMember(m, k).Some? :: NthMember(m, k).value.Str?
  }

  ghost predicate QuotesEvents(j: Option<Json.Json>, visited: seq<SourceEvent>) {
    && j.Some? && j.value.Arr? && NthItem(j.value.items, |visited|).None?
    && forall i | 0 <= i < |visited| ::
         var item := NthItem(j.value.items, i);
         item.Some? && item.value.Obj? && QuotesEvent(item.value.members, visited[i])
  }

  /** What follows the header: an array of the events, if there are any, and the footer. */
  ghost predicate QuotesRun(j: Json.Json, run: seq<Call>)
    requires OneVisit(run)
  {
    StartsAndEnds(run);
    j.Obj?
    && (var header := NthMember(j.members, 0);
        && header.Some? && header.value.Obj?
        && NthMember(header.value.members, 0) == Some(Json.Str(run[0].path))
        && NthMember(header.value.members, 1) == Some(Json.Raw(run[0].version)))
    && (Visited(run) != [] ==> QuotesEvents(NthMember(j.members, 1), Visited(run)))
    && (var footer := NthMember(j.members, if Visited(run) == [] then 1 else 2);
        && footer.Some? && footer.value.Obj?
        && NthMember(footer.value.members, 0) == Some(Json.Raw(run[|run| - 1].bytesRead)))
  }

  lemma RecordedAt(flags: MetaFlags, e: SourceEvent, k: nat)
    requires k < |Recorded(flags, e)|
    ensures |Recorded(flags, e)| >= 1 + |e.attributes|
    ensures Recorded(flags, e)[k].quoted ==
            (0 < k <= |e.attributes| ==> Events.TypeOf(e.attributes[k - 1].attr) in {Events.Str, Events.Timestamp})
    ensures k == 0 ==> Recorded(flags, e)[k].value == e.name
    ensures 0 < k <= |e.attributes| ==> Recorded(flags, e)[k].value == e.attributes[k - 1].value
  {
    var front, meta := [Field("name", e.name, true)] + AttributeFields(e), MetaFields(flags, e);
    assert Recorded(flags, e) == front + meta;
    if k >= |front| {
      assert Recorded(flags, e)[k] == meta[k - |front|];
      MetaIsQuoted(flags, e, k - |front|);
    }
  }

  lemma MetaIsQuoted(flags: MetaFlags, e: SourceEvent, k: nat)
    requires k < |MetaFields(flags, e)|
    ensures MetaFields(flags, e)[k].quoted
  {
  }

  lemma AttributeIsQuoted(flags: MetaFlags, e: SourceEvent, k: nat)
    requires k < |e.attributes|
    ensures NthMember(Json.FieldsOf(Recorded(flags, e)), 1 + k) == Some(JsonValue(e.attributes[k]))
  {
    RecordedAt(flags, e, 1 + k);
    NthOfFields(Recorded(flags, e), 1 + k);
  }

  lemma RestIsQuoted(flags: MetaFlags, e: SourceEvent, k: nat)
    requires k == 0 || k > |e.attributes|
    requires NthMember(Json.FieldsOf(Recorded(flags, e)), k).Some?
    ensures NthMember(Json.FieldsOf(Recorded(flags, e)), k).value.Str?
  {
    NthOfFields(Recorded(flags, e), k);
    RecordedAt(flags, e, k);
  }

  lemma RecordedIsQuoted(flags: MetaFlags, e: SourceEvent)
    ensures QuotesEvent(Json.FieldsOf(Recorded(flags, e)), e)
  {
    var m := Json.FieldsOf(Recorded(flags, e));
    NthOfFields(Recorded(flags, e), 0);
    forall k | 0 <= k < |e.attributes| ensures NthMember(m, 1 + k) == Some(JsonValue(e.attributes[k])) {
      AttributeIsQuoted(flags, e, k);
    }
    forall k: nat | k > |e.attributes| && NthMember(m, k).Some? ensures NthMember(m, k).value.Str? {
      RestIsQuoted(flags, e, k);
    }
  }

  lemma {:induction false} EventsAreVisited(flags: MetaFlags, run: seq<Call>)
    ensures |EventsOf(flags, run)| == |Visited(run)|
    ensures forall i | 0 <= i < |Visited(run)| :: EventsOf(flags, run)[i] == Recorded(flags, Visited(run)[i])
  {
    if run != [] {
      EventsAreVisited(flags, run[..|run| - 1]);
      VisitedOfFront(run);
    }
  }

  lemma ArrayIsQuoted(flags: MetaFlags, run: seq<Call>)
    ensures QuotesEvents(Some(Json.Arr(Json.ItemsOf(EventsOf(flags, run)))), Visited(run))
  {
    var events, visited := EventsOf(flags, run), Visited(run);
    EventsAreVisited(flags, run);
    NthOfItems(events, |visited|);
    forall i | 0 <= i < |visited|
      ensures NthItem(Json.ItemsOf(events), i) == Some(Json.Obj(Json.FieldsOf(events[i])))
              && QuotesEvent(Json.FieldsOf(events[i]), visited[i])
    {
      NthOfItems(events, i);
      RecordedIsQuoted(flags, visited[i]);
    }
  }

  lemma NthOfRest(key: string, value: Json.Json, rest: Json.Members, k: nat)
    ensures NthMember(Json.Member(key, value, rest), k) == if k == 0 then Some(value) else NthMember(rest, k - 1)
  {
  }

  /** The members of a dump. */
  lemma MembersOfDump(header: seq<Field>, events: seq<seq<Field>>, footer: seq<Field>)
    ensures var m := Json.JsonOf(header, events, footer).members;
            && NthMember(m, 0) == Some(Json.Obj(Json.FieldsOf(header)))
            && (events != [] ==> NthMember(m, 1) == Some(Json.Arr(Json.ItemsOf(events))))
            && NthMember(m, if events == [] then 1 else 2) == Some(Json.Obj(Json.FieldsOf(footer)))
  {
    var tail := Json.Tail(events, footer);
    NthOfRest("Header", Json.Obj(Json.FieldsOf(header)), tail, 0);
    NthOfRest("Header", Json.Obj(Json.FieldsOf(header)), tail, 1);
    NthOfRest("Header", Json.Obj(Json.FieldsOf(header)), tail, 2);
    NthOfRest(tail.key, tail.value, tail.rest, 0);
    NthOfRest(tail.key, tail.value, tail.rest, 1);
  }

  lemma RunIsQuoted(flags: MetaFlags, run: seq<Call>)
    requires OneVisit(run)
    ensures QuotesRun(Json.RunJson(flags, run), run)
  {
    StartsAndEnds(run);
    var header, footer := HeaderFields(run[0].path, run[0].version), FooterFields(run[|run| - 1].bytesRead);
    EventsAreVisited(flags, run);
    MembersOfDump(header, EventsOf(flags, run), footer);
    ArrayIsQuoted(flags, run);
    NthOfFields(header, 0);
    NthOfFields(header, 1);
    NthOfFields(footer, 0);
  }

  // ----- the dumps -----------------------------------------------------------------------------------

  /** Each of the three dumps, parsed, says of every event of the run its name, all its attributes and the
      metadata asked for, and JSON quotes what it should. */
  lemma DumpsDescribeTheRun(flags: MetaFlags, run: seq<Call>)
    requires OneVisit(run)
    ensures var doc := Tree.DocFrom(Tree.RunSections(flags, run));
            && doc.Some? && Describes(doc.value, flags, run)
            && (exists j ::
                  && Json.ParseValue(Json.Written(Json.RunJson(flags, run))) == Some(Json.Parsed(j, []))
                  && Json.DocFrom(j) == doc && QuotesRun(j, run))
            && (exists e ::
                  && Xml.ParseElement(Xml.RunTokens(flags, run)) == Some(Xml.Parsed(e, []))
                  && Xml.DocFrom(e) == doc)
  {
    DumpsAgree(flags, run);
    DocDescribes(flags, run);
    RunIsQuoted(flags, run);
    var j, out := Json.RunJson(flags, run), Json.Written(Json.RunJson(flags, run));
    Json.ParsesBack(j, []);
    assert out + [] == out;
  }

  /** A visit to a file of some events. */
  function VisitTo(path: string, version: string, events: seq<SourceEvent>): seq<Call> {
    if events == [] then [VisitFile(path, version)]
    else VisitTo(path, version, events[..|events| - 1]) + [VisitEvent(events[|events| - 1])]
  }

  lemma {:induction false} VisitIsOpen(path: string, version: string, events: seq<SourceEvent>)
    ensures var run := VisitTo(path, version, events);
            && |run| == 1 + |events| && run[0] == VisitFile(path, version)
            && forall i | 0 < i <= |run| :: Depth(run[..i]) == 1
  {
    var run := VisitTo(path, version, events);
    if events != [] {
      var front := VisitTo(path, version, events[..|events| - 1]);
      VisitIsOpen(path, version, events[..|events| - 1]);
      forall i | 0 < i <= |run| ensures Depth(run[..i]) == 1 {
        if i <= |front| {
          assert run[..i] == front[..i];
        } else {
          assert run[..i] == run && run[..|run| - 1] == front && front[..|front|] == front;
        }
      }
    } else {
      assert run[..1] == run && run[..0] == [];
    }
  }

  lemma {:induction false} VisitShows(path: string, version: string, events: seq<SourceEvent>)
    ensures Visited(VisitTo(path, version, events)) == events
  {
    if events != [] {
      var front, last := events[..|events| - 1], events[|events| - 1];
      VisitShows(path, version, front);
      VisitedOfFront(VisitTo(path, version, events));
      assert VisitTo(path, version, events)[..|VisitTo(path, version, front)|] == VisitTo(path, version, front);
      assert front + [last] == events;
    }
  }

  /** So every file of any events has dumps, and they describe those events. */
  lemma AnyFileIsDumped(path: string, version: string, events: seq<SourceEvent>, bytesRead: string)
    ensures var run := VisitTo(path, version, events) + [DepartFile(bytesRead)];
            OneVisit(run) && Visited(run) == events
  {
    var visit := VisitTo(path, version, events);
    var run := visit + [DepartFile(bytesRead)];
    VisitIsOpen(path, version, events);
    VisitShows(path, version, events);
    VisitedOfFront(run);
    assert run[..|visit|] == visit == visit[..|visit|];
    forall i | 0 < i < |run| ensures Depth(run[..i]) == 1 { assert run[..i] == visit[..i]; }
  }
}
