/** What the dump visitors are driven by, and the document that every one of them should denote. */
module DumpRun {
  import Events

  datatype Field = Field(name: string, value: string, quoted: bool)

  /** An assigned attribute, with its value as text. */
  datatype Assigned = Assigned(attr: Events.Attr, value: string)

  /** An event as the base visitor sees it: the attributes assigned to it, in order, and the texts the
      metadata has for it, empty where there is none. */
  datatype RawSourceEvent = SourceEvent(name: string, attributes: seq<Assigned>,
                                        service: string, logicalName: string, path: string, plane: string)

  /** The attributes of an event are those listed for its type, and no list repeats one. */
  type SourceEvent = e: RawSourceEvent | forall i, j | 0 <= i < j < |e.attributes| ::
                                           e.attributes[i].attr != e.attributes[j].attr
    witness SourceEvent("", [], "", "", "", "")

  /** `doVisitAttribute`: texts and timestamps are quoted, numbers and flags are not. */
  function AttributeField(a: Assigned): Field {
    Field(Events.AttrName(a.attr), a.value, Events.TypeOf(a.attr) in {Events.Str, Events.Timestamp})
  }

  function AttributeFields(e: SourceEvent): (fields: seq<Field>)
    ensures |fields| == |e.attributes| && forall i | 0 <= i < |fields| :: fields[i] == AttributeField(e.attributes[i])
  {
    seq(|e.attributes|, i requires 0 <= i < |e.attributes| => AttributeField(e.attributes[i]))
  }

  /** `DumpMetaFlag` */
  datatype MetaFlags = MetaFlags(service: bool, logicalName: bool, path: bool, plane: bool)

  function MetaField(on: bool, name: string, value: string): seq<Field> {
    if on && value != "" then [Field(name, value, true)] else []
  }

  /** `forEachMetaField` */
  function MetaFields(flags: MetaFlags, e: SourceEvent): seq<Field> {
    MetaField(flags.service, "meta.ServiceName", e.service)
    + MetaField(flags.logicalName, "meta.LogicalFileName", e.logicalName)
    + MetaField(flags.path, "meta.Path", e.path)
    + MetaField(flags.plane, "meta.Plane", e.plane)
  }

  /** What `visitEvent` records for an event: its name, its attributes, and the metadata asked for. */
  function Recorded(flags: MetaFlags, e: SourceEvent): seq<Field> {
    [Field("name", e.name, true)] + AttributeFields(e) + MetaFields(flags, e)
  }

  function HeaderFields(path: string, version: string): seq<Field> {
    [Field("filename", path, true), Field("version", version, false)]
  }

  function FooterFields(bytesRead: string): seq<Field> {
    [Field("bytesRead", bytesRead, false)]
  }

  /** The calls an event source makes on a visitor.  Numbers are given as text. */
  datatype Call =
    | VisitFile(path: string, version: string)
    | VisitEvent(event: SourceEvent)
    | DepartFile(bytesRead: string)

  function Step(call: Call): int {
    match call
    case VisitFile(_, _) => 1
    case VisitEvent(_) => 0
    case DepartFile(_) => -1
  }

  /** The nesting depth after some calls. */
  function Depth(run: seq<Call>): int {
    if run == [] then 0 else Depth(run[..|run| - 1]) + Step(run[|run| - 1])
  }

  /** The run is one outermost visit, with any visits inside it. */
  predicate OneVisit(run: seq<Call>) {
    && run != [] && run[0].VisitFile? && Depth(run) == 0
    && forall i | 0 < i < |run| :: Depth(run[..i]) > 0
  }

  datatype Text = Text(name: string, value: string)

  /** A dump without its syntax. */
  datatype Doc = Doc(header: seq<Text>, events: seq<seq<Text>>, footer: seq<Text>)

  function Plain(fields: seq<Field>): (texts: seq<Text>)
    ensures |texts| == |fields| && forall i | 0 <= i < |fields| :: texts[i] == Text(fields[i].name, fields[i].value)
  {
    seq(|fields|, i requires 0 <= i < |fields| => Text(fields[i].name, fields[i].value))
  }

  function EventsOf(flags: MetaFlags, run: seq<Call>): seq<seq<Field>> {
    if run == [] then []
    else
      var last := run[|run| - 1];
      EventsOf(flags, run[..|run| - 1]) + (if last.VisitEvent? then [Recorded(flags, last.event)] else [])
  }

  function PlainEvents(events: seq<seq<Field>>): (texts: seq<seq<Text>>)
    ensures |texts| == |events| && forall i | 0 <= i < |events| :: texts[i] == Plain(events[i])
  {
    seq(|events|, i requires 0 <= i < |events| => Plain(events[i]))
  }

  lemma StartsAndEnds(run: seq<Call>)
    requires OneVisit(run)
    ensures |run| >= 2 && run[|run| - 1].DepartFile?
  {
    assert run[..|run| - 1] == [] || Depth(run[..|run| - 1]) > 0;
  }

  lemma OneCallMore(flags: MetaFlags, run: seq<Call>, i: nat)
    requires i < |run|
    ensures EventsOf(flags, run[..i + 1]) ==
            if run[i].VisitEvent? then EventsOf(flags, run[..i]) + [Recorded(flags, run[i].event)]
              else EventsOf(flags, run[..i])
    ensures Depth(run[..i + 1]) == Depth(run[..i]) + Step(run[i])
  {
    var next := run[..i + 1];
    assert next[..|next| - 1] == run[..i] && next[|next| - 1] == run[i];
  }

  /** The document a run describes: the header of its first call, the events in order, and the footer
      of its last. */
  function DocOf(flags: MetaFlags, run: seq<Call>): Doc
    requires OneVisit(run)
  {
    StartsAndEnds(run);
    Doc(Plain(HeaderFields(run[0].path, run[0].version)), PlainEvents(EventsOf(flags, run)),
        Plain(FooterFields(run[|run| - 1].bytesRead)))
  }

  predicate DistinctNames(fields: seq<Field>) {
    forall i, j | 0 <= i < j < |fields| :: fields[i].name != fields[j].name
  }

  /** The attributes of an event have different names, none of them like one that the visitors add. */
  lemma OwnNames(e: SourceEvent)
    ensures DistinctNames(AttributeFields(e))
    ensures forall f | f in AttributeFields(e) :: f.name != "" && f.name != "name" && !("meta." <= f.name)
  {
    var fields := AttributeFields(e);
    forall i, j | 0 <= i < j < |fields| ensures fields[i].name != fields[j].name {
      if fields[i].name == fields[j].name { Events.NamesDiffer(e.attributes[i].attr, e.attributes[j].attr); }
    }
    assert "name"[0] == 'n' && "meta."[0] == 'm';
  }

  lemma DistinctConcat(a: seq<Field>, b: seq<Field>)
    requires DistinctNames(a) && DistinctNames(b) && forall f, g | f in a && g in b :: f.name != g.name
    ensures DistinctNames(a + b)
  {
    forall i, j | 0 <= i < |a| && |a| <= j < |a + b| ensures (a + b)[i].name != (a + b)[j].name {
      assert (a + b)[i] in a && (a + b)[j] in b;
    }
  }

  lemma MetaDistinct(flags: MetaFlags, e: SourceEvent)
    ensures DistinctNames(MetaFields(flags, e)) && forall f | f in MetaFields(flags, e) :: "meta." <= f.name
  {
    var a := MetaField(flags.service, "meta.ServiceName", e.service);
    var b := MetaField(flags.logicalName, "meta.LogicalFileName", e.logicalName);
    var c := MetaField(flags.path, "meta.Path", e.path);
    var d := MetaField(flags.plane, "meta.Plane", e.plane);
    assert "meta.ServiceName"[5] == 'S' && "meta.LogicalFileName"[5] == 'L' && "meta.Path"[5] == 'P'
           && "meta.Plane"[5] == 'P';
    assert "meta.Path"[6] == 'a' && "meta.Plane"[6] == 'l';
    DistinctConcat(a, b);
    DistinctConcat(a + b, c);
    DistinctConcat(a + b + c, d);
  }

  /** No name is empty, and none is recorded twice. */
  lemma RecordedDistinct(flags: MetaFlags, e: SourceEvent)
    ensures DistinctNames(Recorded(flags, e)) && forall f | f in Recorded(flags, e) :: f.name != ""
  {
    var first := [Field("name", e.name, true)];
    MetaDistinct(flags, e);
    OwnNames(e);
    assert "name"[0] == 'n' && "meta."[0] == 'm';
    DistinctConcat(first, AttributeFields(e));
    DistinctConcat(first + AttributeFields(e), MetaFields(flags, e));
  }

  /** The same for every event of a run. */
  lemma {:induction false} EventsDistinct(flags: MetaFlags, run: seq<Call>)
    ensures forall e | e in EventsOf(flags, run) :: DistinctNames(e) && forall f | f in e :: f.name != ""
  {
    if run != [] {
      EventsDistinct(flags, run[..|run| - 1]);
      if run[|run| - 1].VisitEvent? { RecordedDistinct(flags, run[|run| - 1].event); }
    }
  }

  /** A call between the first and the last leaves the outermost visit open. */
  lemma InnerCall(flags: MetaFlags, run: seq<Call>, i: nat)
    requires OneVisit(run) && 0 < i < |run| - 1
    ensures Depth(run[..i]) > 0 && Depth(run[..i]) + Step(run[i]) > 0
    ensures EventsOf(flags, run[..i + 1]) ==
            if run[i].VisitEvent? then EventsOf(flags, run[..i]) + [Recorded(flags, run[i].event)]
            else EventsOf(flags, run[..i])
    ensures Depth(run[..i + 1]) == Depth(run[..i]) + Step(run[i])
  {
    OneCallMore(flags, run, i);
    assert Depth(run[..i + 1]) > 0;
  }

  /** The last call brings no event and leaves the outermost visit. */
  lemma LastCall(flags: MetaFlags, run: seq<Call>)
    requires OneVisit(run)
    ensures Depth(run[..|run| - 1]) == 1 && EventsOf(flags, run[..|run| - 1]) == EventsOf(flags, run)
  {
    StartsAndEnds(run);
    OneCallMore(flags, run, |run| - 1);
    assert run[..|run|] == run;
  }
}
