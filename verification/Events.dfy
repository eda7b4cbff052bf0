/** Recorded events, and the metadata that earlier events have established, as values.

    A text attribute never contains a NUL, so its C string and its recorded bytes agree. */
module Events {
  datatype Attr =
    | FileId | FileOffset | NodeKind | ReadTime | ElapsedTime | InMemorySize | Path | ConnectId | Enabled
    | FileSize | EventTimestamp | EventTraceId | EventThreadId | EventStackTrace | DataSize | ExpandTime
    | FirstUse | ServiceName | ChannelId | ReplicaId | InstanceId | ProcessDescriptor | OpenTime | Plane
    | IsStriped | RequestId | RequestSeq | ResponseId | ResponseSeq | Task | LockId | ElementId | FunctionId
    | SearchFlags | ActivityId

  datatype AttrType = U1 | U4 | U8 | Timestamp | Bool | Str

  function TypeOf(a: Attr): AttrType {
    match a
    case NodeKind => U1 case ChannelId => U1 case ReplicaId => U1 case Task => U1 case SearchFlags => U1
    case FileId => U4 case InMemorySize => U4 case EventThreadId => U4 case DataSize => U4 case RequestId => U4
    case RequestSeq => U4 case ResponseId => U4 case ResponseSeq => U4 case LockId => U4 case FunctionId => U4
    case ActivityId => U4
    case FileOffset => U8 case ReadTime => U8 case ElapsedTime => U8 case ConnectId => U8 case FileSize => U8
    case ExpandTime => U8 case InstanceId => U8 case OpenTime => U8 case ElementId => U8
    case EventTimestamp => Timestamp
    case Enabled => Bool case FirstUse => Bool case IsStriped => Bool
    case Path => Str case EventTraceId => Str case EventStackTrace => Str case ServiceName => Str
    case ProcessDescriptor => Str case Plane => Str
  }

  /** `queryEventAttributeName` */
  function AttrName(a: Attr): (name: string)
    ensures |name| >= 4 && 'A' <= name[0] <= 'Z'
  {
    match a
    case FileId => "FileId" case FileOffset => "FileOffset" case NodeKind => "NodeKind"
    case ReadTime => "ReadTime" case ElapsedTime => "ElapsedTime" case InMemorySize => "InMemorySize"
    case Path => "Path" case ConnectId => "ConnectId" case Enabled => "Enabled" case FileSize => "FileSize"
    case EventTimestamp => "EventTimestamp" case EventTraceId => "EventTraceId"
    case EventThreadId => "EventThreadId" case EventStackTrace => "EventStackTrace" case DataSize => "DataSize"
    case ExpandTime => "ExpandTime" case FirstUse => "FirstUse" case ServiceName => "ServiceName"
    case ChannelId => "ChannelId" case ReplicaId => "ReplicaId" case InstanceId => "InstanceId"
    case ProcessDescriptor => "ProcessDescriptor" case OpenTime => "OpenTime" case Plane => "Plane"
    case IsStriped => "IsStriped" case RequestId => "RequestId" case RequestSeq => "RequestSeq"
    case ResponseId => "ResponseId" case ResponseSeq => "ResponseSeq" case Task => "Task"
    case LockId => "LockId" case ElementId => "ElementId" case FunctionId => "FunctionId"
    case SearchFlags => "SearchFlags" case ActivityId => "ActivityId"
  }

  /** The length and two of the letters tell one name from another. */
  function Mark(name: string): int
    requires |name| >= 4
  {
    (|name| * 0x100 + name[1] as int) * 0x100 + name[2] as int
  }

  function MarkOf(a: Attr): int {
    match a
    case FileId => 420204 case FileOffset => 682348 case NodeKind => 552804 case ReadTime => 550241
    case ElapsedTime => 748641 case InMemorySize => 814669 case Path => 287092 case ConnectId => 618350
    case Enabled => 487009 case FileSize => 551276 case EventTimestamp => 947813 case EventTraceId => 816741
    case EventThreadId => 882277 case EventStackTrace => 1013349 case DataSize => 549236
    case ExpandTime => 686192 case FirstUse => 551282 case ServiceName => 746866 case ChannelId => 616545
    case ReplicaId => 615792 case InstanceId => 683635 case ProcessDescriptor => 1143407 case OpenTime => 553061
    case Plane => 355425 case IsStriped => 619347 case RequestId => 615793 case RequestSeq => 681329
    case ResponseId => 681331 case ResponseSeq => 746867 case Task => 287091 case LockId => 421731
    case ElementId => 617573 case FunctionId => 685422 case SearchFlags => 746849 case ActivityId => 680820
  }

  function AttrMarked(mark: int): Attr {
    if mark == 420204 then FileId else if mark == 682348 then FileOffset else if mark == 552804 then NodeKind
    else if mark == 550241 then ReadTime else if mark == 748641 then ElapsedTime
    else if mark == 814669 then InMemorySize else if mark == 287092 then Path
    else if mark == 618350 then ConnectId else if mark == 487009 then Enabled
    else if mark == 551276 then FileSize else if mark == 947813 then EventTimestamp
    else if mark == 816741 then EventTraceId else if mark == 882277 then EventThreadId
    else if mark == 1013349 then EventStackTrace else if mark == 549236 then DataSize
    else if mark == 686192 then ExpandTime else if mark == 551282 then FirstUse
    else if mark == 746866 then ServiceName else if mark == 616545 then ChannelId
    else if mark == 615792 then ReplicaId else if mark == 683635 then InstanceId
    else if mark == 1143407 then ProcessDescriptor else if mark == 553061 then OpenTime
    else if mark == 355425 then Plane else if mark == 619347 then IsStriped
    else if mark == 615793 then RequestId else if mark == 681329 then RequestSeq
    else if mark == 681331 then ResponseId else if mark == 746867 then ResponseSeq
    else if mark == 287091 then Task else if mark == 421731 then LockId else if mark == 617573 then ElementId
    else if mark == 685422 then FunctionId else if mark == 746849 then SearchFlags
    else ActivityId
  }

  lemma MarkOfName(a: Attr)
    ensures Mark(AttrName(a)) == MarkOf(a)
  {
    match a
    case FileId => assert AttrName(a) == "FileId";
    case FileOffset => assert AttrName(a) == "FileOffset";
    case NodeKind => assert AttrName(a) == "NodeKind";
    case ReadTime => assert AttrName(a) == "ReadTime";
    case ElapsedTime => assert AttrName(a) == "ElapsedTime";
    case InMemorySize => assert AttrName(a) == "InMemorySize";
    case Path => assert AttrName(a) == "Path";
    case ConnectId => assert AttrName(a) == "ConnectId";
    case Enabled => assert AttrName(a) == "Enabled";
    case FileSize => assert AttrName(a) == "FileSize";
    case EventTimestamp => assert AttrName(a) == "EventTimestamp";
    case EventTraceId => assert AttrName(a) == "EventTraceId";
    case EventThreadId => assert AttrName(a) == "EventThreadId";
    case EventStackTrace => assert AttrName(a) == "EventStackTrace";
    case DataSize => assert AttrName(a) == "DataSize";
    case ExpandTime => assert AttrName(a) == "ExpandTime";
    case FirstUse => assert AttrName(a) == "FirstUse";
    case ServiceName => assert AttrName(a) == "ServiceName";
    case ChannelId => assert AttrName(a) == "ChannelId";
    case ReplicaId => assert AttrName(a) == "ReplicaId";
    case InstanceId => assert AttrName(a) == "InstanceId";
    case ProcessDescriptor => assert AttrName(a) == "ProcessDescriptor";
    case OpenTime => assert AttrName(a) == "OpenTime";
    case Plane => assert AttrName(a) == "Plane";
    case IsStriped => assert AttrName(a) == "IsStriped";
    case RequestId => assert AttrName(a) == "RequestId";
    case RequestSeq => assert AttrName(a) == "RequestSeq";
    case ResponseId => assert AttrName(a) == "ResponseId";
    case ResponseSeq => assert AttrName(a) == "ResponseSeq";
    case Task => assert AttrName(a) == "Task";
    case LockId => assert AttrName(a) == "LockId";
    case ElementId => assert AttrName(a) == "ElementId";
    case FunctionId => assert AttrName(a) == "FunctionId";
    case SearchFlags => assert AttrName(a) == "SearchFlags";
    case ActivityId => assert AttrName(a) == "ActivityId";
  }

  lemma MarkBelongs(a: Attr)
    ensures AttrMarked(MarkOf(a)) == a
  {
  }

  /** Different attributes have different names. */
  lemma NamesDiffer(a: Attr, b: Attr)
    requires AttrName(a) == AttrName(b)
    ensures a == b
  {
    MarkOfName(a);
    MarkOfName(b);
    MarkBelongs(a);
    MarkBelongs(b);
  }

  predicate IsNumeric(a: Attr) {
    TypeOf(a) in {U1, U4, U8, Timestamp}
  }

  datatype Value = Text(text: string) | Number(number: nat) | Flag(flag: bool)

  const TWO_32: nat := 0x1_0000_0000
  const TWO_64: nat := 0x1_0000_0000_0000_0000

  /** What the setters of `CEvent` admit for an attribute. */
  predicate Admits(a: Attr, v: Value) {
    match TypeOf(a)
    case U1 => v.Number? && v.number < 256
    case U4 => v.Number? && v.number < TWO_32
    case U8 => v.Number? && v.number < TWO_64
    case Timestamp => v.Number? && v.number < TWO_64
    case Bool => v.Flag?
    case Str => v.Text?
  }

  datatype EventKind = IndexPayload | FileInformation | PlaneInformation | QueryStart | QueryStop | OtherEvent(id: nat)

  /** An event and its assigned attributes. */
  datatype RawEvent = Event(kind: EventKind, attrs: map<Attr, Value>)

  type Event = e: RawEvent | forall a | a in e.attrs :: Admits(a, e.attrs[a])
    witness Event(QueryStop, map[])

  function Num(e: Event, a: Attr): (n: nat)
    requires a in e.attrs && IsNumeric(a)
    ensures n < TWO_64 && (TypeOf(a) == U4 ==> n < TWO_32) && (TypeOf(a) == U1 ==> n < 256)
  {
    assert Admits(a, e.attrs[a]);
    e.attrs[a].number
  }

  function TextOf(e: Event, a: Attr): string
    requires a in e.attrs && TypeOf(a) == Str
  {
    assert Admits(a, e.attrs[a]);
    e.attrs[a].text
  }

  /** What is read of an attribute that is not assigned: the empty text, and 0. */
  function OptionalText(e: Event, a: Attr): string
    requires TypeOf(a) == Str
  {
    if a in e.attrs then TextOf(e, a) else ""
  }

  function OptionalNum(e: Event, a: Attr): (n: nat)
    requires IsNumeric(a)
    ensures n < TWO_64 && (TypeOf(a) == U4 ==> n < TWO_32) && (TypeOf(a) == U1 ==> n < 256)
  {
    if a in e.attrs then Num(e, a) else 0
  }

  // ----- decimal text -----------------------------------------------------------------------------

  function Digit(d: nat): char
    requires d < 10
  {
    '0' + d as char
  }

  /** `std::to_string` of an unsigned number. */
  function Decimal(n: nat): (s: string)
    ensures s != [] && forall i | 0 <= i < |s| :: '0' <= s[i] <= '9'
  {
    if n < 10 then [Digit(n)] else Decimal(n / 10) + [Digit(n % 10)]
  }

  /** The number a run of digits spells. */
  function Spelled(s: string): nat
    requires forall i | 0 <= i < |s| :: '0' <= s[i] <= '9'
  {
    if s == [] then 0 else Spelled(s[..|s| - 1]) * 10 + (s[|s| - 1] - '0') as nat
  }

  lemma {:induction false} SpelledDecimal(n: nat)
    ensures Spelled(Decimal(n)) == n
  {
    var s := Decimal(n);
    if n < 10 {
      assert s[..0] == [];
    } else {
      assert s[..|s| - 1] == Decimal(n / 10);
      SpelledDecimal(n / 10);
    }
  }

  lemma DecimalInjective(m: nat, n: nat)
    requires Decimal(m) == Decimal(n)
    ensures m == n
  {
    SpelledDecimal(m);
    SpelledDecimal(n);
  }

  // ----- metadata ---------------------------------------------------------------------------------

  /** The mappings `CMetaInfoState` has collected so far. */
  datatype RawMeta = Meta(paths: map<nat, string>, planes: map<nat, string>, logicalNames: map<nat, string>,
                          services: map<string, string>)

  /** `onEvent` stores a path or a service only when it is not empty.  A plane's name is not checked. */
  type Meta = m: RawMeta | "" !in m.paths.Values && "" !in m.services.Values
    witness Meta(map[], map[], map[], map[])

  function Unavailable(kind: string, id: nat): (s: string)
    ensures s != ""
  {
    kind + " not available (" + Decimal(id) + ")"
  }

  function FilePath(m: Meta, id: nat): string {
    if id in m.paths then m.paths[id] else Unavailable("path", id)
  }

  function PlaneOf(m: Meta, e: Event): string {
    if Plane in e.attrs then TextOf(e, Plane)
    else if FileId !in e.attrs then ""
    else if Num(e, FileId) in m.planes then m.planes[Num(e, FileId)]
    else Unavailable("plane", Num(e, FileId))
  }

  function LogicalNameOf(m: Meta, e: Event): string {
    if FileId !in e.attrs then ""
    else if Num(e, FileId) in m.logicalNames then m.logicalNames[Num(e, FileId)]
    else Unavailable("logical file name", Num(e, FileId))
  }

  /** The empty text stands for a trace that no query has announced. */
  function ServiceOf(m: Meta, traceId: string): string {
    if traceId != "" && traceId in m.services then m.services[traceId] else ""
  }

  /** The part of a path after its last separator. */
  function BaseName(path: string): string {
    if path == [] then []
    else
      var last := path[|path| - 1];
      if last == '/' || last == '\\' then [] else BaseName(path[..|path| - 1]) + [last]
  }

  const NODE_KIND_TEXT: seq<string> := ["branch", "leaf", "blob"]

  /** Number of a leaf node, which an index payload event implies. */
  const LEAF_NODE: nat := 1
}
