/** The XML schema builder: a printer that keeps the open records and datasets on two stacks, and
    goes back to patch a digit in what it has already printed. */
module SchemaBuilder {
  import opened Options
  import Events

  // ----- what is printed --------------------------------------------------------------------------

  datatype Attr = Attr(name: string, value: string)

  /** A piece of markup or a line break.  `ComplexType` is the start tag whose mixed flag may be patched
      later. */
  datatype Tag =
    | Declaration
    | Start(name: string, attrs: seq<Attr>)
    | Empty(name: string, attrs: seq<Attr>)
    | End(name: string)
    | ComplexType(mixed: Option<bool>)
    | Break

  function AttrText(attrs: seq<Attr>): string {
    if attrs == [] then ""
    else AttrText(attrs[..|attrs| - 1]) + " " + attrs[|attrs| - 1].name + "=\"" + attrs[|attrs| - 1].value + "\""
  }

  function Digit(mixed: bool): char {
    if mixed then '1' else '0'
  }

  /** `<xs:complexType mixed="` */
  const MIXED_START: string := "<xs:complexType mixed=\""

  function TagText(t: Tag): string {
    match t
    case Declaration => "<?xml version=\"1.0\" encoding=\"UTF-8\"?>"
    case Start(name, attrs) => "<" + name + AttrText(attrs) + ">"
    case Empty(name, attrs) => "<" + name + AttrText(attrs) + "/>"
    case End(name) => "</" + name + ">"
    case ComplexType(None) => "<xs:complexType>"
    case ComplexType(Some(mixed)) => MIXED_START + [Digit(mixed)] + "\">"
    case Break => "\n"
  }

  /** The text of a row of tags, for any way to print one. */
  function Spell(f: Tag -> string, tags: seq<Tag>): string {
    if tags == [] then "" else Spell(f, tags[..|tags| - 1]) + f(tags[|tags| - 1])
  }

  lemma {:induction false} SpellConcat(f: Tag -> string, a: seq<Tag>, b: seq<Tag>)
    ensures Spell(f, a + b) == Spell(f, a) + Spell(f, b)
  {
    if b == [] {
      assert a + b == a;
    } else {
      assert (a + b)[..|a + b| - 1] == a + b[..|b| - 1];
      SpellConcat(f, a, b[..|b| - 1]);
    }
  }

  /** The text with one character replaced. */
  function SetChar(text: string, pos: nat, c: char): string
    requires pos < |text|
  {
    text[pos := c]
  }

  /** Patching the digit in one tag's text is printing the tag with the other flag. */
  lemma PatchIsUpdate(f: Tag -> string, tags: seq<Tag>, i: nat, flag: bool, before: string, after: string)
    requires i < |tags| && tags[i].ComplexType? && tags[i].mixed.Some?
    requires forall b :: f(ComplexType(Some(b))) == before + [Digit(b)] + after
    ensures var pos := |Spell(f, tags[..i])| + |before|;
            pos < |Spell(f, tags)| && SetChar(Spell(f, tags), pos, Digit(flag)) ==
              Spell(f, tags[i := ComplexType(Some(flag))])
  {
    var patched := tags[i := ComplexType(Some(flag))];
    SpellAt(f, tags, i);
    SpellAt(f, patched, i);
    assert patched[..i] == tags[..i] && patched[i + 1..] == tags[i + 1..];
    CharInMiddle(Spell(f, tags[..i]), before, Digit(tags[i].mixed.value), Digit(flag), after, Spell(f, tags[i + 1..]));
  }

  lemma SpellAt(f: Tag -> string, tags: seq<Tag>, i: nat)
    requires i < |tags|
    ensures Spell(f, tags) == Spell(f, tags[..i]) + f(tags[i]) + Spell(f, tags[i + 1..])
  {
    assert tags == tags[..i + 1] + tags[i + 1..] && tags[..i + 1][..i] == tags[..i];
    SpellConcat(f, tags[..i + 1], tags[i + 1..]);
  }

  lemma CharInMiddle(head: string, before: string, x: char, y: char, after: string, tail: string)
    ensures SetChar(head + (before + [x] + after) + tail, |head| + |before|, y) == head + (before + [y] + after) + tail
  {
  }

  /** The text itself. */
  function Text(tags: seq<Tag>): string {
    Spell(t => TagText(t), tags)
  }

  // ----- balance (section 2.1 of XML 1.0) ---------------------------------------------------------

  /** The elements open after some tags; None when an end tag does not match. */
  function Open(tags: seq<Tag>, open: seq<string>): Option<seq<string>> {
    if tags == [] then Some(open)
    else
      match tags[0]
      case Start(name, _) => Open(tags[1..], open + [name])
      case ComplexType(_) => Open(tags[1..], open + ["xs:complexType"])
      case End(name) => if open != [] && open[|open| - 1] == name then Open(tags[1..], open[..|open| - 1]) else None
      case _ => Open(tags[1..], open)
  }

  lemma {:induction false} OpenConcat(a: seq<Tag>, b: seq<Tag>, open: seq<string>)
    requires Open(a, open).Some?
    ensures Open(a + b, open) == Open(b, Open(a, open).value)
    decreases |a|
  {
    if a == [] {
      assert a + b == b;
    } else {
      assert (a + b)[1..] == a[1..] + b;
      match a[0]
      case Start(name, _) => OpenConcat(a[1..], b, open + [name]);
      case ComplexType(_) => OpenConcat(a[1..], b, open + ["xs:complexType"]);
      case End(name) => OpenConcat(a[1..], b, open[..|open| - 1]);
      case _ => OpenConcat(a[1..], b, open);
    }
  }

  /** The tags open and close their own elements only, wherever they stand. */
  ghost predicate Closed(tags: seq<Tag>) {
    forall open :: Open(tags, open) == Some(open)
  }

  lemma ClosedConcat(a: seq<Tag>, b: seq<Tag>)
    requires Closed(a) && Closed(b)
    ensures Closed(a + b)
  {
    forall open ensures Open(a + b, open) == Some(open) { OpenConcat(a, b, open); }
  }

  lemma ClosedLeaf(t: Tag)
    requires t.Empty? || t.Declaration? || t.Break?
    ensures Closed([t])
  {
    assert [t][1..] == [];
  }

  lemma ClosedElement(start: Tag, inner: seq<Tag>)
    requires Closed(inner) && (start.Start? || start.ComplexType?)
    ensures Closed([start] + inner + [End(if start.Start? then start.name else "xs:complexType")])
  {
    var name := if start.Start? then start.name else "xs:complexType";
    forall open ensures Open([start] + inner + [End(name)], open) == Some(open) {
      assert [start][1..] == [] && [End(name)][1..] == [] && (open + [name])[..|open|] == open;
      OpenConcat([start], inner, open);
      OpenConcat([start] + inner, [End(name)], open);
    }
  }

  // ----- types ------------------------------------------------------------------------------------

  /** How large a decimal type is. */
  datatype Extent = UnknownExtent | Extent(digits: nat, precision: nat)

  /** The sizes a decimal type is made with: at most 32 digits on either side of the point, or unknown. */
  type DecimalSize = e: Extent |
    e.Extent? ==> e.precision <= e.digits && e.precision <= 32 && e.digits - e.precision <= 32 witness UnknownExtent

  /** The types that have an XML name; a length is missing when it is unknown.  Set types are told
      apart by their identity. */
  datatype FieldType =
    | BooleanType | RealType | IntegerType(signed: bool) | DataType(length: Option<nat>) | TextType(length: Option<nat>)
    | DecimalType(signed: bool, size: DecimalSize)
    | SetType(element: FieldType, id: nat)

  datatype TypeDef =
    | DataDef(length: nat)
    | TextDef(length: nat)
    | DecimalDef(name: string, size: DecimalSize)
    | SetDef(element: string, index: nat)

  function DecimalName(signed: bool, size: DecimalSize): string {
    (if signed then "" else "u") + "decimal" + ExtentText(size)
  }

  function ExtentText(size: DecimalSize): string {
    match size
    case UnknownExtent => ""
    case Extent(digits, precision) =>
      Events.Decimal(digits) + (if precision > 0 then "_" + Events.Decimal(precision) else "")
  }

  /** The name of the type that a definition defines. */
  function DefName(d: TypeDef): string {
    match d
    case DataDef(length) => "data" + Events.Decimal(length)
    case TextDef(length) => "string" + Events.Decimal(length)
    case DecimalDef(name, _) => name
    case SetDef(element, index) => "setof_" + element + "_" + Events.Decimal(index)
  }

  /** A number of digits, with -15 for the unknown ones: `%d` of 0xFFFFFFF1. */
  function DigitsText(size: DecimalSize): string {
    if size.UnknownExtent? then "-15" else Events.Decimal(size.digits)
  }

  function PrecisionText(size: DecimalSize): string {
    if size.UnknownExtent? then "-15" else Events.Decimal(size.precision)
  }

  function DefTags(d: TypeDef): seq<Tag> {
    [Start(if d.SetDef? then "xs:complexType" else "xs:simpleType", [Attr("name", DefName(d))])] + DefBody(d)
  }

  function DefBody(d: TypeDef): seq<Tag> {
    match d
    case DataDef(length) =>
      [Start("xs:restriction", [Attr("base", "xs:hexBinary")]),
       Empty("xs:length", [Attr("value", Events.Decimal(length))]),
       End("xs:restriction"), End("xs:simpleType"), Break]
    case TextDef(length) =>
      [Start("xs:restriction", [Attr("base", "xs:string")]),
       Empty("xs:maxLength", [Attr("value", Events.Decimal(length))]),
       End("xs:restriction"), End("xs:simpleType"), Break]
    case DecimalDef(_, size) =>
      [Start("xs:restriction", [Attr("base", "xs:decimal")]),
       Empty("xs:totalDigits", [Attr("value", DigitsText(size))]),
       Empty("xs:fractionDigits", [Attr("value", PrecisionText(size)), Attr("fixed", "true")]),
       End("xs:restriction"), End("xs:simpleType"), Break]
    case SetDef(element, _) =>
      [Start("xs:sequence", []), Start("xs:element", [Attr("name", "All"), Attr("minOccurs", "0")]),
       Empty("xs:complexType", []),
       End("xs:element"),
       Empty("xs:element", [Attr("name", "Item"), Attr("minOccurs", "0"), Attr("maxOccurs", "unbounded"),
                            Attr("type", element)]),
       End("xs:sequence"), End("xs:complexType"), Break]
  }

  function AllDefTags(defs: seq<TypeDef>): seq<Tag> {
    if defs == [] then [] else AllDefTags(defs[..|defs| - 1]) + DefTags(defs[|defs| - 1])
  }

  const UNKNOWN_LENGTH: nat := 0xFFFF_FFF1

  /** The number under which a decimal type is looked up, in 32 bits.  It does not tell the sign. */
  function DecimalKey(size: DecimalSize): (key: nat)
    ensures size.Extent? ==> key == size.digits * 255 + size.precision < 0x1_0000
  {
    if size.UnknownExtent? then (UNKNOWN_LENGTH * 255 + UNKNOWN_LENGTH) % 0x1_0000_0000
    else (size.digits * 255 + size.precision) % 0x1_0000_0000
  }

  lemma KeyTellsSize(a: DecimalSize, b: DecimalSize)
    requires DecimalKey(a) == DecimalKey(b)
    ensures a == b
  {
    if a.Extent? && b.Extent? { assert (a.digits - b.digits) * 255 == b.precision - a.precision; }
  }

  /** `alreadyHadSize` */
  method AlreadyHadSize(size: nat, sizes: seq<nat>) returns (had: bool, after: seq<nat>)
    ensures had <==> size in sizes
    ensures after == if size in sizes then sizes else sizes + [size]
  {
    for i := 0 to |sizes|
      invariant size !in sizes[..i]
    {
      if sizes[i] == size { return true, sizes; }
      assert sizes[..i + 1] == sizes[..i] + [sizes[i]];
    }
    assert sizes[..|sizes|] == sizes;
    return false, sizes + [size];
  }

  // ----- what is open -----------------------------------------------------------------------------

  /** Something begun and not ended: a conditional block, a record, or a dataset and its row. */
  datatype Frame = IfFrame | RecordFrame(name: string) | DatasetFrame(name: string, row: string)

  /** A dataset that has only one name uses it for the rows. */
  function DatasetName(name: string, row: string): string {
    if name == "" then row else name
  }

  function RowName(name: string, row: string): string {
    if name == "" then "" else row
  }

  /** A record without a name is part of what encloses it. */
  predicate Scopes(f: Frame) {
    f.DatasetFrame? || (f.RecordFrame? && f.name != "")
  }

  /** The conditional blocks opened inside the innermost named record or dataset. */
  function IfCount(frames: seq<Frame>): nat {
    if frames == [] || Scopes(frames[|frames| - 1]) then 0
    else IfCount(frames[..|frames| - 1]) + (if frames[|frames| - 1].IfFrame? then 1 else 0)
  }

  /** The same for each of the enclosing ones, outermost first. */
  function SavedCounts(frames: seq<Frame>): seq<nat> {
    if frames == [] then []
    else
      var front := frames[..|frames| - 1];
      SavedCounts(front) + (if Scopes(frames[|frames| - 1]) then [IfCount(front)] else [])
  }

  /** Whether the attributes of a frame are collected apart from those of what encloses it. */
  predicate HasAttributes(f: Frame) {
    (f.RecordFrame? && f.name != "") || (f.DatasetFrame? && RowName(f.name, f.row) != "")
  }

  function AttributeLists(frames: seq<Frame>): (n: nat)
    ensures n > 0
  {
    if frames == [] then 1
    else AttributeLists(frames[..|frames| - 1]) + (if HasAttributes(frames[|frames| - 1]) then 1 else 0)
  }

  const RECORD_ELEMENTS: seq<string> := ["xs:element", "xs:complexType", "xs:sequence"]
  const PREFIX_ELEMENTS: seq<string> :=
    ["xs:schema", "xs:element", "xs:complexType", "xs:sequence", "xs:element", "xs:complexType", "xs:sequence"]

  function ElementsOf(f: Frame): seq<string> {
    match f
    case IfFrame => []
    case RecordFrame(name) => if name == "" then [] else RECORD_ELEMENTS
    case DatasetFrame(name, row) =>
      (if DatasetName(name, row) == "" then [] else ["xs:element", "xs:complexType"]) + ["xs:sequence"]
      + (if RowName(name, row) == "" then [] else RECORD_ELEMENTS)
  }

  function OpenElements(frames: seq<Frame>): seq<string> {
    if frames == [] then PREFIX_ELEMENTS
    else OpenElements(frames[..|frames| - 1]) + ElementsOf(frames[|frames| - 1])
  }

  /** While nothing has been printed, only conditional blocks and nameless records can be open. */
  lemma {:induction false} NothingOpened(frames: seq<Frame>)
    requires forall f | f in frames :: !Scopes(f)
    ensures OpenElements(frames) == PREFIX_ELEMENTS && AttributeLists(frames) == 1
  {
    if frames != [] {
      NothingOpened(frames[..|frames| - 1]);
      assert frames[|frames| - 1] in frames;
    }
  }

  lemma FrameBegun(frames: seq<Frame>, f: Frame)
    ensures var more := frames + [f];
            && IfCount(more) == (if Scopes(f) then 0 else if f.IfFrame? then IfCount(frames) + 1 else IfCount(frames))
            && SavedCounts(more) == (if Scopes(f) then SavedCounts(frames) + [IfCount(frames)] else SavedCounts(frames))
            && AttributeLists(more) == (if HasAttributes(f) then AttributeLists(frames) + 1 else AttributeLists(frames))
            && OpenElements(more) == (if Scopes(f) then OpenElements(frames) + ElementsOf(f) else OpenElements(frames))
            && ((forall g | g in more :: !Scopes(g)) <==> !Scopes(f) && forall g | g in frames :: !Scopes(g))
  {
    var more := frames + [f];
    assert more[..|frames|] == frames && more[|frames|] == f;
    assert forall g :: g in more <==> g in frames || g == f;
  }

  // ----- the builder ------------------------------------------------------------------------------

  /** Printing shows the mixed flag as the only character that depends on it, three before the end. */
  ghost predicate Printable(f: Tag -> string) {
    exists before, after :: PrintsAround(f, before, after)
  }

  ghost predicate PrintsAround(f: Tag -> string, before: string, after: string) {
    before != "" && |after| == 2 && forall b :: f(ComplexType(Some(b))) == before + [Digit(b)] + after
  }

  lemma TextIsPrintable()
    ensures Printable(t => TagText(t))
  {
    assert PrintsAround(t => TagText(t), MIXED_START, "\">");
  }

  ghost predicate HasDecimal(defs: seq<TypeDef>, key: nat) {
    exists d | d in defs :: d.DecimalDef? && DecimalKey(d.size) == key
  }

  function IndexOf(t: FieldType, ts: seq<FieldType>): (i: nat)
    ensures i <= |ts| && (i < |ts| <==> t in ts) && (i < |ts| ==> ts[i] == t)
  {
    if ts == [] then 0 else if ts[0] == t then 0 else 1 + IndexOf(t, ts[1..])
  }

  method Find(t: FieldType, ts: seq<FieldType>) returns (i: nat)
    ensures i == IndexOf(t, ts)
  {
    i := 0;
    while i < |ts| && ts[i] != t
      invariant 0 <= i <= |ts| && IndexOf(t, ts) == i + IndexOf(t, ts[i..])
    {
      assert ts[i..][1..] == ts[i + 1..];
      i := i + 1;
    }
  }

  /** The set types in a type have been given their numbers. */
  predicate Registered(t: FieldType, ts: seq<FieldType>) {
    t.SetType? ==> t in ts && Registered(t.element, ts)
  }

  /** The XML name of a type, given the numbers of the set types. */
  function NameOf(t: FieldType, ts: seq<FieldType>): string {
    match t
    case BooleanType => "xs:boolean"
    case RealType => "xs:double"
    case IntegerType(signed) => if signed then "xs:integer" else "xs:nonNegativeInteger"
    case DataType(length) => if length.None? then "xs:hexBinary" else "data" + Events.Decimal(length.value)
    case TextType(length) => if length.None? then "xs:string" else "string" + Events.Decimal(length.value)
    case DecimalType(signed, size) => DecimalName(signed, size)
    case SetType(element, _) => "setof_" + NameOf(element, ts) + "_" + Events.Decimal(IndexOf(t, ts))
  }

  /** A set type's definition refers to its element type by name. */
  ghost predicate SetKnown(ts: seq<FieldType>, defs: seq<TypeDef>, i: nat)
    requires i < |ts|
  {
    && ts[i].SetType? && IndexOf(ts[i], ts) == i && Registered(ts[i], ts)
    && SetDef(NameOf(ts[i].element, ts), i) in defs
  }

  /** Naming a type leaves a definition for each type that its name refers to, if it needs one; that
      of a decimal type may have the name of the other sign. */
  ghost predicate Provided(defs: seq<TypeDef>, t: FieldType, ts: seq<FieldType>) {
    match t
    case DataType(Some(length)) => DataDef(length) in defs
    case TextType(Some(length)) => TextDef(length) in defs
    case DecimalType(_, size) => HasDecimal(defs, DecimalKey(size))
    case SetType(element, _) => SetDef(NameOf(element, ts), IndexOf(t, ts)) in defs && Provided(defs, element, ts)
    case _ => true
  }

  /** The type names of XML Schema that the builder uses. */
  const BUILT_IN_TYPES: set<string> :=
    {"xs:boolean", "xs:double", "xs:integer", "xs:nonNegativeInteger", "xs:hexBinary", "xs:string"}

  ghost predicate IsDefined(defs: seq<TypeDef>, name: string) {
    name in BUILT_IN_TYPES || exists d | d in defs :: DefName(d) == name
  }

  /** Every name that a type's name refers to is built in or the name of a definition. */
  ghost predicate DefinedIn(defs: seq<TypeDef>, t: FieldType, ts: seq<FieldType>) {
    IsDefined(defs, NameOf(t, ts)) && (t.SetType? ==> DefinedIn(defs, t.element, ts))
  }

  /** The type inside any sets. */
  function Leaf(t: FieldType): FieldType {
    if t.SetType? then Leaf(t.element) else t
  }

  /** A decimal type of the same size has been defined under the name of the other sign. */
  predicate Clashes(defs: seq<TypeDef>, t: FieldType) {
    var u := Leaf(t);
    u.DecimalType? && DecimalDef(DecimalName(!u.signed, u.size), u.size) in defs
  }

  lemma HasDecimalMore(defs: seq<TypeDef>, d: TypeDef, key: nat)
    ensures HasDecimal(defs + [d], key) <==> HasDecimal(defs, key) || (d.DecimalDef? && DecimalKey(d.size) == key)
  {
    assert d in defs + [d];
    forall e | e in defs ensures e in defs + [d] {}
  }

  lemma {:induction false} IndexStable(t: FieldType, ts: seq<FieldType>, more: seq<FieldType>)
    requires t in ts
    ensures IndexOf(t, ts + more) == IndexOf(t, ts)
  {
    if ts[0] != t {
      assert (ts + more)[1..] == ts[1..] + more;
      IndexStable(t, ts[1..], more);
    }
  }

  lemma {:induction false} NameStable(t: FieldType, ts: seq<FieldType>, more: seq<FieldType>)
    requires Registered(t, ts)
    ensures Registered(t, ts + more) && NameOf(t, ts + more) == NameOf(t, ts)
  {
    if t.SetType? {
      NameStable(t.element, ts, more);
      IndexStable(t, ts, more);
    }
  }

  lemma {:induction false} IndexOfNew(t: FieldType, ts: seq<FieldType>)
    requires t !in ts
    ensures IndexOf(t, ts + [t]) == |ts|
  {
    if ts != [] {
      assert (ts + [t])[1..] == ts[1..] + [t];
      IndexOfNew(t, ts[1..]);
    }
  }

  /** Each set type has its definition, each definition of a set or a decimal type has the name of such a
      type, and there is one definition for a size. */
  ghost predicate Sound(defs: seq<TypeDef>, ts: seq<FieldType>) {
    && (forall i | 0 <= i < |ts| :: SetKnown(ts, defs, i))
    && (forall d | d in defs && d.SetDef? ::
          d.index < |ts| && ts[d.index].SetType? && d.element == NameOf(ts[d.index].element, ts))
    && (forall d | d in defs && d.DecimalDef? ::
          d.name == DecimalName(true, d.size) || d.name == DecimalName(false, d.size))
    && (forall d, e | d in defs && e in defs && d.DecimalDef? && e.DecimalDef? && d.size == e.size :: d == e)
  }

  /** The size lists hold exactly the types that have been defined, each once. */
  ghost predicate Known(defs: seq<TypeDef>, dataSizes: seq<nat>, stringSizes: seq<nat>, decimalSizes: seq<nat>,
                        setTypes: seq<FieldType>) {
    && (forall n :: n in dataSizes <==> DataDef(n) in defs)
    && (forall n :: n in stringSizes <==> TextDef(n) in defs)
    && (forall n :: n in decimalSizes <==> HasDecimal(defs, n))
    && Sound(defs, setTypes)
    && (forall i, j | 0 <= i < j < |defs| :: defs[i] != defs[j])
  }

  lemma SetsStayKnown(ts: seq<FieldType>, defs: seq<TypeDef>, d: TypeDef)
    requires forall i | 0 <= i < |ts| :: SetKnown(ts, defs, i)
    ensures forall i | 0 <= i < |ts| :: SetKnown(ts, defs + [d], i)
  {
    forall i | 0 <= i < |ts| ensures SetKnown(ts, defs + [d], i) {
      assert SetKnown(ts, defs, i);
    }
  }

  lemma KnownData(defs: seq<TypeDef>, ds: seq<nat>, ss: seq<nat>, xs: seq<nat>, ts: seq<FieldType>, n: nat)
    requires Known(defs, ds, ss, xs, ts) && n !in ds
    ensures Known(defs + [DataDef(n)], ds + [n], ss, xs, ts)
  {
    SetsStayKnown(ts, defs, DataDef(n));
    forall k ensures HasDecimal(defs + [DataDef(n)], k) <==> HasDecimal(defs, k) {
      HasDecimalMore(defs, DataDef(n), k);
    }
  }

  lemma KnownText(defs: seq<TypeDef>, ds: seq<nat>, ss: seq<nat>, xs: seq<nat>, ts: seq<FieldType>, n: nat)
    requires Known(defs, ds, ss, xs, ts) && n !in ss
    ensures Known(defs + [TextDef(n)], ds, ss + [n], xs, ts)
  {
    SetsStayKnown(ts, defs, TextDef(n));
    forall k ensures HasDecimal(defs + [TextDef(n)], k) <==> HasDecimal(defs, k) {
      HasDecimalMore(defs, TextDef(n), k);
    }
  }

  lemma KnownDecimal(defs: seq<TypeDef>, ds: seq<nat>, ss: seq<nat>, xs: seq<nat>, ts: seq<FieldType>, signed: bool,
                     size: DecimalSize)
    requires Known(defs, ds, ss, xs, ts) && DecimalKey(size) !in xs
    ensures Known(defs + [DecimalDef(DecimalName(signed, size), size)], ds, ss, xs + [DecimalKey(size)], ts)
  {
    var d := DecimalDef(DecimalName(signed, size), size);
    forall k ensures HasDecimal(defs + [d], k) <==> HasDecimal(defs, k) || k == DecimalKey(size) {
      HasDecimalMore(defs, d, k);
    }
    SetsStayKnown(ts, defs, d);
    assert forall e | e in defs && e.DecimalDef? && e.size == size :: HasDecimal(defs, DecimalKey(size));
    assert d in defs ==> HasDecimal(defs, DecimalKey(size));
  }

  /** A set type becomes known with its definition. */
  lemma SoundSet(defs: seq<TypeDef>, ts: seq<FieldType>, t: FieldType)
    requires Sound(defs, ts) && t.SetType? && t !in ts && Registered(t.element, ts)
    ensures Sound(defs + [SetDef(NameOf(t.element, ts), |ts|)], ts + [t])
    ensures IndexOf(t, ts + [t]) == |ts| && NameOf(t.element, ts + [t]) == NameOf(t.element, ts)
            && Registered(t.element, ts + [t])
  {
    var d := SetDef(NameOf(t.element, ts), |ts|);
    IndexOfNew(t, ts);
    NameStable(t.element, ts, [t]);
    forall i | 0 <= i < |ts|
      ensures SetKnown(ts + [t], defs + [d], i) && NameOf(ts[i].element, ts + [t]) == NameOf(ts[i].element, ts)
    {
      assert SetKnown(ts, defs, i);
      NameStable(ts[i], ts, [t]);
      NameStable(ts[i].element, ts, [t]);
      IndexStable(ts[i], ts, [t]);
    }
    assert SetKnown(ts + [t], defs + [d], |ts|);
    forall e | e in defs + [d] && e.SetDef?
      ensures e.index < |ts + [t]| && (ts + [t])[e.index].SetType?
              && e.element == NameOf((ts + [t])[e.index].element, ts + [t])
    {
      if e in defs { assert (ts + [t])[e.index] == ts[e.index]; }
    }
  }

  lemma KnownSet(defs: seq<TypeDef>, ds: seq<nat>, ss: seq<nat>, xs: seq<nat>, ts: seq<FieldType>, t: FieldType)
    requires Known(defs, ds, ss, xs, ts) && t.SetType? && t !in ts && Registered(t.element, ts)
    ensures Known(defs + [SetDef(NameOf(t.element, ts), |ts|)], ds, ss, xs, ts + [t])
    ensures IndexOf(t, ts + [t]) == |ts| && NameOf(t.element, ts + [t]) == NameOf(t.element, ts)
            && Registered(t.element, ts + [t])
  {
    var d := SetDef(NameOf(t.element, ts), |ts|);
    forall k ensures HasDecimal(defs + [d], k) <==> HasDecimal(defs, k) { HasDecimalMore(defs, d, k); }
    SoundSet(defs, ts, t);
  }

  lemma {:induction false} StillProvided(defs: seq<TypeDef>, more: seq<TypeDef>, t: FieldType, ts: seq<FieldType>,
                                         us: seq<FieldType>)
    requires Provided(defs, t, ts) && Registered(t, ts) && defs <= more && ts <= us
    ensures Provided(more, t, us) && Registered(t, us) && NameOf(t, us) == NameOf(t, ts)
  {
    assert us == ts + us[|ts|..];
    NameStable(t, ts, us[|ts|..]);
    if t.SetType? {
      StillProvided(defs, more, t.element, ts, us);
      IndexStable(t, ts, us[|ts|..]);
    }
  }

  // ----- markup of the operations -----------------------------------------------------------------

  /** The types that have been defined, and the set types, which are numbered in order. */
  datatype Types = Types(defs: seq<TypeDef>, sets: seq<FieldType>)

  /** The types once a field of type `t` has been named: each definition is added where it is first
      needed, that of a set after that of its elements. */
  ghost function WithType(types: Types, t: FieldType): Types {
    match t
    case DataType(Some(length)) => if DataDef(length) in types.defs then types
      else types.(defs := types.defs + [DataDef(length)])
    case TextType(Some(length)) => if TextDef(length) in types.defs then types
      else types.(defs := types.defs + [TextDef(length)])
    case DecimalType(signed, size) =>
      if HasDecimal(types.defs, DecimalKey(size)) then types
      else types.(defs := types.defs + [DecimalDef(DecimalName(signed, size), size)])
    case SetType(element, _) =>
      var inner := WithType(types, element);
      if t in inner.sets then inner
      else Types(inner.defs + [SetDef(NameOf(element, inner.sets), |inner.sets|)], inner.sets + [t])
    case _ => types
  }

  /** Naming a type keeps the types sound and provides what its name refers to. */
  lemma {:induction false} Provides(types: Types, t: FieldType)
    requires Sound(types.defs, types.sets)
    ensures var after := WithType(types, t);
            && Sound(after.defs, after.sets) && types.defs <= after.defs && types.sets <= after.sets
            && Registered(t, after.sets) && Provided(after.defs, t, after.sets)
    decreases t
  {
    var after := WithType(types, t);
    match t
    case DataType(Some(length)) => SetsStayKnown(types.sets, types.defs, DataDef(length));
    case TextType(Some(length)) => SetsStayKnown(types.sets, types.defs, TextDef(length));
    case DecimalType(signed, size) => DecimalProvides(types, signed, size);
    case SetType(element, _) =>
      Provides(types, element);
      var inner := WithType(types, element);
      if t in inner.sets {
        assert SetKnown(inner.sets, inner.defs, IndexOf(t, inner.sets));
      } else {
        SoundSet(inner.defs, inner.sets, t);
        StillProvided(inner.defs, after.defs, element, inner.sets, after.sets);
      }
    case _ =>
  }

  lemma DecimalProvides(types: Types, signed: bool, size: DecimalSize)
    requires Sound(types.defs, types.sets)
    ensures var after := WithType(types, DecimalType(signed, size));
            Sound(after.defs, after.sets) && HasDecimal(after.defs, DecimalKey(size))
  {
    var d := DecimalDef(DecimalName(signed, size), size);
    HasDecimalMore(types.defs, d, DecimalKey(size));
    if !HasDecimal(types.defs, DecimalKey(size)) {
      assert forall e | e in types.defs && e.DecimalDef? :: e.size != size;
      SetsStayKnown(types.sets, types.defs, d);
      assert forall e :: e in types.defs + [d] <==> e in types.defs || e == d;
    }
  }

  /** Naming a type does not define the other sign of a decimal type in it. */
  lemma {:induction false} ClashesBefore(types: Types, t: FieldType)
    ensures Clashes(WithType(types, t).defs, t) == Clashes(types.defs, t)
    decreases t
  {
    if t.SetType? { ClashesBefore(types, t.element); }
  }

  // ----- the names of types -----------------------------------------------------------------------

  predicate IsNumber(s: string) {
    forall i | 0 <= i < |s| :: '0' <= s[i] <= '9'
  }

  /** Digits end where an underscore or nothing follows. */
  lemma DigitsEnd(a: string, x: string, b: string, y: string)
    requires IsNumber(a) && IsNumber(b) && a + x == b + y
    requires (x == "" || x[0] == '_') && (y == "" || y[0] == '_')
    ensures a == b && x == y
  {
    assert forall i | 0 <= i < |a| :: (a + x)[i] == a[i];
    assert forall i | 0 <= i < |b| :: (b + y)[i] == b[i];
    assert x != "" ==> (a + x)[|a|] == '_';
    assert y != "" ==> (b + y)[|b|] == '_';
    assert (a + x)[..|a|] == a && (b + y)[..|a|] == b && (a + x)[|a|..] == x && (b + y)[|a|..] == y;
  }

  lemma ExtentTextInjective(a: DecimalSize, b: DecimalSize)
    requires ExtentText(a) == ExtentText(b)
    ensures a == b
  {
    if a.Extent? && b.Extent? {
      var x := if a.precision > 0 then "_" + Events.Decimal(a.precision) else "";
      var y := if b.precision > 0 then "_" + Events.Decimal(b.precision) else "";
      DigitsEnd(Events.Decimal(a.digits), x, Events.Decimal(b.digits), y);
      Events.DecimalInjective(a.digits, b.digits);
      if a.precision > 0 {
        assert x[1..] == Events.Decimal(a.precision) && y[1..] == Events.Decimal(b.precision);
        Events.DecimalInjective(a.precision, b.precision);
      }
    }
  }

  /** Different decimal types have different names. */
  lemma DecimalNameInjective(signed: bool, a: DecimalSize, other: bool, b: DecimalSize)
    requires DecimalName(signed, a) == DecimalName(other, b)
    ensures signed == other && a == b
  {
    assert DecimalName(signed, a)[0] == if signed then 'd' else 'u';
    assert DecimalName(other, b)[0] == if other then 'd' else 'u';
    var n := if signed then 7 else 8;
    assert DecimalName(signed, a)[n..] == ExtentText(a) && DecimalName(other, b)[n..] == ExtentText(b);
    ExtentTextInjective(a, b);
  }

  lemma OtherNames(d: TypeDef)
    requires !d.DecimalDef?
    ensures |DefName(d)| > 1 && (DefName(d)[0] == 's' || (DefName(d)[0] == 'd' && DefName(d)[1] == 'a'))
  {
  }

  /** The number after the last underscore. */
  lemma LastNumber(x: string, a: string, y: string, b: string)
    requires IsNumber(a) && IsNumber(b) && x + "_" + a == y + "_" + b
    ensures a == b
  {
    var s, t := x + "_" + a, y + "_" + b;
    assert s[|x|] == '_' && t[|y|] == '_';
    assert forall i | 0 <= i < |a| :: s[|x| + 1 + i] == a[i];
    assert forall i | 0 <= i < |b| :: t[|y| + 1 + i] == b[i];
    assert s[|x| + 1..] == a && t[|y| + 1..] == b;
  }

  /** Two definitions never have one name. */
  lemma DefNamesDiffer(defs: seq<TypeDef>, ts: seq<FieldType>, d: TypeDef, e: TypeDef)
    requires Sound(defs, ts) && d in defs && e in defs && DefName(d) == DefName(e)
    ensures d == e
  {
    if d.DecimalDef? {
      DecimalDefinedByName(defs, ts, e, d.name == DecimalName(true, d.size), d.size);
    } else if e.DecimalDef? {
      DecimalDefinedByName(defs, ts, d, e.name == DecimalName(true, e.size), e.size);
    } else {
      OtherNamesDiffer(defs, ts, d, e);
    }
  }

  lemma OtherNamesDiffer(defs: seq<TypeDef>, ts: seq<FieldType>, d: TypeDef, e: TypeDef)
    requires Sound(defs, ts) && d in defs && e in defs && DefName(d) == DefName(e) && !d.DecimalDef? && !e.DecimalDef?
    ensures d == e
  {
    SecondLetter(d);
    SecondLetter(e);
    match d
    case DataDef(m) =>
      assert DefName(d)[4..] == Events.Decimal(m) && DefName(e)[4..] == Events.Decimal(e.length);
      Events.DecimalInjective(m, e.length);
    case TextDef(m) =>
      assert DefName(d)[6..] == Events.Decimal(m) && DefName(e)[6..] == Events.Decimal(e.length);
      Events.DecimalInjective(m, e.length);
    case SetDef(_, m) =>
      LastNumber("setof_" + d.element, Events.Decimal(m), "setof_" + e.element, Events.Decimal(e.index));
      Events.DecimalInjective(m, e.index);
  }

  /** Definitions of different kinds have names that start differently. */
  lemma SecondLetter(d: TypeDef)
    requires !d.DecimalDef?
    ensures |DefName(d)| > 1 && DefName(d)[1] == if d.DataDef? then 'a' else if d.TextDef? then 't' else 'e'
  {
  }

  /** No other type is called like a decimal type. */
  lemma OnlyDecimalsAreCalled(d: TypeDef, signed: bool, size: DecimalSize)
    requires DefName(d) == DecimalName(signed, size)
    ensures d.DecimalDef?
  {
    assert DecimalName(signed, size)[0] == if signed then 'd' else 'u';
    assert signed ==> DecimalName(signed, size)[1] == 'e';
    if !d.DecimalDef? { OtherNames(d); }
  }

  lemma SignsDiffer(size: DecimalSize)
    ensures DecimalName(true, size) != DecimalName(false, size)
    ensures DecimalName(true, size) !in BUILT_IN_TYPES && DecimalName(false, size) !in BUILT_IN_TYPES
  {
    assert DecimalName(true, size)[0] == 'd' && DecimalName(false, size)[0] == 'u';
    assert forall name | name in BUILT_IN_TYPES :: name[0] == 'x';
  }

  /** A decimal type that is defined by name has the only definition for its size. */
  lemma DecimalDefinedByName(defs: seq<TypeDef>, ts: seq<FieldType>, d: TypeDef, signed: bool, size: DecimalSize)
    requires Sound(defs, ts) && d in defs && DefName(d) == DecimalName(signed, size)
    ensures d == DecimalDef(DecimalName(signed, size), size)
  {
    OnlyDecimalsAreCalled(d, signed, size);
    DecimalNameInjective(signed, size, d.name == DecimalName(true, d.size), d.size);
  }

  lemma OneSignDefined(defs: seq<TypeDef>, ts: seq<FieldType>, signed: bool, size: DecimalSize)
    requires Sound(defs, ts) && HasDecimal(defs, DecimalKey(size))
    ensures DecimalDef(DecimalName(signed, size), size) in defs
            <==> DecimalDef(DecimalName(!signed, size), size) !in defs
  {
    var d :| d in defs && d.DecimalDef? && DecimalKey(d.size) == DecimalKey(size);
    KeyTellsSize(d.size, size);
    assert d == DecimalDef(d.name, size);
    SignsDiffer(size);
  }

  /** A decimal type is defined by the name it is referred to exactly when the one definition for its
      size was not made for the other sign. */
  lemma DecimalDefined(defs: seq<TypeDef>, ts: seq<FieldType>, signed: bool, size: DecimalSize)
    requires Sound(defs, ts) && HasDecimal(defs, DecimalKey(size))
    ensures IsDefined(defs, DecimalName(signed, size)) <==> DecimalDef(DecimalName(!signed, size), size) !in defs
  {
    var one, other := DecimalDef(DecimalName(signed, size), size), DecimalDef(DecimalName(!signed, size), size);
    SignsDiffer(size);
    OneSignDefined(defs, ts, signed, size);
    assert DefName(one) == DecimalName(signed, size);
    forall e | e in defs && DefName(e) == DecimalName(signed, size) ensures e == one {
      DecimalDefinedByName(defs, ts, e, signed, size);
    }
  }

  /** After a type has been named, every name it refers to is defined if and only if the decimal type in
      it, if there is one, had not been defined with the other sign before. */
  lemma {:induction false} DefinedUnlessClash(defs: seq<TypeDef>, t: FieldType, ts: seq<FieldType>)
    requires Sound(defs, ts) && Provided(defs, t, ts)
    ensures DefinedIn(defs, t, ts) <==> !Clashes(defs, t)
  {
    match t
    case DataType(Some(length)) => assert DefName(DataDef(length)) == NameOf(t, ts);
    case TextType(Some(length)) => assert DefName(TextDef(length)) == NameOf(t, ts);
    case DecimalType(signed, size) => DecimalDefined(defs, ts, signed, size);
    case SetType(element, _) =>
      DefinedUnlessClash(defs, element, ts);
      assert DefName(SetDef(NameOf(element, ts), IndexOf(t, ts))) == NameOf(t, ts);
    case _ =>
  }

  lemma NamedIsDefined(types: Types, t: FieldType)
    requires Sound(types.defs, types.sets)
    ensures var after := WithType(types, t); DefinedIn(after.defs, t, after.sets) <==> !Clashes(types.defs, t)
  {
    var after := WithType(types, t);
    Provides(types, t);
    DefinedUnlessClash(after.defs, t, after.sets);
    ClashesBefore(types, t);
  }

  const SCHEMA_TAG: Tag :=
    Start("xs:schema", [Attr("xmlns:xs", "http://www.w3.org/2001/XMLSchema"),
                        Attr("xmlns:hpcc", "urn:hpccsystems:xsd:appinfo"),
                        Attr("elementFormDefault", "qualified"), Attr("attributeFormDefault", "unqualified")])

  /** An element with a sequence in it. */
  function SequenceStart(name: string, complexType: Tag, attrs: seq<Attr>): seq<Tag> {
    [Start("xs:element", [Attr("name", name)]), complexType] + [Start("xs:sequence", attrs), Break]
  }

  function SchemaStart(mixed: bool): seq<Tag> {
    [SCHEMA_TAG, Break] + SequenceStart("Dataset", Start("xs:complexType", []), REPEATED)
    + SequenceStart("Row", ComplexType(if mixed then Some(true) else None), [])
  }

  function PrefixTags(addHeader: bool, mixed: bool): seq<Tag> {
    (if addHeader then [Declaration] else []) + SchemaStart(mixed)
  }

  /** The tags of a field.  `optional` is whether a conditional block is open around it. */
  function FieldTags(isAttribute: bool, name: string, typeName: string, optional: bool, keyed: bool): seq<Tag> {
    var element := if isAttribute then "xs:attribute" else "xs:element";
    var attrs := [Attr("name", name), Attr("type", typeName)]
      + (if optional then [if isAttribute then Attr("use", "optional") else Attr("minOccurs", "0")]
         else if isAttribute then [Attr("use", "required")] else []);
    if keyed then
      [Start(element, attrs), Start("xs:annotation", []), Empty("xs:appinfo", [Attr("hpcc:keyed", "true")]),
       End("xs:annotation"), End(element), Break]
    else [Empty(element, attrs), Break]
  }

  function Optional(on: bool): seq<Attr> {
    if on then [Attr("minOccurs", "0")] else []
  }

  const REPEATED: seq<Attr> := [Attr("minOccurs", "0"), Attr("maxOccurs", "unbounded")]

  /** The tags of a set field, whose items repeat inside an optional element of their own. */
  function SetTags(name: string, item: string, typeName: string, optional: bool): seq<Tag> {
    (if name == "" then [] else
       [Start("xs:element", [Attr("name", name)] + Optional(optional)), Break, Start("xs:complexType", []),
        Start("xs:sequence", []),
        Empty("xs:element", [Attr("name", "All"), Attr("minOccurs", "0")]), Break])
    + [Empty("xs:element", [Attr("name", item)] + REPEATED + [Attr("type", typeName)]), Break]
    + (if name == "" then [] else [End("xs:sequence"), End("xs:complexType"), End("xs:element"), Break])
  }

  /** The mixed flag is printed when it is set or may be set later. */
  function MixedOf(mixed: bool, patchable: bool): Option<bool> {
    if mixed || patchable then Some(mixed) else None
  }

  function RecordStart(name: string, optional: bool, mixed: Option<bool>): seq<Tag> {
    [Start("xs:element", [Attr("name", name)] + Optional(optional)), Break] + [ComplexType(mixed)]
      + [Start("xs:sequence", []), Break]
  }

  /** The end of some content with the attributes collected for it. */
  function ContentEnd(attributes: seq<Tag>): seq<Tag> {
    [End("xs:sequence"), Break] + attributes
  }

  const ELEMENT_END: seq<Tag> := [End("xs:complexType"), Break] + [End("xs:element"), Break]
  const ROW_END: seq<Tag> := [End("xs:complexType")] + [End("xs:element"), Break]

  function RecordEnd(attributes: seq<Tag>): seq<Tag> {
    ContentEnd(attributes) + ELEMENT_END
  }

  /** The element of a dataset that has a name; it is repeated itself if the rows have none. */
  function OuterStart(name: string, row: string, optional: bool, mixed: Option<bool>): seq<Tag> {
    [Start("xs:element", [Attr("name", name)] + (if row == "" then REPEATED else Optional(optional))), Break]
    + [ComplexType(if row == "" then mixed else None), Break]
  }

  /** The start of a dataset called `name` whose rows are called `row`; either may be missing. */
  function DatasetStart(name: string, row: string, optional: bool, mixed: Option<bool>): seq<Tag> {
    (if name == "" then [] else OuterStart(name, row, optional, mixed))
    + [Start("xs:sequence", if name == "" || row != "" then REPEATED else []), Break]
    + (if row == "" then [] else RecordStart(row, false, mixed))
  }

  /** How far before the end of the start of a dataset its mixed flag stands. */
  function FlagBack(row: string): nat {
    if row == "" then 4 else 3
  }

  function DatasetEnd(name: string, row: string, attributes: seq<Tag>): seq<Tag> {
    (if row == "" then [] else ContentEnd(attributes) + ROW_END)
    + [End("xs:sequence"), Break]
    + (if name == "" then [] else ELEMENT_END)
  }

  /** The tags leave these elements open, wherever they stand. */
  ghost predicate Opens(tags: seq<Tag>, names: seq<string>) {
    forall open :: Open(tags, open) == Some(open + names)
  }

  /** The tags end these elements, wherever they stand. */
  ghost predicate Ends(tags: seq<Tag>, names: seq<string>) {
    forall open :: Open(tags, open + names) == Some(open)
  }

  lemma OpensConcat(a: seq<Tag>, x: seq<string>, b: seq<Tag>, y: seq<string>)
    requires Opens(a, x) && Opens(b, y)
    ensures Opens(a + b, x + y)
  {
    forall open ensures Open(a + b, open) == Some(open + (x + y)) {
      OpenConcat(a, b, open);
      assert open + x + y == open + (x + y);
    }
  }

  lemma EndsConcat(a: seq<Tag>, x: seq<string>, b: seq<Tag>, y: seq<string>)
    requires Ends(a, x) && Ends(b, y)
    ensures Ends(a + b, y + x)
  {
    forall open ensures Open(a + b, open + (y + x)) == Some(open) {
      assert open + (y + x) == open + y + x;
      OpenConcat(a, b, open + (y + x));
    }
  }

  lemma ClosedThenEnds(a: seq<Tag>, b: seq<Tag>, y: seq<string>)
    requires Closed(a) && Ends(b, y)
    ensures Ends(a + b, y)
  {
    forall open ensures Open(a + b, open + y) == Some(open) { OpenConcat(a, b, open + y); }
  }

  /** An end tag, with or without a line break after it. */
  lemma OneEnds(name: string)
    ensures Ends([End(name)], [name]) && Ends([End(name), Break], [name])
  {
    forall open
      ensures Open([End(name)], open + [name]) == Some(open) && Open([End(name), Break], open + [name]) == Some(open)
    {
      assert [End(name)][1..] == [] && [End(name), Break][1..] == [Break] && [Break][1..] == [];
      assert (open + [name])[..|open + [name]| - 1] == open;
    }
  }

  /** A start tag, with or without a line break after it. */
  lemma OneOpens(t: Tag, name: string)
    requires (t.Start? && t.name == name) || (t.ComplexType? && name == "xs:complexType")
    ensures Opens([t], [name]) && Opens([t, Break], [name])
  {
    forall open ensures Open([t], open) == Some(open + [name]) && Open([t, Break], open) == Some(open + [name]) {
      assert [t][1..] == [] && [t, Break][1..] == [Break] && [Break][1..] == [];
    }
  }

  lemma RecordStartOpens(name: string, optional: bool, mixed: Option<bool>)
    ensures Opens(RecordStart(name, optional, mixed), RECORD_ELEMENTS)
  {
    var first := Start("xs:element", [Attr("name", name)] + Optional(optional));
    OneOpens(first, "xs:element");
    OneOpens(ComplexType(mixed), "xs:complexType");
    OneOpens(Start("xs:sequence", []), "xs:sequence");
    OpensConcat([first, Break], ["xs:element"], [ComplexType(mixed)], ["xs:complexType"]);
    OpensConcat([first, Break] + [ComplexType(mixed)], ["xs:element"] + ["xs:complexType"],
                [Start("xs:sequence", []), Break], ["xs:sequence"]);
    assert ["xs:element"] + ["xs:complexType"] + ["xs:sequence"] == RECORD_ELEMENTS;
  }

  lemma ElementEnds()
    ensures Ends(ELEMENT_END, ["xs:element", "xs:complexType"]) && Ends(ROW_END, ["xs:element", "xs:complexType"])
  {
    OneEnds("xs:complexType");
    OneEnds("xs:element");
    EndsConcat([End("xs:complexType"), Break], ["xs:complexType"], [End("xs:element"), Break], ["xs:element"]);
    EndsConcat([End("xs:complexType")], ["xs:complexType"], [End("xs:element"), Break], ["xs:element"]);
    assert ["xs:element"] + ["xs:complexType"] == ["xs:element", "xs:complexType"];
  }

  /** The end of some content, before the end of its element. */
  lemma ContentEnds(first: seq<Tag>, attributes: seq<Tag>, tail: seq<Tag>)
    requires Ends(first, ["xs:sequence"]) && Closed(attributes) && Ends(tail, ["xs:element", "xs:complexType"])
    ensures Ends(first + attributes + tail, RECORD_ELEMENTS)
  {
    ClosedThenEnds(attributes, tail, ["xs:element", "xs:complexType"]);
    EndsConcat(first, ["xs:sequence"], attributes + tail, ["xs:element", "xs:complexType"]);
    assert first + (attributes + tail) == first + attributes + tail;
    assert ["xs:element", "xs:complexType"] + ["xs:sequence"] == RECORD_ELEMENTS;
  }

  lemma RecordEndEnds(attributes: seq<Tag>)
    requires Closed(attributes)
    ensures Ends(RecordEnd(attributes), RECORD_ELEMENTS)
  {
    OneEnds("xs:sequence");
    ElementEnds();
    ContentEnds([End("xs:sequence"), Break], attributes, ELEMENT_END);
  }

  lemma DatasetOuterOpens(name: string, row: string, optional: bool, mixed: Option<bool>)
    requires name == "" ==> row == ""
    ensures DatasetStart(name, row, optional, mixed)
            == DatasetStart(name, row, optional, mixed)[..if name == "" then 2 else 6]
              + (if row == "" then [] else RecordStart(row, false, mixed))
    ensures Opens(DatasetStart(name, row, optional, mixed)[..if name == "" then 2 else 6],
                  (if name == "" then [] else ["xs:element", "xs:complexType"]) + ["xs:sequence"])
  {
    var line := [Start("xs:sequence", if name == "" || row != "" then REPEATED else []), Break];
    OneOpens(line[0], "xs:sequence");
    if name == "" {
      assert DatasetStart(name, row, optional, mixed)[..2] == line;
      assert [] + ["xs:sequence"] == ["xs:sequence"];
    } else {
      var first := Start("xs:element", [Attr("name", name)] + (if row == "" then REPEATED else Optional(optional)));
      var flag := ComplexType(if row == "" then mixed else None);
      OneOpens(first, "xs:element");
      OneOpens(flag, "xs:complexType");
      OpensConcat([first, Break], ["xs:element"], [flag, Break], ["xs:complexType"]);
      OpensConcat([first, Break] + [flag, Break], ["xs:element"] + ["xs:complexType"], line, ["xs:sequence"]);
      assert DatasetStart(name, row, optional, mixed)[..6] == [first, Break] + [flag, Break] + line;
      assert ["xs:element"] + ["xs:complexType"] == ["xs:element", "xs:complexType"];
    }
  }

  lemma DatasetStartOpens(name: string, row: string, optional: bool, mixed: Option<bool>)
    requires name == "" ==> row == ""
    ensures Opens(DatasetStart(name, row, optional, mixed), ElementsOf(DatasetFrame(name, row)))
  {
    DatasetOuterOpens(name, row, optional, mixed);
    var tags := DatasetStart(name, row, optional, mixed);
    var outer := tags[..if name == "" then 2 else 6];
    var names := (if name == "" then [] else ["xs:element", "xs:complexType"]) + ["xs:sequence"];
    if row == "" {
      assert tags == outer && ElementsOf(DatasetFrame(name, row)) == names;
    } else {
      RecordStartOpens(row, false, mixed);
      OpensConcat(outer, names, RecordStart(row, false, mixed), RECORD_ELEMENTS);
    }
  }

  lemma DatasetEndEnds(name: string, row: string, attributes: seq<Tag>)
    requires (name == "" ==> row == "") && Closed(attributes)
    ensures Ends(DatasetEnd(name, row, attributes), ElementsOf(DatasetFrame(name, row)))
  {
    var inner := if row == "" then [] else ContentEnd(attributes) + ROW_END;
    var innerNames := if row == "" then [] else RECORD_ELEMENTS;
    var outer := if name == "" then [] else ELEMENT_END;
    var outerNames := if name == "" then [] else ["xs:element", "xs:complexType"];
    ElementEnds();
    NothingEnds();
    OneEnds("xs:sequence");
    if row != "" { ContentEnds([End("xs:sequence"), Break], attributes, ROW_END); }
    EndsConcat(inner, innerNames, [End("xs:sequence"), Break], ["xs:sequence"]);
    EndsConcat(inner + [End("xs:sequence"), Break], ["xs:sequence"] + innerNames, outer, outerNames);
    assert outerNames + (["xs:sequence"] + innerNames) == outerNames + ["xs:sequence"] + innerNames;
  }

  lemma NothingEnds()
    ensures Ends([], [])
  {
    forall open: seq<string> ensures open + [] == open {}
  }

  lemma FieldIsClosed(isAttribute: bool, name: string, typeName: string, optional: bool, keyed: bool)
    ensures Closed(FieldTags(isAttribute, name, typeName, optional, keyed))
  {
    var tags := FieldTags(isAttribute, name, typeName, optional, keyed);
    ClosedLeaf(Break);
    if keyed {
      ClosedLeaf(tags[2]);
      ClosedElement(tags[1], [tags[2]]);
      var annotation := [tags[1]] + [tags[2]] + [End("xs:annotation")];
      ClosedElement(tags[0], annotation);
      ClosedConcat([tags[0]] + annotation + [End(tags[0].name)], [Break]);
      assert tags == [tags[0]] + annotation + [End(tags[0].name)] + [Break];
    } else {
      ClosedLeaf(tags[0]);
      ClosedConcat([tags[0]], [Break]);
      assert tags == [tags[0]] + [Break];
    }
  }

  /** A leaf and the line break after it. */
  lemma LeafLine(t: Tag)
    requires t.Empty?
    ensures Closed([t, Break])
  {
    ClosedLeaf(t);
    ClosedLeaf(Break);
    ClosedConcat([t], [Break]);
    assert [t] + [Break] == [t, Break];
  }

  lemma SetIsClosed(name: string, item: string, typeName: string, optional: bool)
    ensures Closed(SetTags(name, item, typeName, optional))
  {
    var tags := SetTags(name, item, typeName, optional);
    if name == "" {
      LeafLine(tags[0]);
      assert tags == [tags[0], Break];
    } else {
      LeafLine(tags[4]);
      LeafLine(tags[6]);
      ClosedLeaf(Break);
      ClosedConcat([tags[4], Break], [tags[6], Break]);
      ClosedElement(tags[3], [tags[4], Break] + [tags[6], Break]);
      var list := [tags[3]] + ([tags[4], Break] + [tags[6], Break]) + [End("xs:sequence")];
      ClosedElement(tags[2], list);
      var content := [Break] + ([tags[2]] + list + [End("xs:complexType")]);
      ClosedConcat([Break], [tags[2]] + list + [End("xs:complexType")]);
      ClosedElement(tags[0], content);
      ClosedConcat([tags[0]] + content + [End("xs:element")], [Break]);
      assert tags == [tags[0]] + content + [End("xs:element")] + [Break];
    }
  }

  /** The tags of a dataset with a single field. */
  function SingleTags(name: string, optional: bool, field: seq<Tag>): seq<Tag> {
    (if name == "" then [] else
       [Start("xs:element", [Attr("name", name)] + Optional(optional)), Break] + [Start("xs:complexType", []), Break])
    + [Start("xs:sequence", REPEATED), Break] + field + [End("xs:sequence"), Break]
    + (if name == "" then [] else ELEMENT_END)
  }

  lemma ClosedLine(start: Tag, inner: seq<Tag>)
    requires Closed(inner) && start.Start?
    ensures Closed([start, Break] + inner + [End(start.name), Break])
  {
    ClosedLeaf(Break);
    ClosedConcat([Break], inner);
    ClosedElement(start, [Break] + inner);
    ClosedConcat([start] + ([Break] + inner) + [End(start.name)], [Break]);
    assert [start, Break] + inner + [End(start.name), Break] ==
           [start] + ([Break] + inner) + [End(start.name)] + [Break];
  }

  lemma SingleIsClosed(name: string, optional: bool, field: seq<Tag>)
    requires Closed(field)
    ensures Closed(SingleTags(name, optional, field))
  {
    var sequence := Start("xs:sequence", REPEATED);
    ClosedLine(sequence, field);
    var list := [sequence, Break] + field + [End("xs:sequence"), Break];
    if name == "" {
      assert SingleTags(name, optional, field) == list;
    } else {
      var start := Start("xs:element", [Attr("name", name)] + Optional(optional));
      var inner := [Start("xs:complexType", []), Break] + list + [End("xs:complexType"), Break];
      ClosedLine(Start("xs:complexType", []), list);
      ClosedLine(start, inner);
      assert SingleTags(name, optional, field) == [start, Break] + inner + [End("xs:element"), Break];
    }
  }

  const RECORD_END: seq<Tag> := [End("xs:sequence")] + ROW_END

  function SuffixTags(attributes: seq<Tag>, defs: seq<TypeDef>): seq<Tag> {
    [End("xs:sequence")] + attributes + ROW_END + RECORD_END + AllDefTags(defs) + [End("xs:schema")]
  }

  lemma PrefixOpens(addHeader: bool, mixed: bool)
    ensures Open(PrefixTags(addHeader, mixed), []) == Some(PREFIX_ELEMENTS)
  {
    SchemaStartOpens(mixed);
    ClosedLeaf(Declaration);
    var head := if addHeader then [Declaration] else [];
    assert Open(head, []) == Some([]);
    OpenConcat(head, SchemaStart(mixed), []);
  }

  lemma SequenceOpens(name: string, complexType: Tag, attrs: seq<Attr>)
    requires complexType.ComplexType? || complexType == Start("xs:complexType", [])
    ensures Opens(SequenceStart(name, complexType, attrs), RECORD_ELEMENTS)
  {
    var first := Start("xs:element", [Attr("name", name)]);
    OneOpens(first, "xs:element");
    OneOpens(complexType, "xs:complexType");
    OneOpens(Start("xs:sequence", attrs), "xs:sequence");
    OpensConcat([first], ["xs:element"], [complexType], ["xs:complexType"]);
    assert [first] + [complexType] == [first, complexType];
    OpensConcat([first, complexType], ["xs:element"] + ["xs:complexType"], [Start("xs:sequence", attrs), Break],
                ["xs:sequence"]);
    assert ["xs:element"] + ["xs:complexType"] + ["xs:sequence"] == RECORD_ELEMENTS;
  }

  lemma SchemaStartOpens(mixed: bool)
    ensures Open(SchemaStart(mixed), []) == Some(PREFIX_ELEMENTS)
  {
    var outer, inner := Start("xs:complexType", []), ComplexType(if mixed then Some(true) else None);
    OneOpens(SCHEMA_TAG, "xs:schema");
    SequenceOpens("Dataset", outer, REPEATED);
    SequenceOpens("Row", inner, []);
    OpensConcat([SCHEMA_TAG, Break], ["xs:schema"], SequenceStart("Dataset", outer, REPEATED), RECORD_ELEMENTS);
    OpensConcat([SCHEMA_TAG, Break] + SequenceStart("Dataset", outer, REPEATED), ["xs:schema"] + RECORD_ELEMENTS,
                SequenceStart("Row", inner, []), RECORD_ELEMENTS);
    assert [] + (["xs:schema"] + RECORD_ELEMENTS + RECORD_ELEMENTS) == PREFIX_ELEMENTS;
  }

  /** The position is that of the mixed flag of tag `i`. */
  ghost predicate Denotes(f: Tag -> string, tags: seq<Tag>, pos: nat, i: nat) {
    i < |tags| && tags[i].ComplexType? && tags[i].mixed.Some? && pos == |Spell(f, tags[..i + 1])| - 3
  }

  lemma PrintedLength(f: Tag -> string, tags: seq<Tag>, mixed: bool)
    requires Printable(f)
    ensures |Spell(f, tags + [ComplexType(Some(mixed))])| > |Spell(f, tags)| + 3
  {
    SpellConcat(f, tags, [ComplexType(Some(mixed))]);
    var before, after :| PrintsAround(f, before, after);
    assert [ComplexType(Some(mixed))][..0] == [];
  }

  /** A patch in one tag. */
  lemma Patched(f: Tag -> string, tags: seq<Tag>, i: nat, mixed: bool)
    requires Printable(f) && i < |tags| && tags[i].ComplexType? && tags[i].mixed.Some?
    ensures var pos := |Spell(f, tags[..i + 1])| - 3;
            0 <= pos < |Spell(f, tags)| && SetChar(Spell(f, tags), pos, Digit(mixed)) ==
              Spell(f, tags[i := ComplexType(Some(mixed))])
  {
    var before, after :| PrintsAround(f, before, after);
    var was := tags[i].mixed.value;
    assert tags[i] == ComplexType(Some(was)) && f(ComplexType(Some(was))) == before + [Digit(was)] + after;
    PatchIsUpdate(f, tags, i, mixed, before, after);
    assert tags[..i + 1][..i] == tags[..i];
    assert |Spell(f, tags[..i + 1])| == |Spell(f, tags[..i])| + |before| + 3;
  }

  /** Which elements are open does not depend on a mixed flag. */
  lemma {:induction false} OpenPatched(tags: seq<Tag>, i: nat, mixed: bool, open: seq<string>)
    requires i < |tags| && tags[i].ComplexType?
    ensures Open(tags[i := ComplexType(Some(mixed))], open) == Open(tags, open)
    decreases i
  {
    var patched := tags[i := ComplexType(Some(mixed))];
    if i == 0 {
      assert patched[1..] == tags[1..];
    } else {
      assert patched[1..] == tags[1..][i - 1 := ComplexType(Some(mixed))];
      match tags[0]
      case Start(name, _) => OpenPatched(tags[1..], i - 1, mixed, open + [name]);
      case ComplexType(_) => OpenPatched(tags[1..], i - 1, mixed, open + ["xs:complexType"]);
      case End(name) => if open != [] { OpenPatched(tags[1..], i - 1, mixed, open[..|open| - 1]); }
      case _ => OpenPatched(tags[1..], i - 1, mixed, open);
    }
  }

  /** How many more elements are started than ended. */
  function Level(tags: seq<Tag>): int {
    if tags == [] then 0
    else Level(tags[1..]) + (if tags[0].Start? || tags[0].ComplexType? then 1 else if tags[0].End? then -1 else 0)
  }

  lemma {:induction false} OpenLevel(tags: seq<Tag>, open: seq<string>)
    requires Open(tags, open).Some?
    ensures |Open(tags, open).value| == |open| + Level(tags)
    decreases |tags|
  {
    if tags != [] {
      match tags[0]
      case Start(name, _) => OpenLevel(tags[1..], open + [name]);
      case ComplexType(_) => OpenLevel(tags[1..], open + ["xs:complexType"]);
      case End(name) => OpenLevel(tags[1..], open[..|open| - 1]);
      case _ => OpenLevel(tags[1..], open);
    }
  }

  lemma {:induction false} ScopesStayOpen(frames: seq<Frame>)
    ensures |OpenElements(frames)| >= |PREFIX_ELEMENTS|
    ensures |OpenElements(frames)| == |PREFIX_ELEMENTS| <==> forall f | f in frames :: !Scopes(f)
  {
    if frames != [] {
      var front, last := frames[..|frames| - 1], frames[|frames| - 1];
      ScopesStayOpen(front);
      assert frames == front + [last];
      assert |ElementsOf(last)| == 0 <==> !Scopes(last);
    }
  }

  lemma DefIsClosed(d: TypeDef)
    ensures Closed(DefTags(d))
  {
    var tags := DefTags(d);
    var text := tags[..|tags| - 1];
    assert Closed(text) by {
      match d
      case DataDef(_) =>
        ClosedLeaf(tags[2]);
        ClosedTwice(tags[0], tags[1], [tags[2]]);
        assert text == [tags[0]] + ([tags[1]] + [tags[2]] + [End(tags[1].name)]) + [End(tags[0].name)];
      case TextDef(_) =>
        ClosedLeaf(tags[2]);
        ClosedTwice(tags[0], tags[1], [tags[2]]);
        assert text == [tags[0]] + ([tags[1]] + [tags[2]] + [End(tags[1].name)]) + [End(tags[0].name)];
      case DecimalDef(_, _) =>
        ClosedLeaf(tags[2]);
        ClosedLeaf(tags[3]);
        ClosedConcat([tags[2]], [tags[3]]);
        ClosedTwice(tags[0], tags[1], [tags[2]] + [tags[3]]);
        assert text == [tags[0]] + ([tags[1]] + ([tags[2]] + [tags[3]]) + [End(tags[1].name)]) + [End(tags[0].name)];
      case SetDef(_, _) =>
        ClosedLeaf(tags[3]);
        ClosedElement(tags[2], [tags[3]]);
        ClosedLeaf(tags[5]);
        var all := [tags[2]] + [tags[3]] + [End(tags[2].name)];
        ClosedConcat(all, [tags[5]]);
        ClosedTwice(tags[0], tags[1], all + [tags[5]]);
        assert text == [tags[0]] + ([tags[1]] + (all + [tags[5]]) + [End(tags[1].name)]) + [End(tags[0].name)];
    }
    ClosedLeaf(Break);
    ClosedConcat(text, [Break]);
    assert tags == text + [Break];
  }

  lemma ClosedTwice(outer: Tag, inner: Tag, content: seq<Tag>)
    requires outer.Start? && inner.Start? && Closed(content)
    ensures Closed([outer] + ([inner] + content + [End(inner.name)]) + [End(outer.name)])
  {
    ClosedElement(inner, content);
    ClosedElement(outer, [inner] + content + [End(inner.name)]);
  }

  lemma {:induction false} DefsAreClosed(defs: seq<TypeDef>)
    ensures Closed(AllDefTags(defs))
  {
    if defs != [] {
      DefsAreClosed(defs[..|defs| - 1]);
      DefIsClosed(defs[|defs| - 1]);
      ClosedConcat(AllDefTags(defs[..|defs| - 1]), DefTags(defs[|defs| - 1]));
    }
  }

  lemma SuffixEnds(attributes: seq<Tag>, defs: seq<TypeDef>)
    requires Closed(attributes)
    ensures Open(SuffixTags(attributes, defs), PREFIX_ELEMENTS) == Some([])
  {
    var a := [End("xs:sequence")] + attributes + ROW_END;
    OneEnds("xs:sequence");
    OneEnds("xs:schema");
    ElementEnds();
    ContentEnds([End("xs:sequence")], attributes, ROW_END);
    EndsConcat([End("xs:sequence")], ["xs:sequence"], ROW_END, ["xs:element", "xs:complexType"]);
    assert ["xs:element", "xs:complexType"] + ["xs:sequence"] == RECORD_ELEMENTS;
    assert PREFIX_ELEMENTS == ["xs:schema"] + RECORD_ELEMENTS + RECORD_ELEMENTS;
    OpenConcat(a, RECORD_END, PREFIX_ELEMENTS);
    DefsAreClosed(defs);
    OpenConcat(a + RECORD_END, AllDefTags(defs), PREFIX_ELEMENTS);
    OpenConcat(a + RECORD_END + AllDefTags(defs), [End("xs:schema")], PREFIX_ELEMENTS);
    assert [] + ["xs:schema"] == ["xs:schema"];
  }

  lemma SuffixCloses(tags: seq<Tag>, frames: seq<Frame>, attributes: seq<Tag>, defs: seq<TypeDef>)
    requires Open(tags, []) == Some(OpenElements(frames)) && Closed(attributes)
    ensures Open(tags + SuffixTags(attributes, defs), []) == Some([]) <==> forall f | f in frames :: !Scopes(f)
  {
    var suffix := SuffixTags(attributes, defs);
    SuffixEnds(attributes, defs);
    OpenLevel(suffix, PREFIX_ELEMENTS);
    OpenConcat(tags, suffix, []);
    ScopesStayOpen(frames);
    if forall f | f in frames :: !Scopes(f) { NothingOpened(frames); }
    if Open(suffix, OpenElements(frames)).Some? { OpenLevel(suffix, OpenElements(frames)); }
  }

  class XmlSchemaBuilder {
    const addHeader: bool
    const printTag: Tag -> string
    var xml: seq<Tag>
    var attributes: seq<seq<Tag>>
    var typesXml: seq<TypeDef>
    var dataSizes: seq<nat>
    var stringSizes: seq<nat>
    var decimalSizes: seq<nat>
    var nesting: seq<nat>
    var setTypes: seq<FieldType>
    var optionalNesting: nat

    constructor (addHeader: bool, printTag: Tag -> string)
      requires Printable(printTag)
      ensures this.printTag == printTag && this.addHeader == addHeader && Mirrors([]) && TypesKnown()
      ensures xml == [] && attributes == [] && typesXml == [] && setTypes == []
    {
      this.addHeader, this.printTag := addHeader, printTag;
      xml, attributes, typesXml, nesting, optionalNesting := [], [], [], [], 0;
      dataSizes, stringSizes, decimalSizes, setTypes := [], [], [], [];
    }

    /** The stacks mirror what is open, and so does what has been printed. */
    ghost predicate Mirrors(frames: seq<Frame>)
      reads `xml, `attributes, `nesting, `optionalNesting
    {
      && optionalNesting == IfCount(frames) && nesting == SavedCounts(frames)
      && (forall a | a in attributes :: Closed(a))
      && if xml == [] then attributes == [] && forall f | f in frames :: !Scopes(f)
         else |attributes| == AttributeLists(frames) && Open(xml, []) == Some(OpenElements(frames))
    }

    ghost predicate TypesKnown()
      reads `typesXml, `dataSizes, `stringSizes, `decimalSizes, `setTypes
    {
      Known(typesXml, dataSizes, stringSizes, decimalSizes, setTypes)
    }

    /** The definition of a decimal type, unless there is one of that size. */
    method DefineDecimal(signed: bool, size: DecimalSize)
      requires TypesKnown()
      modifies this`typesXml, this`decimalSizes
      ensures TypesKnown() && old(typesXml) <= typesXml
      ensures Types(typesXml, setTypes) == WithType(old(Types(typesXml, setTypes)), DecimalType(signed, size))
    {
      var had;
      if DecimalKey(size) !in decimalSizes {
        KnownDecimal(typesXml, dataSizes, stringSizes, decimalSizes, setTypes, signed, size);
      }
      had, decimalSizes := AlreadyHadSize(DecimalKey(size), decimalSizes);
      if !had { typesXml := typesXml + [DecimalDef(DecimalName(signed, size), size)]; }
    }

    /** The definition of a set type, unless it has its number. */
    method DefineSet(t: FieldType, elementName: string) returns (index: nat)
      requires TypesKnown() && t.SetType? && Registered(t.element, setTypes)
               && elementName == NameOf(t.element, setTypes)
      modifies this`typesXml, this`setTypes
      ensures TypesKnown() && old(typesXml) <= typesXml && old(setTypes) <= setTypes
      ensures Registered(t, setTypes) && index == IndexOf(t, setTypes) && elementName == NameOf(t.element, setTypes)
      ensures Types(typesXml, setTypes) ==
              if t in old(setTypes) then old(Types(typesXml, setTypes))
              else Types(old(typesXml) + [SetDef(elementName, |old(setTypes)|)], old(setTypes) + [t])
    {
      index := Find(t, setTypes);
      if index == |setTypes| {
        KnownSet(typesXml, dataSizes, stringSizes, decimalSizes, setTypes, t);
        setTypes := setTypes + [t];
        typesXml := typesXml + [SetDef(elementName, index)];
      }
    }

    /** `getXmlTypeName`: the name, and a definition if the type needs one that is not there yet. */
    method GetXmlTypeName(t: FieldType) returns (name: string)
      requires TypesKnown()
      modifies this`typesXml, this`dataSizes, this`stringSizes, this`decimalSizes, this`setTypes
      ensures TypesKnown() && old(typesXml) <= typesXml && old(setTypes) <= setTypes
      ensures Registered(t, setTypes) && name == NameOf(t, setTypes)
      ensures DefinedIn(typesXml, t, setTypes) <==> !Clashes(old(typesXml), t)
      ensures Types(typesXml, setTypes) == WithType(old(Types(typesXml, setTypes)), t)
      decreases t
    {
      NamedIsDefined(Types(typesXml, setTypes), t);
      match t
      case BooleanType => name := "xs:boolean";
      case RealType => name := "xs:double";
      case IntegerType(signed) => name := if signed then "xs:integer" else "xs:nonNegativeInteger";
      case DataType(None) => name := "xs:hexBinary";
      case DataType(Some(length)) =>
        var had;
        if length !in dataSizes { KnownData(typesXml, dataSizes, stringSizes, decimalSizes, setTypes, length); }
        had, dataSizes := AlreadyHadSize(length, dataSizes);
        if !had { typesXml := typesXml + [DataDef(length)]; }
        name := "data" + Events.Decimal(length);
      case TextType(None) => name := "xs:string";
      case TextType(Some(length)) =>
        var had;
        if length !in stringSizes { KnownText(typesXml, dataSizes, stringSizes, decimalSizes, setTypes, length); }
        had, stringSizes := AlreadyHadSize(length, stringSizes);
        if !had { typesXml := typesXml + [TextDef(length)]; }
        name := "string" + Events.Decimal(length);
      case DecimalType(signed, size) =>
        name := DecimalName(signed, size);
        DefineDecimal(signed, size);
      case SetType(element, _) =>
        var elementName := GetXmlTypeName(element);
        var index := DefineSet(t, elementName);
        name := "setof_" + elementName + "_" + Events.Decimal(index);
    }

    method Append(tags: seq<Tag>)
      modifies this`xml
      ensures xml == old(xml) + tags
    {
      xml := xml + tags;
    }

    method AddSchemaPrefix(mixed: bool, ghost frames: seq<Frame>)
      requires Mirrors(frames) && xml == []
      modifies this`xml, this`attributes
      ensures xml == PrefixTags(addHeader, mixed) && attributes == [[]] && Mirrors(frames)
    {
      Append(PrefixTags(addHeader, mixed));
      attributes := attributes + [[]];
      PrefixOpens(addHeader, mixed);
      NothingOpened(frames);
    }

    /** `appendStartComplexType`.  The position of the flag is two before the end of the text in front
        of the last character. */
    method AppendStartComplexType(mixed: bool, patchable: bool) returns (updatePos: nat)
      requires Printable(printTag)
      modifies this`xml
      ensures xml == old(xml) + [ComplexType(MixedOf(mixed, patchable))]
      ensures if patchable then Denotes(printTag, xml, updatePos, |old(xml)|) && updatePos > 0 else updatePos == 0
    {
      Append([ComplexType(MixedOf(mixed, patchable))]);
      updatePos := 0;
      if patchable {
        PrintedLength(printTag, old(xml), mixed);
        assert xml[..|old(xml)| + 1] == xml;
        updatePos := |Spell(printTag, xml)| - 3;
      }
    }

    /** Closed markup leaves the builder as open as it was. */
    lemma StillMirrors(frames: seq<Frame>, was: seq<Tag>, more: seq<Tag>)
      requires xml == was + more && Closed(more) && was != []
      requires optionalNesting == IfCount(frames) && nesting == SavedCounts(frames)
               && |attributes| == AttributeLists(frames)
      requires (forall a | a in attributes :: Closed(a)) && Open(was, []) == Some(OpenElements(frames))
      ensures Mirrors(frames)
    {
      OpenConcat(was, more, []);
    }

    /** `appendField` for an element. */
    method AppendElement(name: string, t: FieldType, keyed: bool, ghost frames: seq<Frame>)
      requires Mirrors(frames) && TypesKnown() && xml != []
      modifies this`xml, this`typesXml, this`dataSizes, this`stringSizes, this`decimalSizes, this`setTypes
      ensures Mirrors(frames) && TypesKnown()
      ensures Types(typesXml, setTypes) == WithType(old(Types(typesXml, setTypes)), t)
      ensures xml == old(xml) + FieldTags(false, name, NameOf(t, setTypes), IfCount(frames) > 0, keyed)
    {
      var typeName := GetXmlTypeName(t);
      Append(FieldTags(false, name, typeName, optionalNesting > 0, keyed));
      FieldIsClosed(false, name, typeName, optionalNesting > 0, keyed);
      StillMirrors(frames, old(xml), FieldTags(false, name, typeName, optionalNesting > 0, keyed));
    }

    /** `appendField` for an attribute, which waits until the content of the innermost record ends. */
    method AppendAttribute(name: string, t: FieldType, keyed: bool, ghost frames: seq<Frame>)
      requires Mirrors(frames) && TypesKnown() && attributes != []
      modifies this`attributes, this`typesXml, this`dataSizes, this`stringSizes, this`decimalSizes, this`setTypes
      ensures Mirrors(frames) && TypesKnown()
      ensures Types(typesXml, setTypes) == WithType(old(Types(typesXml, setTypes)), t)
      ensures var n := |old(attributes)| - 1;
              attributes == old(attributes)[n := old(attributes)[n]
                                            + FieldTags(true, name, NameOf(t, setTypes), IfCount(frames) > 0, keyed)]
    {
      var n := |attributes| - 1;
      var typeName := GetXmlTypeName(t);
      FieldIsClosed(true, name, typeName, optionalNesting > 0, keyed);
      ClosedConcat(attributes[n], FieldTags(true, name, typeName, optionalNesting > 0, keyed));
      attributes := attributes[n := attributes[n] + FieldTags(true, name, typeName, optionalNesting > 0, keyed)];
    }

    /** The prefix, if it has not been printed. */
    method EnsurePrefix(mixed: bool, ghost frames: seq<Frame>)
      requires Mirrors(frames)
      modifies this`xml, this`attributes
      ensures Mirrors(frames) && xml == (if old(xml) == [] then PrefixTags(addHeader, mixed) else old(xml)) && xml != []
      ensures attributes == if old(xml) == [] then [[]] else old(attributes)
    {
      if xml == [] { AddSchemaPrefix(mixed, frames); }
      assert |PrefixTags(addHeader, mixed)| > 0;
    }

    /** A field is optional exactly when a conditional block opened inside the innermost open named
        record or dataset is still open.  A name that starts with @ makes it an attribute. */
    method AddField(name: string, t: FieldType, keyed: bool, ghost frames: seq<Frame>)
      requires Mirrors(frames) && TypesKnown()
      modifies this
      ensures Mirrors(frames) && TypesKnown() && xml != []
      ensures var start := if old(xml) == [] then PrefixTags(addHeader, false) else old(xml);
              var lists := if old(xml) == [] then [[]] else old(attributes);
              var optional := IfCount(frames) > 0;
              if name == "" then xml == start && attributes == lists
              else if name[0] == '@' then
                && xml == start
                && attributes == lists[|lists| - 1 :=
                                       lists[|lists| - 1]
                                         + FieldTags(true, name[1..], NameOf(t, setTypes), optional, keyed)]
              else
                xml == start + FieldTags(false, name, NameOf(t, setTypes), optional, keyed) && attributes == lists
      ensures Types(typesXml, setTypes) == if name == "" then old(Types(typesXml, setTypes))
              else WithType(old(Types(typesXml, setTypes)), t)
    {
      EnsurePrefix(false, frames);
      if name == "" { return; }
      if name[0] == '@' {
        AppendAttribute(name[1..], t, keyed, frames);
      } else {
        AppendElement(name, t, keyed, frames);
      }
    }

    method AddSetField(name: string, itemname: string, t: FieldType, ghost frames: seq<Frame>)
      requires Mirrors(frames) && TypesKnown() && t.SetType?
      modifies this
      ensures Mirrors(frames) && TypesKnown() && xml != []
      ensures var start := if old(xml) == [] then PrefixTags(addHeader, false) else old(xml);
              if name == "" then xml == start
              else
                xml == start + SetTags(if itemname == "" then "" else name, if itemname == "" then name else itemname,
                                          NameOf(t.element, setTypes), IfCount(frames) > 0)
      ensures attributes == if old(xml) == [] then [[]] else old(attributes)
      ensures Types(typesXml, setTypes) == if name == "" then old(Types(typesXml, setTypes))
              else WithType(old(Types(typesXml, setTypes)), t.element)
    {
      EnsurePrefix(false, frames);
      if name == "" { return; }
      ghost var was := xml;
      var elementType := GetXmlTypeName(t.element);
      var outer, item := if itemname == "" then "" else name, if itemname == "" then name else itemname;
      Append(SetTags(outer, item, elementType, optionalNesting > 0));
      SetIsClosed(outer, item, elementType, optionalNesting > 0);
      StillMirrors(frames, was, SetTags(outer, item, elementType, optionalNesting > 0));
    }

    method BeginIfBlock(ghost frames: seq<Frame>)
      requires Mirrors(frames)
      modifies this`optionalNesting
      ensures Mirrors(frames + [IfFrame])
    {
      FrameBegun(frames, IfFrame);
      optionalNesting := optionalNesting + 1;
    }

    method EndIfBlock(ghost frames: seq<Frame>)
      requires Mirrors(frames + [IfFrame])
      modifies this`optionalNesting
      ensures Mirrors(frames)
    {
      FrameBegun(frames, IfFrame);
      optionalNesting := optionalNesting - 1;
    }

    /** The counts of the enclosing scope are put away while a record or dataset is open. */
    method PushNesting()
      modifies this`nesting, this`optionalNesting
      ensures nesting == old(nesting) + [old(optionalNesting)] && optionalNesting == 0
    {
      nesting := nesting + [optionalNesting];
      optionalNesting := 0;
    }

    method PopNesting(ghost saved: seq<nat>, ghost count: nat)
      requires nesting == saved + [count]
      modifies this`nesting, this`optionalNesting
      ensures nesting == saved && optionalNesting == count
    {
      assert nesting[..|nesting| - 1] == saved;
      optionalNesting := nesting[|nesting| - 1];
      nesting := nesting[..|nesting| - 1];
    }

    lemma MirrorsBegun(frames: seq<Frame>, f: Frame, was: seq<Tag>, more: seq<Tag>)
      requires Scopes(f) && was != [] && Open(was, []) == Some(OpenElements(frames)) && Opens(more, ElementsOf(f))
      requires xml == was + more && nesting == SavedCounts(frames) + [IfCount(frames)] && optionalNesting == 0
      requires |attributes| == AttributeLists(frames) + (if HasAttributes(f) then 1 else 0)
               && forall a | a in attributes :: Closed(a)
      ensures Mirrors(frames + [f])
    {
      FrameBegun(frames, f);
      OpenConcat(was, more, []);
    }

    /** The start tags of a record, or of the rows of a dataset. */
    method StartRecord(name: string, optional: bool, mixed: bool, patchable: bool) returns (updatePos: nat)
      requires Printable(printTag)
      modifies this`xml
      ensures xml == old(xml) + RecordStart(name, optional, MixedOf(mixed, patchable))
      ensures if patchable then Denotes(printTag, xml, updatePos, |xml| - 3) && updatePos > 0 else updatePos == 0
    {
      Append([Start("xs:element", [Attr("name", name)] + Optional(optional)), Break]);
      updatePos := AppendStartComplexType(mixed, patchable);
      ghost var upTo := xml;
      Append([Start("xs:sequence", []), Break]);
      assert xml[..|upTo|] == upTo == upTo[..|upTo|];
    }

    /** `beginRecord`; a record without a name leaves everything as it is. */
    method BeginRecord(name: string, mixed: bool, patchable: bool, ghost frames: seq<Frame>) returns (updatePos: nat)
      requires Mirrors(frames) && Printable(printTag)
      modifies this`xml, this`attributes, this`nesting, this`optionalNesting
      ensures Mirrors(frames + [RecordFrame(name)]) && old(xml) <= xml
      ensures name == "" ==> xml == old(xml) && updatePos == 0
      ensures name != "" ==>
                xml == (if old(xml) == [] then PrefixTags(addHeader, mixed) else old(xml))
                       + RecordStart(name, IfCount(frames) > 0, MixedOf(mixed, patchable))
      ensures attributes ==
              if name == "" then old(attributes) else (if old(xml) == [] then [[]] else old(attributes)) + [[]]
      ensures if name != "" && patchable then
                Denotes(printTag, xml, updatePos, |xml| - 3) && updatePos > 0
              else updatePos == 0
    {
      if name == "" {
        FrameBegun(frames, RecordFrame(name));
        return 0;
      }
      EnsurePrefix(mixed, frames);
      updatePos := OpenRecord(name, mixed, patchable, frames);
    }

    method OpenRecord(name: string, mixed: bool, patchable: bool, ghost frames: seq<Frame>) returns (updatePos: nat)
      requires Mirrors(frames) && xml != [] && name != "" && Printable(printTag)
      modifies this`xml, this`attributes, this`nesting, this`optionalNesting
      ensures Mirrors(frames + [RecordFrame(name)])
      ensures xml == old(xml) + RecordStart(name, IfCount(frames) > 0, MixedOf(mixed, patchable))
              && attributes == old(attributes) + [[]]
      ensures if patchable then Denotes(printTag, xml, updatePos, |xml| - 3) && updatePos > 0 else updatePos == 0
    {
      ghost var was := xml;
      var optional := optionalNesting > 0;
      CollectAttributes(true);
      updatePos := StartRecord(name, optional, mixed, patchable);
      PushNesting();
      RecordBeginMirrors(frames, name, was, old(attributes), optional, MixedOf(mixed, patchable));
    }

    lemma RecordBeginMirrors(frames: seq<Frame>, name: string, was: seq<Tag>, lists: seq<seq<Tag>>, optional: bool,
                             mixed: Option<bool>)
      requires was != [] && Open(was, []) == Some(OpenElements(frames)) && |lists| == AttributeLists(frames)
               && forall a | a in lists :: Closed(a)
      requires name != "" && xml == was + RecordStart(name, optional, mixed) && attributes == lists + [[]]
      requires nesting == SavedCounts(frames) + [IfCount(frames)] && optionalNesting == 0
      ensures Mirrors(frames + [RecordFrame(name)])
    {
      RecordStartOpens(name, optional, mixed);
      MirrorsBegun(frames, RecordFrame(name), was, RecordStart(name, optional, mixed));
    }

    lemma MirrorsEnded(frames: seq<Frame>, f: Frame, was: seq<Tag>, more: seq<Tag>)
      requires Scopes(f) && was != [] && Open(was, []) == Some(OpenElements(frames + [f])) && Ends(more, ElementsOf(f))
      requires xml == was + more && nesting == SavedCounts(frames) && optionalNesting == IfCount(frames)
      requires |attributes| == AttributeLists(frames) && forall a | a in attributes :: Closed(a)
      ensures Mirrors(frames)
    {
      FrameBegun(frames, f);
      OpenConcat(was, more, []);
    }

    /** The attributes collected for the innermost record. */
    method PopAttributes() returns (tags: seq<Tag>)
      requires attributes != []
      modifies this`attributes
      ensures attributes == old(attributes)[..|old(attributes)| - 1] && tags == old(attributes)[|old(attributes)| - 1]
      ensures (forall a | a in old(attributes) :: Closed(a)) ==> Closed(tags) && forall a | a in attributes :: Closed(a)
    {
      tags := attributes[|attributes| - 1];
      attributes := attributes[..|attributes| - 1];
    }

    method EndRecord(name: string, ghost frames: seq<Frame>)
      requires Mirrors(frames + [RecordFrame(name)])
      modifies this`xml, this`attributes, this`nesting, this`optionalNesting
      ensures Mirrors(frames) && old(xml) <= xml
      ensures xml == if name == "" then old(xml) else old(xml) + RecordEnd(old(attributes[|attributes| - 1]))
      ensures attributes == if name == "" then old(attributes) else old(attributes)[..|old(attributes)| - 1]
    {
      FrameBegun(frames, RecordFrame(name));
      if name != "" { EndNamedRecord(name, frames); }
    }

    method EndNamedRecord(name: string, ghost frames: seq<Frame>)
      requires Mirrors(frames + [RecordFrame(name)]) && name != ""
      modifies this`xml, this`attributes, this`nesting, this`optionalNesting
      ensures Mirrors(frames)
      ensures xml == old(xml) + RecordEnd(old(attributes[|attributes| - 1]))
              && attributes == old(attributes)[..|old(attributes)| - 1]
    {
      FrameBegun(frames, RecordFrame(name));
      ghost var was, collected := xml, attributes[|attributes| - 1];
      FinishContent(ELEMENT_END);
      PopNesting(SavedCounts(frames), IfCount(frames));
      assert forall a | a in attributes :: a in old(attributes);
      RecordEndEnds(collected);
      MirrorsEnded(frames, RecordFrame(name), was, RecordEnd(collected));
    }

    /** The end of the content of a record, with the attributes collected for it, and what follows. */
    method FinishContent(tail: seq<Tag>)
      requires attributes != []
      modifies this`xml, this`attributes
      ensures xml == old(xml) + (ContentEnd(old(attributes[|attributes| - 1])) + tail)
      ensures attributes == old(attributes)[..|old(attributes)| - 1]
    {
      var collected := PopAttributes();
      Append(ContentEnd(collected) + tail);
    }

    /** The part of `beginDataset` for the name. */
    method StartOuter(name: string, row: string, optional: bool, mixed: bool, patchable: bool) returns (updatePos: nat)
      requires Printable(printTag)
      modifies this`xml
      ensures xml == old(xml) + OuterStart(name, row, optional, MixedOf(mixed, patchable))
      ensures if row == "" && patchable then
                Denotes(printTag, xml, updatePos, |xml| - 2) && updatePos > 0
              else updatePos == 0
    {
      Append([Start("xs:element", [Attr("name", name)] + (if row == "" then REPEATED else Optional(optional))), Break]);
      if row != "" {
        updatePos := AppendStartComplexType(false, false);
      } else {
        updatePos := AppendStartComplexType(mixed, patchable);
      }
      ghost var upTo := xml;
      Append([Break]);
      assert xml[..|upTo|] == upTo == upTo[..|upTo|];
    }

    /** The part of `beginDataset` around the rows. */
    method StartDataset(name: string, row: string, optional: bool, mixed: bool, patchable: bool)
      returns (updatePos: nat)
      requires Printable(printTag) && (name == "" ==> row == "")
      modifies this`xml
      ensures xml == old(xml) + DatasetStart(name, row, optional, MixedOf(mixed, patchable))
      ensures if patchable && name != "" then
                Denotes(printTag, xml, updatePos, |xml| - FlagBack(row)) && updatePos > 0
              else updatePos == 0
    {
      updatePos := 0;
      if name != "" { updatePos := StartOuter(name, row, optional, mixed, patchable); }
      ghost var upTo := xml;
      Append([Start("xs:sequence", if name == "" || row != "" then REPEATED else []), Break]);
      if row != "" {
        updatePos := StartRecord(row, false, mixed, patchable);
      } else if updatePos > 0 {
        assert xml[..|upTo| - 1] == upTo[..|upTo| - 1];
      }
    }

    method BeginDataset(name: string, row: string, mixed: bool, patchable: bool, ghost frames: seq<Frame>)
      returns (updatePos: nat)
      requires Mirrors(frames) && Printable(printTag)
      modifies this`xml, this`attributes, this`nesting, this`optionalNesting
      ensures Mirrors(frames + [DatasetFrame(name, row)]) && old(xml) <= xml
      ensures xml == (if old(xml) == [] then PrefixTags(addHeader, false) else old(xml))
                     + DatasetStart(DatasetName(name, row), RowName(name, row), IfCount(frames) > 0,
                                    MixedOf(mixed, patchable))
      ensures attributes == (if old(xml) == [] then [[]] else old(attributes))
              + (if RowName(name, row) == "" then [] else [[]])
      ensures if patchable && DatasetName(name, row) != "" then
                Denotes(printTag, xml, updatePos, |xml| - FlagBack(RowName(name, row))) && updatePos > 0
              else updatePos == 0
    {
      EnsurePrefix(false, frames);
      updatePos := OpenDataset(name, row, mixed, patchable, frames);
    }

    method OpenDataset(name: string, row: string, mixed: bool, patchable: bool, ghost frames: seq<Frame>)
      returns (updatePos: nat)
      requires Mirrors(frames) && xml != [] && Printable(printTag)
      modifies this`xml, this`attributes, this`nesting, this`optionalNesting
      ensures Mirrors(frames + [DatasetFrame(name, row)])
      ensures xml == old(xml) + DatasetStart(DatasetName(name, row), RowName(name, row), IfCount(frames) > 0,
                                             MixedOf(mixed, patchable))
      ensures attributes == old(attributes) + (if RowName(name, row) == "" then [] else [[]])
      ensures if patchable && DatasetName(name, row) != "" then
                Denotes(printTag, xml, updatePos, |xml| - FlagBack(RowName(name, row))) && updatePos > 0
              else updatePos == 0
    {
      ghost var was := xml;
      var outer, inner := DatasetName(name, row), RowName(name, row);
      var optional := optionalNesting > 0;
      updatePos := StartDataset(outer, inner, optional, mixed, patchable);
      CollectAttributes(inner != "");
      PushNesting();
      DatasetBeginMirrors(frames, name, row, was, old(attributes), optional, MixedOf(mixed, patchable));
    }

    lemma DatasetBeginMirrors(frames: seq<Frame>, name: string, row: string, was: seq<Tag>, lists: seq<seq<Tag>>,
                              optional: bool, mixed: Option<bool>)
      requires was != [] && Open(was, []) == Some(OpenElements(frames)) && |lists| == AttributeLists(frames)
               && forall a | a in lists :: Closed(a)
      requires xml == was + DatasetStart(DatasetName(name, row), RowName(name, row), optional, mixed)
      requires attributes == lists + (if RowName(name, row) == "" then [] else [[]])
      requires nesting == SavedCounts(frames) + [IfCount(frames)] && optionalNesting == 0
      ensures Mirrors(frames + [DatasetFrame(name, row)])
    {
      DatasetStartOpens(DatasetName(name, row), RowName(name, row), optional, mixed);
      MirrorsBegun(frames, DatasetFrame(name, row), was,
                   DatasetStart(DatasetName(name, row), RowName(name, row), optional, mixed));
    }

    /** A new list of attributes, if the frame has one of its own. */
    method CollectAttributes(own: bool)
      modifies this`attributes
      ensures attributes == old(attributes) + (if own then [[]] else [])
    {
      if own { attributes := attributes + [[]]; }
    }

    /** The part of `endDataset` that prints. */
    method FinishDataset(name: string, row: string)
      requires attributes != []
      modifies this`xml, this`attributes
      ensures xml == old(xml) + DatasetEnd(name, row, old(attributes[|attributes| - 1]))
      ensures attributes == if row == "" then old(attributes) else old(attributes)[..|old(attributes)| - 1]
    {
      if row != "" { FinishContent(ROW_END); }
      Append([End("xs:sequence"), Break]);
      if name != "" { Append(ELEMENT_END); }
    }

    method EndDataset(name: string, row: string, ghost frames: seq<Frame>)
      requires Mirrors(frames + [DatasetFrame(name, row)])
      modifies this`xml, this`attributes, this`nesting, this`optionalNesting
      ensures Mirrors(frames) && old(xml) <= xml
      ensures xml == old(xml) + DatasetEnd(DatasetName(name, row), RowName(name, row),
                                           old(attributes[|attributes| - 1]))
      ensures attributes == if RowName(name, row) == "" then old(attributes)
              else old(attributes)[..|old(attributes)| - 1]
    {
      FrameBegun(frames, DatasetFrame(name, row));
      var outer, inner := DatasetName(name, row), RowName(name, row);
      ghost var was, collected := xml, attributes[|attributes| - 1];
      FinishDataset(outer, inner);
      assert forall a | a in attributes :: a in old(attributes);
      PopNesting(SavedCounts(frames), IfCount(frames));
      DatasetEndMirrors(frames, name, row, was, collected);
    }

    lemma DatasetEndMirrors(frames: seq<Frame>, name: string, row: string, was: seq<Tag>, collected: seq<Tag>)
      requires was != [] && Open(was, []) == Some(OpenElements(frames + [DatasetFrame(name, row)])) && Closed(collected)
      requires xml == was + DatasetEnd(DatasetName(name, row), RowName(name, row), collected)
      requires nesting == SavedCounts(frames) && optionalNesting == IfCount(frames)
      requires |attributes| == AttributeLists(frames) && forall a | a in attributes :: Closed(a)
      ensures Mirrors(frames)
    {
      DatasetEndEnds(DatasetName(name, row), RowName(name, row), collected);
      MirrorsEnded(frames, DatasetFrame(name, row), was,
                   DatasetEnd(DatasetName(name, row), RowName(name, row), collected));
    }

    method AddSingleFieldDataset(name: string, childname: string, t: FieldType, ghost frames: seq<Frame>)
      requires Mirrors(frames) && TypesKnown()
      modifies this
      ensures Mirrors(frames) && TypesKnown() && xml != []
      ensures var start := if old(xml) == [] then PrefixTags(addHeader, false) else old(xml);
              var optional := IfCount(frames) > 0;
              xml == start + SingleTags(name, optional, if childname == "" || childname[0] == '@' then []
                                                        else FieldTags(false, childname, NameOf(t, setTypes),
                                                                       optional, false))
      ensures var lists := if old(xml) == [] then [[]] else old(attributes);
              attributes == if childname == "" || childname[0] != '@' then lists
                            else lists[|lists| - 1 :=
                                       lists[|lists| - 1]
                                         + FieldTags(true, childname[1..], NameOf(t, setTypes), IfCount(frames) > 0,
                                                     false)]
      ensures Types(typesXml, setTypes) == if childname == "" then old(Types(typesXml, setTypes))
              else WithType(old(Types(typesXml, setTypes)), t)
    {
      EnsurePrefix(false, frames);
      var field := SingleField(childname, t, frames);
      ghost var was := xml;
      PrintSingle(name, optionalNesting > 0, field);
      SingleIsClosed(name, optionalNesting > 0, field);
      StillMirrors(frames, was, SingleTags(name, optionalNesting > 0, field));
    }

    /** What `addField` prints for the field of such a dataset; an attribute is kept back. */
    method SingleField(childname: string, t: FieldType, ghost frames: seq<Frame>) returns (field: seq<Tag>)
      requires Mirrors(frames) && TypesKnown() && xml != []
      modifies this`attributes, this`typesXml, this`dataSizes, this`stringSizes, this`decimalSizes, this`setTypes
      ensures Mirrors(frames) && TypesKnown() && Closed(field)
      ensures field == if childname == "" || childname[0] == '@' then []
              else FieldTags(false, childname, NameOf(t, setTypes), IfCount(frames) > 0, false)
      ensures var lists := old(attributes);
              attributes == if childname == "" || childname[0] != '@' then lists
                            else lists[|lists| - 1 :=
                                       lists[|lists| - 1]
                                         + FieldTags(true, childname[1..], NameOf(t, setTypes), IfCount(frames) > 0,
                                                     false)]
      ensures Types(typesXml, setTypes) == if childname == "" then old(Types(typesXml, setTypes))
              else WithType(old(Types(typesXml, setTypes)), t)
    {
      if childname == "" { return []; }
      if childname[0] == '@' {
        AppendAttribute(childname[1..], t, false, frames);
        return [];
      }
      var typeName := GetXmlTypeName(t);
      FieldIsClosed(false, childname, typeName, optionalNesting > 0, false);
      return FieldTags(false, childname, typeName, optionalNesting > 0, false);
    }

    method PrintSingle(name: string, optional: bool, field: seq<Tag>)
      modifies this`xml
      ensures xml == old(xml) + SingleTags(name, optional, field)
    {
      if name != "" {
        Append([Start("xs:element", [Attr("name", name)] + Optional(optional)), Break]
               + [Start("xs:complexType", []), Break]);
      }
      Append([Start("xs:sequence", REPEATED), Break]);
      Append(field + [End("xs:sequence"), Break]);
      if name != "" { Append(ELEMENT_END); }
    }

    /** `updateMixedRecord`: the text changes in the one character at the position, which is the mixed
        flag of one tag. */
    method UpdateMixedRecord(updatePos: nat, mixed: bool, ghost frames: seq<Frame>)
      requires Mirrors(frames) && Printable(printTag)
      requires updatePos == 0 || exists i: nat :: Denotes(printTag, xml, updatePos, i)
      modifies this`xml
      ensures Mirrors(frames) && |xml| == |old(xml)|
      ensures updatePos == 0 ==> xml == old(xml)
      ensures updatePos > 0 ==>
        && updatePos < |Spell(printTag, old(xml))|
        && Spell(printTag, xml) == SetChar(Spell(printTag, old(xml)), updatePos, Digit(mixed))
        && exists i: nat :: Denotes(printTag, old(xml), updatePos, i) && xml == old(xml)[i := ComplexType(Some(mixed))]
    {
      if updatePos == 0 { return; }
      var i := 0;
      while !(xml[i].ComplexType? && xml[i].mixed.Some? && |Spell(printTag, xml[..i + 1])| == updatePos + 3)
        invariant i < |xml| && exists j: nat :: i <= j < |xml| && Denotes(printTag, xml, updatePos, j)
        decreases |xml| - i
      {
        i := i + 1;
      }
      Patched(printTag, xml, i, mixed);
      OpenPatched(xml, i, mixed, []);
      assert Denotes(printTag, old(xml), updatePos, i);
      xml := xml[i := ComplexType(Some(mixed))];
    }

    /** `addSchemaSuffix` and `clear`. */
    method GetXml(ghost frames: seq<Frame>) returns (result: seq<Tag>)
      requires Mirrors(frames)
      modifies this
      ensures xml == [] && (old(xml) == [] ==> result == [])
      ensures old(xml) != [] ==>
        && result == old(xml) + SuffixTags(old(attributes[|attributes| - 1]), old(typesXml)) && nesting == []
           && optionalNesting == 0
        && attributes == old(attributes)[..|old(attributes)| - 1] && typesXml == old(typesXml)
           && setTypes == old(setTypes)
        && dataSizes == [] && stringSizes == [] && decimalSizes == []
      ensures old(xml) != [] ==> (Open(result, []) == Some([]) <==> forall f | f in frames :: !Scopes(f))
    {
      if xml == [] { return []; }
      var tags := PopAttributes();
      result := xml + SuffixTags(tags, typesXml);
      SuffixCloses(xml, frames, tags, typesXml);
      xml, dataSizes, stringSizes, decimalSizes, nesting, optionalNesting := [], [], [], [], [], 0;
    }
  }
}