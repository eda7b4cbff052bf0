/** What the markup of a schema declares, as XML Schema reads it: the name, the type and the number of
    occurrences of each field, record and dataset, and the facets of each type that is defined. */
module SchemaMeaning {
  import opened Options
  import opened SchemaBuilder
  import opened SchemaTypes
  import Events

  // ----- reading a tag ------------------------------------------------------------------------------

  function Find(attrs: seq<Attr>, name: string): Option<string> {
    if attrs == [] then None else if attrs[0].name == name then Some(attrs[0].value) else Find(attrs[1..], name)
  }

  /** The value of an attribute of a tag. */
  function Get(t: Tag, name: string): Option<string> {
    Find(Attrs(t), name)
  }

  /** How often an element may occur: once unless it says otherwise. */
  datatype Occurs = Once | AtMostOnce | AnyNumber | Unclear

  function OccursOf(t: Tag): Occurs {
    match (Get(t, "minOccurs"), Get(t, "maxOccurs"))
    case (None, None) => Once
    case (Some(min), None) => if min == "0" then AtMostOnce else Unclear
    case (Some(min), Some(max)) => if min == "0" && max == "unbounded" then AnyNumber else Unclear
    case (None, Some(_)) => Unclear
  }

  predicate Is(t: Tag, element: string) {
    (t.Start? || t.Empty?) && t.name == element
  }

  /** The tag declares an element of some name, which may occur so often. */
  predicate DeclaresElement(t: Tag, name: string, occurs: Occurs) {
    Is(t, "xs:element") && Get(t, "name") == Some(name) && OccursOf(t) == occurs
  }

  lemma NamesOfAttributes()
    ensures "name" != "type" && "name" != "minOccurs" && "name" != "maxOccurs" && "name" != "use"
    ensures "type" != "minOccurs" && "type" != "maxOccurs" && "type" != "use"
    ensures "minOccurs" != "maxOccurs" && "minOccurs" != "use" && "maxOccurs" != "use"
  {
    assert |"name"| == 4 && |"type"| == 4 && |"minOccurs"| == 9 && |"maxOccurs"| == 9 && |"use"| == 3;
    assert "name"[0] == 'n' && "type"[0] == 't' && "minOccurs"[1] == 'i' && "maxOccurs"[1] == 'a';
  }

  lemma {:induction false} FindAt(attrs: seq<Attr>, name: string, k: nat)
    requires k < |attrs| && attrs[k].name == name && forall j | 0 <= j < k :: attrs[j].name != name
    ensures Find(attrs, name) == Some(attrs[k].value)
    decreases k
  {
    if k > 0 { FindAt(attrs[1..], name, k - 1); }
  }

  lemma {:induction false} FindNone(attrs: seq<Attr>, name: string)
    requires forall a | a in attrs :: a.name != name
    ensures Find(attrs, name) == None
  {
    if attrs != [] { FindNone(attrs[1..], name); }
  }

  /** The three ways to write how often an element occurs. */
  lemma OccursRead(t: Tag, name: string, more: seq<Attr>, occurs: Occurs)
    requires Is(t, "xs:element") && forall a | a in more :: a.name == "type"
    requires t.attrs == [Attr("name", name)] + (match occurs
                                                case Once => []
                                                case AtMostOnce => Optional(true)
                                                case AnyNumber => REPEATED
                                                case Unclear => [Attr("maxOccurs", "1")]) + more
    ensures DeclaresElement(t, name, occurs)
  {
    NamesOfAttributes();
    FindAt(t.attrs, "name", 0);
    match occurs
    case Once =>
      FindNone(t.attrs, "minOccurs");
      FindNone(t.attrs, "maxOccurs");
    case AtMostOnce =>
      FindAt(t.attrs, "minOccurs", 1);
      FindNone(t.attrs, "maxOccurs");
    case AnyNumber =>
      FindAt(t.attrs, "minOccurs", 1);
      FindAt(t.attrs, "maxOccurs", 2);
    case Unclear =>
      FindNone(t.attrs, "minOccurs");
      FindAt(t.attrs, "maxOccurs", 1);
  }

  // ----- fields -------------------------------------------------------------------------------------

  /** The field is marked as keyed. */
  predicate MarkedKeyed(tags: seq<Tag>) {
    exists i | 0 <= i < |tags| :: Is(tags[i], "xs:appinfo") && Get(tags[i], "hpcc:keyed") == Some("true")
  }

  lemma KeyIsMarked(element: string, attrs: seq<Attr>)
    requires element == "xs:attribute" || element == "xs:element"
    ensures MarkedKeyed([Start(element, attrs), Start("xs:annotation", []),
                         Empty("xs:appinfo", [Attr("hpcc:keyed", "true")]), End("xs:annotation"), End(element), Break])
    ensures !MarkedKeyed([Empty(element, attrs), Break])
  {
    var marked := [Start(element, attrs), Start("xs:annotation", []),
                   Empty("xs:appinfo", [Attr("hpcc:keyed", "true")]), End("xs:annotation"), End(element), Break];
    FindAt(marked[2].attrs, "hpcc:keyed", 0);
    assert Is(marked[2], "xs:appinfo");
    assert "xs:attribute"[4] == 't' && "xs:element"[3] == 'e' && "xs:appinfo"[3] == 'a' && "xs:appinfo"[4] == 'p';
  }

  /** The first tag of a field. */
  lemma FieldTag(isAttribute: bool, name: string, typeName: string, optional: bool, t: Tag)
    requires Is(t, if isAttribute then "xs:attribute" else "xs:element")
    requires t.attrs == [Attr("name", name), Attr("type", typeName)]
                        + (if optional then [if isAttribute then Attr("use", "optional") else Attr("minOccurs", "0")]
                           else if isAttribute then [Attr("use", "required")] else [])
    ensures Get(t, "name") == Some(name) && Get(t, "type") == Some(typeName)
    ensures isAttribute ==> Get(t, "use") == Some(if optional then "optional" else "required")
    ensures !isAttribute ==> OccursOf(t) == (if optional then AtMostOnce else Once)
  {
    NamesOfAttributes();
    FindAt(t.attrs, "name", 0);
    FindAt(t.attrs, "type", 1);
    if isAttribute {
      FindAt(t.attrs, "use", 2);
    } else {
      FindNone(t.attrs, "maxOccurs");
      if optional { FindAt(t.attrs, "minOccurs", 2); } else { FindNone(t.attrs, "minOccurs"); }
    }
  }

  /** A field is an attribute or an element of its name and type, and optional inside a conditional block. */
  lemma FieldIsDeclared(isAttribute: bool, name: string, typeName: string, optional: bool, keyed: bool)
    ensures var tags := FieldTags(isAttribute, name, typeName, optional, keyed);
            && tags != [] && Is(tags[0], if isAttribute then "xs:attribute" else "xs:element")
            && Get(tags[0], "name") == Some(name) && Get(tags[0], "type") == Some(typeName)
            && (isAttribute ==> Get(tags[0], "use") == Some(if optional then "optional" else "required"))
            && (!isAttribute ==> OccursOf(tags[0]) == (if optional then AtMostOnce else Once))
            && (MarkedKeyed(tags) <==> keyed)
  {
    var tags := FieldTags(isAttribute, name, typeName, optional, keyed);
    FieldTag(isAttribute, name, typeName, optional, tags[0]);
    KeyIsMarked(tags[0].name, tags[0].attrs);
  }

  /** A set field's items have its element type and occur any number of times, in an optional element called
      `name` if there is such a name. */
  lemma SetIsDeclared(name: string, item: string, typeName: string, optional: bool)
    ensures var tags := SetTags(name, item, typeName, optional);
            var k := if name == "" then 0 else 6;
            && k < |tags| && DeclaresElement(tags[k], item, AnyNumber) && Get(tags[k], "type") == Some(typeName)
            && (name != "" ==>
                  DeclaresElement(tags[0], name, if optional then AtMostOnce else Once)
                  && DeclaresElement(tags[4], "All", AtMostOnce))
  {
    var tags := SetTags(name, item, typeName, optional);
    var k := if name == "" then 0 else 6;
    assert tags[k].attrs == [Attr("name", item)] + REPEATED + [Attr("type", typeName)];
    OccursRead(tags[k], item, [Attr("type", typeName)], AnyNumber);
    NamesOfAttributes();
    FindAt(tags[k].attrs, "type", 3);
    if name != "" {
      assert tags[0].attrs == [Attr("name", name)] + Optional(optional) + [];
      OccursRead(tags[0], name, [], if optional then AtMostOnce else Once);
      assert tags[4].attrs == [Attr("name", "All")] + Optional(true) + [];
      OccursRead(tags[4], "All", [], AtMostOnce);
    }
  }

  // ----- records and datasets -----------------------------------------------------------------------

  /** What a mixed flag says; without one there is no mixed content. */
  predicate SaysMixed(t: Tag, mixed: bool) {
    t.ComplexType? && (if t.mixed.Some? then t.mixed.value else false) == mixed
  }

  /** A record is one element, optional inside a conditional block, with the mixed content it was given. */
  lemma RecordIsDeclared(name: string, optional: bool, mixed: bool, patchable: bool)
    ensures var tags := RecordStart(name, optional, MixedOf(mixed, patchable));
            && |tags| == 5 && DeclaresElement(tags[0], name, if optional then AtMostOnce else Once)
            && SaysMixed(tags[2], mixed) && (patchable ==> tags[2].mixed.Some?)
            && Is(tags[3], "xs:sequence") && OccursOf(tags[3]) == Once
  {
    var tags := RecordStart(name, optional, MixedOf(mixed, patchable));
    assert tags[0].attrs == [Attr("name", name)] + Optional(optional) + [];
    OccursRead(tags[0], name, [], if optional then AtMostOnce else Once);
  }

  lemma RepeatedSequence(t: Tag)
    requires t == Start("xs:sequence", REPEATED)
    ensures OccursOf(t) == AnyNumber
  {
    NamesOfAttributes();
    FindAt(t.attrs, "minOccurs", 0);
    FindAt(t.attrs, "maxOccurs", 1);
  }

  /** A dataset that has one name is an element that occurs any number of times, with its mixed content. */
  lemma NamedRowsAreDeclared(name: string, optional: bool, mixed: bool, patchable: bool)
    requires name != ""
    ensures var tags := DatasetStart(name, "", optional, MixedOf(mixed, patchable));
            && |tags| == 6 && DeclaresElement(tags[0], name, AnyNumber)
            && SaysMixed(tags[2], mixed) && (patchable ==> tags[2].mixed.Some?)
            && Is(tags[4], "xs:sequence") && OccursOf(tags[4]) == Once
  {
    var tags := DatasetStart(name, "", optional, MixedOf(mixed, patchable));
    assert tags[0].attrs == [Attr("name", name)] + REPEATED + [];
    OccursRead(tags[0], name, [], AnyNumber);
  }

  /** A dataset whose rows have a name is a sequence of any number of them, each with the mixed content; with
      a name of its own it is in one element, optional inside a conditional block. */
  lemma RowsAreDeclared(name: string, row: string, optional: bool, mixed: bool, patchable: bool)
    requires row != ""
    ensures var tags := DatasetStart(name, row, optional, MixedOf(mixed, patchable));
            var k := if name == "" then 0 else 4;
            && |tags| == k + 7 && Is(tags[k], "xs:sequence") && OccursOf(tags[k]) == AnyNumber
            && DeclaresElement(tags[k + 2], row, Once)
            && SaysMixed(tags[k + 4], mixed) && (patchable ==> tags[k + 4].mixed.Some?)
            && (name != "" ==>
                  DeclaresElement(tags[0], name, if optional then AtMostOnce else Once) && SaysMixed(tags[2], false))
  {
    var tags := DatasetStart(name, row, optional, MixedOf(mixed, patchable));
    var k := if name == "" then 0 else 4;
    var start := RecordStart(row, false, MixedOf(mixed, patchable));
    RecordIsDeclared(row, false, mixed, patchable);
    assert tags[k + 2..] == start;
    assert tags[k + 2] == start[0] && tags[k + 4] == start[2];
    RepeatedSequence(tags[k]);
    if name != "" {
      assert tags[0].attrs == [Attr("name", name)] + Optional(optional) + [];
      OccursRead(tags[0], name, [], if optional then AtMostOnce else Once);
    }
  }

  /** A dataset of nothing but a field: any number of them, in one element if it has a name. */
  lemma SingleIsDeclared(name: string, optional: bool, field: seq<Tag>)
    ensures var tags := SingleTags(name, optional, field);
            var k := if name == "" then 0 else 4;
            && k + 2 + |field| <= |tags| && tags[k + 2..k + 2 + |field|] == field
            && Is(tags[k], "xs:sequence") && OccursOf(tags[k]) == AnyNumber
            && (name != "" ==> DeclaresElement(tags[0], name, if optional then AtMostOnce else Once))
  {
    var tags := SingleTags(name, optional, field);
    var k := if name == "" then 0 else 4;
    RepeatedSequence(tags[k]);
    if name != "" {
      assert tags[0].attrs == [Attr("name", name)] + Optional(optional) + [];
      OccursRead(tags[0], name, [], if optional then AtMostOnce else Once);
    }
  }

  /** The document is one Dataset of any number of rows, each with the mixed content of the first record. */
  lemma RootIsDeclared(addHeader: bool, mixed: bool)
    ensures var tags := PrefixTags(addHeader, mixed);
            var k := if addHeader then 1 else 0;
            && |tags| == k + 10 && (addHeader ==> tags[0] == Declaration) && Is(tags[k], "xs:schema")
            && DeclaresElement(tags[k + 2], "Dataset", Once)
            && Is(tags[k + 4], "xs:sequence") && OccursOf(tags[k + 4]) == AnyNumber
            && DeclaresElement(tags[k + 6], "Row", Once) && SaysMixed(tags[k + 7], mixed)
            && Is(tags[k + 8], "xs:sequence") && OccursOf(tags[k + 8]) == Once
  {
    var tags := PrefixTags(addHeader, mixed);
    var k := if addHeader then 1 else 0;
    RepeatedSequence(tags[k + 4]);
    OccursRead(tags[k + 2], "Dataset", [], Once);
    OccursRead(tags[k + 6], "Row", [], Once);
  }

  // ----- types --------------------------------------------------------------------------------------

  /** The value that a restriction gives a facet. */
  function Facet(tags: seq<Tag>, facet: string): Option<string> {
    if tags == [] then None
    else if Is(tags[0], facet) then Get(tags[0], "value")
    else Facet(tags[1..], facet)
  }

  /** The type that a definition restricts. */
  function BaseOf(tags: seq<Tag>): Option<string> {
    if tags == [] then None
    else if Is(tags[0], "xs:restriction") then Get(tags[0], "base")
    else BaseOf(tags[1..])
  }

  /** The text spells the number. */
  predicate Spells(s: Option<string>, n: nat) {
    s.Some? && s.value != "" && (forall i | 0 <= i < |s.value| :: '0' <= s.value[i] <= '9')
    && Events.Spelled(s.value) == n
  }

  lemma {:induction false} FacetAt(tags: seq<Tag>, facet: string, k: nat)
    requires k < |tags| && Is(tags[k], facet) && forall j | 0 <= j < k :: !Is(tags[j], facet)
    ensures Facet(tags, facet) == Get(tags[k], "value")
    decreases k
  {
    if k > 0 { FacetAt(tags[1..], facet, k - 1); }
  }

  lemma BaseIs(tags: seq<Tag>, base: string)
    requires |tags| > 1 && tags[0].Start? && tags[0].name == "xs:simpleType"
    requires tags[1] == Start("xs:restriction", [Attr("base", base)])
    ensures BaseOf(tags) == Some(base)
  {
    assert "xs:simpleType"[3] == 's' && "xs:restriction"[3] == 'r';
    FindAt(tags[1].attrs, "base", 0);
    assert tags[1..][0] == tags[1];
  }

  lemma ValueIs(t: Tag, value: string)
    requires (t.Start? || t.Empty?) && t.attrs != [] && t.attrs[0] == Attr("value", value)
    ensures Get(t, "value") == Some(value)
  {
    FindAt(t.attrs, "value", 0);
  }

  /** The types of XML Schema that stand for those without a definition. */
  lemma BuiltInsAreNamed(ts: seq<FieldType>)
    ensures NameOf(BooleanType, ts) == "xs:boolean" && NameOf(RealType, ts) == "xs:double"
    ensures NameOf(IntegerType(true), ts) == "xs:integer" && NameOf(IntegerType(false), ts) == "xs:nonNegativeInteger"
    ensures NameOf(DataType(None), ts) == "xs:hexBinary" && NameOf(TextType(None), ts) == "xs:string"
  {
  }

  /** A text type is a text of at most its length, a data type one of just its length. */
  lemma LengthsAreDefined(length: nat)
    ensures BaseOf(DefTags(DataDef(length))) == Some("xs:hexBinary")
            && Spells(Facet(DefTags(DataDef(length)), "xs:length"), length)
    ensures BaseOf(DefTags(TextDef(length))) == Some("xs:string")
            && Spells(Facet(DefTags(TextDef(length)), "xs:maxLength"), length)
  {
    Events.SpelledDecimal(length);
    var data, text := DefTags(DataDef(length)), DefTags(TextDef(length));
    BaseIs(data, "xs:hexBinary");
    BaseIs(text, "xs:string");
    assert "xs:simpleType"[3] == 's' && "xs:restriction"[3] == 'r' && "xs:length"[3] == 'l' && "xs:maxLength"[3] == 'm';
    FacetAt(data, "xs:length", 2);
    FacetAt(text, "xs:maxLength", 2);
    ValueIs(data[2], Events.Decimal(length));
    ValueIs(text[2], Events.Decimal(length));
  }

  /** A decimal type has as many digits in all as the type has, and as many of them after the point as it has
      decimal places. */
  lemma DigitsAreDefined(name: string, size: DecimalSize)
    requires size.Extent?
    ensures var tags := DefTags(DecimalDef(name, size));
            && BaseOf(tags) == Some("xs:decimal") && Spells(Facet(tags, "xs:totalDigits"), size.digits)
            && Spells(Facet(tags, "xs:fractionDigits"), size.precision)
  {
    Events.SpelledDecimal(size.digits);
    Events.SpelledDecimal(size.precision);
    var tags := DefTags(DecimalDef(name, size));
    BaseIs(tags, "xs:decimal");
    assert "xs:simpleType"[3] == 's' && "xs:restriction"[3] == 'r' && "xs:totalDigits"[3] == 't'
           && "xs:fractionDigits"[3] == 'f';
    FacetAt(tags, "xs:totalDigits", 2);
    FacetAt(tags, "xs:fractionDigits", 3);
    ValueIs(tags[2], Events.Decimal(size.digits));
    ValueIs(tags[3], Events.Decimal(size.precision));
  }

  /** A decimal type of unknown size is given facets that XML Schema does not allow. */
  lemma UnknownDigitsAreNegative(name: string)
    ensures var tags := DefTags(DecimalDef(name, UnknownExtent));
            Facet(tags, "xs:totalDigits") == Some("-15") && Facet(tags, "xs:fractionDigits") == Some("-15")
  {
    var tags := DefTags(DecimalDef(name, UnknownExtent));
    assert "xs:simpleType"[3] == 's' && "xs:restriction"[3] == 'r' && "xs:totalDigits"[3] == 't'
           && "xs:fractionDigits"[3] == 'f';
    FacetAt(tags, "xs:totalDigits", 2);
    FacetAt(tags, "xs:fractionDigits", 3);
    ValueIs(tags[2], "-15");
    ValueIs(tags[3], "-15");
  }

  /** A set type is a sequence of an optional All and any number of items of the element type. */
  lemma SetTypeIsDefined(element: string, index: nat)
    ensures var tags := DefTags(SetDef(element, index));
            && |tags| > 6 && DeclaresElement(tags[2], "All", AtMostOnce)
            && DeclaresElement(tags[5], "Item", AnyNumber) && Get(tags[5], "type") == Some(element)
  {
    var tags := DefTags(SetDef(element, index));
    assert tags[2].attrs == [Attr("name", "All")] + Optional(true) + [];
    OccursRead(tags[2], "All", [], AtMostOnce);
    assert tags[5].attrs == [Attr("name", "Item")] + REPEATED + [Attr("type", element)];
    OccursRead(tags[5], "Item", [Attr("type", element)], AnyNumber);
    NamesOfAttributes();
    FindAt(tags[5].attrs, "type", 3);
  }

  // ----- where fields are optional ------------------------------------------------------------------

  /** A conditional block is open inside the innermost named record or dataset. */
  predicate InsideIf(frames: seq<Frame>) {
    exists i | 0 <= i < |frames| :: frames[i].IfFrame? && forall j | i < j < |frames| :: !Scopes(frames[j])
  }

  lemma InsideMore(frames: seq<Frame>, f: Frame)
    ensures InsideIf(frames + [f]) <==> f.IfFrame? || (!Scopes(f) && InsideIf(frames))
  {
    var more, n := frames + [f], |frames|;
    if f.IfFrame? { assert more[n].IfFrame?; }
    if !Scopes(f) && InsideIf(frames) {
      var i :| 0 <= i < n && frames[i].IfFrame? && forall j | i < j < n :: !Scopes(frames[j]);
      assert more[i].IfFrame? && forall j | i < j < |more| :: if j < n then more[j] == frames[j] else more[j] == f;
    }
    if InsideIf(more) && !f.IfFrame? {
      var i :| 0 <= i < |more| && more[i].IfFrame? && forall j | i < j < |more| :: !Scopes(more[j]);
      assert i < n && !Scopes(more[n]) && frames[i].IfFrame? && forall j | i < j < n :: frames[j] == more[j];
    }
  }

  /** Fields are optional exactly there. */
  lemma {:induction false} OptionalMeans(frames: seq<Frame>)
    ensures IfCount(frames) > 0 <==> InsideIf(frames)
  {
    if frames != [] {
      var front, last := frames[..|frames| - 1], frames[|frames| - 1];
      OptionalMeans(front);
      InsideMore(front, last);
      assert frames == front + [last];
    }
  }

  // ----- how a tag is printed -----------------------------------------------------------------------

  lemma AttributesAreMarkup()
    ensures AttrText([]) == "" && AttrText([Attr("b", "c"), Attr("d", "e")]) == " b=\"c\" d=\"e\""
  {
    var one, two := [Attr("b", "c")], [Attr("b", "c"), Attr("d", "e")];
    assert one[..0] == [];
    assert AttrText(one) == " b=\"c\"";
    assert two[..1] == one;
  }

  /** One tag of each kind, as text. */
  lemma TagsAreMarkup()
    ensures TagText(Start("a", [Attr("b", "c"), Attr("d", "e")])) == "<a b=\"c\" d=\"e\">"
    ensures TagText(Empty("a", [Attr("b", "c"), Attr("d", "e")])) == "<a b=\"c\" d=\"e\"/>"
    ensures TagText(Start("a", [])) == "<a>" && TagText(Empty("a", [])) == "<a/>" && TagText(End("a")) == "</a>"
  {
    AttributesAreMarkup();
  }

  lemma FlagsAreMarkup()
    ensures TagText(ComplexType(Some(true))) == "<xs:complexType mixed=\"1\">"
    ensures TagText(ComplexType(Some(false))) == "<xs:complexType mixed=\"0\">"
    ensures TagText(ComplexType(None)) == "<xs:complexType>" && TagText(Break) == "\n"
  {
  }
}
