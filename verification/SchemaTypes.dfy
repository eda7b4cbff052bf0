/** The types that a schema refers to and the types that it defines. */
module SchemaTypes {
  import opened Options
  import opened SchemaBuilder

  // ----- in the markup ----------------------------------------------------------------------------

  function Attrs(t: Tag): seq<Attr> {
    if t.Start? || t.Empty? then t.attrs else []
  }

  /** The values of the attributes with some name. */
  function Values(t: Tag, name: string): set<string> {
    set a | a in Attrs(t) && a.name == name :: a.value
  }

  predicate DefinesType(t: Tag) {
    t.Start? && (t.name == "xs:simpleType" || t.name == "xs:complexType")
  }

  /** The values of the type attributes in some markup. */
  function TypeRefs(tags: seq<Tag>): set<string> {
    if tags == [] then {} else TypeRefs(tags[..|tags| - 1]) + Values(tags[|tags| - 1], "type")
  }

  /** The names of the types that some markup defines. */
  function TypeNames(tags: seq<Tag>): set<string> {
    if tags == [] then {}
    else TypeNames(tags[..|tags| - 1]) + (if DefinesType(tags[|tags| - 1]) then Values(tags[|tags| - 1], "name")
                                          else {})
  }

  /** Every type attribute is built in or the name of a type defined in the same markup. */
  predicate TypesDefined(tags: seq<Tag>) {
    TypeRefs(tags) <= BUILT_IN_TYPES + TypeNames(tags)
  }

  lemma {:induction false} TypesConcat(a: seq<Tag>, b: seq<Tag>)
    ensures TypeRefs(a + b) == TypeRefs(a) + TypeRefs(b) && TypeNames(a + b) == TypeNames(a) + TypeNames(b)
  {
    if b == [] {
      assert a + b == a;
    } else {
      assert (a + b)[..|a + b| - 1] == a + b[..|b| - 1];
      TypesConcat(a, b[..|b| - 1]);
    }
  }

  /** A tag that says nothing about types. */
  predicate Plain(t: Tag) {
    Values(t, "type") == {} && (DefinesType(t) ==> Values(t, "name") == {})
  }

  lemma {:induction false} PlainTags(tags: seq<Tag>)
    requires forall t | t in tags :: Plain(t)
    ensures TypeRefs(tags) == {} && TypeNames(tags) == {}
  {
    if tags != [] {
      PlainTags(tags[..|tags| - 1]);
      assert Plain(tags[|tags| - 1]);
    }
  }

  lemma AroundTag(tags: seq<Tag>, i: nat)
    requires i < |tags|
    ensures tags == tags[..i] + [tags[i]] + tags[i + 1..]
  {
  }

  lemma OneTag(t: Tag)
    ensures TypeRefs([t]) == Values(t, "type") && TypeNames([t]) == if DefinesType(t) then Values(t, "name") else {}
  {
    assert [t][..0] == [];
  }

  /** Only the tag at `i` refers to a type. */
  lemma OneReference(tags: seq<Tag>, i: nat, name: string)
    requires i < |tags| && !DefinesType(tags[i]) && forall j | 0 <= j < |tags| && j != i :: Plain(tags[j])
    requires Values(tags[i], "type") == {name}
    ensures TypeRefs(tags) == {name} && TypeNames(tags) == {}
  {
    var head, tail := tags[..i], tags[i + 1..];
    AroundTag(tags, i);
    PlainTags(head);
    PlainTags(tail);
    OneTag(tags[i]);
    TypesConcat(head, [tags[i]]);
    TypesConcat(head + [tags[i]], tail);
  }

  lemma FieldTypes(isAttribute: bool, name: string, typeName: string, optional: bool, keyed: bool)
    ensures var tags := FieldTags(isAttribute, name, typeName, optional, keyed);
            TypeRefs(tags) == {typeName} && TypeNames(tags) == {}
  {
    var tags := FieldTags(isAttribute, name, typeName, optional, keyed);
    assert Attrs(tags[0])[1] == Attr("type", typeName);
    OneReference(tags, 0, typeName);
  }

  lemma SetFieldTypes(name: string, item: string, typeName: string, optional: bool)
    ensures var tags := SetTags(name, item, typeName, optional); TypeRefs(tags) == {typeName} && TypeNames(tags) == {}
  {
    var tags := SetTags(name, item, typeName, optional);
    var t := Empty("xs:element", [Attr("name", item)] + REPEATED + [Attr("type", typeName)]);
    assert Attrs(t)[3] == Attr("type", typeName);
    var i := if name == "" then 0 else 6;
    assert tags[i] == t;
    OneReference(tags, i, typeName);
  }

  lemma SchemaStartTypes(mixed: bool)
    ensures TypeRefs(SchemaStart(mixed)) == {} && TypeNames(SchemaStart(mixed)) == {}
  {
    PlainTags(SchemaStart(mixed));
  }

  lemma PrefixTypes(addHeader: bool, mixed: bool)
    ensures TypeRefs(PrefixTags(addHeader, mixed)) == {} && TypeNames(PrefixTags(addHeader, mixed)) == {}
  {
    var head := if addHeader then [Declaration] else [];
    PlainTags(head);
    SchemaStartTypes(mixed);
    TypesConcat(head, SchemaStart(mixed));
  }

  lemma RecordStartTypes(name: string, optional: bool, mixed: Option<bool>)
    ensures TypeRefs(RecordStart(name, optional, mixed)) == {} && TypeNames(RecordStart(name, optional, mixed)) == {}
  {
    PlainTags(RecordStart(name, optional, mixed));
  }

  lemma DatasetOuterTypes(first: Tag, flag: Tag, line: Tag)
    requires Plain(first) && Plain(flag) && Plain(line)
    ensures TypeRefs([first, Break] + [flag, Break] + [line, Break]) == {}
            && TypeNames([first, Break] + [flag, Break] + [line, Break]) == {}
    ensures TypeRefs([line, Break]) == {} && TypeNames([line, Break]) == {}
  {
    PlainTags([line, Break]);
    PlainTags([first, Break] + [flag, Break] + [line, Break]);
  }

  lemma DatasetStartTypes(name: string, row: string, optional: bool, mixed: Option<bool>)
    ensures var tags := DatasetStart(name, row, optional, mixed); TypeRefs(tags) == {} && TypeNames(tags) == {}
  {
    var first := Start("xs:element", [Attr("name", name)] + (if row == "" then REPEATED else Optional(optional)));
    var flag := ComplexType(if row == "" then mixed else None);
    var line := Start("xs:sequence", if name == "" || row != "" then REPEATED else []);
    DatasetOuterTypes(first, flag, line);
    var head := (if name == "" then [] else [first, Break] + [flag, Break]) + [line, Break];
    assert name == "" ==> head == [line, Break];
    if row != "" {
      RecordStartTypes(row, false, mixed);
      TypesConcat(head, RecordStart(row, false, mixed));
    } else {
      assert DatasetStart(name, row, optional, mixed) == head;
    }
  }

  lemma ContentEndTypes(first: seq<Tag>, attributes: seq<Tag>, tail: seq<Tag>)
    requires forall t | t in first + tail :: Plain(t)
    ensures TypeRefs(first + attributes + tail) == TypeRefs(attributes)
            && TypeNames(first + attributes + tail) == TypeNames(attributes)
  {
    assert forall t | t in first || t in tail :: t in first + tail;
    PlainTags(first);
    PlainTags(tail);
    TypesConcat(first, attributes);
    TypesConcat(first + attributes, tail);
  }

  lemma RecordEndTypes(attributes: seq<Tag>)
    ensures TypeRefs(RecordEnd(attributes)) == TypeRefs(attributes)
            && TypeNames(RecordEnd(attributes)) == TypeNames(attributes)
  {
    ContentEndTypes([End("xs:sequence"), Break], attributes, ELEMENT_END);
  }

  lemma DatasetEndTypes(name: string, row: string, attributes: seq<Tag>)
    ensures var tags := DatasetEnd(name, row, attributes);
            && TypeRefs(tags) == (if row == "" then {} else TypeRefs(attributes))
            && TypeNames(tags) == (if row == "" then {} else TypeNames(attributes))
  {
    var tail := [End("xs:sequence"), Break] + (if name == "" then [] else ELEMENT_END);
    if row == "" {
      PlainTags(tail);
      assert DatasetEnd(name, row, attributes) == tail;
    } else {
      ContentEndTypes([End("xs:sequence"), Break], attributes, ROW_END + tail);
      assert DatasetEnd(name, row, attributes) == [End("xs:sequence"), Break] + attributes + (ROW_END + tail);
    }
  }

  function SingleHead(name: string, optional: bool): seq<Tag> {
    (if name == "" then [] else
       [Start("xs:element", [Attr("name", name)] + Optional(optional)), Break] + [Start("xs:complexType", []), Break])
    + [Start("xs:sequence", REPEATED), Break]
  }

  lemma SingleParts(name: string, optional: bool, field: seq<Tag>)
    ensures SingleTags(name, optional, field)
            == SingleHead(name, optional) + field
              + ([End("xs:sequence"), Break] + (if name == "" then [] else ELEMENT_END))
  {
  }

  lemma SingleTypes(name: string, optional: bool, field: seq<Tag>)
    ensures TypeRefs(SingleTags(name, optional, field)) == TypeRefs(field)
            && TypeNames(SingleTags(name, optional, field)) == TypeNames(field)
  {
    SingleParts(name, optional, field);
    ContentEndTypes(SingleHead(name, optional), field,
                    [End("xs:sequence"), Break] + (if name == "" then [] else ELEMENT_END));
  }

  /** The names of some definitions, and the names that they refer to. */
  function DefNames(defs: seq<TypeDef>): set<string> {
    set d | d in defs :: DefName(d)
  }

  function DefRefs(defs: seq<TypeDef>): set<string> {
    set d | d in defs && d.SetDef? :: d.element
  }

  lemma FirstTagTypes(t: Tag, name: string)
    requires DefinesType(t) && Attrs(t) == [Attr("name", name)]
    ensures TypeNames([t]) == {name} && TypeRefs([t]) == {}
  {
    OneTag(t);
    assert Attr("name", name) in Attrs(t) && Values(t, "name") == {name} && Values(t, "type") == {};
  }

  lemma SetBodyTypes(d: TypeDef)
    requires d.SetDef?
    ensures TypeNames(DefBody(d)) == {} && TypeRefs(DefBody(d)) == {d.element}
  {
    var item := DefBody(d)[4];
    assert Attrs(item)[3] == Attr("type", d.element);
    OneReference(DefBody(d), 4, d.element);
  }

  lemma SizedBodyTypes(d: TypeDef)
    requires !d.SetDef?
    ensures TypeNames(DefBody(d)) == {} && TypeRefs(DefBody(d)) == {}
  {
    PlainTags(DefBody(d));
  }

  lemma OneDefinition(d: TypeDef)
    ensures TypeNames(DefTags(d)) == {DefName(d)} && TypeRefs(DefTags(d)) == if d.SetDef? then {d.element} else {}
  {
    var first := Start(if d.SetDef? then "xs:complexType" else "xs:simpleType", [Attr("name", DefName(d))]);
    FirstTagTypes(first, DefName(d));
    if d.SetDef? { SetBodyTypes(d); } else { SizedBodyTypes(d); }
    TypesConcat([first], DefBody(d));
  }

  lemma LastDef(defs: seq<TypeDef>)
    requires defs != []
    ensures var front, d := defs[..|defs| - 1], defs[|defs| - 1];
            && DefNames(defs) == DefNames(front) + {DefName(d)}
            && DefRefs(defs) == DefRefs(front) + if d.SetDef? then {d.element} else {}
  {
    var front, d := defs[..|defs| - 1], defs[|defs| - 1];
    assert forall e :: e in defs <==> e in front || e == d;
  }

  lemma {:induction false} DefinitionTypes(defs: seq<TypeDef>)
    ensures TypeNames(AllDefTags(defs)) == DefNames(defs) && TypeRefs(AllDefTags(defs)) == DefRefs(defs)
  {
    if defs != [] {
      var front, last := defs[..|defs| - 1], defs[|defs| - 1];
      DefinitionTypes(front);
      OneDefinition(last);
      TypesConcat(AllDefTags(front), DefTags(last));
      LastDef(defs);
    }
  }

  lemma DefsAtEndTypes(head: seq<Tag>, defs: seq<TypeDef>)
    ensures TypeRefs(head + AllDefTags(defs) + [End("xs:schema")]) == TypeRefs(head) + DefRefs(defs)
    ensures TypeNames(head + AllDefTags(defs) + [End("xs:schema")]) == TypeNames(head) + DefNames(defs)
  {
    DefinitionTypes(defs);
    TypesConcat(head, AllDefTags(defs));
    PlainTags([End("xs:schema")]);
    TypesConcat(head + AllDefTags(defs), [End("xs:schema")]);
  }

  lemma SuffixTypes(attributes: seq<Tag>, defs: seq<TypeDef>)
    ensures TypeRefs(SuffixTags(attributes, defs)) == TypeRefs(attributes) + DefRefs(defs)
    ensures TypeNames(SuffixTags(attributes, defs)) == TypeNames(attributes) + DefNames(defs)
  {
    PlainTags(RECORD_END);
    ContentEndTypes([End("xs:sequence")], attributes, ROW_END);
    TypesConcat([End("xs:sequence")] + attributes + ROW_END, RECORD_END);
    DefsAtEndTypes([End("xs:sequence")] + attributes + ROW_END + RECORD_END, defs);
  }

  // ----- the types that have been named -----------------------------------------------------------

  /** A type, and the types inside it. */
  function Parts(t: FieldType): set<FieldType> {
    if t.SetType? then Parts(t.element) + {t} else {t}
  }

  function NamesOf(ts: set<FieldType>, sets: seq<FieldType>): set<string> {
    set t | t in ts :: NameOf(t, sets)
  }

  /** The element types of the set types among some types. */
  function Elements(ts: set<FieldType>): set<FieldType> {
    set t | t in ts && t.SetType? :: t.element
  }

  /** A decimal definition comes from a decimal type that was named. */
  ghost predicate Stems(d: TypeDef, named: set<FieldType>) {
    exists t | t in named :: t.DecimalType? && d == DecimalDef(DecimalName(t.signed, t.size), t.size)
  }

  /** The definitions are those that `named` and the types inside them need. */
  ghost predicate Accounts(named: set<FieldType>, types: Types) {
    && Sound(types.defs, types.sets)
    && (forall t | t in named :: Registered(t, types.sets) && Provided(types.defs, t, types.sets))
    && (forall t | t in types.sets :: t in named)
    && Elements(named) <= named
    && (forall d | d in types.defs && d.DecimalDef? :: Stems(d, named))
  }

  lemma NothingNamed()
    ensures Accounts({}, Types([], []))
  {
  }

  /** Naming a type once more changes nothing. */
  lemma {:induction false} NamedAlready(types: Types, t: FieldType)
    requires Registered(t, types.sets) && Provided(types.defs, t, types.sets)
    ensures WithType(types, t) == types
  {
    if t.SetType? { NamedAlready(types, t.element); }
  }

  /** A type whose inner types have been named already. */
  lemma OneMoreNamed(named: set<FieldType>, types: Types, t: FieldType)
    requires Accounts(named, types) && (t.SetType? ==> t.element in named)
    ensures Accounts(named + {t}, WithType(types, t))
  {
    var after := WithType(types, t);
    Provides(types, t);
    forall u | u in named ensures Registered(u, after.sets) && Provided(after.defs, u, after.sets) {
      StillProvided(types.defs, after.defs, u, types.sets, after.sets);
    }
    if t.SetType? { NamedAlready(types, t.element); }
    forall d | d in after.defs && d.DecimalDef? ensures Stems(d, named + {t}) {
      if d in types.defs {
        var u :| u in named && u.DecimalType? && d == DecimalDef(DecimalName(u.signed, u.size), u.size);
        assert u in named + {t};
      } else {
        assert t in named + {t};
      }
    }
  }

  /** Naming a type names the types inside it. */
  lemma {:induction false} MoreNamed(named: set<FieldType>, types: Types, t: FieldType)
    requires Accounts(named, types)
    ensures Accounts(named + Parts(t), WithType(types, t))
    decreases t
  {
    if t.SetType? {
      var inner := WithType(types, t.element);
      MoreNamed(named, types, t.element);
      PartOfItself(t.element);
      NamedAlready(inner, t.element);
      OneMoreNamed(named + Parts(t.element), inner, t);
      assert named + Parts(t.element) + {t} == named + Parts(t);
    } else {
      OneMoreNamed(named, types, t);
    }
  }

  lemma PartOfItself(t: FieldType)
    ensures t in Parts(t)
  {
  }

  /** The set definitions refer to the element types of the set types. */
  lemma ElementsAreReferred(named: set<FieldType>, types: Types)
    requires Accounts(named, types)
    ensures DefRefs(types.defs) == NamesOf(Elements(named), types.sets)
  {
    forall name | name in DefRefs(types.defs) ensures name in NamesOf(Elements(named), types.sets) {
      var d :| d in types.defs && d.SetDef? && d.element == name;
      assert types.sets[d.index] in named;
      assert types.sets[d.index].element in Elements(named);
    }
    forall u | u in Elements(named) ensures NameOf(u, types.sets) in DefRefs(types.defs) {
      var t :| t in named && t.SetType? && t.element == u;
      var i := IndexOf(t, types.sets);
      assert SetKnown(types.sets, types.defs, i);
    }
  }

  /** No size is named with both signs. */
  ghost predicate OneSign(named: set<FieldType>) {
    forall size: DecimalSize :: !(DecimalType(true, size) in named && DecimalType(false, size) in named)
  }

  /** Every name that the types refer to is defined exactly when each decimal size has one sign. */
  lemma AllDefinedIfOneSign(named: set<FieldType>, types: Types)
    requires Accounts(named, types)
    ensures NamesOf(named, types.sets) <= BUILT_IN_TYPES + DefNames(types.defs) <==> OneSign(named)
  {
    if OneSign(named) {
      forall t | t in named ensures NameOf(t, types.sets) in BUILT_IN_TYPES + DefNames(types.defs) {
        OneSignDefines(named, types, t);
      }
    }
    if size: DecimalSize :| DecimalType(true, size) in named && DecimalType(false, size) in named {
      BothSignsUndefined(named, types, size);
    }
  }

  lemma OneSignDefines(named: set<FieldType>, types: Types, t: FieldType)
    requires Accounts(named, types) && OneSign(named) && t in named
    ensures NameOf(t, types.sets) in BUILT_IN_TYPES + DefNames(types.defs)
  {
    DefinedUnlessClash(types.defs, t, types.sets);
    if t.DecimalType? && Clashes(types.defs, t) {
      var d := DecimalDef(DecimalName(!t.signed, t.size), t.size);
      var u :| u in named && u.DecimalType? && d == DecimalDef(DecimalName(u.signed, u.size), u.size);
      DecimalNameInjective(u.signed, u.size, !t.signed, t.size);
    }
    if t.SetType? { SetIsDefined(types, t); }
  }

  lemma SetIsDefined(types: Types, t: FieldType)
    requires t.SetType? && Provided(types.defs, t, types.sets)
    ensures NameOf(t, types.sets) in DefNames(types.defs)
  {
    assert DefName(SetDef(NameOf(t.element, types.sets), IndexOf(t, types.sets))) == NameOf(t, types.sets);
  }

  lemma BothSignsUndefined(named: set<FieldType>, types: Types, size: DecimalSize)
    requires Accounts(named, types) && DecimalType(true, size) in named && DecimalType(false, size) in named
    ensures !(NamesOf(named, types.sets) <= BUILT_IN_TYPES + DefNames(types.defs))
  {
    var one, other := DecimalType(true, size), DecimalType(false, size);
    DecimalDefined(types.defs, types.sets, true, size);
    DecimalDefined(types.defs, types.sets, false, size);
    OneSignDefined(types.defs, types.sets, true, size);
    SignsDiffer(size);
    assert NameOf(one, types.sets) in NamesOf(named, types.sets)
           && NameOf(other, types.sets) in NamesOf(named, types.sets);
  }

  /** A type's parts are the type and the elements of its parts. */
  lemma {:induction false} PartsAre(t: FieldType)
    ensures Parts(t) == {t} + Elements(Parts(t))
  {
    if t.SetType? {
      PartsAre(t.element);
      assert t.element in Elements(Parts(t)) by { assert t in Parts(t); }
      forall u | u in Elements(Parts(t.element)) ensures u in Elements(Parts(t)) {
        var w :| w in Parts(t.element) && w.SetType? && w.element == u;
        assert w in Parts(t);
      }
      forall u | u in Elements(Parts(t)) ensures u in Parts(t.element) {
        var w :| w in Parts(t) && w.SetType? && w.element == u;
        if w != t { assert u in Elements(Parts(t.element)); } else { PartOfItself(t.element); }
      }
    }
  }

  lemma ElementsUnion(a: set<FieldType>, b: set<FieldType>)
    ensures Elements(a + b) == Elements(a) + Elements(b)
  {
  }

  lemma NamesUnion(a: set<FieldType>, b: set<FieldType>, sets: seq<FieldType>)
    ensures NamesOf(a + b, sets) == NamesOf(a, sets) + NamesOf(b, sets)
  {
  }

  lemma NamesStable(named: set<FieldType>, types: Types, after: Types)
    requires Accounts(named, types) && types.defs <= after.defs && types.sets <= after.sets
    ensures NamesOf(named, after.sets) == NamesOf(named, types.sets) && DefRefs(types.defs) <= DefRefs(after.defs)
  {
    forall t | t in named ensures NameOf(t, after.sets) == NameOf(t, types.sets) {
      StillProvided(types.defs, after.defs, t, types.sets, after.sets);
    }
    forall d | d in types.defs ensures d in after.defs {}
  }

  /** The names of the types after naming one more. */
  lemma NamesAfter(named: set<FieldType>, t: FieldType, sets: seq<FieldType>)
    requires Elements(named) <= named
    ensures NamesOf(named + Parts(t), sets) == NamesOf(named, sets)
            + ({NameOf(t, sets)} + NamesOf(Elements(Parts(t)), sets))
    ensures NamesOf(Elements(named + Parts(t)), sets) ==
            NamesOf(Elements(named), sets) + NamesOf(Elements(Parts(t)), sets)
    ensures NamesOf(Elements(named), sets) <= NamesOf(named, sets)
  {
    PartsAre(t);
    ElementsUnion(named, Parts(t));
    NamesUnion(Elements(named), Elements(Parts(t)), sets);
    NamesUnion({t}, Elements(Parts(t)), sets);
    NamesUnion(named, Parts(t), sets);
    assert NamesOf({t}, sets) == {NameOf(t, sets)};
  }

  lemma UnionStep(others: set<string>, was: set<string>, now: set<string>, names: set<string>, inner: set<string>,
                  name: string, more: set<string>)
    requires others + was == names && was <= now && now == inner + more && inner <= names
    ensures others + {name} + now == names + ({name} + more)
  {
  }

  /** A reference to one more type makes the references those to the types named, and the types inside
      them, again. */
  lemma OneMoreReference(others: set<string>, named: set<FieldType>, types: Types, t: FieldType)
    requires Accounts(named, types) && others + DefRefs(types.defs) == NamesOf(named, types.sets)
    ensures var after := WithType(types, t);
            && Accounts(named + Parts(t), after)
            && others + {NameOf(t, after.sets)} + DefRefs(after.defs) == NamesOf(named + Parts(t), after.sets)
  {
    var after := WithType(types, t);
    MoreNamed(named, types, t);
    Provides(types, t);
    NamesStable(named, types, after);
    ElementsAreReferred(named + Parts(t), after);
    NamesAfter(named, t, after.sets);
    UnionStep(others, DefRefs(types.defs), DefRefs(after.defs), NamesOf(named, after.sets),
              NamesOf(Elements(named), after.sets),
              NameOf(t, after.sets), NamesOf(Elements(Parts(t)), after.sets));
  }
}
