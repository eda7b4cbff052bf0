/** What a run of the schema builder prints, and the types that the print refers to and defines. */
module SchemaPicture {
  import opened Options
  import opened SchemaBuilder
  import opened SchemaTypes

  datatype Call =
    | AddField(name: string, fieldType: FieldType, keyed: bool)
    | AddSetField(name: string, itemname: string, fieldType: FieldType)
    | AddSingle(name: string, childname: string, fieldType: FieldType)
    | BeginIf | EndIf
    | BeginRecord(name: string, mixed: bool, patchable: bool) | EndRecord(name: string)
    | BeginDataset(name: string, row: string, mixed: bool, patchable: bool) | EndDataset(name: string, row: string)
    | UpdateMixed(handle: nat, mixed: bool)     // the position that the handle-th begin call returned

  function Ended(frames: seq<Frame>, f: Frame): Option<seq<Frame>> {
    if frames != [] && frames[|frames| - 1] == f then Some(frames[..|frames| - 1]) else None
  }

  /** What is open after a call; None if it ends something else than what was begun last. */
  function After(frames: seq<Frame>, call: Call): Option<seq<Frame>> {
    match call
    case BeginIf => Some(frames + [IfFrame])
    case EndIf => Ended(frames, IfFrame)
    case BeginRecord(name, _, _) => Some(frames + [RecordFrame(name)])
    case EndRecord(name) => Ended(frames, RecordFrame(name))
    case BeginDataset(name, row, _, _) => Some(frames + [DatasetFrame(name, row)])
    case EndDataset(name, row) => Ended(frames, DatasetFrame(name, row))
    case AddSetField(_, _, t) => if t.SetType? then Some(frames) else None
    case _ => Some(frames)
  }

  function Frames(calls: seq<Call>): Option<seq<Frame>> {
    if calls == [] then Some([])
    else
      var front := Frames(calls[..|calls| - 1]);
      if front.None? then None else After(front.value, calls[|calls| - 1])
  }

  // ----- what a run prints --------------------------------------------------------------------------

  /** What has been printed, the attributes collected for each open record, the types, and the tag that
      each begin call gave a position for. */
  datatype Picture = Picture(xml: seq<Tag>, lists: seq<seq<Tag>>, types: Types, marks: seq<Option<nat>>)

  const BLANK: Picture := Picture([], [], Types([], []), [])

  function Last(lists: seq<seq<Tag>>): seq<Tag> {
    if lists == [] then [] else lists[|lists| - 1]
  }

  function WithoutLast(lists: seq<seq<Tag>>): seq<seq<Tag>> {
    if lists == [] then [] else lists[..|lists| - 1]
  }

  function Prefixed(addHeader: bool, p: Picture, mixed: bool): Picture {
    if p.xml == [] then p.(xml := PrefixTags(addHeader, mixed), lists := [[]]) else p
  }

  function Printed(p: Picture, tags: seq<Tag>): Picture {
    p.(xml := p.xml + tags)
  }

  /** A field called `name`: an attribute waits for the end of the record, an element is printed. */
  ghost function WithField(p: Picture, name: string, t: FieldType, optional: bool, keyed: bool): Picture {
    if name == "" then p
    else
      var types := WithType(p.types, t);
      if name[0] != '@' then Printed(p, FieldTags(false, name, NameOf(t, types.sets), optional, keyed)).(types := types)
      else
        p.(types := types,
           lists := WithoutLast(p.lists) + [Last(p.lists)
                                            + FieldTags(true, name[1..], NameOf(t, types.sets), optional, keyed)])
  }

  /** The tags of a dataset with a single field, around what its field prints. */
  ghost function WithSingle(p: Picture, name: string, childname: string, t: FieldType, optional: bool): Picture {
    var q := WithField(p, childname, t, optional, false);
    q.(xml := p.xml + SingleTags(name, optional, q.xml[|p.xml|..]))
  }

  ghost function WithSet(p: Picture, name: string, itemname: string, t: FieldType, optional: bool): Picture {
    if name == "" || !t.SetType? then p
    else
      var types := WithType(p.types, t.element);
      Printed(p, SetTags(if itemname == "" then "" else name, if itemname == "" then name else itemname,
                         NameOf(t.element, types.sets), optional)).(types := types)
  }

  /** The tag that is `back` before the end. */
  function MarkAt(xml: seq<Tag>, back: Option<nat>): Option<nat> {
    if back.Some? && back.value <= |xml| then Some(|xml| - back.value) else None
  }

  /** A record or dataset; its mixed flag, if a position is returned for it, is `back` before the end. */
  function WithStart(p: Picture, start: seq<Tag>, ownList: bool, back: Option<nat>): Picture {
    var q := WithList(Printed(p, start), ownList);
    q.(marks := q.marks + [MarkAt(q.xml, back)])
  }

  /** A new list of attributes, if the element has one of its own. */
  function WithList(p: Picture, ownList: bool): Picture {
    if ownList then p.(lists := p.lists + [[]]) else p
  }

  function WithEnd(p: Picture, end: seq<Tag>, ownList: bool): Picture {
    Printed(p, end).(lists := if ownList then WithoutLast(p.lists) else p.lists)
  }

  /** The tag that a begin call gave a position for, with another flag. */
  function WithFlag(p: Picture, handle: nat, mixed: bool): Picture {
    if handle >= |p.marks| || p.marks[handle].None? || p.marks[handle].value >= |p.xml| then p
    else p.(xml := p.xml[p.marks[handle].value := ComplexType(Some(mixed))])
  }

  function WithRecord(addHeader: bool, p: Picture, name: string, mixed: bool, patchable: bool,
                      optional: bool): Picture {
    if name == "" then p.(marks := p.marks + [None])
    else WithStart(Prefixed(addHeader, p, mixed), RecordStart(name, optional, MixedOf(mixed, patchable)), true,
                   if patchable then Some(3) else None)
  }

  function WithDataset(addHeader: bool, p: Picture, name: string, row: string, mixed: bool, patchable: bool,
                       optional: bool): Picture {
    WithStart(Prefixed(addHeader, p, false), DatasetStart(name, row, optional, MixedOf(mixed, patchable)), row != "",
              if patchable && name != "" then Some(FlagBack(row)) else None)
  }

  /** One call, while `frames` are open. */
  ghost function Next(addHeader: bool, frames: seq<Frame>, p: Picture, call: Call): Picture {
    var optional := IfCount(frames) > 0;
    match call
    case AddField(name, t, keyed) => WithField(Prefixed(addHeader, p, false), name, t, optional, keyed)
    case AddSetField(name, itemname, t) => WithSet(Prefixed(addHeader, p, false), name, itemname, t, optional)
    case AddSingle(name, childname, t) => WithSingle(Prefixed(addHeader, p, false), name, childname, t, optional)
    case BeginRecord(name, mixed, patchable) => WithRecord(addHeader, p, name, mixed, patchable, optional)
    case EndRecord(name) => if name == "" then p else WithEnd(p, RecordEnd(Last(p.lists)), true)
    case BeginDataset(name, row, mixed, patchable) =>
      WithDataset(addHeader, p, DatasetName(name, row), RowName(name, row), mixed, patchable, optional)
    case EndDataset(name, row) =>
      WithEnd(p, DatasetEnd(DatasetName(name, row), RowName(name, row), Last(p.lists)), RowName(name, row) != "")
    case UpdateMixed(handle, mixed) => WithFlag(p, handle, mixed)
    case _ => p
  }

  /** What a well-nested run prints. */
  ghost function Pictured(addHeader: bool, calls: seq<Call>): Picture
    requires Frames(calls).Some?
  {
    if calls == [] then BLANK
    else
      var front := calls[..|calls| - 1];
      Next(addHeader, Frames(front).value, Pictured(addHeader, front), calls[|calls| - 1])
  }

  // ----- the types of a run -----------------------------------------------------------------------

  /** The type that a call asks a name for, if it does; of a set field, the type of the items. */
  function Asked(call: Call): Option<FieldType> {
    match call
    case AddField(name, t, _) => if name == "" then None else Some(t)
    case AddSetField(name, _, t) => if name == "" || !t.SetType? then None else Some(t.element)
    case AddSingle(_, childname, t) => if childname == "" then None else Some(t)
    case _ => None
  }

  function NamedBy(call: Call): set<FieldType> {
    if Asked(call).Some? then Parts(Asked(call).value) else {}
  }

  /** The types that a run names, with the types inside them. */
  function Named(calls: seq<Call>): set<FieldType> {
    if calls == [] then {} else Named(calls[..|calls| - 1]) + NamedBy(calls[|calls| - 1])
  }

  function ListRefs(lists: seq<seq<Tag>>): set<string> {
    if lists == [] then {} else ListRefs(lists[..|lists| - 1]) + TypeRefs(lists[|lists| - 1])
  }

  function ListNames(lists: seq<seq<Tag>>): set<string> {
    if lists == [] then {} else ListNames(lists[..|lists| - 1]) + TypeNames(lists[|lists| - 1])
  }

  predicate Marks(xml: seq<Tag>, marks: seq<Option<nat>>) {
    forall k | 0 <= k < |marks| && marks[k].Some? :: marks[k].value < |xml| && xml[marks[k].value].ComplexType?
  }

  /** The type names that the fields refer to, printed or kept back; no type is defined yet. */
  ghost predicate Refers(p: Picture, names: set<string>) {
    && TypeRefs(p.xml) + ListRefs(p.lists) == names
    && TypeNames(p.xml) == {} && ListNames(p.lists) == {}
    && (p.xml == [] ==> p.lists == [])
    && Marks(p.xml, p.marks)
  }

  lemma OneMoreList(lists: seq<seq<Tag>>, l: seq<Tag>)
    ensures ListRefs(lists + [l]) == ListRefs(lists) + TypeRefs(l)
            && ListNames(lists + [l]) == ListNames(lists) + TypeNames(l)
  {
    assert (lists + [l])[..|lists|] == lists;
  }

  lemma LastList(lists: seq<seq<Tag>>)
    ensures ListRefs(lists) == ListRefs(WithoutLast(lists)) + TypeRefs(Last(lists))
    ensures ListNames(lists) == ListNames(WithoutLast(lists)) + TypeNames(Last(lists))
  {
  }

  /** Markup that has been printed. */
  lemma PrintedRefers(p: Picture, tags: seq<Tag>, names: set<string>)
    requires Refers(p, names) && TypeNames(tags) == {} && (p.xml == [] ==> tags == [])
    ensures Refers(Printed(p, tags), names + TypeRefs(tags))
  {
    TypesConcat(p.xml, tags);
  }

  /** Markup that has been kept back. */
  lemma KeptRefers(p: Picture, tags: seq<Tag>, names: set<string>)
    requires Refers(p, names) && TypeNames(tags) == {} && p.xml != []
    ensures Refers(p.(lists := WithoutLast(p.lists) + [Last(p.lists) + tags]), names + TypeRefs(tags))
  {
    LastList(p.lists);
    TypesConcat(Last(p.lists), tags);
    OneMoreList(WithoutLast(p.lists), Last(p.lists) + tags);
  }

  lemma PrefixedRefers(addHeader: bool, p: Picture, mixed: bool, names: set<string>)
    requires Refers(p, names)
    ensures Refers(Prefixed(addHeader, p, mixed), names) && Prefixed(addHeader, p, mixed).xml != []
  {
    if p.xml == [] {
      PrefixTypes(addHeader, mixed);
      var lists: seq<seq<Tag>> := [[]];
      LastList(lists);
      assert WithoutLast(lists) == [];
    }
  }

  /** The name that a call asks for, given the types after it. */
  function NewName(asked: Option<FieldType>, types: Types): set<string> {
    if asked.Some? then {NameOf(asked.value, types.sets)} else {}
  }

  ghost function NewTypes(types: Types, asked: Option<FieldType>): Types {
    if asked.Some? then WithType(types, asked.value) else types
  }

  function IfNamed(name: string, t: FieldType): Option<FieldType> {
    if name == "" then None else Some(t)
  }

  lemma FieldRefers(p: Picture, name: string, t: FieldType, optional: bool, keyed: bool, names: set<string>)
    requires Refers(p, names) && p.xml != []
    ensures var q := WithField(p, name, t, optional, keyed);
            q.types == NewTypes(p.types, IfNamed(name, t)) && Refers(q, names + NewName(IfNamed(name, t), q.types))
  {
    if name != "" {
      var typeName := NameOf(t, WithType(p.types, t).sets);
      if name[0] != '@' {
        FieldTypes(false, name, typeName, optional, keyed);
        PrintedRefers(p, FieldTags(false, name, typeName, optional, keyed), names);
      } else {
        FieldTypes(true, name[1..], typeName, optional, keyed);
        KeptRefers(p, FieldTags(true, name[1..], typeName, optional, keyed), names);
      }
    }
  }

  /** Other markup at the end that says the same about types. */
  lemma InsteadRefers(p: Picture, start: seq<Tag>, field: seq<Tag>, tags: seq<Tag>, names: set<string>)
    requires Refers(p, names) && p.xml == start + field && start != [] && Marks(start, p.marks)
    requires TypeRefs(tags) == TypeRefs(field) && TypeNames(tags) == TypeNames(field)
    ensures Refers(p.(xml := start + tags), names)
  {
    TypesConcat(start, field);
    TypesConcat(start, tags);
  }

  lemma WithFieldGrows(p: Picture, name: string, t: FieldType, optional: bool, keyed: bool)
    ensures var q := WithField(p, name, t, optional, keyed); p.xml <= q.xml && q.marks == p.marks
  {
  }

  lemma SingleRefers(p: Picture, name: string, childname: string, t: FieldType, optional: bool, names: set<string>)
    requires Refers(p, names) && p.xml != []
    ensures var q := WithSingle(p, name, childname, t, optional);
            q.types == NewTypes(p.types, IfNamed(childname, t))
              && Refers(q, names + NewName(IfNamed(childname, t), q.types))
  {
    var f := WithField(p, childname, t, optional, false);
    var field := f.xml[|p.xml|..];
    FieldRefers(p, childname, t, optional, false, names);
    WithFieldGrows(p, childname, t, optional, false);
    SingleTypes(name, optional, field);
    InsteadRefers(f, p.xml, field, SingleTags(name, optional, field), names + NewName(IfNamed(childname, t), f.types));
  }

  lemma SetRefers(p: Picture, name: string, itemname: string, t: FieldType, optional: bool, names: set<string>)
    requires Refers(p, names) && p.xml != [] && t.SetType?
    ensures var q := WithSet(p, name, itemname, t, optional);
            q.types == NewTypes(p.types, IfNamed(name, t.element))
              && Refers(q, names + NewName(IfNamed(name, t.element), q.types))
  {
    if name != "" {
      var typeName := NameOf(t.element, WithType(p.types, t.element).sets);
      var outer, item := if itemname == "" then "" else name, if itemname == "" then name else itemname;
      SetFieldTypes(outer, item, typeName, optional);
      PrintedRefers(p, SetTags(outer, item, typeName, optional), names);
    }
  }

  /** Whether the tag that is `back` before the end may be marked. */
  predicate Flagged(start: seq<Tag>, back: Option<nat>) {
    back.Some? ==> 0 < back.value <= |start| && start[|start| - back.value].ComplexType?
  }

  lemma MarkRefers(p: Picture, mark: Option<nat>, names: set<string>)
    requires Refers(p, names) && (mark.Some? ==> mark.value < |p.xml| && p.xml[mark.value].ComplexType?)
    ensures Refers(p.(marks := p.marks + [mark]), names)
  {
  }

  lemma NewListRefers(p: Picture, ownList: bool, names: set<string>)
    requires Refers(p, names) && p.xml != []
    ensures Refers(WithList(p, ownList), names)
  {
    OneMoreList(p.lists, []);
  }

  lemma PlainRefers(p: Picture, tags: seq<Tag>, names: set<string>)
    requires Refers(p, names) && TypeRefs(tags) == {} && TypeNames(tags) == {} && p.xml != []
    ensures Refers(Printed(p, tags), names)
  {
    PrintedRefers(p, tags, names);
    assert names + {} == names;
  }

  lemma FlaggedAtEnd(xml: seq<Tag>, start: seq<Tag>, back: Option<nat>)
    requires Flagged(start, back)
    ensures Flagged(xml + start, back)
  {
    if back.Some? { assert (xml + start)[|xml + start| - back.value] == start[|start| - back.value]; }
  }

  lemma StartRefers(p: Picture, start: seq<Tag>, ownList: bool, back: Option<nat>, names: set<string>)
    requires Refers(p, names) && TypeRefs(start) == {} && TypeNames(start) == {} && p.xml != [] && Flagged(start, back)
    ensures Refers(WithStart(p, start, ownList, back), names)
  {
    var q := WithList(Printed(p, start), ownList);
    PlainRefers(p, start, names);
    NewListRefers(Printed(p, start), ownList, names);
    FlaggedAtEnd(p.xml, start, back);
    MarkRefers(q, MarkAt(q.xml, back), names);
  }

  lemma EndRefers(p: Picture, end: seq<Tag>, ownList: bool, names: set<string>)
    requires Refers(p, names) && end != []
    requires TypeRefs(end) == (if ownList then TypeRefs(Last(p.lists)) else {})
    requires TypeNames(end) == {}
    ensures Refers(WithEnd(p, end, ownList), names)
  {
    LastList(p.lists);
    TypesConcat(p.xml, end);
  }

  /** A mixed flag says nothing about types. */
  lemma FlagRefers(p: Picture, handle: nat, mixed: bool, names: set<string>)
    requires Refers(p, names)
    ensures Refers(WithFlag(p, handle, mixed), names)
  {
    if handle < |p.marks| && p.marks[handle].Some? {
      OtherFlag(p.xml, p.marks[handle].value, ComplexType(Some(mixed)));
    }
  }

  lemma OtherFlag(xml: seq<Tag>, i: nat, flag: Tag)
    requires i < |xml| && xml[i].ComplexType? && flag.ComplexType?
    ensures TypeRefs(xml[i := flag]) == TypeRefs(xml) && TypeNames(xml[i := flag]) == TypeNames(xml)
  {
    OneTag(flag);
    OneTag(xml[i]);
    AroundTag(xml, i);
    AroundTag(xml[i := flag], i);
    SamePieces(xml, i, flag);
    TypesConcat(xml[..i], [xml[i]]);
    TypesConcat(xml[..i], [flag]);
    TypesConcat(xml[..i] + [xml[i]], xml[i + 1..]);
    TypesConcat(xml[..i] + [flag], xml[i + 1..]);
  }

  lemma SamePieces(xml: seq<Tag>, i: nat, flag: Tag)
    requires i < |xml|
    ensures xml[i := flag][..i] == xml[..i] && xml[i := flag][i + 1..] == xml[i + 1..] && xml[i := flag][i] == flag
  {
  }

  lemma RecordStartFlagged(name: string, optional: bool, mixed: Option<bool>)
    ensures Flagged(RecordStart(name, optional, mixed), Some(3))
  {
  }

  lemma DatasetStartFlagged(name: string, row: string, optional: bool, mixed: Option<bool>)
    requires name != ""
    ensures Flagged(DatasetStart(name, row, optional, mixed), Some(FlagBack(row)))
  {
  }

  lemma RecordRefers(addHeader: bool, p: Picture, name: string, mixed: bool, patchable: bool, optional: bool,
                     names: set<string>)
    requires Refers(p, names)
    ensures Refers(WithRecord(addHeader, p, name, mixed, patchable, optional), names)
  {
    if name == "" {
      MarkRefers(p, None, names);
    } else {
      var start := RecordStart(name, optional, MixedOf(mixed, patchable));
      PrefixedRefers(addHeader, p, mixed, names);
      RecordStartTypes(name, optional, MixedOf(mixed, patchable));
      RecordStartFlagged(name, optional, MixedOf(mixed, patchable));
      StartRefers(Prefixed(addHeader, p, mixed), start, true, if patchable then Some(3) else None, names);
    }
  }

  lemma DatasetRefers(addHeader: bool, p: Picture, name: string, row: string, mixed: bool, patchable: bool,
                      optional: bool,
                      names: set<string>)
    requires Refers(p, names)
    ensures Refers(WithDataset(addHeader, p, name, row, mixed, patchable, optional), names)
  {
    var start := DatasetStart(name, row, optional, MixedOf(mixed, patchable));
    PrefixedRefers(addHeader, p, false, names);
    DatasetStartTypes(name, row, optional, MixedOf(mixed, patchable));
    if name != "" { DatasetStartFlagged(name, row, optional, MixedOf(mixed, patchable)); }
    StartRefers(Prefixed(addHeader, p, false), start, row != "",
                if patchable && name != "" then Some(FlagBack(row)) else None, names);
  }

  lemma BeginRefers(addHeader: bool, frames: seq<Frame>, p: Picture, call: Call, names: set<string>)
    requires Refers(p, names) && (call.BeginRecord? || call.BeginDataset?)
    ensures Refers(Next(addHeader, frames, p, call), names)
  {
    var optional := IfCount(frames) > 0;
    match call
    case BeginRecord(name, mixed, patchable) => RecordRefers(addHeader, p, name, mixed, patchable, optional, names);
    case BeginDataset(name, row, mixed, patchable) =>
      DatasetRefers(addHeader, p, DatasetName(name, row), RowName(name, row), mixed, patchable, optional, names);
  }

  lemma EndsRefer(addHeader: bool, frames: seq<Frame>, p: Picture, call: Call, names: set<string>)
    requires Refers(p, names) && (call.EndRecord? || call.EndDataset?)
    ensures Refers(Next(addHeader, frames, p, call), names)
  {
    LastList(p.lists);
    if call.EndDataset? {
      var name, row := DatasetName(call.name, call.row), RowName(call.name, call.row);
      DatasetEndTypes(name, row, Last(p.lists));
      EndRefers(p, DatasetEnd(name, row, Last(p.lists)), row != "", names);
    } else if call.name != "" {
      RecordEndTypes(Last(p.lists));
      EndRefers(p, RecordEnd(Last(p.lists)), true, names);
    }
  }

  lemma AskedRefers(addHeader: bool, frames: seq<Frame>, p: Picture, call: Call, names: set<string>)
    requires Refers(p, names) && After(frames, call).Some? && (call.AddField? || call.AddSetField? || call.AddSingle?)
    ensures var q := Next(addHeader, frames, p, call);
            q.types == NewTypes(p.types, Asked(call)) && Refers(q, names + NewName(Asked(call), q.types))
  {
    var optional, q := IfCount(frames) > 0, Prefixed(addHeader, p, false);
    PrefixedRefers(addHeader, p, false, names);
    match call
    case AddField(name, t, keyed) => FieldRefers(q, name, t, optional, keyed, names);
    case AddSetField(name, itemname, t) => SetRefers(q, name, itemname, t, optional, names);
    case AddSingle(name, childname, t) => SingleRefers(q, name, childname, t, optional, names);
  }

  /** One call: it refers to the type whose name it asks for, and changes no other reference. */
  lemma NextRefers(addHeader: bool, frames: seq<Frame>, p: Picture, call: Call, names: set<string>)
    requires Refers(p, names) && After(frames, call).Some?
    ensures var q := Next(addHeader, frames, p, call);
            q.types == NewTypes(p.types, Asked(call)) && Refers(q, names + NewName(Asked(call), q.types))
  {
    if call.AddField? || call.AddSetField? || call.AddSingle? { AskedRefers(addHeader, frames, p, call, names); }
    else if call.BeginRecord? || call.BeginDataset? { BeginRefers(addHeader, frames, p, call, names); }
    else if call.EndRecord? || call.EndDataset? { EndsRefer(addHeader, frames, p, call, names); }
    else if call.UpdateMixed? { FlagRefers(p, call.handle, call.mixed, names); }
  }

  /** The type names that a run refers to: from fields, printed or kept back, and from definitions. */
  function References(p: Picture): set<string> {
    TypeRefs(p.xml) + ListRefs(p.lists) + DefRefs(p.types.defs)
  }

  /** The references are the names of the types named, the definitions are those that these need, and no
      other markup defines a type. */
  ghost predicate Typed(p: Picture, named: set<FieldType>) {
    && Accounts(named, p.types) && Refers(p, TypeRefs(p.xml) + ListRefs(p.lists))
    && References(p) == NamesOf(named, p.types.sets)
    && (p.xml == [] ==> named == {})
  }

  lemma NextPrints(addHeader: bool, frames: seq<Frame>, p: Picture, call: Call)
    requires p.xml != [] || Asked(call).Some?
    ensures Next(addHeader, frames, p, call).xml != []
  {
  }

  /** One call. */
  lemma NextTyped(addHeader: bool, frames: seq<Frame>, p: Picture, call: Call, named: set<FieldType>)
    requires Typed(p, named) && After(frames, call).Some?
    ensures Typed(Next(addHeader, frames, p, call), named + NamedBy(call))
  {
    var names := TypeRefs(p.xml) + ListRefs(p.lists);
    var q := Next(addHeader, frames, p, call);
    NextRefers(addHeader, frames, p, call, names);
    if p.xml != [] || Asked(call).Some? { NextPrints(addHeader, frames, p, call); }
    if Asked(call).Some? {
      OneMoreReference(names, named, p.types, Asked(call).value);
    } else {
      assert named + NamedBy(call) == named;
    }
  }

  /** Any well-nested run: what it refers to are the names of the types that it names. */
  lemma {:induction false} RunIsTyped(addHeader: bool, calls: seq<Call>)
    requires Frames(calls).Some?
    ensures Typed(Pictured(addHeader, calls), Named(calls))
    decreases |calls|
  {
    if calls == [] {
      NothingNamed();
    } else {
      var front := calls[..|calls| - 1];
      RunIsTyped(addHeader, front);
      NextTyped(addHeader, Frames(front).value, Pictured(addHeader, front), calls[|calls| - 1], Named(front));
    }
  }

  /** Every name that has been referred to is built in or the name of a definition. */
  ghost predicate AllDefined(p: Picture) {
    References(p) <= BUILT_IN_TYPES + DefNames(p.types.defs)
  }

  /** Every type that a run refers to is defined if and only if the run names no decimal size with both
      signs. */
  lemma AllDefinedIff(addHeader: bool, calls: seq<Call>)
    requires Frames(calls).Some?
    ensures AllDefined(Pictured(addHeader, calls)) <==> OneSign(Named(calls))
  {
    RunIsTyped(addHeader, calls);
    AllDefinedIfOneSign(Named(calls), Pictured(addHeader, calls).types);
  }

  /** The schema made of a picture. */
  function Whole(p: Picture): seq<Tag> {
    if p.xml == [] then [] else p.xml + SuffixTags(Last(p.lists), p.types.defs)
  }

  /** The schema defines the types of the definitions, and refers to all types; only attributes of
      records that are still open are missing from it. */
  lemma WholeTypes(p: Picture, named: set<FieldType>)
    requires Typed(p, named) && p.xml != []
    ensures TypeNames(Whole(p)) == DefNames(p.types.defs) && TypeRefs(Whole(p)) <= References(p)
    ensures |p.lists| <= 1 ==> TypeRefs(Whole(p)) == References(p)
  {
    LastList(p.lists);
    SuffixTypes(Last(p.lists), p.types.defs);
    TypesConcat(p.xml, SuffixTags(Last(p.lists), p.types.defs));
  }

  /** The type attributes of the schema of a run. */
  lemma SchemaIsDefined(addHeader: bool, calls: seq<Call>)
    requires Frames(calls).Some?
    ensures var p := Pictured(addHeader, calls);
            && (OneSign(Named(calls)) ==> TypesDefined(Whole(p)))
            && (|p.lists| <= 1 ==> (TypesDefined(Whole(p)) <==> OneSign(Named(calls))))
  {
    var p := Pictured(addHeader, calls);
    RunIsTyped(addHeader, calls);
    AllDefinedIff(addHeader, calls);
    if p.xml != [] { WholeTypes(p, Named(calls)); }
  }
}
