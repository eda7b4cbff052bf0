/** Whole runs of the schema builder. */
module SchemaRun {
  import opened Options
  import opened SchemaBuilder
  import opened SchemaTypes
  import opened SchemaPicture

  // ----- the positions ------------------------------------------------------------------------------

  /** Every position still denotes the flag of the tag it was returned for; 0 stands for no position. */
  ghost predicate Marked(f: Tag -> string, xml: seq<Tag>, handles: seq<nat>, marks: seq<Option<nat>>) {
    && |marks| == |handles|
    && forall k | 0 <= k < |handles| ::
         if marks[k].None? then handles[k] == 0 else handles[k] > 0 && Denotes(f, xml, handles[k], marks[k].value)
  }

  lemma StillMarked(f: Tag -> string, was: seq<Tag>, xml: seq<Tag>, handles: seq<nat>, marks: seq<Option<nat>>)
    requires Marked(f, was, handles, marks) && was <= xml
    ensures Marked(f, xml, handles, marks)
  {
    forall k | 0 <= k < |handles| && marks[k].Some? ensures Denotes(f, xml, handles[k], marks[k].value) {
      assert xml[..marks[k].value + 1] == was[..marks[k].value + 1];
    }
  }

  /** A position denotes the flag of one tag only. */
  lemma OneTag(f: Tag -> string, xml: seq<Tag>, pos: nat, i: nat, j: nat)
    requires Printable(f) && Denotes(f, xml, pos, i) && Denotes(f, xml, pos, j)
    ensures i == j
  {
    if i < j { LaterIsLonger(f, xml, i, j); }
    if j < i { LaterIsLonger(f, xml, j, i); }
  }

  lemma LaterIsLonger(f: Tag -> string, xml: seq<Tag>, i: nat, j: nat)
    requires Printable(f) && i < j < |xml| && xml[j].ComplexType? && xml[j].mixed.Some?
    ensures |Spell(f, xml[..i + 1])| < |Spell(f, xml[..j + 1])|
  {
    assert xml[..j] == xml[..i + 1] + xml[i + 1..j];
    SpellConcat(f, xml[..i + 1], xml[i + 1..j]);
    assert xml[..j + 1] == xml[..j] + [ComplexType(Some(xml[j].mixed.value))];
    PrintedLength(f, xml[..j], xml[j].mixed.value);
  }

  lemma {:induction false} PatchedLength(f: Tag -> string, xml: seq<Tag>, i: nat, mixed: bool, n: nat)
    requires Printable(f) && i < |xml| && n <= |xml| && xml[i].ComplexType? && xml[i].mixed.Some?
    ensures |Spell(f, xml[i := ComplexType(Some(mixed))][..n])| == |Spell(f, xml[..n])|
  {
    var patched := xml[i := ComplexType(Some(mixed))];
    if n > 0 {
      PatchedLength(f, xml, i, mixed, n - 1);
      assert xml[..n][..n - 1] == xml[..n - 1] && patched[..n][..n - 1] == patched[..n - 1];
      if n - 1 == i {
        var before, after :| PrintsAround(f, before, after);
        var was := xml[i].mixed.value;
        assert f(ComplexType(Some(was))) == before + [Digit(was)] + after;
        assert f(ComplexType(Some(mixed))) == before + [Digit(mixed)] + after;
      }
    }
  }

  lemma PatchedStillMarked(f: Tag -> string, xml: seq<Tag>, i: nat, mixed: bool, handles: seq<nat>,
                           marks: seq<Option<nat>>)
    requires Printable(f) && Marked(f, xml, handles, marks) && i < |xml| && xml[i].ComplexType? && xml[i].mixed.Some?
    ensures Marked(f, xml[i := ComplexType(Some(mixed))], handles, marks)
  {
    forall k | 0 <= k < |handles| && marks[k].Some?
      ensures Denotes(f, xml[i := ComplexType(Some(mixed))], handles[k], marks[k].value)
    {
      PatchedLength(f, xml, i, mixed, marks[k].value + 1);
    }
  }

  // ----- the builder --------------------------------------------------------------------------------

  /** The builder shows what has been printed. */
  ghost predicate Shows(b: XmlSchemaBuilder, p: Picture)
    reads b
  {
    b.xml == p.xml && b.attributes == p.lists && Types(b.typesXml, b.setTypes) == p.types
  }

  /** The builder after some calls, with the positions they returned. */
  ghost predicate Ready(b: XmlSchemaBuilder, frames: seq<Frame>, handles: seq<nat>, p: Picture)
    reads b
  {
    b.Mirrors(frames) && b.TypesKnown() && Printable(b.printTag) && Shows(b, p)
      && Marked(b.printTag, p.xml, handles, p.marks)
  }

  /** The position that a begin call returns is that of the tag it marks, if it marks one. */
  ghost predicate Positions(f: Tag -> string, was: Picture, p: Picture, pos: nat) {
    && was.xml <= p.xml && |p.marks| == |was.marks| + 1 && was.marks <= p.marks
    && var mark := p.marks[|was.marks|];
       if mark.None? then pos == 0 else pos > 0 && Denotes(f, p.xml, pos, mark.value)
  }

  lemma OneMorePosition(f: Tag -> string, was: Picture, p: Picture, handles: seq<nat>, pos: nat)
    requires Marked(f, was.xml, handles, was.marks) && Positions(f, was, p, pos)
    ensures Marked(f, p.xml, handles + [pos], p.marks)
  {
    StillMarked(f, was.xml, p.xml, handles, was.marks);
    assert forall k | 0 <= k < |handles| :: p.marks[k] == was.marks[k];
  }

  lemma StartPositions(f: Tag -> string, was: Picture, p: Picture, start: seq<Tag>, ownList: bool, back: Option<nat>,
                       pos: nat)
    requires was.xml <= p.xml && p.marks == was.marks
    requires var xml := p.xml + start;
             if back.Some? then back.value <= |xml| && pos > 0 && Denotes(f, xml, pos, |xml| - back.value) else pos == 0
    ensures Positions(f, was, WithStart(p, start, ownList, back), pos)
  {
  }

  /** What `beginRecord` leaves behind, as a step of the run. */
  lemma RecordStep(f: Tag -> string, addHeader: bool, p: Picture, name: string, mixed: bool, patchable: bool,
                   optional: bool,
                   xml: seq<Tag>, lists: seq<seq<Tag>>, pos: nat)
    requires name != ""
    requires xml == (if p.xml == [] then PrefixTags(addHeader, mixed) else p.xml)
             + RecordStart(name, optional, MixedOf(mixed, patchable))
    requires lists == (if p.xml == [] then [[]] else p.lists) + [[]]
    requires if patchable then Denotes(f, xml, pos, |xml| - 3) && pos > 0 else pos == 0
    ensures var next := WithRecord(addHeader, p, name, mixed, patchable, optional);
            next.xml == xml && next.lists == lists && next.types == p.types && Positions(f, p, next, pos)
  {
    StartPositions(f, p, Prefixed(addHeader, p, mixed), RecordStart(name, optional, MixedOf(mixed, patchable)), true,
                   if patchable then Some(3) else None, pos);
  }

  method BeginOneRecord(b: XmlSchemaBuilder, name: string, mixed: bool, patchable: bool, ghost frames: seq<Frame>,
                        ghost p: Picture)
    returns (pos: nat)
    requires b.Mirrors(frames) && Printable(b.printTag) && Shows(b, p)
    modifies b`xml, b`attributes, b`nesting, b`optionalNesting
    ensures b.Mirrors(frames + [RecordFrame(name)])
    ensures var next := WithRecord(b.addHeader, p, name, mixed, patchable, IfCount(frames) > 0);
            Shows(b, next) && Positions(b.printTag, p, next, pos)
  {
    pos := b.BeginRecord(name, mixed, patchable, frames);
    if name != "" {
      RecordStep(b.printTag, b.addHeader, p, name, mixed, patchable, IfCount(frames) > 0, b.xml, b.attributes, pos);
    }
  }

  /** What `beginDataset` leaves behind, as a step of the run. */
  lemma DatasetStep(f: Tag -> string, addHeader: bool, p: Picture, name: string, row: string, mixed: bool,
                    patchable: bool, optional: bool,
                    xml: seq<Tag>, lists: seq<seq<Tag>>, pos: nat)
    requires xml == (if p.xml == [] then PrefixTags(addHeader, false) else p.xml)
             + DatasetStart(name, row, optional, MixedOf(mixed, patchable))
    requires lists == (if p.xml == [] then [[]] else p.lists) + (if row == "" then [] else [[]])
    requires if patchable && name != "" then Denotes(f, xml, pos, |xml| - FlagBack(row)) && pos > 0 else pos == 0
    ensures var next := WithDataset(addHeader, p, name, row, mixed, patchable, optional);
            next.xml == xml && next.lists == lists && next.types == p.types && Positions(f, p, next, pos)
  {
    StartPositions(f, p, Prefixed(addHeader, p, false), DatasetStart(name, row, optional, MixedOf(mixed, patchable)),
                   row != "",
                   if patchable && name != "" then Some(FlagBack(row)) else None, pos);
  }

  method BeginOneDataset(b: XmlSchemaBuilder, name: string, row: string, mixed: bool, patchable: bool,
                         ghost frames: seq<Frame>,
                         ghost p: Picture)
    returns (pos: nat)
    requires b.Mirrors(frames) && Printable(b.printTag) && Shows(b, p)
    modifies b`xml, b`attributes, b`nesting, b`optionalNesting
    ensures b.Mirrors(frames + [DatasetFrame(name, row)])
    ensures var next := WithDataset(b.addHeader, p, DatasetName(name, row), RowName(name, row), mixed, patchable,
                                    IfCount(frames) > 0);
            Shows(b, next) && Positions(b.printTag, p, next, pos)
  {
    ghost var outer, inner, optional := DatasetName(name, row), RowName(name, row), IfCount(frames) > 0;
    pos := b.BeginDataset(name, row, mixed, patchable, frames);
    DatasetStep(b.printTag, b.addHeader, p, outer, inner, mixed, patchable, optional, b.xml, b.attributes, pos);
    assert Shows(b, WithDataset(b.addHeader, p, outer, inner, mixed, patchable, optional));
  }

  /** What a begin call leaves is ready for the next call. */
  lemma BegunIsReady(b: XmlSchemaBuilder, frames: seq<Frame>, handles: seq<nat>, was: Picture, p: Picture, pos: nat)
    requires b.Mirrors(frames) && b.TypesKnown() && Printable(b.printTag) && Shows(b, p)
    requires Marked(b.printTag, was.xml, handles, was.marks) && Positions(b.printTag, was, p, pos)
    ensures Ready(b, frames, handles + [pos], p)
  {
    OneMorePosition(b.printTag, was, p, handles, pos);
  }

  method StartRecord(b: XmlSchemaBuilder, name: string, mixed: bool, patchable: bool, ghost frames: seq<Frame>,
                     handles: seq<nat>,
                     ghost p: Picture)
    returns (after: seq<nat>)
    requires Ready(b, frames, handles, p)
    modifies b`xml, b`attributes, b`nesting, b`optionalNesting
    ensures Ready(b, frames + [RecordFrame(name)], after,
                  WithRecord(b.addHeader, p, name, mixed, patchable, IfCount(frames) > 0))
    ensures handles <= after
  {
    var pos := BeginOneRecord(b, name, mixed, patchable, frames, p);
    BegunIsReady(b, frames + [RecordFrame(name)], handles, p,
                 WithRecord(b.addHeader, p, name, mixed, patchable, IfCount(frames) > 0), pos);
    after := handles + [pos];
  }

  method StartDataset(b: XmlSchemaBuilder, name: string, row: string, mixed: bool, patchable: bool,
                      ghost frames: seq<Frame>,
                      handles: seq<nat>, ghost p: Picture)
    returns (after: seq<nat>)
    requires Ready(b, frames, handles, p)
    modifies b`xml, b`attributes, b`nesting, b`optionalNesting
    ensures Ready(b, frames + [DatasetFrame(name, row)], after,
                  WithDataset(b.addHeader, p, DatasetName(name, row), RowName(name, row), mixed, patchable,
                              IfCount(frames) > 0))
    ensures handles <= after
  {
    var pos := BeginOneDataset(b, name, row, mixed, patchable, frames, p);
    BegunIsReady(b, frames + [DatasetFrame(name, row)], handles, p,
                 WithDataset(b.addHeader, p, DatasetName(name, row), RowName(name, row), mixed, patchable,
                             IfCount(frames) > 0), pos);
    after := handles + [pos];
  }

  /** A call that begins a record or a dataset. */
  method Begin(b: XmlSchemaBuilder, call: Call, ghost frames: seq<Frame>, handles: seq<nat>, ghost p: Picture)
    returns (after: seq<nat>)
    requires Ready(b, frames, handles, p) && (call.BeginRecord? || call.BeginDataset?)
    modifies b`xml, b`attributes, b`nesting, b`optionalNesting
    ensures Ready(b, After(frames, call).value, after, Next(b.addHeader, frames, p, call)) && handles <= after
  {
    match call
    case BeginRecord(name, mixed, patchable) => after := StartRecord(b, name, mixed, patchable, frames, handles, p);
    case BeginDataset(name, row, mixed, patchable) =>
      after := StartDataset(b, name, row, mixed, patchable, frames, handles, p);
  }

  /** A patch changes the flag of the tag that the handle was returned for, and nothing else. */
  method Update(b: XmlSchemaBuilder, handle: nat, mixed: bool, ghost frames: seq<Frame>, handles: seq<nat>,
                ghost p: Picture)
    requires Ready(b, frames, handles, p) && handle < |handles|
    modifies b`xml
    ensures Ready(b, frames, handles, WithFlag(p, handle, mixed))
  {
    b.UpdateMixedRecord(handles[handle], mixed, frames);
    if p.marks[handle].Some? {
      ghost var i: nat :| Denotes(b.printTag, p.xml, handles[handle], i)
        && b.xml == p.xml[i := ComplexType(Some(mixed))];
      OneTag(b.printTag, p.xml, handles[handle], i, p.marks[handle].value);
      PatchedStillMarked(b.printTag, p.xml, i, mixed, handles, p.marks);
    }
  }

  /** What `addField` leaves behind, as a step of the run. */
  lemma FieldStep(addHeader: bool, frames: seq<Frame>, p: Picture, call: Call, xml: seq<Tag>, lists: seq<seq<Tag>>,
                  types: Types)
    requires call.AddField?
    requires var name, t, optional := call.name, call.fieldType, IfCount(frames) > 0;
             var start, was := if p.xml == [] then PrefixTags(addHeader, false)
               else p.xml, if p.xml == [] then [[]] else p.lists;
             && types == (if name == "" then p.types else WithType(p.types, t))
             && was != []
             && if name == "" then xml == start && lists == was
                else if name[0] == '@' then
                  && xml == start
                  && lists == was[|was| - 1 := was[|was| - 1]
                                  + FieldTags(true, name[1..], NameOf(t, types.sets), optional, call.keyed)]
                else xml == start + FieldTags(false, name, NameOf(t, types.sets), optional, call.keyed) && lists == was
    ensures var next := Next(addHeader, frames, p, call);
            next.xml == xml && next.lists == lists && next.types == types && next.marks == p.marks && p.xml <= xml
  {
  }

  /** A call that prints a field.  After it the name of its type is defined, and so are those the type
      refers to, exactly if no decimal type of that size had been defined with the other sign. */
  method Field(b: XmlSchemaBuilder, call: Call, ghost frames: seq<Frame>, ghost p: Picture)
    requires b.Mirrors(frames) && b.TypesKnown() && Shows(b, p) && After(frames, call).Some?
    requires call.AddField? || call.AddSetField? || call.AddSingle?
    modifies b
    ensures b.Mirrors(frames) && b.TypesKnown() && Shows(b, Next(b.addHeader, frames, p, call)) && old(b.xml) <= b.xml
    ensures var asked := Asked(call);
            asked.Some? ==> (DefinedIn(b.typesXml, asked.value, b.setTypes) <==> !Clashes(old(b.typesXml), asked.value))
  {
    NextTypes(b.addHeader, frames, p, call);
    if Asked(call).Some? { NamedIsDefined(p.types, Asked(call).value); }
    match call
    case AddField(_, _, _) => PlainField(b, call, frames, p);
    case AddSetField(_, _, _) => SetField(b, call, frames, p);
    case AddSingle(_, _, _) => Single(b, call, frames, p);
  }

  lemma NextTypes(addHeader: bool, frames: seq<Frame>, p: Picture, call: Call)
    requires After(frames, call).Some? && (call.AddField? || call.AddSetField? || call.AddSingle?)
    ensures Next(addHeader, frames, p, call).types == NewTypes(p.types, Asked(call))
  {
  }

  method PlainField(b: XmlSchemaBuilder, call: Call, ghost frames: seq<Frame>, ghost p: Picture)
    requires b.Mirrors(frames) && b.TypesKnown() && Shows(b, p) && call.AddField?
    modifies b
    ensures b.Mirrors(frames) && b.TypesKnown() && Shows(b, Next(b.addHeader, frames, p, call)) && old(b.xml) <= b.xml
  {
    b.AddField(call.name, call.fieldType, call.keyed, frames);
    FieldStep(b.addHeader, frames, p, call, b.xml, b.attributes, Types(b.typesXml, b.setTypes));
  }

  method SetField(b: XmlSchemaBuilder, call: Call, ghost frames: seq<Frame>, ghost p: Picture)
    requires b.Mirrors(frames) && b.TypesKnown() && Shows(b, p) && call.AddSetField? && call.fieldType.SetType?
    modifies b
    ensures b.Mirrors(frames) && b.TypesKnown() && Shows(b, Next(b.addHeader, frames, p, call)) && old(b.xml) <= b.xml
  {
    b.AddSetField(call.name, call.itemname, call.fieldType, frames);
  }

  /** What `addSingleFieldDataset` leaves behind, as a step of the run. */
  lemma SingleStep(addHeader: bool, frames: seq<Frame>, p: Picture, call: Call, xml: seq<Tag>, lists: seq<seq<Tag>>,
                   types: Types)
    requires call.AddSingle?
    requires var name, childname, t, optional := call.name, call.childname, call.fieldType, IfCount(frames) > 0;
             var start, was := if p.xml == [] then PrefixTags(addHeader, false)
               else p.xml, if p.xml == [] then [[]] else p.lists;
             && types == (if childname == "" then p.types else WithType(p.types, t))
             && xml == start + SingleTags(name, optional, if childname == "" || childname[0] == '@' then []
                                                          else FieldTags(false, childname, NameOf(t, types.sets),
                                                              optional, false))
             && was != []
             && lists == if childname == "" || childname[0] != '@' then was
                         else was[|was| - 1 := was[|was| - 1]
                                  + FieldTags(true, childname[1..], NameOf(t, types.sets), optional, false)]
    ensures var next := Next(addHeader, frames, p, call);
            next.xml == xml && next.lists == lists && next.types == types && next.marks == p.marks && p.xml <= xml
  {
    var start := Prefixed(addHeader, p, false);
    var field := WithField(start, call.childname, call.fieldType, IfCount(frames) > 0, false);
    assert start.xml <= field.xml;
  }

  method Single(b: XmlSchemaBuilder, call: Call, ghost frames: seq<Frame>, ghost p: Picture)
    requires b.Mirrors(frames) && b.TypesKnown() && Shows(b, p) && call.AddSingle?
    modifies b
    ensures b.Mirrors(frames) && b.TypesKnown() && Shows(b, Next(b.addHeader, frames, p, call)) && old(b.xml) <= b.xml
  {
    b.AddSingleFieldDataset(call.name, call.childname, call.fieldType, frames);
    SingleStep(b.addHeader, frames, p, call, b.xml, b.attributes, Types(b.typesXml, b.setTypes));
  }

  /** A call that ends a record or a dataset. */
  method End(b: XmlSchemaBuilder, call: Call, ghost frames: seq<Frame>, ghost p: Picture)
    requires b.Mirrors(frames) && b.TypesKnown() && Shows(b, p) && After(frames, call).Some?
             && (call.EndRecord? || call.EndDataset?)
    modifies b`xml, b`attributes, b`nesting, b`optionalNesting
    ensures b.Mirrors(After(frames, call).value) && b.TypesKnown()
    ensures Shows(b, Next(b.addHeader, frames, p, call)) && old(b.xml) <= b.xml
  {
    if call.EndRecord? {
      EndOneRecord(b, call, frames, After(frames, call).value, p);
    } else {
      EndOneDataset(b, call, frames, After(frames, call).value, p);
    }
  }

  method EndOneRecord(b: XmlSchemaBuilder, call: Call, ghost frames: seq<Frame>, ghost after: seq<Frame>,
                      ghost p: Picture)
    requires call.EndRecord? && frames == after + [RecordFrame(call.name)] && b.Mirrors(frames) && Shows(b, p)
    modifies b`xml, b`attributes, b`nesting, b`optionalNesting
    ensures b.Mirrors(after) && Shows(b, Next(b.addHeader, frames, p, call)) && old(b.xml) <= b.xml
  {
    b.EndRecord(call.name, after);
  }

  method EndOneDataset(b: XmlSchemaBuilder, call: Call, ghost frames: seq<Frame>, ghost after: seq<Frame>,
                       ghost p: Picture)
    requires call.EndDataset? && frames == after + [DatasetFrame(call.name, call.row)] && b.Mirrors(frames)
             && Shows(b, p)
    modifies b`xml, b`attributes, b`nesting, b`optionalNesting
    ensures b.Mirrors(after) && Shows(b, Next(b.addHeader, frames, p, call)) && old(b.xml) <= b.xml
  {
    b.EndDataset(call.name, call.row, after);
  }

  /** A call that begins or ends a conditional block prints nothing. */
  method IfBlock(b: XmlSchemaBuilder, call: Call, ghost frames: seq<Frame>, ghost p: Picture)
    requires b.Mirrors(frames) && b.TypesKnown() && Shows(b, p) && After(frames, call).Some?
             && (call.BeginIf? || call.EndIf?)
    modifies b`optionalNesting
    ensures b.Mirrors(After(frames, call).value) && b.TypesKnown()
    ensures Shows(b, Next(b.addHeader, frames, p, call)) && old(b.xml) <= b.xml
  {
    ghost var after := After(frames, call).value;
    assert call.EndIf? ==> frames == after + [IfFrame];
    if call.BeginIf? { b.BeginIfBlock(frames); } else { b.EndIfBlock(after); }
  }

  lemma OneCallMore(calls: seq<Call>, i: nat)
    requires i < |calls| && Frames(calls).Some?
    ensures Frames(calls[..i]).Some? && Frames(calls[..i + 1]) == After(Frames(calls[..i]).value, calls[i])
    decreases |calls|
  {
    if i + 1 == |calls| {
      assert calls[..i + 1] == calls;
    } else {
      OneCallMore(calls[..|calls| - 1], i);
      assert calls[..|calls| - 1][..i] == calls[..i] && calls[..|calls| - 1][..i + 1] == calls[..i + 1];
    }
  }

  lemma {:induction false} AllPrefixes(calls: seq<Call>, i: nat)
    requires i <= |calls| && Frames(calls).Some?
    ensures Frames(calls[..i]).Some?
  {
    if i < |calls| { OneCallMore(calls, i); } else { assert calls[..i] == calls; }
  }

  lemma OnePictureMore(addHeader: bool, calls: seq<Call>, i: nat)
    requires i < |calls| && Frames(calls[..i]).Some? && Frames(calls[..i + 1]).Some?
    ensures Pictured(addHeader, calls[..i + 1]) ==
            Next(addHeader, Frames(calls[..i]).value, Pictured(addHeader, calls[..i]), calls[i])
  {
    assert calls[..i + 1][..i] == calls[..i];
  }

  /** One call of any kind. */
  method PlayOne(b: XmlSchemaBuilder, call: Call, ghost frames: seq<Frame>, handles: seq<nat>, ghost p: Picture)
    returns (after: seq<nat>)
    requires Ready(b, frames, handles, p) && After(frames, call).Some?
    modifies b
    ensures Ready(b, After(frames, call).value, after, Next(b.addHeader, frames, p, call)) && handles <= after
  {
    after := handles;
    if call.BeginRecord? || call.BeginDataset? {
      after := Begin(b, call, frames, handles, p);
    } else if call.UpdateMixed? {
      if call.handle < |handles| { Update(b, call.handle, call.mixed, frames, handles, p); }
    } else {
      if call.BeginIf? || call.EndIf? { IfBlock(b, call, frames, p); }
      else if call.EndRecord? || call.EndDataset? { End(b, call, frames, p); }
      else { Field(b, call, frames, p); }
      StillMarked(b.printTag, p.xml, b.xml, handles, p.marks);
    }
  }

  /** Any well-nested run on a fresh builder: its stacks mirror what is open, it shows what the run
      prints, and every position still denotes the flag it was returned for.  Every type that has been
      referred to is defined if and only if the run names no decimal size with both signs. */
  method Play(b: XmlSchemaBuilder, calls: seq<Call>) returns (handles: seq<nat>)
    requires Frames(calls).Some? && Ready(b, [], [], BLANK)
    modifies b
    ensures Ready(b, Frames(calls).value, handles, Pictured(b.addHeader, calls))
    ensures AllDefined(Pictured(b.addHeader, calls)) <==> OneSign(Named(calls))
  {
    handles := [];
    for i := 0 to |calls|
      invariant Frames(calls[..i]).Some?
                && Ready(b, Frames(calls[..i]).value, handles, Pictured(b.addHeader, calls[..i]))
    {
      OneCallMore(calls, i);
      AllPrefixes(calls, i + 1);
      OnePictureMore(b.addHeader, calls, i);
      handles := PlayOne(b, calls[i], Frames(calls[..i]).value, handles, Pictured(b.addHeader, calls[..i]));
    }
    assert calls[..|calls|] == calls;
    AllDefinedIff(b.addHeader, calls);
  }

  ghost predicate NothingOpen(calls: seq<Call>)
    requires Frames(calls).Some?
  {
    forall f | f in Frames(calls).value :: !Scopes(f)
  }

  lemma DefinedOnce(b: XmlSchemaBuilder)
    requires b.TypesKnown()
    ensures forall i, j | 0 <= i < j < |b.typesXml| :: DefName(b.typesXml[i]) != DefName(b.typesXml[j])
  {
    forall i, j | 0 <= i < j < |b.typesXml| && DefName(b.typesXml[i]) == DefName(b.typesXml[j]) ensures false {
      DefNamesDiffer(b.typesXml, b.setTypes, b.typesXml[i], b.typesXml[j]);
    }
  }

  /** With nothing left open, only the attributes of the outermost record are still kept back. */
  lemma OneListLeft(b: XmlSchemaBuilder, frames: seq<Frame>, p: Picture)
    requires b.Mirrors(frames) && Shows(b, p) && forall f | f in frames :: !Scopes(f)
    ensures |p.lists| <= 1
  {
    NothingOpened(frames);
  }

  /** What is left of a builder is its picture with the end of the schema. */
  method Finish(b: XmlSchemaBuilder, ghost frames: seq<Frame>, ghost p: Picture) returns (result: seq<Tag>)
    requires b.Mirrors(frames) && Shows(b, p)
    modifies b
    ensures result == Whole(p) && (result != [] ==>
                                   (Open(result, []) == Some([]) <==> forall f | f in frames :: !Scopes(f)))
  {
    result := b.GetXml(frames);
  }

  /** The schema of a run: nothing, or what was printed and the end of the schema with the types.  It is
      balanced exactly when the run leaves no named record or dataset open.  No two definitions have one
      name.  Every type attribute in it is built in or the name of a definition in it if, and when
      nothing is left open only if, the run names no decimal size with both signs. */
  method Schema(addHeader: bool, calls: seq<Call>) returns (result: seq<Tag>)
    requires Frames(calls).Some?
    ensures result == Whole(Pictured(addHeader, calls))
    ensures result != [] ==> (Open(result, []) == Some([]) <==> NothingOpen(calls))
    ensures var defs := Pictured(addHeader, calls).types.defs;
            forall i, j | 0 <= i < j < |defs| :: DefName(defs[i]) != DefName(defs[j])
    ensures OneSign(Named(calls)) ==> TypesDefined(result)
    ensures NothingOpen(calls) ==> (TypesDefined(result) <==> OneSign(Named(calls)))
  {
    TextIsPrintable();
    var b := new XmlSchemaBuilder(addHeader, t => TagText(t));
    var handles := Play(b, calls);
    DefinedOnce(b);
    SchemaIsDefined(addHeader, calls);
    if NothingOpen(calls) { OneListLeft(b, Frames(calls).value, Pictured(addHeader, calls)); }
    result := Finish(b, Frames(calls).value, Pictured(addHeader, calls));
  }

  /** A run that names one decimal size with both signs. */
  function BothSigns(size: DecimalSize): seq<Call> {
    [AddField("a", DecimalType(true, size), false), AddField("b", DecimalType(false, size), false)]
  }

  /** Its schema refers to the unsigned type, of which it has no definition. */
  method SchemaOfBothSigns(addHeader: bool, size: DecimalSize) returns (result: seq<Tag>)
    ensures DecimalName(false, size) in TypeRefs(result) && TypeNames(result) == {DecimalName(true, size)}
    ensures !TypesDefined(result)
  {
    BothSignsPictured(addHeader, size);
    result := Schema(addHeader, BothSigns(size));
    SignsDiffer(size);
  }

  lemma NamesOfHas(t: FieldType, named: set<FieldType>, sets: seq<FieldType>)
    requires t in named
    ensures NameOf(t, sets) in NamesOf(named, sets)
  {
  }

  lemma BothAreNamed(size: DecimalSize)
    ensures DecimalType(false, size) in Named(BothSigns(size)) && DecimalType(true, size) in Named(BothSigns(size))
  {
    var calls := BothSigns(size);
    assert Named(calls) == Named(calls[..1]) + NamedBy(calls[1]);
    assert calls[..1][..0] == [] && calls[..1][0] == calls[0];
  }

  lemma BothSignsTypes(addHeader: bool, size: DecimalSize)
    ensures Frames(BothSigns(size)) == Some([])
    ensures var p := Pictured(addHeader, BothSigns(size));
            p.types.defs == [DecimalDef(DecimalName(true, size), size)] && p.xml != [] && |p.lists| <= 1
  {
    var calls := BothSigns(size);
    assert Frames(calls[..0]) == Some([]);
    assert calls[..1][..0] == calls[..0] && calls[..1][0] == calls[0];
    assert Frames(calls[..1]) == Some([]);
    assert calls[..2] == calls && calls[..2][..1] == calls[..1];
    OnePictureMore(addHeader, calls, 0);
    OnePictureMore(addHeader, calls, 1);
    var d := DecimalDef(DecimalName(true, size), size);
    assert d in [d];
  }

  lemma OneDefName(d: TypeDef)
    ensures DefNames([d]) == {DefName(d)}
  {
    assert d in [d];
  }

  lemma BothSignsPictured(addHeader: bool, size: DecimalSize)
    ensures Frames(BothSigns(size)) == Some([])
    ensures var p := Pictured(addHeader, BothSigns(size));
            DecimalName(false, size) in TypeRefs(Whole(p)) && TypeNames(Whole(p)) == {DecimalName(true, size)}
  {
    var calls := BothSigns(size);
    var p := Pictured(addHeader, calls);
    BothSignsTypes(addHeader, size);
    RunIsTyped(addHeader, calls);
    WholeTypes(p, Named(calls));
    BothAreNamed(size);
    OneDefName(DecimalDef(DecimalName(true, size), size));
    NamesOfHas(DecimalType(false, size), Named(calls), p.types.sets);
  }
}
