/** The property tree dump: the same calls build a tree in memory, through a pointer to the node that
    attributes are currently added to. */
module DumpTree {
  import opened Options
  import opened DumpRun

  /** Setting an attribute of a node; a second value for the same name replaces the first. */
  function WithAttribute(attrs: seq<Text>, name: string, value: string): seq<Text> {
    if attrs == [] then [Text(name, value)]
    else if attrs[0].name == name then [Text(name, value)] + attrs[1..]
    else [attrs[0]] + WithAttribute(attrs[1..], name, value)
  }

  function WithFields(fields: seq<Field>): seq<Text> {
    if fields == [] then []
    else
      var f := fields[|fields| - 1];
      WithAttribute(WithFields(fields[..|fields| - 1]), f.name, f.value)
  }

  class Node {
    const name: string
    var attrs: seq<Text>
    var children: seq<Node>

    constructor (name: string)
      ensures this.name == name && attrs == [] && children == []
    {
      this.name, attrs, children := name, [], [];
    }
  }

  datatype Section = Section(name: string, texts: seq<Text>)

  class TreeVisitor {
    const flags: MetaFlags
    var fileVisitDepth: nat
    var tree: Node?
    var active: Node?

    constructor (flags: MetaFlags)
      ensures this.flags == flags && fileVisitDepth == 0 && tree == null
    {
      this.flags, fileVisitDepth, tree, active := flags, 0, null, null;
    }

    /** The root has these sections below it, and nothing lies deeper. */
    ghost predicate Shows(sections: seq<Section>)
      reads this, tree, if tree != null then tree.children else []
    {
      && tree != null && |tree.children| == |sections|
      && (forall i | 0 <= i < |sections| :: tree.children[i] != tree && tree.children[i].children == []
            && tree.children[i].name == sections[i].name && tree.children[i].attrs == sections[i].texts)
      && (forall i, j | 0 <= i < j < |sections| :: tree.children[i] != tree.children[j])
    }

    method RecordAttribute(f: Field)
      requires active != null
      modifies active`attrs
      ensures active.attrs == WithAttribute(old(active.attrs), f.name, f.value)
    {
      active.attrs := WithAttribute(active.attrs, f.name, f.value);
    }

    method RecordAll(fields: seq<Field>)
      requires active != null && active.attrs == []
      modifies active`attrs
      ensures active.attrs == WithFields(fields)
    {
      for i := 0 to |fields|
        invariant active.attrs == WithFields(fields[..i])
      {
        RecordAttribute(fields[i]);
        assert fields[..i + 1][..i] == fields[..i];
      }
      assert fields[..|fields|] == fields;
    }

    /** `active = tree->addPropTree(name, createPTree())`, and its attributes. */
    method AddSection(name: string, fields: seq<Field>, ghost sections: seq<Section>)
      requires Shows(sections)
      modifies this`active, tree`children
      ensures tree == old(tree) && Shows(sections + [Section(name, WithFields(fields))])
    {
      active := new Node(name);
      tree.children := tree.children + [active];
      ghost var kids := tree.children;
      RecordAll(fields);
      assert forall i | 0 <= i < |sections| :: kids[i] != active;
    }

    method VisitFile(path: string, version: string, ghost sections: seq<Section>)
      requires fileVisitDepth > 0 ==> Shows(sections)
      modifies this
      ensures fileVisitDepth == old(fileVisitDepth) + 1
      ensures Shows(if old(fileVisitDepth) == 0 then [Section("Header", WithFields(HeaderFields(path, version)))]
                    else sections)
      ensures if old(fileVisitDepth) == 0 then fresh(tree) else tree == old(tree)
    {
      fileVisitDepth := fileVisitDepth + 1;
      if fileVisitDepth != 1 { return; }
      tree := new Node("EventFile");
      AddSection("Header", HeaderFields(path, version), []);
      assert [] + [Section("Header", WithFields(HeaderFields(path, version)))] ==
             [Section("Header", WithFields(HeaderFields(path, version)))];
    }

    method VisitEvent(e: SourceEvent, ghost sections: seq<Section>)
      requires Shows(sections)
      modifies this`active, tree`children
      ensures tree == old(tree) && Shows(sections + [Section("Event", WithFields(Recorded(flags, e)))])
    {
      AddSection("Event", Recorded(flags, e), sections);
      active := tree;
    }

    method DepartFile(bytesRead: string, ghost sections: seq<Section>)
      requires fileVisitDepth > 0 && Shows(sections)
      modifies this, tree`children
      ensures fileVisitDepth == old(fileVisitDepth) - 1 && tree == old(tree)
      ensures Shows(if fileVisitDepth > 0 then sections
                    else sections + [Section("Footer", WithFields(FooterFields(bytesRead)))])
    {
      fileVisitDepth := fileVisitDepth - 1;
      if fileVisitDepth != 0 { return; }
      AddSection("Footer", FooterFields(bytesRead), sections);
    }
  }

  // ----- a whole run ------------------------------------------------------------------------------

  function EventSections(events: seq<seq<Field>>): seq<Section> {
    if events == [] then []
    else EventSections(events[..|events| - 1]) + [Section("Event", WithFields(events[|events| - 1]))]
  }

  function SoFar(header: seq<Field>, events: seq<seq<Field>>): seq<Section> {
    [Section("Header", WithFields(header))] + EventSections(events)
  }

  lemma SoFarMore(header: seq<Field>, events: seq<seq<Field>>, e: seq<Field>)
    ensures SoFar(header, events + [e]) == SoFar(header, events) + [Section("Event", WithFields(e))]
  {
    assert (events + [e])[..|events|] == events;
  }

  function RunSections(flags: MetaFlags, run: seq<Call>): seq<Section>
    requires OneVisit(run)
  {
    StartsAndEnds(run);
    SoFar(HeaderFields(run[0].path, run[0].version), EventsOf(flags, run))
    + [Section("Footer", WithFields(FooterFields(run[|run| - 1].bytesRead)))]
  }

  /** A call that leaves the outermost visit open. */
  method Inside(v: TreeVisitor, call: Call, ghost header: seq<Field>, ghost events: seq<seq<Field>>)
    requires v.Shows(SoFar(header, events)) && v.fileVisitDepth > 0 && v.fileVisitDepth + Step(call) > 0
    modifies v, v.tree`children
    ensures v.Shows(SoFar(header, if call.VisitEvent? then events + [Recorded(v.flags, call.event)] else events))
    ensures v.tree == old(v.tree) && v.fileVisitDepth == old(v.fileVisitDepth) + Step(call)
  {
    match call
    case VisitFile(path, version) => v.VisitFile(path, version, SoFar(header, events));
    case VisitEvent(e) =>
      v.VisitEvent(e, SoFar(header, events));
      SoFarMore(header, events, Recorded(v.flags, e));
    case DepartFile(bytesRead) => v.DepartFile(bytesRead, SoFar(header, events));
  }

  /** The tree of a run. */
  method Build(flags: MetaFlags, run: seq<Call>) returns (v: TreeVisitor)
    requires OneVisit(run)
    ensures fresh(v) && v.Shows(RunSections(flags, run))
  {
    StartsAndEnds(run);
    v := new TreeVisitor(flags);
    ghost var header := HeaderFields(run[0].path, run[0].version);
    v.VisitFile(run[0].path, run[0].version, []);
    OneCallMore(flags, run, 0);
    for i := 1 to |run| - 1
      invariant v.flags == flags && fresh(v) && v.Shows(SoFar(header, EventsOf(flags, run[..i]))) && fresh(v.tree)
      invariant v.fileVisitDepth == Depth(run[..i])
    {
      OneCallMore(flags, run, i);
      assert Depth(run[..i]) > 0 && Depth(run[..i + 1]) > 0;
      Inside(v, run[i], header, EventsOf(flags, run[..i]));
    }
    OneCallMore(flags, run, |run| - 1);
    assert run[..|run|] == run;
    v.DepartFile(run[|run| - 1].bytesRead, SoFar(header, EventsOf(flags, run)));
  }

  // ----- the document it holds --------------------------------------------------------------------

  predicate Names(attrs: seq<Text>, name: string) {
    exists i | 0 <= i < |attrs| :: attrs[i].name == name
  }

  lemma {:induction false} WithAttributeAdds(attrs: seq<Text>, name: string, value: string)
    ensures if Names(attrs, name) then |WithAttribute(attrs, name, value)| == |attrs|
            else WithAttribute(attrs, name, value) == attrs + [Text(name, value)]
    ensures forall n :: Names(WithAttribute(attrs, name, value), n) <==> Names(attrs, n) || n == name
  {
    var r := WithAttribute(attrs, name, value);
    if attrs == [] {
      assert r[0].name == name;
    } else if attrs[0].name == name {
      forall n ensures Names(r, n) <==> Names(attrs, n) || n == name {
        assert forall i | 0 <= i < |attrs| :: r[i].name == attrs[i].name;
      }
      assert Names(attrs, name);
    } else {
      WithAttributeAdds(attrs[1..], name, value);
      forall n ensures Names(r, n) <==> Names(attrs, n) || n == name {
        NamesCons(attrs[0], attrs[1..], n);
        NamesCons(attrs[0], r[1..], n);
        assert attrs == [attrs[0]] + attrs[1..] && r == [attrs[0]] + r[1..];
      }
    }
  }

  lemma NamesCons(a: Text, rest: seq<Text>, n: string)
    ensures Names([a] + rest, n) <==> a.name == n || Names(rest, n)
  {
    var all := [a] + rest;
    if i :| 0 <= i < |all| && all[i].name == n { if i > 0 { assert rest[i - 1].name == n; } }
    if a.name == n { assert all[0].name == n; }
    if i :| 0 <= i < |rest| && rest[i].name == n { assert all[i + 1].name == n; }
  }

  predicate HasName(fields: seq<Field>, name: string) {
    exists i | 0 <= i < |fields| :: fields[i].name == name
  }

  lemma HasNameMore(front: seq<Field>, f: Field, name: string)
    ensures HasName(front + [f], name) <==> HasName(front, name) || f.name == name
  {
    var all := front + [f];
    assert all[|front|] == f;
    if HasName(front, name) {
      var i :| 0 <= i < |front| && front[i].name == name;
      assert all[i].name == name;
    }
  }

  lemma {:induction false} KeptNames(fields: seq<Field>)
    ensures forall n :: Names(WithFields(fields), n) <==> HasName(fields, n)
  {
    if fields != [] {
      var front, f := fields[..|fields| - 1], fields[|fields| - 1];
      KeptNames(front);
      WithAttributeAdds(WithFields(front), f.name, f.value);
      assert fields == front + [f];
      forall n ensures HasName(fields, n) <==> HasName(front, n) || f.name == n { HasNameMore(front, f, n); }
    }
  }

  lemma DistinctMore(front: seq<Field>, f: Field)
    ensures DistinctNames(front + [f]) <==> DistinctNames(front) && !HasName(front, f.name)
  {
    var all := front + [f];
    assert all[|front|] == f;
    if DistinctNames(all) {
      assert forall i, j | 0 <= i < j < |front| :: all[i] == front[i] && all[j] == front[j];
      forall i | 0 <= i < |front| ensures front[i].name != f.name { assert all[i].name != all[|front|].name; }
    }
  }

  /** A node keeps every attribute it is given exactly when their names are all different. */
  lemma {:induction false} KeptIfDistinct(fields: seq<Field>)
    ensures |WithFields(fields)| <= |fields|
    ensures if DistinctNames(fields) then WithFields(fields) == Plain(fields) else |WithFields(fields)| < |fields|
  {
    if fields == [] {
      assert Plain(fields) == [];
    } else {
      var front, f := fields[..|fields| - 1], fields[|fields| - 1];
      assert fields == front + [f];
      KeptIfDistinct(front);
      KeptNames(front);
      DistinctMore(front, f);
      WithAttributeAdds(WithFields(front), f.name, f.value);
      if DistinctNames(fields) { assert Plain(fields) == Plain(front) + [Text(f.name, f.value)]; }
    }
  }

  function EventTexts(sections: seq<Section>): seq<seq<Text>> {
    seq(|sections|, i requires 0 <= i < |sections| => sections[i].texts)
  }

  /** The dump that a tree stands for: a header, events and a footer. */
  function DocFrom(sections: seq<Section>): Option<Doc> {
    var n := |sections|;
    if n < 2 || sections[0].name != "Header" || sections[n - 1].name != "Footer"
       || exists i | 0 < i < n - 1 :: sections[i].name != "Event" then None
    else Some(Doc(sections[0].texts, EventTexts(sections[1..n - 1]), sections[n - 1].texts))
  }

  lemma {:induction false} EventSectionsAt(events: seq<seq<Field>>)
    ensures |EventSections(events)| == |events|
    ensures forall i | 0 <= i < |events| :: EventSections(events)[i] == Section("Event", WithFields(events[i]))
  {
    if events != [] { EventSectionsAt(events[..|events| - 1]); }
  }

  lemma DocFromSections(header: seq<Field>, events: seq<seq<Field>>, footer: seq<Field>)
    ensures DocFrom(SoFar(header, events) + [Section("Footer", WithFields(footer))]) ==
            Some(Doc(WithFields(header), EventTexts(EventSections(events)), WithFields(footer)))
  {
    EventSectionsAt(events);
    var sections := SoFar(header, events) + [Section("Footer", WithFields(footer))];
    assert sections[1..|sections| - 1] == EventSections(events);
  }

  lemma EventsAgree(events: seq<seq<Field>>)
    ensures EventTexts(EventSections(events)) == PlainEvents(events) <==> forall e | e in events :: DistinctNames(e)
  {
    EventSectionsAt(events);
    var texts, plain := EventTexts(EventSections(events)), PlainEvents(events);
    forall i | 0 <= i < |events| ensures texts[i] == plain[i] <==> DistinctNames(events[i]) {
      KeptIfDistinct(events[i]);
    }
  }

  /** The tree stands for the document that the run describes. */
  lemma TreeDenotesDoc(flags: MetaFlags, run: seq<Call>)
    requires OneVisit(run)
    ensures DocFrom(RunSections(flags, run)) == Some(DocOf(flags, run))
  {
    StartsAndEnds(run);
    EventsDistinct(flags, run);
    var header, footer := HeaderFields(run[0].path, run[0].version), FooterFields(run[|run| - 1].bytesRead);
    assert header[0].name[0] != header[1].name[0];
    KeptIfDistinct(header);
    KeptIfDistinct(footer);
    DocFromSections(header, EventsOf(flags, run), footer);
    EventsAgree(EventsOf(flags, run));
  }
}
