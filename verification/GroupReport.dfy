/** What a report says: every call of it is about one group of the tree, with that group's events, at that
    group's level, under that group's values. */
module GroupReport {
  import opened Options
  import opened Extractor
  import opened GroupTree
  import opened GroupBy
  import opened GroupRender

  /** The values that a group is shown with. */
  function ShownAs(f: FormatFn, hier: Hierarchy, values: seq<string>, level: nat, p: GroupPath): seq<string>
    requires level + |p| <= |hier|
  {
    if p == [] then values else Formatted(f, hier[level + |p| - 1], p[|p| - 1].values)
  }

  /** The call is about the group at a path below a node. */
  predicate About(f: FormatFn, hier: Hierarchy, t: Tree, values: seq<string>, level: nat, isRoot: bool, c: Call,
                  p: GroupPath)
    requires level + |p| <= |hier|
  {
    Has(t, p)
    && var shown := ShownAs(f, hier, values, level, p);
       var top := isRoot && p == [];
       match c
       case BeginGroup(l, v) => !top && l == level + |p| && v == shown
       case EndGroup(l, v) => !top && l == level + |p| && v == shown
       case LeafSummary(v, events) => v == shown && At(t, p).leaf == Some(events)
       case Subtotal(l, v, events) =>
         l == level + |p| && v == (if top then ["TOTAL"] else shown) && events == At(t, p).subTotal
  }

  ghost predicate AboutSome(f: FormatFn, hier: Hierarchy, t: Tree, values: seq<string>, level: nat, isRoot: bool,
                            c: Call) {
    exists p: GroupPath :: level + |p| <= |hier| && About(f, hier, t, values, level, isRoot, c, p)
  }

  lemma AboutNode(f: FormatFn, hier: Hierarchy, t: Tree, values: seq<string>, level: nat, isRoot: bool, c: Call,
                  body: seq<Call>)
    requires level <= |hier| && c in Wrapped(t, values, level, isRoot, body)
    ensures c in body || AboutSome(f, hier, t, values, level, isRoot, c)
  {
    if c !in body { assert About(f, hier, t, values, level, isRoot, c, []); }
  }

  lemma {:induction false} InSomePart(parts: seq<seq<Call>>, c: Call) returns (i: nat)
    requires c in Concat(parts)
    ensures i < |parts| && c in parts[i]
  {
    if c in parts[|parts| - 1] { return |parts| - 1; }
    i := InSomePart(parts[..|parts| - 1], c);
  }

  lemma AboutKid(f: FormatFn, hier: Hierarchy, t: Tree, values: seq<string>, level: nat, isRoot: bool, c: Call,
                 k: GroupKey, p: GroupPath)
    requires level + 1 + |p| <= |hier| && k in t.kids
    requires About(f, hier, t.kids[k], Formatted(f, hier[level], k.values), level + 1, false, c, p)
    ensures About(f, hier, t, values, level, isRoot, c, [k] + p)
  {
    var q := [k] + p;
    assert q[1..] == p && q[0] == k;
    assert KidOf(t, k) == t.kids[k];
  }

  lemma AboutSomeKid(f: FormatFn, hier: Hierarchy, t: Tree, values: seq<string>, level: nat, isRoot: bool, c: Call,
                     k: GroupKey)
    requires level < |hier| && k in t.kids
    requires AboutSome(f, hier, t.kids[k], Formatted(f, hier[level], k.values), level + 1, false, c)
    ensures AboutSome(f, hier, t, values, level, isRoot, c)
  {
    var shown := Formatted(f, hier[level], k.values);
    var p: GroupPath :| level + 1 + |p| <= |hier| && About(f, hier, t.kids[k], shown, level + 1, false, c, p);
    AboutKid(f, hier, t, values, level, isRoot, c, k, p);
  }

  /** A call of a node's children comes from one of them. */
  lemma FromSomeKid(f: FormatFn, hier: Hierarchy, t: Tree, values: seq<string>, level: nat, isRoot: bool,
                    out: seq<Call>, order: seq<GroupKey>, parts: seq<seq<Call>>, c: Call)
    returns (k: GroupKey, part: seq<Call>)
    requires level < |hier| && RendersInOrder(f, hier, t, values, level, isRoot, out, order, parts)
    requires c in Concat(parts)
    ensures k in t.kids && c in part
    ensures Renders(f, hier, t.kids[k], Formatted(f, hier[level], k.values), level + 1, false, part)
  {
    var i := InSomePart(parts, c);
    k, part := order[i], parts[i];
  }

  lemma SomeOrder(f: FormatFn, hier: Hierarchy, t: Tree, values: seq<string>, level: nat, isRoot: bool,
                  out: seq<Call>)
    returns (order: seq<GroupKey>, parts: seq<seq<Call>>)
    requires level < |hier| && Renders(f, hier, t, values, level, isRoot, out)
    ensures RendersInOrder(f, hier, t, values, level, isRoot, out, order, parts)
    ensures out == Wrapped(t, values, level, isRoot, Concat(parts))
  {
    order, parts :| RendersInOrder(f, hier, t, values, level, isRoot, out, order, parts);
  }

  /** Every call that rendering a node makes is about a group below it. */
  lemma {:induction false} CallsAreAbout(f: FormatFn, hier: Hierarchy, t: Tree, values: seq<string>, level: nat,
                                         isRoot: bool, out: seq<Call>, c: Call)
    requires level <= |hier| && Renders(f, hier, t, values, level, isRoot, out) && c in out
    ensures AboutSome(f, hier, t, values, level, isRoot, c)
    decreases |hier| - level
  {
    if level == |hier| {
      AboutNode(f, hier, t, values, level, isRoot, c, []);
    } else {
      var order, parts := SomeOrder(f, hier, t, values, level, isRoot, out);
      AboutNode(f, hier, t, values, level, isRoot, c, Concat(parts));
      if c in Concat(parts) {
        var k, part := FromSomeKid(f, hier, t, values, level, isRoot, out, order, parts, c);
        CallsAreAbout(f, hier, t.kids[k], Formatted(f, hier[level], k.values), level + 1, false, part, c);
        AboutSomeKid(f, hier, t, values, level, isRoot, c, k);
      }
    }
  }

  /** A subtotal of a report shows the events of one group of the run, in order, at that group's level and under
      its last values, or TOTAL for all of them. */
  lemma SubtotalsShowGroups(f: FormatFn, h: HashFn, run: seq<Arrival>, hier: Hierarchy, out: seq<Call>, c: Call)
    returns (p: GroupPath)
    requires Renders(f, hier, Built(Keys(h, hier), run, |hier|), [], 0, true, out) && c in out && c.Subtotal?
    ensures |p| <= |hier| && Has(Built(Keys(h, hier), run, |hier|), p)
    ensures c.level == |p| && c.events == Members(Keys(h, hier), run, |hier|, p)
    ensures c.values == if p == [] then ["TOTAL"] else Formatted(f, hier[|p| - 1], p[|p| - 1].values)
  {
    var t := Built(Keys(h, hier), run, |hier|);
    CallsAreAbout(f, hier, t, [], 0, true, out, c);
    p :| 0 + |p| <= |hier| && About(f, hier, t, [], 0, true, c, p);
    TreeIsGroupBy(Keys(h, hier), run, |hier|, p);
  }

  // ----- no group is missing ------------------------------------------------------------------------

  /** The calls about a group that a report has to hold. */
  predicate Reported(f: FormatFn, hier: Hierarchy, t: Tree, values: seq<string>, level: nat, isRoot: bool,
                     out: seq<Call>, p: GroupPath)
    requires level + |p| <= |hier|
  {
    var g, shown, top := At(t, p), ShownAs(f, hier, values, level, p), isRoot && p == [];
    && (!top ==> BeginGroup(level + |p|, shown) in out && EndGroup(level + |p|, shown) in out)
    && (g.leaf.Some? ==> LeafSummary(shown, g.leaf.value) in out)
    && (g.kids != map[] || (top && g.leaf.None?) ==>
          Subtotal(level + |p|, if top then ["TOTAL"] else shown, g.subTotal) in out)
  }

  lemma {:induction false} PartIsIn(parts: seq<seq<Call>>, i: nat)
    requires i < |parts|
    ensures forall c | c in parts[i] :: c in Concat(parts)
  {
    if i < |parts| - 1 { PartIsIn(parts[..|parts| - 1], i); }
  }

  lemma BodyIsIn(t: Tree, values: seq<string>, level: nat, isRoot: bool, body: seq<Call>)
    ensures forall c | c in body :: c in Wrapped(t, values, level, isRoot, body)
  {
  }

  lemma NodeIsReported(f: FormatFn, hier: Hierarchy, t: Tree, values: seq<string>, level: nat, isRoot: bool,
                       body: seq<Call>)
    requires level <= |hier|
    ensures Reported(f, hier, t, values, level, isRoot, Wrapped(t, values, level, isRoot, body), [])
  {
  }

  lemma KidIsReported(f: FormatFn, hier: Hierarchy, t: Tree, values: seq<string>, level: nat, isRoot: bool,
                      part: seq<Call>, out: seq<Call>, k: GroupKey, p: GroupPath)
    requires level + 1 + |p| <= |hier| && k in t.kids && forall c | c in part :: c in out
    requires Reported(f, hier, t.kids[k], Formatted(f, hier[level], k.values), level + 1, false, part, p)
    ensures Reported(f, hier, t, values, level, isRoot, out, [k] + p)
  {
    var q := [k] + p;
    assert q[1..] == p && q[0] == k && KidOf(t, k) == t.kids[k];
  }

  /** A kid is rendered in some part of what is between a node's own calls. */
  lemma KidIsRendered(f: FormatFn, hier: Hierarchy, t: Tree, values: seq<string>, level: nat, isRoot: bool,
                      out: seq<Call>, order: seq<GroupKey>, parts: seq<seq<Call>>, k: GroupKey)
    returns (part: seq<Call>)
    requires level < |hier| && RendersInOrder(f, hier, t, values, level, isRoot, out, order, parts) && k in t.kids
    ensures Renders(f, hier, t.kids[k], Formatted(f, hier[level], k.values), level + 1, false, part)
    ensures forall c | c in part :: c in out
  {
    var i :| 0 <= i < |order| && order[i] == k;
    part := parts[i];
    PartIsIn(parts, i);
    BodyIsIn(t, values, level, isRoot, Concat(parts));
  }

  /** Every group of the tree is begun and ended, its leaf summary is shown, and so is its subtotal if it has
      subgroups. */
  lemma {:induction false} GroupsAreReported(f: FormatFn, hier: Hierarchy, t: Tree, values: seq<string>, level: nat,
                                             isRoot: bool, out: seq<Call>, p: GroupPath)
    requires level + |p| <= |hier| && Renders(f, hier, t, values, level, isRoot, out) && Has(t, p)
    ensures Reported(f, hier, t, values, level, isRoot, out, p)
    decreases |p|
  {
    if level == |hier| {
      NodeIsReported(f, hier, t, values, level, isRoot, []);
    } else {
      var order, parts := SomeOrder(f, hier, t, values, level, isRoot, out);
      if p == [] {
        NodeIsReported(f, hier, t, values, level, isRoot, Concat(parts));
      } else {
        var k := p[0];
        var part := KidIsRendered(f, hier, t, values, level, isRoot, out, order, parts, k);
        GroupsAreReported(f, hier, t.kids[k], Formatted(f, hier[level], k.values), level + 1, false, part, p[1..]);
        KidIsReported(f, hier, t, values, level, isRoot, part, out, k, p[1..]);
        assert [k] + p[1..] == p;
      }
    }
  }
}
