/** Rendering the grouping tree: every group is begun, its subgroups are rendered in order, and it is ended. */
module GroupRender {
  import opened Options
  import opened Extractor
  import opened GroupTree
  import opened GroupBy
  import opened GroupOrder

  /** `formatValue`, whatever text it makes of a value. */
  type FormatFn = (GroupAttribute, string) -> string

  /** The values of a group as they are shown. */
  function Formatted(f: FormatFn, attrs: seq<GroupAttribute>, values: seq<string>): (shown: seq<string>)
    ensures |values| == |attrs| ==> |shown| == |values|
  {
    seq(if |values| < |attrs| then |values| else |attrs|,
        i requires 0 <= i < |values| && i < |attrs| => f(attrs[i], values[i]))
  }

  /** The calls a formatter receives, with formatted values. */
  datatype Call =
    | BeginGroup(level: nat, values: seq<string>)
    | LeafSummary(values: seq<string>, events: seq<Context>)
    | Subtotal(level: nat, values: seq<string>, events: seq<Context>)
    | EndGroup(level: nat, values: seq<string>)

  function Concat(parts: seq<seq<Call>>): seq<Call> {
    if parts == [] then [] else Concat(parts[..|parts| - 1]) + parts[|parts| - 1]
  }

  /** What a node contributes around its children's calls. */
  function Wrapped(t: Tree, values: seq<string>, level: nat, isRoot: bool, body: seq<Call>): seq<Call> {
    (if isRoot then [] else [BeginGroup(level, values)])
    + body
    + Totals(t, values, level, isRoot)
    + (if isRoot then [] else [EndGroup(level, values)])
  }

  function Totals(t: Tree, values: seq<string>, level: nat, isRoot: bool): seq<Call> {
    (if t.leaf.Some? then [LeafSummary(values, t.leaf.value)] else [])
    + (if t.kids != map[] || (isRoot && t.leaf.None?) then
         [Subtotal(level, if isRoot then ["TOTAL"] else values, t.subTotal)]
       else [])
  }

  // ----- which trees can be rendered -------------------------------------------------------------------

  /** The tree is no deeper than the hierarchy and its groups have values that can be compared. */
  ghost predicate Sortable(t: Tree, hier: Hierarchy, level: nat)
    requires level <= |hier|
    decreases |hier| - level
  {
    if level == |hier| then t.kids == map[]
    else forall k | k in t.kids :: HoldableTuple(hier[level], k.values) && Sortable(t.kids[k], hier, level + 1)
  }

  lemma {:induction false} ProcessedIsSortable(h: HashFn, t: Tree, c: Context, hier: Hierarchy, level: nat, depth: nat)
    requires level <= |hier| && Sortable(t, hier, level)
    ensures Sortable(Processed(Keys(h, hier), t, c, |hier|, level, depth), hier, level)
    decreases |hier| - level
  {
    var keys := Keys(h, hier);
    ProcessedShape(keys, t, c, |hier|, level, depth);
    if level < |hier| && level < depth && keys(level, c).Some? {
      var k := keys(level, c).value;
      TuplesAreHoldable(hier[level], c);
      KidIsSortable(hier, t, level, k);
      ProcessedIsSortable(h, KidOf(t, k), c, hier, level + 1, depth);
      WithKidIsSortable(hier, t, Processed(keys, t, c, |hier|, level, depth), level, k,
                        Processed(keys, KidOf(t, k), c, |hier|, level + 1, depth));
    } else {
      SameKidsSortable(hier, t, Processed(keys, t, c, |hier|, level, depth), level);
    }
  }

  lemma ProcessedShape(keys: KeyFn, t: Tree, c: Context, bottom: nat, level: nat, depth: nat)
    ensures Processed(keys, t, c, bottom, level, depth).kids ==
            if level < bottom && level < depth && keys(level, c).Some? then
              var k := keys(level, c).value; t.kids[k := Processed(keys, KidOf(t, k), c, bottom, level + 1, depth)]
            else t.kids
  {
  }

  lemma SameKidsSortable(hier: Hierarchy, t: Tree, u: Tree, level: nat)
    requires level <= |hier| && Sortable(t, hier, level) && u.kids == t.kids
    ensures Sortable(u, hier, level)
  {
  }

  lemma KidIsSortable(hier: Hierarchy, t: Tree, level: nat, k: GroupKey)
    requires level < |hier| && Sortable(t, hier, level)
    ensures Sortable(KidOf(t, k), hier, level + 1)
  {
    EmptyIsSortable(hier, level + 1);
  }

  lemma WithKidIsSortable(hier: Hierarchy, t: Tree, u: Tree, level: nat, k: GroupKey, kid: Tree)
    requires level < |hier| && Sortable(t, hier, level) && HoldableTuple(hier[level], k.values)
             && Sortable(kid, hier, level + 1) && u.kids == t.kids[k := kid]
    ensures Sortable(u, hier, level)
  {
  }

  lemma EmptyIsSortable(hier: Hierarchy, level: nat)
    requires level <= |hier|
    ensures Sortable(EMPTY_TREE, hier, level)
  {
  }

  /** Every tree that a run builds can be rendered. */
  lemma {:induction false} BuiltIsSortable(h: HashFn, run: seq<Arrival>, hier: Hierarchy)
    ensures Sortable(Built(Keys(h, hier), run, |hier|), hier, 0)
  {
    if run == [] {
      EmptyIsSortable(hier, 0);
    } else {
      BuiltIsSortable(h, run[..|run| - 1], hier);
      ProcessedIsSortable(h, Built(Keys(h, hier), run[..|run| - 1], |hier|), run[|run| - 1].context, hier, 0,
                          run[|run| - 1].depth);
    }
  }

  // ----- what rendering may emit -----------------------------------------------------------------------

  predicate InOrder(attrs: seq<GroupAttribute>, a: seq<string>, b: seq<string>) {
    |a| == |b| && !TupleLess(attrs, b, a)
  }

  ghost predicate IsOrdering(attrs: seq<GroupAttribute>, order: seq<GroupKey>, kids: map<GroupKey, Tree>) {
    && (forall k :: k in kids <==> k in order)
    && (forall i, j | 0 <= i < j < |order| :: order[i] != order[j])
    && (forall i, j | 0 <= i < j < |order| :: InOrder(attrs, order[i].values, order[j].values))
  }

  /** The calls that rendering a node may make: some sorted order of its children, each rendered. */
  ghost predicate Renders(f: FormatFn, hier: Hierarchy, t: Tree, values: seq<string>, level: nat, isRoot: bool,
                          out: seq<Call>)
    requires level <= |hier|
    decreases |hier| - level, 1
  {
    if level == |hier| then out == Wrapped(t, values, level, isRoot, [])
    else exists order, parts :: RendersInOrder(f, hier, t, values, level, isRoot, out, order, parts)
  }

  ghost predicate RendersInOrder(f: FormatFn, hier: Hierarchy, t: Tree, values: seq<string>, level: nat, isRoot: bool,
                                 out: seq<Call>,
                                 order: seq<GroupKey>, parts: seq<seq<Call>>)
    requires level < |hier|
    decreases |hier| - level, 0
  {
    && |parts| == |order| && IsOrdering(hier[level], order, t.kids)
    && (forall i | 0 <= i < |order| ::
          Renders(f, hier, t.kids[order[i]], Formatted(f, hier[level], order[i].values), level + 1, false, parts[i]))
    && out == Wrapped(t, values, level, isRoot, Concat(parts))
  }

  // ----- the sort --------------------------------------------------------------------------------------

  lemma InOrderTransitive(attrs: seq<GroupAttribute>, a: seq<string>, b: seq<string>, c: seq<string>)
    requires HoldableTuple(attrs, a) && HoldableTuple(attrs, b) && HoldableTuple(attrs, c)
    requires InOrder(attrs, a, b) && InOrder(attrs, b, c)
    ensures InOrder(attrs, a, c)
  {
    if TupleLess(attrs, c, a) {
      TupleOrder(attrs, b, c);
      if b != c { TupleTransitive(attrs, b, c, a); }
    }
  }

  /** The entries' keys are different, and their values in order. */
  ghost predicate Ordered(attrs: seq<GroupAttribute>, entries: seq<Entry>) {
    && (forall i, j | 0 <= i < j < |entries| :: KeyOf(entries[i]) != KeyOf(entries[j]))
    && (forall i, j | 0 <= i < j < |entries| ::
          InOrder(attrs, entries[i].node.groupValues, entries[j].node.groupValues))
  }

  lemma BelowInserted(attrs: seq<GroupAttribute>, s: seq<Entry>, e: Entry, at: nat)
    requires Ordered(attrs, s) && at <= |s| && HoldableTuple(attrs, e.node.groupValues)
    requires forall x | x in s :: HoldableTuple(attrs, x.node.groupValues)
    requires at > 0 ==> InOrder(attrs, s[at - 1].node.groupValues, e.node.groupValues)
    ensures forall i | 0 <= i < at :: InOrder(attrs, s[i].node.groupValues, e.node.groupValues)
  {
    forall i | 0 <= i < at ensures InOrder(attrs, s[i].node.groupValues, e.node.groupValues) {
      if i < at - 1 { InOrderTransitive(attrs, s[i].node.groupValues, s[at - 1].node.groupValues, e.node.groupValues); }
    }
  }

  lemma AboveInserted(attrs: seq<GroupAttribute>, s: seq<Entry>, e: Entry, at: nat)
    requires Ordered(attrs, s) && at <= |s| && HoldableTuple(attrs, e.node.groupValues)
    requires forall x | x in s :: HoldableTuple(attrs, x.node.groupValues)
    requires at < |s| ==> InOrder(attrs, e.node.groupValues, s[at].node.groupValues)
    ensures forall i | at <= i < |s| :: InOrder(attrs, e.node.groupValues, s[i].node.groupValues)
  {
    forall i | at <= i < |s| ensures InOrder(attrs, e.node.groupValues, s[i].node.groupValues) {
      if at < i { InOrderTransitive(attrs, e.node.groupValues, s[at].node.groupValues, s[i].node.groupValues); }
    }
  }

  lemma InsertedIsOrdered(attrs: seq<GroupAttribute>, s: seq<Entry>, e: Entry, at: nat)
    requires Ordered(attrs, s) && at <= |s| && forall x | x in s :: KeyOf(x) != KeyOf(e)
    requires forall i | 0 <= i < at :: InOrder(attrs, s[i].node.groupValues, e.node.groupValues)
    requires forall i | at <= i < |s| :: InOrder(attrs, e.node.groupValues, s[i].node.groupValues)
    ensures Ordered(attrs, s[..at] + [e] + s[at..])
  {
    var r := s[..at] + [e] + s[at..];
    forall i, j | 0 <= i < j < |r|
      ensures KeyOf(r[i]) != KeyOf(r[j]) && InOrder(attrs, r[i].node.groupValues, r[j].node.groupValues)
    {
      if i != at && j != at { assert r[i] == s[if i < at then i else i - 1] && r[j] == s[if j < at then j else j - 1]; }
    }
  }

  lemma InsertedBetween(attrs: seq<GroupAttribute>, s: seq<Entry>, e: Entry, at: nat)
    requires Ordered(attrs, s) && at <= |s| && HoldableTuple(attrs, e.node.groupValues)
    requires forall x | x in s :: HoldableTuple(attrs, x.node.groupValues) && KeyOf(x) != KeyOf(e)
    requires at > 0 ==> InOrder(attrs, s[at - 1].node.groupValues, e.node.groupValues)
    requires at < |s| ==> InOrder(attrs, e.node.groupValues, s[at].node.groupValues)
    ensures Ordered(attrs, s[..at] + [e] + s[at..])
  {
    BelowInserted(attrs, s, e, at);
    AboveInserted(attrs, s, e, at);
    InsertedIsOrdered(attrs, s, e, at);
  }

  lemma InsertedIsThere(s: seq<Entry>, e: Entry, at: nat)
    requires at <= |s|
    ensures forall x :: x in s[..at] + [e] + s[at..] <==> x in s || x == e
  {
    assert s == s[..at] + s[at..];
  }

  method Insert(attrs: seq<GroupAttribute>, s: seq<Entry>, e: Entry) returns (r: seq<Entry>)
    requires Ordered(attrs, s) && HoldableTuple(attrs, e.node.groupValues)
    requires forall x | x in s :: HoldableTuple(attrs, x.node.groupValues) && KeyOf(x) != KeyOf(e)
    ensures Ordered(attrs, r)
    ensures forall x :: x in r <==> x in s || x == e
  {
    var at := |s|;
    while at > 0
      invariant 0 <= at <= |s|
      invariant at < |s| ==> InOrder(attrs, e.node.groupValues, s[at].node.groupValues)
    {
      var less := Before(attrs, e.node.groupValues, s[at - 1].node.groupValues);
      if !less { break; }
      TupleOrder(attrs, e.node.groupValues, s[at - 1].node.groupValues);
      at := at - 1;
    }
    InsertedBetween(attrs, s, e, at);
    InsertedIsThere(s, e, at);
    r := s[..at] + [e] + s[at..];
  }

  /** The sort of the children; any sort that keeps its promise would do. */
  method SortEntries(attrs: seq<GroupAttribute>, entries: seq<Entry>) returns (sorted: seq<Entry>)
    requires forall e | e in entries :: HoldableTuple(attrs, e.node.groupValues)
    requires forall i, j | 0 <= i < j < |entries| :: KeyOf(entries[i]) != KeyOf(entries[j])
    ensures Ordered(attrs, sorted) && forall e :: e in sorted <==> e in entries
  {
    sorted := [];
    for n := 0 to |entries|
      invariant Ordered(attrs, sorted) && forall e :: e in sorted <==> e in entries[..n]
    {
      sorted := Insert(attrs, sorted, entries[n]);
      assert entries[..n + 1] == entries[..n] + [entries[n]];
    }
    assert entries[..|entries|] == entries;
  }

  // ----- rendering -------------------------------------------------------------------------------------

  lemma EntryIsKid(node: GroupNode, e: Entry)
    requires node.Valid() && e in node.children
    ensures e.node.Valid() && KeyOf(e) in node.view.kids && e.node.view == node.view.kids[KeyOf(e)]
  {
    var i :| 0 <= i < |node.children| && node.children[i] == e;
    assert node.slot[KeyOf(e)] == i;
  }

  lemma KidIsEntry(node: GroupNode, k: GroupKey) returns (e: Entry)
    requires node.Valid() && k in node.view.kids
    ensures e in node.children && KeyOf(e) == k
  {
    e := node.children[node.slot[k]];
  }

  lemma DifferentKeys(node: GroupNode)
    requires node.Valid()
    ensures forall i, j | 0 <= i < j < |node.children| :: KeyOf(node.children[i]) != KeyOf(node.children[j])
  {
    forall i, j | 0 <= i < j < |node.children| ensures KeyOf(node.children[i]) != KeyOf(node.children[j]) {
      assert node.slot[KeyOf(node.children[i])] == i && node.slot[KeyOf(node.children[j])] == j;
    }
  }

  function KeysOf(entries: seq<Entry>): (order: seq<GroupKey>)
    ensures |order| == |entries| && forall i | 0 <= i < |order| :: order[i] == KeyOf(entries[i])
  {
    seq(|entries|, i requires 0 <= i < |entries| => KeyOf(entries[i]))
  }

  lemma SortedIsOrdering(node: GroupNode, attrs: seq<GroupAttribute>, sorted: seq<Entry>)
    requires node.Valid() && Ordered(attrs, sorted) && forall e :: e in sorted <==> e in node.children
    ensures IsOrdering(attrs, KeysOf(sorted), node.view.kids)
  {
    var order := KeysOf(sorted);
    forall k ensures k in node.view.kids <==> k in order {
      if k in node.view.kids {
        var e := KidIsEntry(node, k);
        var i :| 0 <= i < |sorted| && sorted[i] == e;
        assert order[i] == k;
      }
      if k in order {
        var i :| 0 <= i < |order| && order[i] == k;
        EntryIsKid(node, sorted[i]);
      }
    }
  }

  lemma ChildrenOrNone(node: GroupNode)
    requires node.Valid()
    ensures node.children == [] <==> node.view.kids == map[]
  {
    if node.children != [] { EntryIsKid(node, node.children[0]); }
    if node.view.kids != map[] {
      var k :| k in node.view.kids;
      var e := KidIsEntry(node, k);
    }
  }

  method RenderTotals(node: GroupNode, values: seq<string>, level: nat, isRoot: bool) returns (totals: seq<Call>)
    requires node.Valid()
    ensures totals == Totals(node.view, values, level, isRoot)
  {
    ChildrenOrNone(node);
    totals := [];
    if node.leafSummary.Some? { totals := [LeafSummary(values, node.leafSummary.value)]; }
    if node.children != [] || (isRoot && node.leafSummary.None?) {
      totals := totals + [Subtotal(level, if isRoot then ["TOTAL"] else values, node.subTotal)];
    }
  }

  /** The calls around the children's. */
  method Wrap(node: GroupNode, values: seq<string>, level: nat, isRoot: bool, body: seq<Call>) returns (out: seq<Call>)
    requires node.Valid()
    ensures out == Wrapped(node.view, values, level, isRoot, body)
  {
    var totals := RenderTotals(node, values, level, isRoot);
    out := if isRoot then body + totals else [BeginGroup(level, values)] + body + totals + [EndGroup(level, values)];
  }

  /** The children, sorted. */
  method SortChildren(node: GroupNode, attrs: seq<GroupAttribute>) returns (sorted: seq<Entry>)
    requires node.Valid() && forall k | k in node.view.kids :: HoldableTuple(attrs, k.values)
    ensures IsOrdering(attrs, KeysOf(sorted), node.view.kids)
    ensures forall e | e in sorted :: IsChild(node.view.kids, e)
  {
    forall e | e in node.children ensures HoldableTuple(attrs, e.node.groupValues) && IsChild(node.view.kids, e) {
      EntryIsKid(node, e);
    }
    DifferentKeys(node);
    sorted := SortEntries(attrs, node.children);
    SortedIsOrdering(node, attrs, sorted);
  }

  ghost predicate IsChild(kids: map<GroupKey, Tree>, e: Entry)
    reads e.node, e.node.Repr
  {
    e.node.Valid() && KeyOf(e) in kids && e.node.view == kids[KeyOf(e)]
  }

  lemma ConcatOneMore(parts: seq<seq<Call>>, part: seq<Call>)
    ensures Concat(parts + [part]) == Concat(parts) + part
  {
    assert (parts + [part])[..|parts|] == parts;
  }

  /** The visits to the sorted children. */
  method RenderChildren(sorted: seq<Entry>, f: FormatFn, hier: Hierarchy, shown: seq<string>, level: nat)
    returns (body: seq<Call>, ghost parts: seq<seq<Call>>)
    requires level < |hier| && forall e | e in sorted :: e.node.Valid() && Sortable(e.node.view, hier, level + 1)
    ensures |parts| == |sorted| && body == Concat(parts)
    ensures forall i | 0 <= i < |sorted| ::
              Renders(f, hier, sorted[i].node.view, Formatted(f, hier[level], sorted[i].node.groupValues), level + 1,
                      false, parts[i])
    decreases |hier| - level, 0
  {
    body, parts := [], [];
    for i := 0 to |sorted|
      invariant |parts| == i && body == Concat(parts)
      invariant forall j | 0 <= j < i ::
                  Renders(f, hier, sorted[j].node.view, Formatted(f, hier[level], sorted[j].node.groupValues),
                          level + 1, false, parts[j])
    {
      var node := sorted[i].node;
      assert node.Valid() && Sortable(node.view, hier, level + 1);
      var part := Render(node, f, hier, shown, level + 1, false);
      ConcatOneMore(parts, part);
      body, parts := body + part, parts + [part];
    }
  }

  lemma RenderedInOrder(f: FormatFn, hier: Hierarchy, t: Tree, values: seq<string>, level: nat, isRoot: bool,
                        sorted: seq<Entry>, parts: seq<seq<Call>>)
    requires level < |hier| && |parts| == |sorted| && IsOrdering(hier[level], KeysOf(sorted), t.kids)
    requires forall e | e in sorted :: IsChild(t.kids, e)
    requires forall i | 0 <= i < |sorted| ::
               Renders(f, hier, sorted[i].node.view, Formatted(f, hier[level], sorted[i].node.groupValues), level + 1,
                       false, parts[i])
    ensures Renders(f, hier, t, values, level, isRoot, Wrapped(t, values, level, isRoot, Concat(parts)))
  {
    var order := KeysOf(sorted);
    forall i | 0 <= i < |order|
      ensures Renders(f, hier, t.kids[order[i]], Formatted(f, hier[level], order[i].values), level + 1, false, parts[i])
    {
      assert sorted[i] in sorted;
    }
    assert RendersInOrder(f, hier, t, values, level, isRoot, Wrapped(t, values, level, isRoot, Concat(parts)), order,
                          parts);
  }

  method RenderBody(node: GroupNode, f: FormatFn, hier: Hierarchy, values: seq<string>, level: nat, isRoot: bool)
    returns (body: seq<Call>)
    requires node.Valid() && level < |hier| && Sortable(node.view, hier, level)
    ensures Renders(f, hier, node.view, values, level, isRoot, Wrapped(node.view, values, level, isRoot, body))
    decreases |hier| - level, 1
  {
    var sorted := SortChildren(node, hier[level]);
    ghost var parts;
    body, parts := RenderChildren(sorted, f, hier, values, level);
    RenderedInOrder(f, hier, node.view, values, level, isRoot, sorted, parts);
  }

  /** The loop over the values. */
  method FormatValues(f: FormatFn, attrs: seq<GroupAttribute>, values: seq<string>) returns (shown: seq<string>)
    ensures shown == Formatted(f, attrs, values)
  {
    shown := [];
    var i := 0;
    while i < |values| && i < |attrs|
      invariant i <= |values| && i <= |attrs| && |shown| == i
      invariant forall j | 0 <= j < i :: shown[j] == f(attrs[j], values[j])
    {
      shown := shown + [f(attrs[i], values[i])];
      i := i + 1;
    }
  }

  /** What a node shows: its own values, and the root the given ones. */
  function ShownValues(f: FormatFn, hier: Hierarchy, values: seq<string>, parentValues: seq<string>, level: nat,
                       isRoot: bool): seq<string>
    requires level <= |hier| && (isRoot || level > 0)
  {
    if isRoot then parentValues else Formatted(f, hier[level - 1], values)
  }

  /** `render`, once the node's values are formatted. */
  method RenderShown(node: GroupNode, f: FormatFn, hier: Hierarchy, shown: seq<string>, level: nat, isRoot: bool)
    returns (out: seq<Call>)
    requires node.Valid() && level <= |hier| && Sortable(node.view, hier, level)
    ensures Renders(f, hier, node.view, shown, level, isRoot, out)
    decreases |hier| - level, 2
  {
    var body := [];
    if level < |hier| { body := RenderBody(node, f, hier, shown, level, isRoot); }
    out := Wrap(node, shown, level, isRoot, body);
  }

  /** `render` */
  method Render(node: GroupNode, f: FormatFn, hier: Hierarchy, parentValues: seq<string>, level: nat, isRoot: bool)
    returns (out: seq<Call>)
    requires node.Valid() && level <= |hier| && Sortable(node.view, hier, level) && (isRoot || level > 0)
    ensures Renders(f, hier, node.view, ShownValues(f, hier, node.groupValues, parentValues, level, isRoot), level,
                    isRoot, out)
    decreases |hier| - level, 3
  {
    if isRoot {
      out := RenderShown(node, f, hier, parentValues, level, isRoot);
    } else {
      var shown := FormatValues(f, hier[level - 1], node.groupValues);
      out := RenderShown(node, f, hier, shown, level, isRoot);
    }
  }

  // ----- the output does not depend on the order of the multimap ---------------------------------------

  /** No group anywhere in the tree is split. */
  ghost predicate Unsplit(t: Tree, height: nat)
    decreases height
  {
    !Split(t.kids) && (height > 0 ==> forall k | k in t.kids :: Unsplit(t.kids[k], height - 1))
  }

  lemma StrictlyOrdered(attrs: seq<GroupAttribute>, order: seq<GroupKey>, kids: map<GroupKey, Tree>, i: nat, j: nat)
    requires IsOrdering(attrs, order, kids) && !Split(kids) && i < j < |order|
    requires forall k | k in kids :: HoldableTuple(attrs, k.values)
    ensures TupleLess(attrs, order[i].values, order[j].values)
  {
    assert order[i] in kids && order[j] in kids;
    TupleOrder(attrs, order[i].values, order[j].values);
  }

  /** There is only one sorted order. */
  lemma {:induction false} OneOrdering(attrs: seq<GroupAttribute>, a: seq<GroupKey>, b: seq<GroupKey>,
                                       kids: map<GroupKey, Tree>)
    requires IsOrdering(attrs, a, kids) && IsOrdering(attrs, b, kids) && !Split(kids)
    requires forall k | k in kids :: HoldableTuple(attrs, k.values)
    ensures a == b
    decreases |a|
  {
    if a == [] {
      if b != [] { SameFirst(attrs, b, a, kids); }
    } else {
      SameFirst(attrs, a, b, kids);
      TailOrdering(attrs, a, kids);
      TailOrdering(attrs, b, kids);
      OneOrdering(attrs, a[1..], b[1..], kids - {a[0]});
      assert a == [a[0]] + a[1..] && b == [b[0]] + b[1..];
    }
  }

  lemma SameFirst(attrs: seq<GroupAttribute>, a: seq<GroupKey>, b: seq<GroupKey>, kids: map<GroupKey, Tree>)
    requires IsOrdering(attrs, a, kids) && IsOrdering(attrs, b, kids) && !Split(kids) && a != []
    requires forall k | k in kids :: HoldableTuple(attrs, k.values)
    ensures b != [] && a[0] == b[0]
  {
    assert a[0] in kids;
    var i :| 0 <= i < |b| && b[i] == a[0];
    assert b[0] in kids;
    var j :| 0 <= j < |a| && a[j] == b[0];
    if i > 0 && j > 0 {
      StrictlyOrdered(attrs, a, kids, 0, j);
      StrictlyOrdered(attrs, b, kids, 0, i);
      TupleOrder(attrs, a[0].values, b[0].values);
    }
  }

  lemma TailOrdering(attrs: seq<GroupAttribute>, a: seq<GroupKey>, kids: map<GroupKey, Tree>)
    requires IsOrdering(attrs, a, kids) && a != []
    ensures IsOrdering(attrs, a[1..], kids - {a[0]})
  {
    forall k ensures k in kids - {a[0]} <==> k in a[1..] {
      if k in kids && k != a[0] {
        var i :| 0 <= i < |a| && a[i] == k;
        assert a[1..][i - 1] == k;
      }
      if k in a[1..] {
        var i :| 0 <= i < |a[1..]| && a[1..][i] == k;
        assert a[i + 1] == k;
      }
    }
  }

  lemma BelowIsFine(hier: Hierarchy, t: Tree, level: nat)
    requires level < |hier| && Sortable(t, hier, level) && Unsplit(t, |hier| - level)
    ensures forall k | k in t.kids :: Sortable(t.kids[k], hier, level + 1) && Unsplit(t.kids[k], |hier| - (level + 1))
  {
  }

  lemma {:induction false} OneSetOfParts(f: FormatFn, hier: Hierarchy, kids: map<GroupKey, Tree>, order: seq<GroupKey>,
                                         level: nat,
                                         p: seq<seq<Call>>, q: seq<seq<Call>>)
    requires 0 < level <= |hier| && |p| == |q| == |order|
    requires forall k | k in order :: k in kids && Sortable(kids[k], hier, level) && Unsplit(kids[k], |hier| - level)
    requires forall i | 0 <= i < |order| ::
               Renders(f, hier, kids[order[i]], Formatted(f, hier[level - 1], order[i].values), level, false, p[i])
    requires forall i | 0 <= i < |order| ::
               Renders(f, hier, kids[order[i]], Formatted(f, hier[level - 1], order[i].values), level, false, q[i])
    ensures p == q
    decreases |hier| - level, 2
  {
    forall i | 0 <= i < |order| ensures p[i] == q[i] {
      assert order[i] in order;
      OneRendering(f, hier, kids[order[i]], Formatted(f, hier[level - 1], order[i].values), level, false, p[i], q[i]);
    }
  }

  lemma {:induction false} OneInOrder(f: FormatFn, hier: Hierarchy, t: Tree, values: seq<string>, level: nat,
                                      isRoot: bool,
                                      x: seq<Call>, a: seq<GroupKey>, p: seq<seq<Call>>,
                                      y: seq<Call>, b: seq<GroupKey>, q: seq<seq<Call>>)
    requires level < |hier| && Sortable(t, hier, level) && Unsplit(t, |hier| - level)
    requires RendersInOrder(f, hier, t, values, level, isRoot, x, a, p)
             && RendersInOrder(f, hier, t, values, level, isRoot, y, b, q)
    ensures x == y
    decreases |hier| - level, 0
  {
    OneOrdering(hier[level], a, b, t.kids);
    BelowIsFine(hier, t, level);
    OneSetOfParts(f, hier, t.kids, a, level + 1, p, q);
  }

  /** The rendering of a tree without split groups is determined by the tree. */
  lemma {:induction false} OneRendering(f: FormatFn, hier: Hierarchy, t: Tree, values: seq<string>, level: nat,
                                        isRoot: bool, x: seq<Call>, y: seq<Call>)
    requires level <= |hier| && Sortable(t, hier, level) && Unsplit(t, |hier| - level)
    requires Renders(f, hier, t, values, level, isRoot, x) && Renders(f, hier, t, values, level, isRoot, y)
    ensures x == y
    decreases |hier| - level, 1
  {
    if level < |hier| {
      var a: seq<GroupKey>, p: seq<seq<Call>> :| RendersInOrder(f, hier, t, values, level, isRoot, x, a, p);
      var b: seq<GroupKey>, q: seq<seq<Call>> :| RendersInOrder(f, hier, t, values, level, isRoot, y, b, q);
      OneInOrder(f, hier, t, values, level, isRoot, x, a, p, y, b, q);
    }
  }

  // ----- the groups are properly nested, and each is begun once ----------------------------------------

  type Stack = seq<seq<string>>

  /** The call fits the groups that are open, outermost first. */
  predicate Fits(c: Call, open: Stack) {
    match c
    case BeginGroup(level, _) => level == |open| + 1
    case LeafSummary(values, _) => values == if open == [] then [] else open[|open| - 1]
    case Subtotal(level, values, _) => level == |open| && values == if open == [] then ["TOTAL"] else open[|open| - 1]
    case EndGroup(level, values) => open != [] && level == |open| && values == open[|open| - 1]
  }

  function Opened(c: Call, open: Stack): Stack
    requires Fits(c, open)
  {
    match c
    case BeginGroup(_, values) => open + [values]
    case EndGroup(_, _) => open[..|open| - 1]
    case _ => open
  }

  /** The groups open after some calls, if every call fits. */
  function Nest(calls: seq<Call>, open: Stack): Option<Stack> {
    if calls == [] then Some(open)
    else if !Fits(calls[0], open) then None
    else Nest(calls[1..], Opened(calls[0], open))
  }

  /** How often a group is begun. */
  function Begun(calls: seq<Call>, open: Stack, path: Stack): nat {
    if calls == [] || !Fits(calls[0], open) then 0
    else
      (if calls[0].BeginGroup? && open + [calls[0].values] == path then 1 else 0)
      + Begun(calls[1..], Opened(calls[0], open), path)
  }

  lemma {:induction false} NestConcat(a: seq<Call>, b: seq<Call>, open: Stack)
    requires Nest(a, open).Some?
    ensures Nest(a + b, open) == Nest(b, Nest(a, open).value)
    ensures forall path :: Begun(a + b, open, path) == Begun(a, open, path) + Begun(b, Nest(a, open).value, path)
  {
    if a == [] {
      assert a + b == b;
    } else {
      assert (a + b)[1..] == a[1..] + b;
      NestConcat(a[1..], b, Opened(a[0], open));
    }
  }

  /** The groups below a node that are shown under a path of values, as paths of keys. */
  ghost function GroupsShown(f: FormatFn, hier: Hierarchy, t: Tree, level: nat, path: Stack): set<GroupPath>
    decreases |path|, 1
  {
    if path == [] then {[]} else GroupsAmong(f, hier, t.kids, level, path)
  }

  ghost function GroupsAmong(f: FormatFn, hier: Hierarchy, kids: map<GroupKey, Tree>, level: nat,
                             path: Stack): set<GroupPath>
    requires path != []
    decreases |path|, 0
  {
    set k, p | k in kids && level < |hier| && Formatted(f, hier[level], k.values) == path[0]
               && p in GroupsShown(f, hier, kids[k], level + 1, path[1..]) :: [k] + p
  }

  /** The values that the groups on a path are shown with. */
  function ValuesShown(f: FormatFn, hier: Hierarchy, p: GroupPath, level: nat): Stack
    requires level + |p| <= |hier|
  {
    if p == [] then [] else [Formatted(f, hier[level], p[0].values)] + ValuesShown(f, hier, p[1..], level + 1)
  }

  /** They are exactly the groups of the tree with those values. */
  lemma {:induction false} GroupsShownAre(f: FormatFn, hier: Hierarchy, t: Tree, level: nat, path: Stack, p: GroupPath)
    requires level <= |hier| && Sortable(t, hier, level)
    ensures p in GroupsShown(f, hier, t, level, path) <==>
            Has(t, p) && level + |p| <= |hier| && ValuesShown(f, hier, p, level) == path
    decreases |path|
  {
    if path == [] {
      if p != [] && level + |p| <= |hier| { assert ValuesShown(f, hier, p, level) != []; }
    } else if p == [] {
    } else {
      assert p == [p[0]] + p[1..];
      if level < |hier| && p[0] in t.kids {
        GroupsShownAre(f, hier, t.kids[p[0]], level + 1, path[1..], p[1..]);
        if level + |p| <= |hier| {
          assert ValuesShown(f, hier, p, level)[0] == Formatted(f, hier[level], p[0].values);
          assert ValuesShown(f, hier, p, level)[1..] == ValuesShown(f, hier, p[1..], level + 1);
          assert path == [path[0]] + path[1..];
        }
      }
      forall k, q | k in t.kids && [k] + q == p ensures k == p[0] && q == p[1..] {
        assert ([k] + q)[0] == k && ([k] + q)[1..] == q;
      }
    }
  }

  /** How often the calls for a node, at `here`, should begin the groups shown under a path. */
  ghost function Expected(f: FormatFn, hier: Hierarchy, t: Tree, here: Stack, path: Stack): nat {
    if here <= path then |GroupsShown(f, hier, t, |here|, path[|here|..])| else 0
  }

  ghost function ExpectedOf(f: FormatFn, hier: Hierarchy, kids: map<GroupKey, Tree>, order: seq<GroupKey>, open: Stack,
                            path: Stack): nat
    requires |open| < |hier| && forall k | k in order :: k in kids
  {
    if order == [] then 0
    else
      var last := order[|order| - 1];
      ExpectedOf(f, hier, kids, order[..|order| - 1], open, path)
      + Expected(f, hier, kids[last], open + [Formatted(f, hier[|open|], last.values)], path)
  }

  ghost predicate Balanced(f: FormatFn, hier: Hierarchy, t: Tree, values: seq<string>, open: Stack, out: seq<Call>) {
    && Nest(out, open) == Some(open)
    && forall path :: Begun(out, open, path) == Expected(f, hier, t, open + [values], path)
  }

  lemma {:induction false} PartsAreBalanced(f: FormatFn, hier: Hierarchy, kids: map<GroupKey, Tree>,
                                            order: seq<GroupKey>,
                                            parts: seq<seq<Call>>, open: Stack)
    requires |open| < |hier| && |parts| == |order| && forall k | k in order :: k in kids
    requires forall i | 0 <= i < |order| ::
               Balanced(f, hier, kids[order[i]], Formatted(f, hier[|open|], order[i].values), open, parts[i])
    ensures Nest(Concat(parts), open) == Some(open)
    ensures forall path :: Begun(Concat(parts), open, path) == ExpectedOf(f, hier, kids, order, open, path)
  {
    if parts != [] {
      var n := |parts| - 1;
      PartsAreBalanced(f, hier, kids, order[..n], parts[..n], open);
      NestConcat(Concat(parts[..n]), parts[n], open);
    }
  }

  lemma OneLonger(open: Stack, values: seq<string>, path: Stack)
    ensures open + [values] <= path <==> |open| < |path| && open == path[..|open|] && values == path[|open|]
  {
    if open + [values] <= path {
      assert (open + [values])[|open|] == path[|open|];
      assert (open + [values])[..|open|] == open;
    }
  }

  /** Putting a key in front of different paths makes different paths. */
  lemma {:induction false} SameNumberBelow(k: GroupKey, below: set<GroupPath>)
    ensures |set p | p in below :: [k] + p| == |below|
  {
    var above := set p | p in below :: [k] + p;
    if below == {} {
      assert above == {};
    } else {
      var q :| q in below;
      SameNumberBelow(k, below - {q});
      var rest := set p | p in below - {q} :: [k] + p;
      forall p | p in below - {q} ensures [k] + p != [k] + q {
        assert ([k] + p)[1..] == p && ([k] + q)[1..] == q;
      }
      assert above == rest + {[k] + q};
    }
  }

  /** The groups shown under a path, in one child. */
  ghost function InChild(f: FormatFn, hier: Hierarchy, kids: map<GroupKey, Tree>, k: GroupKey, level: nat,
                         path: Stack): set<GroupPath>
    requires k in kids && level < |hier| && path != []
  {
    if Formatted(f, hier[level], k.values) == path[0] then GroupsShown(f, hier, kids[k], level + 1, path[1..]) else {}
  }

  lemma AmongSplits(f: FormatFn, hier: Hierarchy, kids: map<GroupKey, Tree>, k: GroupKey, level: nat, path: Stack)
    requires k in kids && level < |hier| && path != []
    ensures GroupsAmong(f, hier, kids, level, path) ==
            GroupsAmong(f, hier, kids - {k}, level, path)
            + set p | p in InChild(f, hier, kids, k, level, path) :: [k] + p
  {
  }

  lemma AmongStartElsewhere(f: FormatFn, hier: Hierarchy, kids: map<GroupKey, Tree>, k: GroupKey, level: nat,
                            path: Stack, p: GroupPath)
    requires path != [] && p in GroupsAmong(f, hier, kids - {k}, level, path)
    ensures p != [] && p[0] != k
  {
  }

  /** One child's share of the groups shown under a path. */
  lemma AmongWithout(f: FormatFn, hier: Hierarchy, kids: map<GroupKey, Tree>, k: GroupKey, level: nat, path: Stack)
    requires k in kids && level < |hier| && path != []
    ensures |GroupsAmong(f, hier, kids, level, path)| ==
            |GroupsAmong(f, hier, kids - {k}, level, path)| + |InChild(f, hier, kids, k, level, path)|
  {
    var rest := GroupsAmong(f, hier, kids - {k}, level, path);
    var own := set p | p in InChild(f, hier, kids, k, level, path) :: [k] + p;
    SameNumberBelow(k, InChild(f, hier, kids, k, level, path));
    AmongSplits(f, hier, kids, k, level, path);
    forall p | p in rest ensures p !in own {
      AmongStartElsewhere(f, hier, kids, k, level, path, p);
    }
    assert rest !! own;
  }

  lemma {:induction false} ExpectedWithout(f: FormatFn, hier: Hierarchy, kids: map<GroupKey, Tree>,
                                           order: seq<GroupKey>, k: GroupKey,
                                           open: Stack, path: Stack)
    requires |open| < |hier| && k !in order && forall x | x in order :: x in kids
    ensures ExpectedOf(f, hier, kids, order, open, path) == ExpectedOf(f, hier, kids - {k}, order, open, path)
  {
    if order != [] { ExpectedWithout(f, hier, kids, order[..|order| - 1], k, open, path); }
  }

  /** The children together begin as many groups as are shown among them. */
  lemma {:induction false} ExpectedIsSum(f: FormatFn, hier: Hierarchy, kids: map<GroupKey, Tree>, order: seq<GroupKey>,
                                         open: Stack, path: Stack)
    requires |open| < |hier| && forall k :: k in order <==> k in kids
    requires forall i, j | 0 <= i < j < |order| :: order[i] != order[j]
    ensures ExpectedOf(f, hier, kids, order, open, path) ==
            if |open| < |path| && open == path[..|open|] then |GroupsAmong(f, hier, kids, |open|, path[|open|..])|
            else 0
  {
    var below := path[if |open| < |path| then |open| else |path|..];
    if order == [] {
      if |open| < |path| { assert GroupsAmong(f, hier, kids, |open|, below) == {}; }
    } else {
      var n := |order| - 1;
      var last := order[n];
      var shown := Formatted(f, hier[|open|], last.values);
      LastIsApart(kids, order);
      ExpectedWithout(f, hier, kids, order[..n], last, open, path);
      ExpectedIsSum(f, hier, kids - {last}, order[..n], open, path);
      OneLonger(open, shown, path);
      if |open| < |path| {
        AmongWithout(f, hier, kids, last, |open|, below);
        assert below[1..] == path[|open| + 1..] && |open + [shown]| == |open| + 1;
      }
    }
  }

  lemma LastIsApart(kids: map<GroupKey, Tree>, order: seq<GroupKey>)
    requires order != [] && (forall k :: k in order <==> k in kids)
             && forall i, j | 0 <= i < j < |order| :: order[i] != order[j]
    ensures var n := |order| - 1;
            order[n] !in order[..n] && order[n] in kids && forall k :: k in order[..n] <==> k in kids - {order[n]}
  {
    assert order == order[..|order| - 1] + [order[|order| - 1]];
  }

  lemma OneCall(c: Call, open: Stack)
    requires Fits(c, open)
    ensures Nest([c], open) == Some(Opened(c, open))
    ensures forall path :: Begun([c], open, path) == if c.BeginGroup? && open + [c.values] == path then 1 else 0
  {
    assert [c][1..] == [];
  }

  lemma TotalsAreBalanced(t: Tree, values: seq<string>, open: Stack, isRoot: bool)
    requires isRoot ==> open == [] && values == []
    requires !isRoot ==> open != [] && values == open[|open| - 1]
    ensures var out := Totals(t, values, |open|, isRoot);
            Nest(out, open) == Some(open) && forall path :: Begun(out, open, path) == 0
  {
    var leaf := if t.leaf.Some? then [LeafSummary(values, t.leaf.value)] else [];
    var total := if t.kids != map[] || (isRoot && t.leaf.None?) then
      [Subtotal(|open|, if isRoot then ["TOTAL"] else values, t.subTotal)] else [];
    if t.leaf.Some? { OneCall(leaf[0], open); }
    if total != [] { OneCall(total[0], open); }
    NestConcat(leaf, total, open);
  }

  /** What the body of a node's calls has to be for the node's to be balanced. */
  ghost predicate BalancedBody(f: FormatFn, hier: Hierarchy, t: Tree, open: Stack, body: seq<Call>) {
    && Nest(body, open) == Some(open)
    && forall path :: Begun(body, open, path) == if |open| < |path| then Expected(f, hier, t, open, path) else 0
  }

  lemma WrappedIsBalanced(f: FormatFn, hier: Hierarchy, t: Tree, values: seq<string>, open: Stack, body: seq<Call>)
    requires BalancedBody(f, hier, t, open + [values], body)
    ensures Balanced(f, hier, t, values, open, Wrapped(t, values, |open| + 1, false, body))
  {
    var inner := open + [values];
    var totals := Totals(t, values, |inner|, false);
    var begin, end := [BeginGroup(|inner|, values)], [EndGroup(|inner|, values)];
    TotalsAreBalanced(t, values, inner, false);
    assert inner[..|open|] == open;
    OneCall(begin[0], open);
    OneCall(end[0], inner);
    NestConcat(begin, body, open);
    NestConcat(begin + body, totals, open);
    NestConcat(begin + body + totals, end, open);
    forall path
      ensures Begun(Wrapped(t, values, |inner|, false, body), open, path) == Expected(f, hier, t, inner, path)
    {
      if inner <= path && |inner| == |path| { assert inner == path; assert path[|inner|..] == []; }
    }
  }

  lemma ChildrenAreBalancedBody(f: FormatFn, hier: Hierarchy, t: Tree, order: seq<GroupKey>, parts: seq<seq<Call>>,
                                open: Stack)
    requires |open| < |hier| && |parts| == |order|
    requires (forall k :: k in order <==> k in t.kids) && forall i, j | 0 <= i < j < |order| :: order[i] != order[j]
    requires forall i | 0 <= i < |order| ::
               Balanced(f, hier, t.kids[order[i]], Formatted(f, hier[|open|], order[i].values), open, parts[i])
    ensures BalancedBody(f, hier, t, open, Concat(parts))
  {
    PartsAreBalanced(f, hier, t.kids, order, parts, open);
    forall path
      ensures ExpectedOf(f, hier, t.kids, order, open, path) ==
              if |open| < |path| then Expected(f, hier, t, open, path) else 0
    {
      ExpectedIsSum(f, hier, t.kids, order, open, path);
      if |open| < |path| { assert open == path[..|open|] <==> open <= path; }
    }
  }

  lemma {:induction false} BodyIsBalanced(f: FormatFn, hier: Hierarchy, t: Tree, values: seq<string>, level: nat,
                                          isRoot: bool,
                                          open: Stack, out: seq<Call>)
    returns (body: seq<Call>)
    requires level <= |hier| && Sortable(t, hier, level) && |open| == level
             && Renders(f, hier, t, values, level, isRoot, out)
    ensures out == Wrapped(t, values, level, isRoot, body) && BalancedBody(f, hier, t, open, body)
    decreases |hier| - level, 0
  {
    if level == |hier| {
      body := [];
      forall path | |open| < |path| && open <= path ensures GroupsShown(f, hier, t, level, path[|open|..]) == {} {
      }
    } else {
      var order: seq<GroupKey>, parts: seq<seq<Call>> :|
        RendersInOrder(f, hier, t, values, level, isRoot, out, order, parts);
      body := Concat(parts);
      forall i | 0 <= i < |order|
        ensures Balanced(f, hier, t.kids[order[i]], Formatted(f, hier[level], order[i].values), open, parts[i])
      {
        assert order[i] in t.kids;
        GroupIsBalanced(f, hier, t.kids[order[i]], Formatted(f, hier[level], order[i].values), level + 1, open,
                        parts[i]);
      }
      ChildrenAreBalancedBody(f, hier, t, order, parts, open);
    }
  }

  lemma {:induction false} GroupIsBalanced(f: FormatFn, hier: Hierarchy, t: Tree, values: seq<string>, level: nat,
                                           open: Stack, out: seq<Call>)
    requires level <= |hier| && Sortable(t, hier, level) && |open| + 1 == level
             && Renders(f, hier, t, values, level, false, out)
    ensures Balanced(f, hier, t, values, open, out)
    decreases |hier| - level, 1
  {
    var body := BodyIsBalanced(f, hier, t, values, level, false, open + [values], out);
    WrappedIsBalanced(f, hier, t, values, open, body);
  }

  lemma RootIsWrapped(t: Tree, body: seq<Call>)
    ensures Wrapped(t, [], 0, true, body) == body + Totals(t, [], 0, true)
  {
  }

  /** The report of any tree is properly nested, and a path of values is begun as often as the tree has
      groups that are shown under it. */
  lemma ReportIsBalanced(f: FormatFn, hier: Hierarchy, t: Tree, out: seq<Call>)
    requires Sortable(t, hier, 0) && Renders(f, hier, t, [], 0, true, out)
    ensures Nest(out, []) == Some([])
    ensures forall path | path != [] :: Begun(out, [], path) == |GroupsShown(f, hier, t, 0, path)|
  {
    var body := BodyIsBalanced(f, hier, t, [], 0, true, [], out);
    RootIsBalanced(f, hier, t, body, out);
  }

  lemma RootIsBalanced(f: FormatFn, hier: Hierarchy, t: Tree, body: seq<Call>, out: seq<Call>)
    requires BalancedBody(f, hier, t, [], body) && out == Wrapped(t, [], 0, true, body)
    ensures Nest(out, []) == Some([])
    ensures forall path | path != [] :: Begun(out, [], path) == |GroupsShown(f, hier, t, 0, path)|
  {
    RootIsWrapped(t, body);
    TotalsAreBalanced(t, [], [], true);
    NestConcat(body, Totals(t, [], 0, true), []);
    forall path: Stack | path != [] ensures Begun(out, [], path) == |GroupsShown(f, hier, t, 0, path)| {
      assert path[0..] == path;
    }
  }

  // ----- whole runs ------------------------------------------------------------------------------------

  lemma {:induction false} UnsplitEverywhere(t: Tree, height: nat)
    requires forall p: GroupPath | |p| <= height && Has(t, p) :: !Split(At(t, p).kids)
    ensures Unsplit(t, height)
    decreases height
  {
    assert Has(t, []) && At(t, []) == t;
    if height > 0 {
      forall k | k in t.kids ensures Unsplit(t.kids[k], height - 1) {
        forall p: GroupPath | |p| <= height - 1 && Has(t.kids[k], p) ensures !Split(At(t.kids[k], p).kids) {
          var q := [k] + p;
          assert q[1..] == p;
          assert Has(t, q) && At(t, q) == At(t.kids[k], p);
        }
        UnsplitEverywhere(t.kids[k], height - 1);
      }
    }
  }

  lemma {:induction false} SortableBelow(hier: Hierarchy, t: Tree, level: nat, p: GroupPath)
    requires level + |p| <= |hier| && Sortable(t, hier, level) && Has(t, p)
    ensures Sortable(At(t, p), hier, level + |p|)
    decreases |p|
  {
    if p != [] { SortableBelow(hier, t.kids[p[0]], level + 1, p[1..]); }
  }

  /** A run whose planes all have names splits no group, so its report is the only one possible. */
  lemma NamedPlanesUnsplit(h: HashFn, run: seq<Arrival>, hier: Hierarchy)
    requires forall a | a in run :: PlanesNamed(a, hier)
    ensures Unsplit(Built(Keys(h, hier), run, |hier|), |hier|)
  {
    var t := Built(Keys(h, hier), run, |hier|);
    BuiltIsSortable(h, run, hier);
    forall p: GroupPath | |p| <= |hier| && Has(t, p) ensures !Split(At(t, p).kids) {
      if |p| < |hier| { SiblingsDiffer(h, run, hier, p); } else { SortableBelow(hier, t, 0, p); }
    }
    UnsplitEverywhere(t, |hier|);
  }

  /** `summarize` after a run: the report is nested whatever planes the events have. */
  method Report(f: FormatFn, h: HashFn, run: seq<Arrival>, hier: Hierarchy) returns (out: seq<Call>)
    ensures Renders(f, hier, Built(Keys(h, hier), run, |hier|), [], 0, true, out)
    ensures Nest(out, []) == Some([])
  {
    var root := Collect(h, run, hier);
    BuiltIsSortable(h, run, hier);
    out := Render(root, f, hier, [], 0, true);
    ReportIsBalanced(f, hier, root.view, out);
  }
}
