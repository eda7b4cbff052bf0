/** What a run of events leaves in the grouping tree: a plain group-by. */
module GroupBy {
  import opened Options
  import opened Extractor
  import opened GroupTree

  /** An event reaching the root, with the depth its type is grouped to. */
  datatype Arrival = Arrival(context: Context, depth: nat)

  type GroupPath = seq<GroupKey>

  /** The tree after a whole run. */
  function Built(keys: KeyFn, run: seq<Arrival>, bottom: nat): Tree {
    if run == [] then EMPTY_TREE
    else
      var last := run[|run| - 1];
      Processed(keys, Built(keys, run[..|run| - 1], bottom), last.context, bottom, 0, last.depth)
  }

  /** The collector: one root, updated by every event of the run in turn. */
  method Collect(h: HashFn, run: seq<Arrival>, hier: Hierarchy) returns (root: GroupNode)
    ensures root.Valid() && root.view == Built(Keys(h, hier), run, |hier|)
  {
    root := new GroupNode([]);
    for i := 0 to |run|
      invariant root.Valid() && fresh(root.Repr) && root.view == Built(Keys(h, hier), run[..i], |hier|)
    {
      assert run[..i + 1][..i] == run[..i];
      var threw := root.Process(h, run[i].context, hier, 0, run[i].depth);
    }
    assert run[..|run|] == run;
  }

  lemma BuiltStep(keys: KeyFn, run: seq<Arrival>, bottom: nat)
    requires run != []
    ensures var last := run[|run| - 1];
            Built(keys, run, bottom) == Processed(keys, Built(keys, run[..|run| - 1], bottom), last.context, bottom, 0,
                                                  last.depth)
  {
  }

  // ----- the group-by -----------------------------------------------------------------------------

  /** The groups an event belongs to, from `level` down: as deep as its applicable depth, the hierarchy
      and the first level with a value that throws allow. */
  function GroupsOf(keys: KeyFn, a: Arrival, bottom: nat, level: nat): (p: GroupPath)
    ensures |p| <= bottom - level || p == []
    ensures |p| <= a.depth - level || p == []
    decreases bottom - level
  {
    if level >= bottom || level >= a.depth || keys(level, a.context).None? then []
    else [keys(level, a.context).value] + GroupsOf(keys, a, bottom, level + 1)
  }

  /** The events of a run that belong to a group, in order. */
  function Members(keys: KeyFn, run: seq<Arrival>, bottom: nat, p: GroupPath): seq<Context> {
    if run == [] then []
    else
      var last := run[|run| - 1];
      Members(keys, run[..|run| - 1], bottom, p) + (if p <= GroupsOf(keys, last, bottom, 0) then [last.context] else [])
  }

  predicate Has(t: Tree, p: GroupPath)
    decreases |p|
  {
    p == [] || (p[0] in t.kids && Has(t.kids[p[0]], p[1..]))
  }

  /** The node at a path; an empty one where there is none. */
  function At(t: Tree, p: GroupPath): Tree
    decreases |p|
  {
    if p == [] then t else At(KidOf(t, p[0]), p[1..])
  }

  lemma {:induction false} NothingBelow(p: GroupPath)
    ensures At(EMPTY_TREE, p) == EMPTY_TREE && (Has(EMPTY_TREE, p) <==> p == [])
  {
    if p != [] { NothingBelow(p[1..]); }
  }

  /** One event changes exactly the nodes on its path. */
  lemma {:induction false} ProcessedAt(keys: KeyFn, t: Tree, a: Arrival, bottom: nat, level: nat, p: GroupPath)
    requires level + |p| <= bottom
    ensures var q := GroupsOf(keys, a, bottom, level);
            var next := Processed(keys, t, a.context, bottom, level, a.depth);
            && (Has(next, p) <==> Has(t, p) || p <= q)
            && At(next, p).subTotal == At(t, p).subTotal + (if p <= q then [a.context] else [])
            && At(next, p).leaf == if p <= q && level + |p| == bottom then
                 Some((if At(t, p).leaf.Some? then At(t, p).leaf.value else []) + [a.context]) else At(t, p).leaf
    decreases |p|
  {
    if p != [] {
      var k := keys(level, a.context);
      var kid := KidOf(t, p[0]);
      if level < a.depth && k == Some(p[0]) {
        ProcessedAt(keys, kid, a, bottom, level + 1, p[1..]);
        var q := GroupsOf(keys, a, bottom, level);
        assert q[1..] == GroupsOf(keys, a, bottom, level + 1);
        assert p == [p[0]] + p[1..];
        assert p <= q <==> p[1..] <= q[1..];
        if p[0] !in t.kids { NothingBelow(p[1..]); }
      } else {
        assert !(p <= GroupsOf(keys, a, bottom, level));
      }
    }
  }

  /** After any run the tree is the group-by of the run: a group exists exactly when an event belongs
      to it, its subtotal is exactly the events that do, in order, and it has a leaf summary, with the
      same events, exactly at the bottom of the hierarchy. */
  lemma {:induction false} TreeIsGroupBy(keys: KeyFn, run: seq<Arrival>, bottom: nat, p: GroupPath)
    requires |p| <= bottom
    ensures var t := Built(keys, run, bottom);
            && (Has(t, p) <==> p == [] || Members(keys, run, bottom, p) != [])
            && At(t, p).subTotal == Members(keys, run, bottom, p)
            && At(t, p).leaf == if |p| == bottom && Members(keys, run, bottom, p) != [] then
               Some(Members(keys, run, bottom, p)) else None
  {
    if run == [] {
      NothingBelow(p);
    } else {
      var last := run[|run| - 1];
      var prior := Members(keys, run[..|run| - 1], bottom, p);
      assert Members(keys, run, bottom, p) == prior
             + (if p <= GroupsOf(keys, last, bottom, 0) then [last.context] else []);
      TreeIsGroupBy(keys, run[..|run| - 1], bottom, p);
      BuiltStep(keys, run, bottom);
      ProcessedAt(keys, Built(keys, run[..|run| - 1], bottom), last, bottom, 0, p);
      assert prior + [] == prior && [] + [last.context] == [last.context];
    }
  }

  /** No group lies below the hierarchy. */
  lemma {:induction false} NothingBelowHierarchy(keys: KeyFn, t: Tree, a: Arrival, bottom: nat, level: nat,
                                                 p: GroupPath)
    requires level + |p| > bottom && level <= bottom && !Has(t, p)
    ensures !Has(Processed(keys, t, a.context, bottom, level, a.depth), p)
    decreases |p|
  {
    if level < bottom && level < a.depth && keys(level, a.context) == Some(p[0]) {
      if p[0] !in t.kids { NothingBelow(p[1..]); }
      NothingBelowHierarchy(keys, KidOf(t, p[0]), a, bottom, level + 1, p[1..]);
    }
  }

  lemma {:induction false} DepthIsHierarchy(keys: KeyFn, run: seq<Arrival>, bottom: nat, p: GroupPath)
    requires |p| > bottom
    ensures !Has(Built(keys, run, bottom), p)
  {
    if run == [] {
      NothingBelow(p);
    } else {
      DepthIsHierarchy(keys, run[..|run| - 1], bottom, p);
      NothingBelowHierarchy(keys, Built(keys, run[..|run| - 1], bottom), run[|run| - 1], bottom, 0, p);
    }
  }

  // ----- conservation -----------------------------------------------------------------------------

  /** The events counted in the children of a node. */
  ghost function InChildren(kids: map<GroupKey, Tree>): multiset<Context> {
    if kids == map[] then multiset{}
    else
      var k :| k in kids;
      multiset(kids[k].subTotal) + InChildren(kids - {k})
  }

  /** The choice of child does not matter. */
  lemma {:induction false} InChildrenWithout(kids: map<GroupKey, Tree>, k: GroupKey)
    requires k in kids
    ensures InChildren(kids) == multiset(kids[k].subTotal) + InChildren(kids - {k})
    decreases |kids|
  {
    var first :| first in kids && InChildren(kids) == multiset(kids[first].subTotal) + InChildren(kids - {first});
    if first != k {
      InChildrenWithout(kids - {first}, k);
      InChildrenWithout(kids - {k}, first);
      assert kids - {first} - {k} == kids - {k} - {first};
    }
  }

  lemma InChildrenUpdated(kids: map<GroupKey, Tree>, k: GroupKey, t: Tree)
    ensures InChildren(kids[k := t]) == InChildren(kids - {k}) + multiset(t.subTotal)
  {
    InChildrenWithout(kids[k := t], k);
    assert kids[k := t] - {k} == kids - {k};
  }

  /** The events that are counted at a node and go no further. */
  function Stopped(keys: KeyFn, run: seq<Arrival>, bottom: nat, p: GroupPath): seq<Context> {
    if run == [] then []
    else
      var last := run[|run| - 1];
      var front := Stopped(keys, run[..|run| - 1], bottom, p);
      if p == GroupsOf(keys, last, bottom, 0) && |p| < bottom then front + [last.context] else front
  }

  lemma PrefixTail(p: GroupPath, q: GroupPath)
    requires p != [] && q != [] && p[0] == q[0]
    ensures p <= q <==> p[1..] <= q[1..]
    ensures |p| < |q| ==> q[|p|] == q[1..][|p[1..]|]
  {
    assert p == [p[0]] + p[1..] && q == [q[0]] + q[1..];
  }

  lemma PrefixStep(p: GroupPath, k: GroupKey, q: GroupPath)
    ensures p + [k] <= q <==> p <= q && |p| < |q| && q[|p|] == k
  {
    if p + [k] <= q {
      assert p == (p + [k])[..|p|] == q[..|p|];
      assert k == (p + [k])[|p|] == q[|p|];
    }
  }

  /** Below a node, one event changes at most one child. */
  lemma {:induction false} ProcessedKids(keys: KeyFn, t: Tree, a: Arrival, bottom: nat, level: nat, p: GroupPath)
    requires level + |p| <= bottom
    ensures var q := GroupsOf(keys, a, bottom, level);
            var node := At(t, p);
            At(Processed(keys, t, a.context, bottom, level, a.depth), p).kids ==
              if p <= q && |p| < |q| then
                node.kids[q[|p|] := Processed(keys, KidOf(node, q[|p|]), a.context, bottom, level + |p| + 1, a.depth)]
              else node.kids
    decreases |p|
  {
    if p != [] {
      var q := GroupsOf(keys, a, bottom, level);
      if q != [] && q[0] == p[0] {
        var kid := KidOf(t, p[0]);
        ProcessedKids(keys, kid, a, bottom, level + 1, p[1..]);
        assert q[1..] == GroupsOf(keys, a, bottom, level + 1);
        PrefixTail(p, q);
        assert KidOf(Processed(keys, t, a.context, bottom, level, a.depth), p[0]) ==
               Processed(keys, kid, a.context, bottom, level + 1, a.depth);
      } else {
        assert !(p <= q);
      }
    }
  }

  lemma OneMore(kids: map<GroupKey, Tree>, k: GroupKey, t: Tree, was: Tree, c: Context)
    requires was == if k in kids then kids[k] else EMPTY_TREE
    requires t.subTotal == was.subTotal + [c]
    ensures InChildren(kids[k := t]) == InChildren(kids) + multiset{c}
  {
    InChildrenUpdated(kids, k, t);
    if k in kids { InChildrenWithout(kids, k); } else { assert kids - {k} == kids; }
  }

  ghost predicate Conserved(node: Tree, stopped: seq<Context>) {
    multiset(node.subTotal) ==
      InChildren(node.kids) + multiset(stopped) + multiset(if node.leaf.Some? then node.leaf.value else [])
  }

  /** One more event in a child, or going no further, or in the leaf summary. */
  lemma ConservedInChild(node: Tree, next: Tree, stopped: seq<Context>, c: Context)
    requires Conserved(node, stopped) && next.subTotal == node.subTotal + [c] && next.leaf == node.leaf
    requires InChildren(next.kids) == InChildren(node.kids) + multiset{c}
    ensures Conserved(next, stopped)
  {
  }

  lemma ConservedStopped(node: Tree, next: Tree, stopped: seq<Context>, c: Context)
    requires Conserved(node, stopped) && next.subTotal == node.subTotal + [c] && next.leaf == node.leaf
             && next.kids == node.kids
    ensures Conserved(next, stopped + [c])
  {
  }

  lemma ConservedInLeaf(node: Tree, next: Tree, stopped: seq<Context>, c: Context)
    requires Conserved(node, stopped) && next.subTotal == node.subTotal + [c] && next.kids == node.kids
    requires next.leaf == Some((if node.leaf.Some? then node.leaf.value else []) + [c])
    ensures Conserved(next, stopped)
  {
  }

  lemma OneMoreConserved(keys: KeyFn, t: Tree, a: Arrival, bottom: nat, p: GroupPath, stopped: seq<Context>)
    requires |p| <= bottom && Conserved(At(t, p), stopped)
    ensures Conserved(At(Processed(keys, t, a.context, bottom, 0, a.depth), p),
                      if p == GroupsOf(keys, a, bottom, 0) && |p| < bottom then stopped + [a.context] else stopped)
  {
    var q := GroupsOf(keys, a, bottom, 0);
    var node, next := At(t, p), At(Processed(keys, t, a.context, bottom, 0, a.depth), p);
    ProcessedAt(keys, t, a, bottom, 0, p);
    ProcessedKids(keys, t, a, bottom, 0, p);
    if p <= q && |p| < |q| {
      var kid := KidOf(node, q[|p|]);
      OneMore(node.kids, q[|p|], Processed(keys, kid, a.context, bottom, |p| + 1, a.depth), kid, a.context);
      ConservedInChild(node, next, stopped, a.context);
    } else if p <= q {
      assert p == q;
      if |p| < bottom {
        ConservedStopped(node, next, stopped, a.context);
      } else {
        ConservedInLeaf(node, next, stopped, a.context);
      }
    } else {
      assert node.subTotal + [] == node.subTotal;
    }
  }

  /** Nothing is lost or counted twice: the events of a group are those of its subgroups together with
      those that go no deeper, and at the bottom those of the leaf summary. */
  lemma {:induction false} EventsAreConserved(keys: KeyFn, run: seq<Arrival>, bottom: nat, p: GroupPath)
    requires |p| <= bottom
    ensures var node := At(Built(keys, run, bottom), p);
            Conserved(node, Stopped(keys, run, bottom, p))
  {
    if run == [] {
      NothingBelow(p);
    } else {
      var last, front := run[|run| - 1], run[..|run| - 1];
      var t := Built(keys, front, bottom);
      var q := GroupsOf(keys, last, bottom, 0);
      EventsAreConserved(keys, front, bottom, p);
      BuiltStep(keys, run, bottom);
      OneMoreConserved(keys, t, last, bottom, p, Stopped(keys, front, bottom, p));
    }
  }

  /** The grand total is the whole run. */
  lemma {:induction false} RootCountsEverything(keys: KeyFn, run: seq<Arrival>, bottom: nat)
    ensures Built(keys, run, bottom).subTotal == seq(|run|, i requires 0 <= i < |run| => run[i].context)
  {
    if run != [] {
      RootCountsEverything(keys, run[..|run| - 1], bottom);
      BuiltStep(keys, run, bottom);
    }
  }

  // ----- groups are told apart by their values ----------------------------------------------------------

  /** The event of the run reaches the level below a group. */
  predicate Reaches(keys: KeyFn, a: Arrival, bottom: nat, p: GroupPath) {
    var q := GroupsOf(keys, a, bottom, 0);
    p <= q && |p| < |q|
  }

  lemma {:induction false} GroupsOfAt(keys: KeyFn, a: Arrival, bottom: nat, level: nat, i: nat)
    requires i < |GroupsOf(keys, a, bottom, level)|
    ensures level + i < bottom && keys(level + i, a.context) == Some(GroupsOf(keys, a, bottom, level)[i])
    decreases i
  {
    if i > 0 { GroupsOfAt(keys, a, bottom, level + 1, i - 1); }
  }

  lemma {:induction false} MemberOf(keys: KeyFn, run: seq<Arrival>, bottom: nat, p: GroupPath) returns (i: nat)
    requires Members(keys, run, bottom, p) != []
    ensures i < |run| && p <= GroupsOf(keys, run[i], bottom, 0)
  {
    if p <= GroupsOf(keys, run[|run| - 1], bottom, 0) { return |run| - 1; }
    i := MemberOf(keys, run[..|run| - 1], bottom, p);
  }

  lemma {:induction false} MembersHave(keys: KeyFn, run: seq<Arrival>, bottom: nat, p: GroupPath, i: nat)
    requires i < |run| && p <= GroupsOf(keys, run[i], bottom, 0)
    ensures Members(keys, run, bottom, p) != []
  {
    if i < |run| - 1 { MembersHave(keys, run[..|run| - 1], bottom, p, i); }
  }

  lemma {:induction false} HasChild(t: Tree, p: GroupPath, k: GroupKey)
    ensures Has(t, p + [k]) <==> Has(t, p) && k in At(t, p).kids
  {
    if p == [] {
      assert p + [k] == [k] && [k][1..] == [];
    } else {
      assert (p + [k])[1..] == p[1..] + [k];
      if p[0] in t.kids { HasChild(t.kids[p[0]], p[1..], k); }
    }
  }

  /** The event adds to a child of a group. */
  predicate AddsTo(keys: KeyFn, a: Arrival, bottom: nat, p: GroupPath, k: GroupKey) {
    Reaches(keys, a, bottom, p) && keys(|p|, a.context) == Some(k)
  }

  lemma AddsToItsGroups(keys: KeyFn, a: Arrival, bottom: nat, p: GroupPath, k: GroupKey)
    ensures AddsTo(keys, a, bottom, p, k) <==> p + [k] <= GroupsOf(keys, a, bottom, 0)
  {
    PrefixStep(p, k, GroupsOf(keys, a, bottom, 0));
    if |p| < |GroupsOf(keys, a, bottom, 0)| { GroupsOfAt(keys, a, bottom, 0, |p|); }
  }

  /** The children of a group are those that an event has been added to. */
  lemma ChildrenAreReached(keys: KeyFn, run: seq<Arrival>, bottom: nat, p: GroupPath, k: GroupKey)
    requires |p| < bottom && Has(Built(keys, run, bottom), p)
    ensures k in At(Built(keys, run, bottom), p).kids
            <==> exists i | 0 <= i < |run| :: AddsTo(keys, run[i], bottom, p, k)
  {
    HasChild(Built(keys, run, bottom), p, k);
    TreeIsGroupBy(keys, run, bottom, p + [k]);
    if Members(keys, run, bottom, p + [k]) != [] {
      var i := MemberOf(keys, run, bottom, p + [k]);
      AddsToItsGroups(keys, run[i], bottom, p, k);
    }
    forall i | 0 <= i < |run| && AddsTo(keys, run[i], bottom, p, k) ensures Members(keys, run, bottom, p + [k]) != [] {
      AddsToItsGroups(keys, run[i], bottom, p, k);
      MembersHave(keys, run, bottom, p + [k], i);
    }
  }

  /** Two children of a group have the same values. */
  ghost predicate Split(kids: map<GroupKey, Tree>) {
    exists j, k :: j in kids && k in kids && j != k && j.values == k.values
  }

  /** Two events add to children that have the same values but are not the same. */
  ghost predicate Splits(keys: KeyFn, a: Arrival, b: Arrival, bottom: nat, p: GroupPath) {
    exists j, k :: AddsTo(keys, a, bottom, p, j) && AddsTo(keys, b, bottom, p, k) && j != k && j.values == k.values
  }

  lemma SplitMeans(keys: KeyFn, run: seq<Arrival>, bottom: nat, p: GroupPath)
    requires |p| < bottom && Has(Built(keys, run, bottom), p)
    ensures Split(At(Built(keys, run, bottom), p).kids)
            <==> exists a, b | a in run && b in run :: Splits(keys, a, b, bottom, p)
  {
    var kids := At(Built(keys, run, bottom), p).kids;
    if j, k :| j in kids && k in kids && j != k && j.values == k.values {
      ChildrenAreReached(keys, run, bottom, p, j);
      ChildrenAreReached(keys, run, bottom, p, k);
      var a :| 0 <= a < |run| && AddsTo(keys, run[a], bottom, p, j);
      var b :| 0 <= b < |run| && AddsTo(keys, run[b], bottom, p, k);
      assert Splits(keys, run[a], run[b], bottom, p);
    }
    if a, b :| a in run && b in run && Splits(keys, a, b, bottom, p) {
      var j, k :| AddsTo(keys, a, bottom, p, j) && AddsTo(keys, b, bottom, p, k) && j != k && j.values == k.values;
      ChildrenAreReached(keys, run, bottom, p, j);
      ChildrenAreReached(keys, run, bottom, p, k);
    }
  }

  /** An event whose plane is a nameless one from the metadata, at a level grouped by plane. */
  predicate UnnamedPlaneMatters(attrs: seq<GroupAttribute>, c: Context) {
    UnnamedPlane(c) && exists g | g in attrs :: GroupsByPlane(g)
  }

  lemma KeysAgree(h: HashFn, hier: Hierarchy, level: nat, c: Context, d: Context, j: GroupKey, k: GroupKey)
    requires level < |hier| && Keys(h, hier)(level, c) == Some(j) && Keys(h, hier)(level, d) == Some(k)
             && j.values == k.values
    requires !UnnamedPlaneMatters(hier[level], c) && !UnnamedPlaneMatters(hier[level], d)
    ensures j == k
  {
    EqualValuesEqualHash(h, hier[level], c, d);
  }

  lemma KeysTell(h: HashFn, hier: Hierarchy, level: nat, c: Context, d: Context, j: GroupKey, k: GroupKey)
    requires level < |hier| && Keys(h, hier)(level, c) == Some(j) && Keys(h, hier)(level, d) == Some(k)
             && j.values == k.values
    ensures j == k <==> UnnamedPlane(c) == UnnamedPlane(d) || !NamelessShows(h, hier[level], j.values)
  {
    HashTellsUnnamedPlanes(h, hier[level], c, d);
  }

  /** Whatever the hash, siblings have different values as long as no event that reaches them takes a
      nameless plane from the metadata at a level grouped by plane. */
  lemma SiblingsDiffer(h: HashFn, run: seq<Arrival>, hier: Hierarchy, p: GroupPath)
    requires |p| < |hier| && Has(Built(Keys(h, hier), run, |hier|), p)
    requires forall a | a in run && Reaches(Keys(h, hier), a, |hier|, p) :: !UnnamedPlaneMatters(hier[|p|], a.context)
    ensures !Split(At(Built(Keys(h, hier), run, |hier|), p).kids)
  {
    SplitMeans(Keys(h, hier), run, |hier|, p);
    if a, b :| a in run && b in run && Splits(Keys(h, hier), a, b, |hier|, p) {
      var j, k :| AddsTo(Keys(h, hier), a, |hier|, p, j) && AddsTo(Keys(h, hier), b, |hier|, p, k) && j != k
        && j.values == k.values;
      KeysAgree(h, hier, |p|, a.context, b.context, j, k);
    }
  }

  /** Two events with the same values reach the level below a group, only one of them with a nameless
      plane, and the hash shows it. */
  ghost predicate SplittingPair(h: HashFn, a: Arrival, b: Arrival, hier: Hierarchy, p: GroupPath)
    requires |p| < |hier|
  {
    && UnnamedPlane(a.context) && !UnnamedPlane(b.context)
    && exists j, k :: AddsTo(Keys(h, hier), a, |hier|, p, j) && AddsTo(Keys(h, hier), b, |hier|, p, k)
                      && j.values == k.values && NamelessShows(h, hier[|p|], j.values)
  }

  lemma SplitsByUnnamedPlane(h: HashFn, a: Arrival, b: Arrival, hier: Hierarchy, p: GroupPath)
    requires |p| < |hier|
    ensures Splits(Keys(h, hier), a, b, |hier|, p) <==>
            SplittingPair(h, a, b, hier, p) || SplittingPair(h, b, a, hier, p)
  {
    forall j, k | AddsTo(Keys(h, hier), a, |hier|, p, j) && AddsTo(Keys(h, hier), b, |hier|, p, k)
                  && j.values == k.values
      ensures j == k <==>
              UnnamedPlane(a.context) == UnnamedPlane(b.context) || !NamelessShows(h, hier[|p|], j.values)
    {
      KeysTell(h, hier, |p|, a.context, b.context, j, k);
    }
  }

  /** Whatever the hash and the hierarchy, a group is split exactly when two events with the same values
      reach the level below it, only one of them takes a nameless plane from the metadata, and the hash
      of that level shows it. */
  lemma SplitByUnnamedPlane(h: HashFn, run: seq<Arrival>, hier: Hierarchy, p: GroupPath)
    requires |p| < |hier| && Has(Built(Keys(h, hier), run, |hier|), p)
    ensures Split(At(Built(Keys(h, hier), run, |hier|), p).kids) <==>
            exists a, b | a in run && b in run :: SplittingPair(h, a, b, hier, p)
  {
    SplitMeans(Keys(h, hier), run, |hier|, p);
    forall a, b | a in run && b in run
      ensures Splits(Keys(h, hier), a, b, |hier|, p) <==>
              SplittingPair(h, a, b, hier, p) || SplittingPair(h, b, a, hier, p)
    {
      SplitsByUnnamedPlane(h, a, b, hier, p);
    }
  }

  /** With a hash such as FNV-1a, a level that has plane an odd number of times always shows it. */
  lemma OddLevelsSplit(h: HashFn, a: Arrival, b: Arrival, hier: Hierarchy, p: GroupPath, j: GroupKey, k: GroupKey)
    requires TellsEmptyNames(h) && |p| < |hier| && OddPlanes(hier[|p|])
    requires UnnamedPlane(a.context) && !UnnamedPlane(b.context) && j.values == k.values
    requires AddsTo(Keys(h, hier), a, |hier|, p, j) && AddsTo(Keys(h, hier), b, |hier|, p, k)
    ensures SplittingPair(h, a, b, hier, p)
  {
    OddPlanesShow(h, hier[|p|], a.context);
  }

  // ----- the group-by on values alone -------------------------------------------------------------------

  function ValuesAlong(p: GroupPath): (v: seq<seq<string>>)
    ensures |v| == |p| && forall i | 0 <= i < |p| :: v[i] == p[i].values
  {
    seq(|p|, i requires 0 <= i < |p| => p[i].values)
  }

  /** The events whose values start with the given ones and that are grouped at least that deep. */
  function MembersByValue(keys: KeyFn, run: seq<Arrival>, bottom: nat, v: seq<seq<string>>): seq<Context> {
    if run == [] then []
    else
      var last := run[|run| - 1];
      MembersByValue(keys, run[..|run| - 1], bottom, v)
      + (if v <= ValuesAlong(GroupsOf(keys, last, bottom, 0)) then [last.context] else [])
  }

  ghost predicate PlanesNamed(a: Arrival, hier: Hierarchy) {
    forall level | 0 <= level < |hier| :: !UnnamedPlaneMatters(hier[level], a.context)
  }

  lemma SameValuesSameGroups(h: HashFn, a: Arrival, b: Arrival, hier: Hierarchy, p: GroupPath)
    requires PlanesNamed(a, hier) && PlanesNamed(b, hier) && p <= GroupsOf(Keys(h, hier), a, |hier|, 0)
    ensures p <= GroupsOf(Keys(h, hier), b, |hier|, 0)
            <==> ValuesAlong(p) <= ValuesAlong(GroupsOf(Keys(h, hier), b, |hier|, 0))
  {
    var keys, bottom := Keys(h, hier), |hier|;
    var q := GroupsOf(keys, b, bottom, 0);
    if ValuesAlong(p) <= ValuesAlong(q) {
      forall i | 0 <= i < |p| ensures p[i] == q[i] {
        GroupsOfAt(keys, a, bottom, 0, i);
        GroupsOfAt(keys, b, bottom, 0, i);
        assert ValuesAlong(p)[i] == ValuesAlong(q)[i];
        KeysAgree(h, hier, i, a.context, b.context, p[i], q[i]);
      }
    }
  }

  lemma {:induction false} MembersAreByValue(h: HashFn, run: seq<Arrival>, hier: Hierarchy, p: GroupPath, a: Arrival)
    requires (forall b | b in run :: PlanesNamed(b, hier)) && PlanesNamed(a, hier)
             && p <= GroupsOf(Keys(h, hier), a, |hier|, 0)
    ensures Members(Keys(h, hier), run, |hier|, p) == MembersByValue(Keys(h, hier), run, |hier|, ValuesAlong(p))
  {
    if run != [] {
      MembersAreByValue(h, run[..|run| - 1], hier, p, a);
      SameValuesSameGroups(h, a, run[|run| - 1], hier, p);
    }
  }

  /** Hashes do not show: each group holds exactly the events whose values agree with its own at every
      level, in order. */
  lemma GroupsAreByValue(h: HashFn, run: seq<Arrival>, hier: Hierarchy, p: GroupPath)
    requires forall b | b in run :: PlanesNamed(b, hier)
    requires |p| <= |hier| && Has(Built(Keys(h, hier), run, |hier|), p)
    ensures At(Built(Keys(h, hier), run, |hier|), p).subTotal ==
            MembersByValue(Keys(h, hier), run, |hier|, ValuesAlong(p))
  {
    var keys, bottom := Keys(h, hier), |hier|;
    TreeIsGroupBy(keys, run, bottom, p);
    if run != [] {
      if p == [] { MembersHave(keys, run, bottom, p, 0); }
      var i := MemberOf(keys, run, bottom, p);
      MembersAreByValue(h, run, hier, p, run[i]);
    }
  }
}
