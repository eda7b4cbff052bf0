/** The grouping tree: a hierarchy of groups kept in hash multimaps, updated in place one event at a
    time.  An accumulator is modelled as the sequence of events accumulated into it, which any
    accumulator is a function of. */
module GroupTree {
  import opened Options
  import opened Extractor

  type Hierarchy = seq<seq<GroupAttribute>>

  /** What distinguishes a group from its siblings: its hash and its values. */
  datatype GroupKey = GroupKey(hash: nat, values: seq<string>)

  /** The tree as plain maps. */
  datatype Tree = Tree(subTotal: seq<Context>, leaf: Option<seq<Context>>, kids: map<GroupKey, Tree>)

  const EMPTY_TREE: Tree := Tree([], None, map[])

  function KeyAt(h: HashFn, attrs: seq<GroupAttribute>, c: Context): Option<GroupKey> {
    var vs := Values(attrs, c);
    if vs.Some? then Some(GroupKey(HashOf(h, attrs, c), vs.value)) else None
  }

  /** The key an event has at each level; None where a value throws. */
  type KeyFn = (nat, Context) -> Option<GroupKey>

  function Keys(h: HashFn, hier: Hierarchy): KeyFn {
    (level: nat, c: Context) => if level < |hier| then KeyAt(h, hier[level], c) else None
  }

  function KidOf(t: Tree, k: GroupKey): Tree {
    if k in t.kids then t.kids[k] else EMPTY_TREE
  }

  function Counted(t: Tree, c: Context, bottom: bool): Tree {
    Tree(t.subTotal + [c], if bottom then Some((if t.leaf.Some? then t.leaf.value else []) + [c]) else t.leaf, t.kids)
  }

  /** Processing one event on plain maps: the event is counted at this node, and in the group it
      belongs to at the next level, down to the applicable depth or the first level whose value throws. */
  function Processed(keys: KeyFn, t: Tree, c: Context, bottom: nat, level: nat, depth: nat): Tree
    decreases bottom - level, 1
  {
    var counted := Counted(t, c, level >= bottom);
    if level >= bottom || level >= depth then counted else Descended(keys, counted, c, bottom, level, depth)
  }

  function Descended(keys: KeyFn, t: Tree, c: Context, bottom: nat, level: nat, depth: nat): Tree
    requires level < bottom
    decreases bottom - level, 0
  {
    var k := keys(level, c);
    if k.None? then t
    else t.(kids := t.kids[k.value := Processed(keys, KidOf(t, k.value), c, bottom, level + 1, depth)])
  }

  lemma SameTree(t: Tree, k: GroupKey)
    requires k in t.kids
    ensures t.(kids := t.kids[k := KidOf(t, k)]) == t
  {
    assert t.kids[k := t.kids[k]] == t.kids;
  }

  /** Finding or adding the child first, and then processing it, amounts to the one update. */
  lemma ChildFirst(keys: KeyFn, t: Tree, added: Tree, c: Context, bottom: nat, level: nat, depth: nat, k: GroupKey)
    requires level < bottom && keys(level, c) == Some(k)
    requires added == t.(kids := t.kids[k := KidOf(t, k)])
    ensures k in added.kids
    ensures added.(kids := added.kids[k := Processed(keys, added.kids[k], c, bottom, level + 1, depth)])
            == Descended(keys, t, c, bottom, level, depth)
  {
    var p := Processed(keys, KidOf(t, k), c, bottom, level + 1, depth);
    assert added.kids[k := p] == t.kids[k := p];
  }

  /** Whether the event has, at some level above its depth, a value that throws. */
  predicate Throws(keys: KeyFn, c: Context, bottom: nat, level: nat, depth: nat)
    decreases bottom - level
  {
    level < bottom && level < depth && (keys(level, c).None? || Throws(keys, c, bottom, level + 1, depth))
  }

  /** An entry of the multimap. */
  datatype Entry = Entry(hash: nat, node: GroupNode)

  function KeyOf(e: Entry): GroupKey {
    GroupKey(e.hash, e.node.groupValues)
  }

  /** The search of `children.equal_range(hash)` for a node with these values. */
  method FindChild(h: HashFn, children: seq<Entry>, attrs: seq<GroupAttribute>, c: Context)
    returns (found: Option<nat>, threw: bool)
    ensures threw ==> Values(attrs, c).None?
    ensures !threw && found.Some? ==>
              found.value < |children| && Values(attrs, c).Some?
              && KeyOf(children[found.value]) == GroupKey(HashOf(h, attrs, c), Values(attrs, c).value)
    ensures !threw && found.None? && Values(attrs, c).Some? ==>
              forall i | 0 <= i < |children| ::
                     KeyOf(children[i]) != GroupKey(HashOf(h, attrs, c), Values(attrs, c).value)
  {
    var hash := GetHash(h, attrs, c);
    for i := 0 to |children|
      invariant Values(attrs, c).Some? ==>
        forall j | 0 <= j < i :: KeyOf(children[j]) != GroupKey(hash, Values(attrs, c).value)
    {
      if children[i].hash == hash {
        var equal := IsEqual(attrs, c, children[i].node.groupValues);
        if equal.None? { return None, true; }
        if equal.value { return Some(i), false; }
      }
    }
    return None, false;
  }

  ghost predicate Indexes(children: seq<Entry>, slot: map<GroupKey, nat>) {
    && (forall i | 0 <= i < |children| :: KeyOf(children[i]) in slot && slot[KeyOf(children[i])] == i)
    && (forall k | k in slot :: slot[k] < |children| && KeyOf(children[slot[k]]) == k)
  }

  lemma OneMoreIndexed(children: seq<Entry>, slot: map<GroupKey, nat>, e: Entry)
    requires Indexes(children, slot) && KeyOf(e) !in slot
    ensures Indexes(children + [e], slot[KeyOf(e) := |children|])
  {
  }

  class GroupNode {
    const groupValues: seq<string>
    var subTotal: seq<Context>
    /** The entries of the multimap, in no particular order. */
    var children: seq<Entry>
    var leafSummary: Option<seq<Context>>
    /** The same tree as plain maps, and where each group's entry is. */
    ghost var view: Tree
    ghost var slot: map<GroupKey, nat>
    ghost var Repr: set<object>

    /** Every child's tree lies inside this one. */
    ghost predicate Inside()
      reads this, Repr
    {
      forall i | 0 <= i < |children| ::
        children[i].node in Repr && children[i].node.Repr <= Repr && this !in children[i].node.Repr
    }

    /** No two children share a node. */
    ghost predicate Apart()
      requires Inside()
      reads this, Repr
    {
      forall i, j | 0 <= i < j < |children| :: children[i].node.Repr !! children[j].node.Repr
    }

    /** No two children have the same key. */
    ghost predicate Indexed()
      reads this
    {
      Indexes(children, slot)
    }

    ghost predicate Shown()
      requires Inside() && Indexed()
      reads this, Repr
    {
      && view.subTotal == subTotal && view.leaf == leafSummary && (forall k :: k in view.kids <==> k in slot)
      && (forall k | k in slot :: children[slot[k]].node.view == view.kids[k])
    }

    ghost predicate Valid()
      reads this, Repr
      ensures Valid() ==> this in Repr
      decreases Repr
    {
      && this in Repr && Inside() && Apart() && Indexed() && Shown()
      && (forall i | 0 <= i < |children| :: children[i].node.Valid())
    }

    /** Only the tree of one child has changed. */
    twostate lemma OthersUnmoved(at: nat)
      requires old(Valid()) && at < |children| && children == old(children)
      requires forall o: object | o in old(Repr) && o !in old(children[at].node.Repr) && o != this :: unchanged(o)
      ensures forall i | 0 <= i < |children| && i != at ::
                var n := children[i].node; n.Valid() && n.view == old(n.view) && n.Repr == old(n.Repr)
    {
      forall i | 0 <= i < |children| && i != at
        ensures var n := children[i].node; n.Valid() && n.view == old(n.view) && n.Repr == old(n.Repr)
      {
        var n := children[i].node;
        assert old(n.Repr) !! old(children[at].node.Repr) by {
          if i < at { assert old(children[i].node.Repr) !! old(children[at].node.Repr); }
          else { assert old(children[at].node.Repr) !! old(children[i].node.Repr); }
        }
        assert forall o: object | o in old(n.Repr) :: unchanged(o);
      }
    }

    /** Valid, but for one child's tree, which may have grown. */
    ghost predicate ValidBut(at: nat)
      requires at < |children|
      reads this, Repr, children[at].node, children[at].node.Repr
    {
      Laid(at) && Listed(at)
    }

    ghost predicate Laid(at: nat)
      requires at < |children|
      reads this, Repr, children[at].node, children[at].node.Repr
    {
      && this in Repr && children[at].node in Repr && this !in children[at].node.Repr
      && (forall i | 0 <= i < |children| && i != at ::
            children[i].node in Repr && children[i].node.Repr <= Repr && this !in children[i].node.Repr
            && children[i].node.Repr !! children[at].node.Repr && children[i].node.Valid())
      && (forall i, j | 0 <= i < j < |children| && i != at && j != at :: children[i].node.Repr !! children[j].node.Repr)
      && children[at].node.Valid()
    }

    ghost predicate Listed(at: nat)
      requires at < |children|
      reads this, Repr
    {
      && Indexed()
      && view.subTotal == subTotal && view.leaf == leafSummary && (forall k :: k in view.kids <==> k in slot)
      && (forall k | k in slot && slot[k] != at ::
            children[slot[k]].node in Repr && children[slot[k]].node.view == view.kids[k])
    }

    twostate lemma OutsideUnmoved(n: GroupNode)
      requires old(n.Valid()) && forall o: object | o in old(n.Repr) :: unchanged(o)
      ensures n.Valid() && n.view == old(n.view) && n.Repr == old(n.Repr)
    {
    }

    twostate lemma AlmostValid(at: nat)
      requires old(Valid()) && at < |children| && unchanged(this)
      requires children[at].node.Valid() && fresh(children[at].node.Repr - old(children[at].node.Repr))
      requires forall o: object | o in old(Repr) && o !in old(children[at].node.Repr) && o != this :: unchanged(o)
      ensures ValidBut(at)
    {
      OthersUnmoved(at);
      var node := children[at].node;
      assert this !in node.Repr;
      forall i | 0 <= i < |children| && i != at ensures children[i].node.Repr !! node.Repr {
        assert old(children[i].node.Repr) !! old(node.Repr) by {
          if i < at { assert old(children[i].node.Repr) !! old(children[at].node.Repr); }
          else { assert old(children[at].node.Repr) !! old(children[i].node.Repr); }
        }
        assert forall o: object | o in old(children[i].node.Repr) :: o in old(Repr);
      }
    }

    /** A change to this node alone leaves its children as they are. */
    twostate lemma KidsSame()
      requires children == old(children) && forall i | 0 <= i < |children| ::
                                              old(children[i].node.Valid()) && this !in old(children[i].node.Repr)
      requires forall i, o: object | 0 <= i < |children| && o in old(children[i].node.Repr) :: unchanged(o)
      ensures forall i | 0 <= i < |children| ::
                var n := children[i].node; n.Valid() && n.Repr == old(n.Repr) && n.view == old(n.view)
    {
      forall i | 0 <= i < |children|
        ensures var n := children[i].node; n.Valid() && n.Repr == old(n.Repr) && n.view == old(n.view)
      {
        OutsideUnmoved(children[i].node);
      }
    }

    twostate lemma AbsorbedInside(at: nat)
      requires at < |children| && children == old(children) && old(Laid(at))
               && Repr == old(Repr) + children[at].node.Repr
      requires forall i | 0 <= i < |children| :: children[i].node.Repr == old(children[i].node.Repr)
      ensures this in Repr && Inside() && Apart()
    {
      forall i, j | 0 <= i < j < |children| ensures children[i].node.Repr !! children[j].node.Repr {
        if j == at { assert old(children[i].node.Repr) !! old(children[at].node.Repr); }
        if i == at { assert old(children[j].node.Repr) !! old(children[at].node.Repr); }
      }
    }

    twostate lemma AbsorbedShown(at: nat)
      requires at < |children| && children == old(children) && slot == old(slot) && old(Listed(at)) && Inside()
      requires subTotal == old(subTotal) && leafSummary == old(leafSummary)
      requires view == old(view).(kids := old(view).kids[KeyOf(children[at]) := children[at].node.view])
      requires forall i | 0 <= i < |children| :: children[i].node.view == old(children[i].node.view)
      ensures Indexed() && Shown()
    {
    }

    /** Bringing the ghost fields of this node up to date with one child. */
    ghost method Absorb(at: nat)
      requires at < |children| && ValidBut(at)
      modifies this`view, this`Repr
      ensures Valid()
      ensures forall o: object | o in Repr :: o in old(Repr) || o in children[at].node.Repr
      ensures view == old(view).(kids := old(view).kids[KeyOf(children[at]) := children[at].node.view])
    {
      Repr := Repr + children[at].node.Repr;
      view := view.(kids := view.kids[KeyOf(children[at]) := children[at].node.view]);
      KidsSame();
      AbsorbedInside(at);
      AbsorbedShown(at);
    }

    constructor (values: seq<string>)
      ensures Valid() && fresh(Repr)
      ensures view == EMPTY_TREE && groupValues == values
    {
      groupValues := values;
      subTotal := [];
      children := [];
      leafSummary := None;
      view := EMPTY_TREE;
      slot := map[];
      Repr := {this};
    }

    /** The children that were there before another was attached. */
    twostate lemma KidsUnmoved(new e: Entry)
      requires old(Valid()) && children == old(children) + [e]
      requires forall o: object | o in old(Repr) && o != this :: unchanged(o)
      ensures forall i | 0 <= i < |old(children)| ::
                var n := children[i].node;
                n == old(children[i].node) && n.Valid() && n.Repr == old(children[i].node.Repr)
                  && n.view == old(children[i].node.view)
    {
      forall i | 0 <= i < |old(children)|
        ensures var n := children[i].node;
                n == old(children[i].node) && n.Valid() && n.Repr == old(children[i].node.Repr)
                  && n.view == old(children[i].node.view)
      {
        OutsideUnmoved(children[i].node);
      }
    }

    twostate lemma AttachedLaid(new e: Entry)
      requires old(Valid()) && e.node.Valid() && e.node.Repr !! old(Repr)
      requires children == old(children) + [e] && Repr == old(Repr) + {e.node}
      requires forall o: object | o in old(Repr) && o != this :: unchanged(o)
      ensures Laid(|old(children)|)
    {
      KidsUnmoved(e);
    }

    twostate lemma AttachedListed(new e: Entry)
      requires old(Valid()) && KeyOf(e) !in old(slot)
      requires children == old(children) + [e] && slot == old(slot)[KeyOf(e) := |old(children)|]
      requires Repr == old(Repr) + {e.node}
      requires view == old(view).(kids := old(view).kids[KeyOf(e) := e.node.view])
      requires subTotal == old(subTotal) && leafSummary == old(leafSummary)
      requires forall o: object | o in old(Repr) && o != this :: unchanged(o)
      ensures Listed(|old(children)|)
    {
      KidsUnmoved(e);
      OneMoreIndexed(old(children), old(slot), e);
    }

    /** The new entry is in place; `Absorb` completes the ghost fields. */
    method Attach(e: Entry)
      requires Valid() && e.node.Valid() && e.node.Repr !! Repr && KeyOf(e) !in slot
      modifies this
      ensures children == old(children) + [e] && Repr == old(Repr) + {e.node}
      ensures ValidBut(|old(children)|)
      ensures e.node.Repr == old(e.node.Repr)
      ensures view == old(view).(kids := old(view).kids[KeyOf(e) := e.node.view])
    {
      slot := slot[KeyOf(e) := |children|];
      children := children + [e];
      Repr := Repr + {e.node};
      view := view.(kids := view.kids[KeyOf(e) := e.node.view]);
      OutsideUnmoved(e.node);
      AttachedLaid(e);
      AttachedListed(e);
    }

    method Emplace(e: Entry)
      requires Valid() && e.node.Valid() && e.node.Repr !! Repr && KeyOf(e) !in slot
      modifies this
      ensures Valid() && children == old(children) + [e]
      ensures forall o: object | o in Repr :: o in old(Repr) || o in old(e.node.Repr)
      ensures view == old(view).(kids := old(view).kids[KeyOf(e) := old(e.node.view)])
    {
      Attach(e);
      SameTree(view, KeyOf(e));
      Absorb(|old(children)|);
    }

    /** `children.emplace(hash, newNode)`, with the values of the event; none when a value throws. */
    method AddChild(h: HashFn, attrs: seq<GroupAttribute>, c: Context) returns (at: Option<nat>)
      requires Valid() && (KeyAt(h, attrs, c).Some? ==> KeyAt(h, attrs, c).value !in slot)
      modifies this
      ensures Valid() && fresh(Repr - old(Repr))
      ensures Placed(h, old(view), attrs, c, at)
    {
      var values := Values(attrs, c);
      if values.None? { return None; }
      var hash := GetHash(h, attrs, c);
      var node := new GroupNode(values.value);
      at := Some(|children|);
      Emplace(Entry(hash, node));
    }

    /** The outcome of finding or adding the child that the event belongs to. */
    ghost predicate Placed(h: HashFn, was: Tree, attrs: seq<GroupAttribute>, c: Context, at: Option<nat>)
      reads this
    {
      match KeyAt(h, attrs, c)
      case None => at.None? && view == was
      case Some(k) =>
        && at.Some? && at.value < |children| && KeyOf(children[at.value]) == k
        && view == was.(kids := was.kids[k := KidOf(was, k)])
    }

    /** Changing what this node counts leaves the rest of the tree as it is. */
    twostate lemma Recounted()
      requires old(Valid()) && children == old(children) && slot == old(slot) && Repr == old(Repr)
      requires view == Tree(subTotal, leafSummary, old(view).kids)
      requires forall o: object | o in old(Repr) && o != this :: unchanged(o)
      ensures Valid()
    {
      KidsSame();
    }

    /** Counting the event here, and in the leaf summary at the bottom of the hierarchy. */
    method Count(c: Context, bottom: bool)
      requires Valid()
      modifies this`subTotal, this`leafSummary, this`view
      ensures Valid()
      ensures view == Counted(old(view), c, bottom)
    {
      subTotal := subTotal + [c];
      if bottom { leafSummary := Some((if leafSummary.Some? then leafSummary.value else []) + [c]); }
      view := Counted(view, c, bottom);
      Recounted();
    }

    method ChildFor(h: HashFn, attrs: seq<GroupAttribute>, c: Context) returns (at: Option<nat>)
      requires Valid()
      modifies this
      ensures Valid() && fresh(Repr - old(Repr))
      ensures Placed(h, old(view), attrs, c, at)
    {
      var found, threw := FindChild(h, children, attrs, c);
      if threw { return None; }
      if found.Some? {
        SameTree(view, KeyOf(children[found.value]));
        return found;
      }
      at := AddChild(h, attrs, c);
    }

    /** The recursive step into one child. */
    method ProcessChild(h: HashFn, c: Context, hier: Hierarchy, level: nat, depth: nat, at: nat) returns (threw: bool)
      requires Valid() && at < |children| && level < |hier|
      modifies Repr
      ensures Valid() && fresh(Repr - old(Repr))
      ensures threw <==> Throws(Keys(h, hier), c, |hier|, level + 1, depth)
      ensures var k := old(KeyOf(children[at]));
              k in old(view).kids &&
              view == old(view).(kids := old(view).kids[k :=
                                                        Processed(Keys(h, hier), old(view).kids[k], c, |hier|,
                                                                  level + 1, depth)])
      decreases |hier| - level, 0
    {
      var node := children[at].node;
      label L:
      threw := node.Process(h, c, hier, level + 1, depth);
      AlmostValid@L(at);
      Absorb(at);
    }

    /** The part of `Process` below the counting at this node. */
    method Descend(h: HashFn, c: Context, hier: Hierarchy, level: nat, depth: nat) returns (threw: bool)
      requires Valid() && level < |hier|
      modifies Repr
      ensures Valid() && fresh(Repr - old(Repr))
      ensures view == Descended(Keys(h, hier), old(view), c, |hier|, level, depth)
      ensures threw <==> KeyAt(h, hier[level], c).None? || Throws(Keys(h, hier), c, |hier|, level + 1, depth)
      decreases |hier| - level, 1
    {
      var at := ChildFor(h, hier[level], c);
      if at.None? { return true; }
      ChildFirst(Keys(h, hier), old(view), view, c, |hier|, level, depth, KeyOf(children[at.value]));
      threw := ProcessChild(h, c, hier, level, depth, at.value);
    }

    /** Processes one event below this node.  `threw` stands for the exception of a node kind that has no name. */
    method Process(h: HashFn, c: Context, hier: Hierarchy, level: nat, depth: nat) returns (threw: bool)
      requires Valid()
      modifies Repr
      ensures Valid() && fresh(Repr - old(Repr))
      ensures view == Processed(Keys(h, hier), old(view), c, |hier|, level, depth)
      ensures threw <==> Throws(Keys(h, hier), c, |hier|, level, depth)
      decreases |hier| - level, 2
    {
      Count(c, level >= |hier|);
      if level >= |hier| || level >= depth { return false; }
      threw := Descend(h, c, hier, level, depth);
    }
  }
}
