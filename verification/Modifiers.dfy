/** Modifiers wrapped around types: taking them off, and putting them back.  Two types are one object
    exactly when they are built alike, as the type cache ensures. */
module Modifiers {
  import opened Options

  /** `typemod_none`, which no type is modified with. */
  const NO_MODIFIER: int := 0

  datatype RawModifier = Modifier(kind: int, extra: int)

  type Modifier = m: RawModifier | m.kind != NO_MODIFIER witness Modifier(1, 0)

  /** `queryModifier` */
  function KindOf(t: Type): int {
    if t.Modified? then t.modifier.kind else NO_MODIFIER
  }

  /** A type is simple, or made from a child type, or another type with a modifier around it. */
  datatype Type =
    | Simple(id: int)
    | Made(code: Code, extra: int, child: Type)
    | Modified(modifier: Modifier, base: Type)

  datatype Code =
    | DictionaryOf | TableOf | GroupedTableOf | RowOf | SetOf | TransformOf | SortListOf | RuleOf | FunctionOf
    | PointerOf | ArrayOf | KeyedIntOf | PackedIntOf | FilePosOf | BlobOf | BitfieldOf

  /** The types that `replaceChildType` can make again with another child. */
  predicate Replaceable(c: Code) {
    c in {DictionaryOf, TableOf, GroupedTableOf, RowOf, SetOf, TransformOf, SortListOf, RuleOf, FunctionOf}
  }

  // ----- the operations -----------------------------------------------------------------------------

  function QueryTypeBase(t: Type): Type {
    if t.Modified? then t.base else t
  }

  /** A modified type has the child of the type inside. */
  function QueryChildType(t: Type): Option<Type> {
    match t
    case Simple(_) => None
    case Made(_, _, child) => Some(child)
    case Modified(_, base) => QueryChildType(base)
  }

  /** `queryUnqualifiedType`: the loop that follows the bases until one is its own base. */
  method QueryUnqualifiedType(t: Type) returns (r: Type)
    ensures r == Unqualified(t)
  {
    r := t;
    while QueryTypeBase(r) != r
      invariant Unqualified(r) == Unqualified(t)
      decreases r
    {
      r := QueryTypeBase(r);
    }
  }

  function Unqualified(t: Type): (r: Type)
    ensures !r.Modified?
  {
    if t.Modified? then Unqualified(t.base) else t
  }

  /** `hasModifier`.  Every type has the modifier that is none: the loop ends at the type inside. */
  method HasModifier(t: Type, kind: int) returns (has: bool)
    ensures has <==> kind == NO_MODIFIER || exists m | m in Chain(t) :: m.kind == kind
  {
    var cur := t;
    while KindOf(cur) != kind
      invariant (exists m | m in Chain(t) :: m.kind == kind) <==> exists m | m in Chain(cur) :: m.kind == kind
      decreases cur
    {
      if KindOf(cur) == NO_MODIFIER { return false; }
      assert forall m :: m in Chain(cur) <==> m == cur.modifier || m in Chain(cur.base);
      cur := cur.base;
    }
    if cur.Modified? { assert Chain(cur)[0] == cur.modifier; }
    return true;
  }

  /** `removeModifier` */
  function RemoveModifier(t: Type, kind: int): Type {
    if !t.Modified? then t
    else if t.modifier.kind == kind then t.base
    else
      var newBase := RemoveModifier(t.base, kind);
      if newBase == t.base then t else Modified(t.modifier, newBase)
  }

  /** `cloneModifiers` */
  function CloneModifiers(donor: Type, src: Type): Type {
    if !donor.Modified? then src else Modified(donor.modifier, CloneModifiers(donor.base, src))
  }

  /** `replaceChildType`; None where it throws. */
  function ReplaceChildType(t: Type, newChild: Type): Option<Type> {
    var u := Unqualified(t);
    if QueryChildType(t) == Some(newChild) then Some(t)
    else if u.Made? && Replaceable(u.code) then
      Some(CloneModifiers(t, Made(u.code, if u.code == FunctionOf then u.extra else 0, newChild)))
    else None
  }

  /** `getFullyUnqualifiedType`: without the modifiers, at this level and all those below. */
  function FullyUnqualified(t: Type): Option<Type>
    decreases t
  {
    var u := Unqualified(t);
    UnqualifiedIsPart(t);
    if !u.Made? then Some(u)
    else
      var newChild := FullyUnqualified(u.child);
      if newChild.None? then None else ReplaceChildType(u, newChild.value)
  }

  lemma {:induction false} UnqualifiedIsPart(t: Type)
    ensures Unqualified(t).Made? ==> Unqualified(t).child < t
  {
    if t.Modified? { UnqualifiedIsPart(t.base); }
  }

  /** Pointers, arrays, blobs, bit fields and the three special integers cannot be made again with another
      child; everything else can, and keeps its code. */
  lemma WhatCanBeReplaced(code: Code, extra: int, child: Type, newChild: Type)
    requires child != newChild
    ensures var r := ReplaceChildType(Made(code, extra, child), newChild);
            && (r.None? <==> code in {PointerOf, ArrayOf, BlobOf, BitfieldOf, KeyedIntOf, PackedIntOf, FilePosOf})
            && (r.Some? ==> r.value.Made? && r.value.code == code && QueryChildType(r.value) == Some(newChild))
            && (r.Some? && code == FunctionOf ==> r.value.extra == extra)
  {
  }

  // ----- chains of modifiers ------------------------------------------------------------------------

  /** The modifiers around a type, outermost first. */
  function Chain(t: Type): seq<Modifier> {
    if t.Modified? then [t.modifier] + Chain(t.base) else []
  }

  /** Cloning puts the donor's modifiers around those of the source, whose own type stays. */
  lemma {:induction false} CloneConcatenates(donor: Type, src: Type)
    ensures Chain(CloneModifiers(donor, src)) == Chain(donor) + Chain(src)
    ensures Unqualified(CloneModifiers(donor, src)) == Unqualified(src)
  {
    if donor.Modified? { CloneConcatenates(donor.base, src); } else { assert [] + Chain(src) == Chain(src); }
  }

  /** A type is its own type with its modifiers cloned onto it. */
  lemma {:induction false} CloneRestores(t: Type)
    ensures CloneModifiers(t, Unqualified(t)) == t
  {
    if t.Modified? { CloneRestores(t.base); }
  }

  function WithoutFirst(ms: seq<Modifier>, kind: int): seq<Modifier> {
    if ms == [] then [] else if ms[0].kind == kind then ms[1..] else [ms[0]] + WithoutFirst(ms[1..], kind)
  }

  /** Removing a modifier takes away its outermost occurrence and nothing else, and gives the same
      object exactly when there is none. */
  lemma {:induction false} RemoveTakesOutermost(t: Type, kind: int)
    ensures Chain(RemoveModifier(t, kind)) == WithoutFirst(Chain(t), kind)
    ensures Unqualified(RemoveModifier(t, kind)) == Unqualified(t)
    ensures RemoveModifier(t, kind) == t <==> !exists m | m in Chain(t) :: m.kind == kind
  {
    if t.Modified? {
      assert Chain(t)[1..] == Chain(t.base) && Chain(t)[0] == t.modifier;
      RemoveTakesOutermost(t.base, kind);
      assert forall m :: m in Chain(t) <==> m == t.modifier || m in Chain(t.base);
      if t.modifier.kind == kind { BaseDiffers(t); }
    }
  }

  lemma {:induction false} BaseDiffers(t: Type)
    requires t.Modified?
    ensures t.base != t
  {
    assert t.base < t;
  }

  /** Putting a donor's modifiers on, and taking one of a kind off that the donor has, leaves the rest. */
  lemma CloneThenRemove(donor: Type, src: Type, kind: int)
    requires exists m | m in Chain(donor) :: m.kind == kind
    ensures RemoveModifier(CloneModifiers(donor, src), kind) == CloneModifiers(RemoveModifier(donor, kind), src)
    decreases donor
  {
    if donor.modifier.kind != kind {
      assert Chain(donor) == [donor.modifier] + Chain(donor.base);
      CloneThenRemove(donor.base, src, kind);
      RemoveTakesOutermost(donor.base, kind);
      RemoveTakesOutermost(CloneModifiers(donor.base, src), kind);
      CloneConcatenates(donor.base, src);
      var m :| m in Chain(donor.base) && m.kind == kind;
      assert m in Chain(CloneModifiers(donor.base, src));
    }
  }

  // ----- all levels ---------------------------------------------------------------------------------

  /** No modifier anywhere. */
  predicate Clean(t: Type) {
    match t
    case Simple(_) => true
    case Made(_, _, child) => Clean(child)
    case Modified(_, _) => false
  }

  /** The unmodified types down the chain of children. */
  function Levels(t: Type): seq<Type> {
    match t
    case Simple(_) => [t]
    case Made(_, _, child) => [t] + Levels(child)
    case Modified(_, base) => Levels(base)
  }

  /** Only functions carry anything besides their child. */
  ghost predicate Plain(t: Type) {
    forall l | l in Levels(t) && l.Made? && Replaceable(l.code) && l.code != FunctionOf :: l.extra == 0
  }

  /** The type without modifiers. */
  function Stripped(t: Type): (r: Type)
    ensures Clean(r)
  {
    match t
    case Simple(_) => t
    case Made(code, extra, child) => Made(code, extra, Stripped(child))
    case Modified(_, base) => Stripped(base)
  }

  lemma {:induction false} CleanIsStripped(t: Type)
    ensures Stripped(t) == t <==> Clean(t)
  {
    match t
    case Simple(_) =>
    case Made(_, _, child) => CleanIsStripped(child);
    case Modified(_, _) => assert Clean(Stripped(t));
  }

  /** A modifier lies below a type that cannot be made again. */
  predicate Stuck(l: Type) {
    l.Made? && !Replaceable(l.code) && !Clean(l.child)
  }

  lemma {:induction false} LevelsOfUnqualified(t: Type)
    ensures Levels(Unqualified(t)) == Levels(t) && Stripped(Unqualified(t)) == Stripped(t)
            && Unqualified(t) in Levels(t)
  {
    match t
    case Simple(_) =>
    case Made(_, _, _) => assert Levels(t)[0] == t;
    case Modified(_, base) => LevelsOfUnqualified(base);
  }

  /** Fully unqualifying a type strips the modifiers of every level, unless one of them lies below a
      type that cannot be made again, such as a pointer or an array: exactly then it throws. */
  lemma {:induction false} FullyUnqualifiedStrips(t: Type)
    requires Plain(t)
    ensures FullyUnqualified(t) == if exists l | l in Levels(t) :: Stuck(l) then None else Some(Stripped(t))
    decreases t
  {
    var u := Unqualified(t);
    LevelsOfUnqualified(t);
    UnqualifiedIsPart(t);
    if u.Made? {
      assert Levels(u) == [u] + Levels(u.child);
      assert forall l :: l in Levels(t) <==> l == u || l in Levels(u.child);
      FullyUnqualifiedStrips(u.child);
      CleanIsStripped(u.child);
      if !Replaceable(u.code) && Clean(u.child) { CleanLevels(u.child); }
    } else {
      assert Levels(u) == [u];
    }
  }

  lemma {:induction false} CleanLevels(t: Type)
    requires Clean(t)
    ensures forall l | l in Levels(t) :: !Stuck(l)
  {
    if t.Made? {
      CleanLevels(t.child);
      assert forall l :: l in Levels(t) <==> l == t || l in Levels(t.child);
    }
  }

  /** The result has no modifier at any level, and fully unqualifying it again changes nothing. */
  lemma FullyUnqualifiedIsFinal(t: Type)
    requires Plain(t) && FullyUnqualified(t).Some?
    ensures Clean(FullyUnqualified(t).value) && FullyUnqualified(FullyUnqualified(t).value) == FullyUnqualified(t)
  {
    FullyUnqualifiedStrips(t);
    StripsAgain(FullyUnqualified(t).value);
  }

  lemma {:induction false} StripsAgain(t: Type)
    requires Clean(t)
    ensures FullyUnqualified(t) == Some(t)
  {
    if t.Made? { StripsAgain(t.child); }
  }
}
