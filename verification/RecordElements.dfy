/** The objects that record meta data is made of: elements that are open while their children are added
    and closed for good afterwards, and the procedures that write and read them. */
module RecordElements {
  import opened Options
  import opened TypeCodec
  import opened RecordMeta
  import opened MetaBuffer

  /** The elements directly below one. */
  function Below(e: Element): Elements {
    match e
    case Record(_, es) => es
    case IfBlock(_, field, block) => More(field, More(block, NoElements))
    case Field(_, _, record, _) => if record.None? then NoElements else More(record.value, NoElements)
  }

  function Weight(e: Element): nat {
    match e
    case Record(_, es) => 1 + WeightOfAll(es)
    case IfBlock(_, field, block) => 3 + Weight(field) + Weight(block)
    case Field(_, _, record, _) => if record.None? then 1 else 2 + Weight(record.value)
  }

  function WeightOfAll(es: Elements): nat {
    if es.NoElements? then 0 else 1 + Weight(es.first) + WeightOfAll(es.rest)
  }

  lemma BelowIsLighter(e: Element)
    ensures Weight(e) == 1 + WeightOfAll(Below(e))
  {
    if e.IfBlock? {
      assert WeightOfAll(Below(e)) == 1 + Weight(e.field) + WeightOfAll(More(e.block, NoElements));
    }
  }

  /** `CDefRecordElement`, and `CDefIfBlock` when it has a value. */
  class DefRecordElement {
    const kind: int
    const name: Option<Bytes>
    const fieldType: Option<Type>
    const maxSize: int
    const value: Option<Value>
    var children: seq<DefRecordElement>
    var closed: bool
    /** The objects that the element consists of. */
    ghost var Repr: set<DefRecordElement>

    constructor (kind: int, name: Option<Bytes>, fieldType: Option<Type>, maxSize: int, value: Option<Value>)
      ensures this.kind == kind && this.name == name && this.fieldType == fieldType && this.maxSize == maxSize
              && this.value == value
      ensures children == [] && !closed && Repr == {this}
    {
      this.kind, this.name, this.fieldType, this.maxSize, this.value := kind, name, fieldType, maxSize, value;
      children, closed, Repr := [], false, {this};
    }

    /** The element and all those below it are closed, and they stand for the tree. */
    ghost predicate Shows(e: Element)
      reads this, Repr
      decreases Weight(e)
    {
      BelowIsLighter(e);
      && closed && this in Repr && (forall c | c in children :: c in Repr && c.Repr <= Repr)
      && (forall x | x in Repr :: x.closed)
      && Labelled(e) && AllShow(children, Below(e))
    }

    ghost predicate Labelled(e: Element) {
      match e
      case Record(m, _) => kind == KIND_RECORD && maxSize == m
      case IfBlock(v, _, _) => kind == KIND_IFBLOCK && value == Some(v)
      case Field(n, t, _, m) => kind == KIND_FIELD && name == n && fieldType == t && maxSize == m
    }

    /** `appendChild`; an assertion fails when the element is closed. */
    method AppendChild(elem: DefRecordElement) returns (ok: bool)
      modifies this
      ensures ok <==> !old(closed)
      ensures closed == old(closed)
      ensures children == if ok then old(children) + [elem] else old(children)
      ensures Repr == if ok then old(Repr) + elem.Repr else old(Repr)
      ensures forall root: DefRecordElement, e: Element | old(allocated(root)) && old(root.Shows(e)) :: root.Shows(e)
    {
      if closed { return false; }
      children, Repr := children + [elem], Repr + elem.Repr;
      return true;
    }

    /** `close`; an assertion fails when the element is closed already. */
    method Close() returns (ok: bool)
      modifies this`closed
      ensures ok <==> !old(closed)
      ensures closed
      ensures forall root: DefRecordElement, e: Element | old(allocated(root)) && old(root.Shows(e)) :: root.Shows(e)
    {
      if closed { return false; }
      closed := true;
      return true;
    }
  }

  ghost predicate AllShow(list: seq<DefRecordElement>, es: Elements)
    reads list, set c, o | c in list && o in c.Repr :: o
    decreases WeightOfAll(es)
  {
    if es.NoElements? then list == [] else list != [] && list[0].Shows(es.first) && AllShow(list[1..], es.rest)
  }

  lemma OneShows(a: DefRecordElement, x: Element)
    requires a.Shows(x)
    ensures AllShow([a], More(x, NoElements))
  {
    assert [a][1..] == [];
  }

  lemma TwoShow(a: DefRecordElement, x: Element, b: DefRecordElement, y: Element)
    requires a.Shows(x) && b.Shows(y)
    ensures AllShow([a, b], More(x, More(y, NoElements)))
  {
    OneShows(b, y);
    assert [a, b][1..] == [b];
  }

  lemma PartsShow(o: DefRecordElement, e: Element)
    requires o.Shows(e)
    ensures e.IfBlock? ==> |o.children| == 2 && o.children[0].Shows(e.field) && o.children[1].Shows(e.block)
    ensures e.Field? ==>
            if e.record.None? then o.children == [] else |o.children| == 1 && o.children[0].Shows(e.record.value)
  {
    if e.IfBlock? {
      assert AllShow(o.children[1..], More(e.block, NoElements));
      assert o.children[1..][0] == o.children[1] && AllShow(o.children[1..][1..], NoElements);
    } else if e.Field? && e.record.Some? {
      assert AllShow(o.children[1..], NoElements);
    }
  }

  /** An element stands for one tree only. */
  lemma {:induction false} ShowsOne(o: DefRecordElement, d: Element, e: Element)
    requires o.Shows(d) && o.Shows(e)
    ensures d == e
    decreases Weight(d)
  {
    BelowIsLighter(d);
    AllShowOne(o.children, Below(d), Below(e));
  }

  lemma {:induction false} AllShowOne(list: seq<DefRecordElement>, ds: Elements, es: Elements)
    requires AllShow(list, ds) && AllShow(list, es)
    ensures ds == es
    decreases WeightOfAll(ds)
  {
    if ds.More? {
      ShowsOne(list[0], ds.first, es.first);
      AllShowOne(list[1..], ds.rest, es.rest);
    }
  }

  /** `CDefRecordBuilder` */
  class DefRecordBuilder {
    var elem: DefRecordElement?

    constructor (maxSize: int)
      ensures elem != null && fresh(elem) && elem.kind == KIND_RECORD && elem.maxSize == maxSize
      ensures elem.children == [] && !elem.closed && elem.Repr == {elem}
    {
      elem := new DefRecordElement(KIND_RECORD, None, None, maxSize, None);
    }

    method AddChild(element: DefRecordElement) returns (ok: bool)
      requires elem != null
      modifies elem
      ensures ok <==> !old(elem.closed)
      ensures elem.closed == old(elem.closed)
      ensures elem.children == if ok then old(elem.children) + [element] else old(elem.children)
      ensures elem.Repr == if ok then old(elem.Repr) + element.Repr else old(elem.Repr)
    {
      ok := elem.AppendChild(element);
    }

    /** `close`: the builder gives its element away, and cannot be used again. */
    method Close() returns (ok: bool, result: DefRecordElement)
      requires elem != null
      modifies this, elem`closed
      ensures ok <==> !old(elem.closed)
      ensures elem == null && result == old(elem) && result.closed
    {
      result := elem;
      elem := null;
      ok := result.Close();
    }
  }

  /** `createDEfield` */
  method CreateField(name: Option<Bytes>, t: Option<Type>, record: DefRecordElement?, maxSize: int,
                     ghost shown: Option<Element>)
    returns (r: DefRecordElement)
    requires record == null <==> shown.None?
    requires record != null ==> record.Shows(shown.value)
    ensures r.Shows(Field(name, t, shown, maxSize))
    ensures fresh(r) && forall x | x in r.Repr :: x == r || (record != null && x in record.Repr)
  {
    r := new DefRecordElement(KIND_FIELD, name, t, maxSize, None);
    if record != null {
      var ok := r.AppendChild(record);
      OneShows(record, shown.value);
    }
    var ok := r.Close();
  }

  lemma BlockShows(r: DefRecordElement, value: Value, field: DefRecordElement, f: Element, block: DefRecordElement,
                   b: Element)
    requires r.closed && r.kind == KIND_IFBLOCK && r.value == Some(value) && r.children == [field, block]
    requires r.Repr == {r} + field.Repr + block.Repr && field.Shows(f) && block.Shows(b)
    ensures r.Shows(IfBlock(value, f, b))
  {
    TwoShow(field, f, block, b);
  }

  /** `createDEifblock` */
  method CreateIfBlock(field: DefRecordElement, value: Value, block: DefRecordElement, ghost f: Element,
                       ghost b: Element)
    returns (r: DefRecordElement)
    requires field.Shows(f) && block.Shows(b)
    ensures r.Shows(IfBlock(value, f, b))
    ensures fresh(r) && forall x | x in r.Repr :: x == r || x in field.Repr || x in block.Repr
  {
    r := new DefRecordElement(KIND_IFBLOCK, None, None, 0, Some(value));
    var ok := r.AppendChild(field);
    ok := r.AppendChild(block);
    ok := r.Close();
    BlockShows(r, value, field, f, block, b);
  }

  // ----- writing ------------------------------------------------------------------------------------

  /** The tree that an element stands for, if there is an element. */
  ghost predicate ShowsOpt(o: DefRecordElement?, e: Option<Element>)
    reads o, if o == null then {} else o.Repr
  {
    if o == null then e.None? else e.Some? && o.Shows(e.value)
  }

  lemma {:induction false} CountOfShown(list: seq<DefRecordElement>, es: Elements)
    requires AllShow(list, es)
    ensures |list| == Count(es)
    decreases es
  {
    if es.More? { CountOfShown(list[1..], es.rest); }
  }

  /** `serializeElement`; an exception from a type is reported as failure. */
  method SerializeElement(target: MemoryBuffer, elem: DefRecordElement?, ghost e: Option<Element>) returns (ok: bool)
    requires ShowsOpt(elem, e)
    modifies target`data
    ensures ok <==> EncElementOpt(e).Some?
    ensures ok ==> target.data == old(target.data) + EncElementOpt(e).value
    decreases if e.None? then 0 else Weight(e.value), 1
  {
    if elem == null {
      target.Append(EncByte(KIND_NONE));
      return true;
    }
    BelowIsLighter(e.value);
    if elem.kind == KIND_RECORD {
      target.Append(EncByte(KIND_RECORD));
      target.Append(EncU32(elem.maxSize));
      target.Append(EncU32(|elem.children|));
      CountOfShown(elem.children, e.value.children);
      ok := SerializeChildren(target, elem.children, e.value.children);
    } else if elem.kind == KIND_IFBLOCK {
      ok := SerializeIfBlock(target, elem, e.value);
    } else {
      ok := SerializeField(target, elem, e.value);
    }
  }

  lemma OneAfterTheOther(before: Bytes, a: Bytes, b: Bytes, c: Bytes, d: Bytes)
    ensures before + a + b + c + d == before + (a + b + c + d)
  {
  }

  method SerializeIfBlock(target: MemoryBuffer, elem: DefRecordElement, ghost e: Element) returns (ok: bool)
    requires e.IfBlock? && elem.Shows(e)
    modifies target`data
    ensures ok <==> EncElement(e).Some?
    ensures ok ==> target.data == old(target.data) + EncElement(e).value
    decreases Weight(e), 0
  {
    PartsShow(elem, e);
    var value, field, block := elem.value.value, elem.children[0], elem.children[1];
    target.Append(EncByte(KIND_IFBLOCK));
    if EncValue(value).None? { return false; }
    target.Append(EncValue(value).value);
    ok := SerializeElement(target, field, Some(e.field));
    if ok { ok := SerializeElement(target, block, Some(e.block)); }
    if ok {
      OneAfterTheOther(old(target.data), EncByte(KIND_IFBLOCK), EncValue(value).value, EncElement(e.field).value,
                       EncElement(e.block).value);
    }
  }

  method SerializeField(target: MemoryBuffer, elem: DefRecordElement, ghost e: Element) returns (ok: bool)
    requires e.Field? && elem.Shows(e)
    modifies target`data
    ensures ok <==> EncElement(e).Some?
    ensures ok ==> target.data == old(target.data) + EncElement(e).value
    decreases Weight(e), 0
  {
    PartsShow(elem, e);
    var record := if elem.children == [] then null else elem.children[0];
    target.Append(EncByte(KIND_FIELD) + EncName(elem.name));
    if elem.fieldType.None? || Enc(elem.fieldType.value).None? { return false; }
    target.Append(Enc(elem.fieldType.value).value);
    ok := SerializeElement(target, record, e.record);
    if ok {
      target.Append(EncU32(elem.maxSize));
      OneAfterTheOther(old(target.data), EncByte(KIND_FIELD) + EncName(e.name), Enc(e.fieldType.value).value,
                       EncElementOpt(e.record).value, EncU32(e.maxSize));
    }
  }

  /** The loop over the children of a record. */
  method SerializeChildren(target: MemoryBuffer, list: seq<DefRecordElement>, ghost es: Elements) returns (ok: bool)
    requires AllShow(list, es)
    modifies target`data
    ensures ok <==> EncElements(es).Some?
    ensures ok ==> target.data == old(target.data) + EncElements(es).value
    decreases WeightOfAll(es), 2
  {
    ghost var left := es;
    for i := 0 to |list|
      invariant AllShow(list[i..], left) && WeightOfAll(left) <= WeightOfAll(es)
      invariant EncElements(left).Some? <==> EncElements(es).Some?
      invariant EncElements(es).Some? ==>
                target.data + EncElements(left).value == old(target.data) + EncElements(es).value
    {
      ok := SerializeElement(target, list[i], Some(left.first));
      if !ok { return; }
      assert list[i..][1..] == list[i + 1..];
      left := left.rest;
    }
    return true;
  }

  // ----- reading ------------------------------------------------------------------------------------

  function Joined(es: Elements, more: Elements): Elements {
    if es.NoElements? then more else More(es.first, Joined(es.rest, more))
  }

  lemma {:induction false} JoinedTwice(a: Elements, b: Elements, c: Elements)
    ensures Joined(Joined(a, b), c) == Joined(a, Joined(b, c))
  {
    if a.More? { JoinedTwice(a.rest, b, c); }
  }

  lemma {:induction false} JoinedNothing(es: Elements)
    ensures Joined(es, NoElements) == es
  {
    if es.More? { JoinedNothing(es.rest); }
  }

  lemma {:induction false} OneMoreShows(list: seq<DefRecordElement>, es: Elements, c: DefRecordElement, e: Element)
    requires AllShow(list, es) && c.Shows(e)
    ensures AllShow(list + [c], Joined(es, More(e, NoElements)))
    decreases |list|
  {
    if es.NoElements? {
      OneShows(c, e);
      assert list + [c] == [c];
    } else {
      OneMoreShows(list[1..], es.rest, c, e);
      assert (list + [c])[1..] == list[1..] + [c];
    }
  }

  /** Elements that have been read, followed by those that are still to be read. */
  function Resumed(es: Elements, more: Option<Read<Elements>>): Option<Read<Elements>> {
    if more.None? then None else Some(Read(Joined(es, more.value.value), more.value.rest))
  }

  lemma ResumedOnce(size: SizeFn, n: nat, bs: Bytes, es: Elements)
    requires n > 0
    ensures var f := DecElement(size, bs);
            Resumed(es, DecElements(size, n, bs)) ==
            if f.None? || f.value.value.None? then None
            else Resumed(Joined(es, More(f.value.value.value, NoElements)), DecElements(size, n - 1, f.value.rest))
  {
    var f := DecElement(size, bs);
    if f.Some? && f.value.value.Some? {
      var rest := DecElements(size, n - 1, f.value.rest);
      if rest.Some? { JoinedTwice(es, More(f.value.value.value, NoElements), rest.value.value); }
    }
  }

  /** What a read makes: the tree, in objects of its own, and the cursor after it. */
  ghost predicate Made(source: MemoryBuffer, expected: Option<Read<Option<Element>>>, r: Option<DefRecordElement?>)
    reads source, if r.Some? && r.value != null then {r.value} + r.value.Repr else {}
  {
    && source.Valid()
    && if expected.None? then r.None?
       else r.Some? && ShowsOpt(r.value, expected.value.value) && source.Remaining() == expected.value.rest
  }

  /** An open element with its children. */
  ghost predicate Collects(o: DefRecordElement, es: Elements)
    reads o, o.Repr
  {
    && !o.closed && o in o.Repr
    && (forall c | c in o.children :: c in o.Repr && c.Repr <= o.Repr && c in c.Repr && o !in c.Repr)
    && (forall x | x in o.Repr && x != o :: x.closed)
    && AllShow(o.children, es)
  }

  /** `deserializeElement`: every call takes at least the kind byte, so reading any bytes ends. */
  method DeserializeElement(size: SizeFn, source: MemoryBuffer) returns (r: Option<DefRecordElement?>)
    requires source.Valid()
    modifies source`readPos
    ensures Made(source, DecElement(size, old(source.Remaining())), r)
    ensures r.Some? && r.value != null ==> forall x | x in r.value.Repr :: fresh(x)
    decreases |source.Remaining()|, 0
  {
    var kind := source.ReadByte();
    if kind.None? { return None; }
    if kind.value == KIND_NONE { return Some(null); }
    if kind.value == KIND_RECORD {
      r := DeserializeRecord(size, source);
    } else if kind.value == KIND_IFBLOCK {
      r := DeserializeIfBlock(size, source);
    } else if kind.value == KIND_FIELD {
      r := DeserializeField(size, source);
    } else {
      return None;
    }
  }

  method DeserializeRecord(size: SizeFn, source: MemoryBuffer) returns (r: Option<DefRecordElement?>)
    requires source.Valid()
    modifies source`readPos
    ensures Made(source, DecRecord(size, old(source.Remaining())), r)
    ensures r.Some? ==> r.value != null && forall x | x in r.value.Repr :: fresh(x)
    decreases |source.Remaining()|, 3
  {
    var maxSize := source.ReadU32();
    if maxSize.None? { return None; }
    var n := source.ReadU32();
    if n.None? || n.value < 0 { return None; }
    var builder := new DefRecordBuilder(maxSize.value);
    ghost var es;
    var ok;
    ok, es := DeserializeChildren(size, source, builder, n.value);
    if !ok { return None; }
    var result;
    ok, result := builder.Close();
    assert result.Shows(Record(maxSize.value, es));
    return Some(result);
  }

  /** `addChildOwn`, of a finished element to an open one. */
  method AddChildOwn(builder: DefRecordBuilder, element: DefRecordElement, ghost es: Elements, ghost e: Element)
    requires builder.elem != null && Collects(builder.elem, es) && element.Shows(e) && builder.elem !in element.Repr
    modifies builder.elem
    ensures Collects(builder.elem, Joined(es, More(e, NoElements)))
    ensures forall x | x in builder.elem.Repr :: x in old(builder.elem.Repr) || x in old(element.Repr)
  {
    var elem := builder.elem;
    ghost var list := elem.children + [element];
    OneMoreShows(elem.children, es, element, e);
    assert forall c | c in list :: c in c.Repr && elem !in c.Repr;
    var ok := builder.AddChild(element);
    assert elem.children == list && AllShow(list, Joined(es, More(e, NoElements)));
  }

  /** One child, added to the builder. */
  method DeserializeChild(size: SizeFn, source: MemoryBuffer, builder: DefRecordBuilder, ghost es: Elements)
    returns (ok: bool)
    requires source.Valid() && builder.elem != null && Collects(builder.elem, es)
    modifies source`readPos, builder.elem
    ensures source.Valid()
    ensures var d := DecElement(size, old(source.Remaining()));
            && ok == (d.Some? && d.value.value.Some?)
            && (ok ==> source.Remaining() == d.value.rest && Collects(builder.elem,
                                                                      Joined(es, More(d.value.value.value,
                                                                          NoElements))))
    ensures ok ==> forall x | x in builder.elem.Repr :: x in old(builder.elem.Repr) || fresh(x)
    decreases |source.Remaining()|, 1
  {
    ghost var d := DecElement(size, source.Remaining());
    var child := DeserializeElement(size, source);
    if child.None? || child.value == null { return false; }
    AddChildOwn(builder, child.value, es, d.value.value.value);
    return true;
  }

  /** The loop over the children of a record. */
  method DeserializeChildren(size: SizeFn, source: MemoryBuffer, builder: DefRecordBuilder, n: nat)
    returns (ok: bool, ghost es: Elements)
    requires source.Valid() && builder.elem != null && Collects(builder.elem, NoElements)
    modifies source`readPos, builder.elem
    ensures source.Valid()
    ensures ok ==>
              Collects(builder.elem, es) && forall x | x in builder.elem.Repr :: x in old(builder.elem.Repr) || fresh(x)
    ensures var d := DecElements(size, n, old(source.Remaining()));
            if ok then d == Some(Read(es, source.Remaining())) else d.None?
    decreases |source.Remaining()|, 2
  {
    es := NoElements;
    ghost var start := source.Remaining();
    for i := 0 to n
      invariant source.Valid() && |source.Remaining()| <= |start|
      invariant Collects(builder.elem, es) && forall x | x in builder.elem.Repr ::
                                                x in old(builder.elem.Repr) || fresh(x)
      invariant DecElements(size, n, start) == Resumed(es, DecElements(size, n - i, source.Remaining()))
    {
      ResumedOnce(size, n - i, source.Remaining(), es);
      ghost var d := DecElement(size, source.Remaining());
      ok := DeserializeChild(size, source, builder, es);
      if !ok { return; }
      es := Joined(es, More(d.value.value.value, NoElements));
    }
    JoinedNothing(es);
    return true, es;
  }

  method DeserializeIfBlock(size: SizeFn, source: MemoryBuffer) returns (r: Option<DefRecordElement?>)
    requires source.Valid()
    modifies source`readPos
    ensures Made(source, DecIfBlock(size, old(source.Remaining())), r)
    ensures r.Some? ==> r.value != null && forall x | x in r.value.Repr :: fresh(x)
    decreases |source.Remaining()|, 2
  {
    var value := ReadValue(size, source);
    if value.None? { return None; }
    ghost var f := DecElement(size, source.Remaining());
    var field := DeserializeElement(size, source);
    if field.None? || field.value == null { return None; }
    ghost var b := DecElement(size, source.Remaining());
    var block := DeserializeElement(size, source);
    if block.None? || block.value == null { return None; }
    var result := CreateIfBlock(field.value, value.value, block.value, f.value.value.value, b.value.value.value);
    return Some(result);
  }

  method DeserializeField(size: SizeFn, source: MemoryBuffer) returns (r: Option<DefRecordElement?>)
    requires source.Valid()
    modifies source`readPos
    ensures Made(source, DecField(size, old(source.Remaining())), r)
    ensures r.Some? ==> r.value != null && forall x | x in r.value.Repr :: fresh(x)
    decreases |source.Remaining()|, 2
  {
    var name := source.ReadAtom();
    if name.None? { return None; }
    var t := ReadType(source);
    if t.None? { return None; }
    ghost var d := DecElement(size, source.Remaining());
    var record := DeserializeElement(size, source);
    if record.None? { return None; }
    var maxSize := source.ReadU32();
    if maxSize.None? { return None; }
    var result := CreateField(name.value, t.value, record.value, maxSize.value, d.value.value);
    return Some(result);
  }

  // ----- the meta data ------------------------------------------------------------------------------

  /** `doSerializeRecordMeta` */
  method SerializeRecordMeta(target: MemoryBuffer, record: DefRecordElement?, numKeyed: int,
                             ghost shown: Option<Element>) returns (ok: bool)
    requires ShowsOpt(record, shown)
    modifies target`data
    ensures ok <==> EncMeta(Meta(shown, numKeyed)).Some?
    ensures ok ==> target.data == old(target.data) + EncMeta(Meta(shown, numKeyed)).value
  {
    ok := SerializeElement(target, record, shown);
    if ok { target.Append(EncU32(numKeyed)); }
  }

  /** `doDeserializeRecordMeta` */
  method DeserializeRecordMeta(size: SizeFn, source: MemoryBuffer)
    returns (ok: bool, record: DefRecordElement?, numKeyed: int)
    requires source.Valid()
    modifies source`readPos
    ensures source.Valid()
    ensures var d := DecMeta(size, old(source.Remaining()));
            && (ok <==> d.Some?)
            && (ok ==>
                  && ShowsOpt(record, d.value.value.record) && numKeyed == d.value.value.numKeyed
                  && source.Remaining() == d.value.rest)
    ensures ok && record != null ==> forall x | x in record.Repr :: fresh(x)
  {
    record, numKeyed := null, 0;
    var r := DeserializeElement(size, source);
    if r.None? { return false, null, 0; }
    var n := source.ReadU32();
    if n.None? { return false, null, 0; }
    return true, r.value, n.value;
  }
}
