/** The byte form of record meta data: a tree of records, fields and conditional blocks, appended to a
    buffer and read back through a cursor. */
module RecordMeta {
  import opened Options
  import opened TypeCodec

  /** A value that a conditional block is compared with: its type, and its bytes in memory. */
  datatype Value = Value(valueType: Type, mem: Bytes)

  /** `getSize` of a type. */
  type SizeFn = Type -> nat

  /** Names are atoms, which are compared without regard to case and given in lower case here. */
  datatype Element =
    | Record(maxSize: int, children: Elements)
    | IfBlock(value: Value, field: Element, block: Element)
    | Field(name: Option<Bytes>, fieldType: Option<Type>, record: Option<Element>, maxSize: int)

  datatype Elements = NoElements | More(first: Element, rest: Elements)

  datatype Meta = Meta(record: Option<Element>, numKeyed: int)

  function Count(es: Elements): nat {
    if es.NoElements? then 0 else 1 + Count(es.rest)
  }

  // ----- writing ------------------------------------------------------------------------------------

  const KIND_NONE: int := 0
  const KIND_RECORD: int := 1
  const KIND_IFBLOCK: int := 2
  const KIND_FIELD: int := 3

  /** `serializeAtom`; a missing name is written like an empty one. */
  function EncName(name: Option<Bytes>): Bytes {
    var text := if name.Some? then name.value else [];
    EncU32(|text|) + text
  }

  /** `serializeValue` */
  function EncValue(v: Value): Option<Bytes> {
    if Enc(v.valueType).None? then None else Some(Enc(v.valueType).value + v.mem)
  }

  function EncElementOpt(e: Option<Element>): Option<Bytes> {
    if e.None? then Some(EncByte(KIND_NONE)) else EncElement(e.value)
  }

  /** `serializeElement`; None where a type throws, or a field has none. */
  function EncElement(e: Element): Option<Bytes> {
    match e
    case Record(maxSize, children) =>
      var cs := EncElements(children);
      if cs.None? then None else Some(EncByte(KIND_RECORD) + EncU32(maxSize) + EncU32(Count(children)) + cs.value)
    case IfBlock(value, field, block) =>
      var v, f, b := EncValue(value), EncElement(field), EncElement(block);
      if v.None? || f.None? || b.None? then None else Some(EncByte(KIND_IFBLOCK) + v.value + f.value + b.value)
    case Field(name, t, record, maxSize) =>
      var ty, r := if t.None? then None else Enc(t.value), EncElementOpt(record);
      if ty.None? || r.None? then None
        else Some(EncByte(KIND_FIELD) + EncName(name) + ty.value + r.value + EncU32(maxSize))
  }

  function EncElements(es: Elements): Option<Bytes> {
    match es
    case NoElements => Some([])
    case More(first, rest) =>
      var f, r := EncElement(first), EncElements(rest);
      if f.None? || r.None? then None else Some(f.value + r.value)
  }

  // ----- reading ------------------------------------------------------------------------------------

  /** `deserializeAtom`; the length -1 stands for no text. */
  function DecAtom(bs: Bytes): (r: Option<Read<Option<Bytes>>>)
    ensures r.Some? ==> |r.value.rest| <= |bs|
  {
    var n := DecU32(bs);
    if n.None? then None
    else if n.value.value == TWO_32 - 1 then Some(Read(None, n.value.rest))
    else if !(0 <= n.value.value <= |n.value.rest|) then None
    else Some(Read(Some(n.value.rest[..n.value.value]), n.value.rest[n.value.value..]))
  }

  function DecType(bs: Bytes): (r: Option<Read<Type>>)
    ensures r.Some? ==> |r.value.rest| < |bs|
  {
    var t := DecOpt(bs);
    if t.None? || t.value.value.None? then None else Some(Read(t.value.value.value, t.value.rest))
  }

  function DecValue(size: SizeFn, bs: Bytes): (r: Option<Read<Value>>)
    ensures r.Some? ==> |r.value.rest| < |bs|
  {
    var t := DecType(bs);
    if t.None? || |t.value.rest| < size(t.value.value) then None
    else
      var n := size(t.value.value);
      Some(Read(Value(t.value.value, t.value.rest[..n]), t.value.rest[n..]))
  }

  /** `deserializeElement`, which may give no element. */
  function DecElement(size: SizeFn, bs: Bytes): (r: Option<Read<Option<Element>>>)
    ensures r.Some? ==> |r.value.rest| < |bs|
    decreases |bs|, 0
  {
    if bs == [] then None
    else if bs[0] == KIND_NONE then Some(Read(None, bs[1..]))
    else if bs[0] == KIND_RECORD then DecRecord(size, bs[1..])
    else if bs[0] == KIND_IFBLOCK then DecIfBlock(size, bs[1..])
    else if bs[0] == KIND_FIELD then DecField(size, bs[1..])
    else None
  }

  function DecRecord(size: SizeFn, bs: Bytes): (r: Option<Read<Option<Element>>>)
    ensures r.Some? ==> |r.value.rest| < |bs|
    decreases |bs|, 2
  {
    var maxSize := DecU32(bs);
    if maxSize.None? then None
    else
      var n := DecU32(maxSize.value.rest);
      if n.None? || n.value.value < 0 then None
      else
        var cs := DecElements(size, n.value.value, n.value.rest);
        if cs.None? then None else Some(Read(Some(Record(maxSize.value.value, cs.value.value)), cs.value.rest))
  }

  function DecIfBlock(size: SizeFn, bs: Bytes): (r: Option<Read<Option<Element>>>)
    ensures r.Some? ==> |r.value.rest| < |bs|
    decreases |bs|, 2
  {
    var v := DecValue(size, bs);
    if v.None? then None
    else
      var f := DecElement(size, v.value.rest);
      if f.None? || f.value.value.None? then None
      else
        var b := DecElement(size, f.value.rest);
        if b.None? || b.value.value.None? then None
        else Some(Read(Some(IfBlock(v.value.value, f.value.value.value, b.value.value.value)), b.value.rest))
  }

  function DecField(size: SizeFn, bs: Bytes): (r: Option<Read<Option<Element>>>)
    ensures r.Some? ==> |r.value.rest| < |bs|
    decreases |bs|, 2
  {
    var name := DecAtom(bs);
    if name.None? then None
    else
      var t := DecOpt(name.value.rest);
      if t.None? then None
      else
        var r := DecElement(size, t.value.rest);
        if r.None? then None
        else
          var maxSize := DecU32(r.value.rest);
          if maxSize.None? then None
          else Some(Read(Some(Field(name.value.value, t.value.value, r.value.value, maxSize.value.value)),
                         maxSize.value.rest))
  }

  function DecElements(size: SizeFn, n: nat, bs: Bytes): (r: Option<Read<Elements>>)
    ensures r.Some? ==> |r.value.rest| <= |bs|
    decreases |bs|, 1
  {
    if n == 0 then Some(Read(NoElements, bs))
    else
      var f := DecElement(size, bs);
      if f.None? || f.value.value.None? then None
      else
        var r := DecElements(size, n - 1, f.value.rest);
        if r.None? then None else Some(Read(More(f.value.value.value, r.value.value), r.value.rest))
  }

  /** `doSerializeRecordMeta` */
  function EncMeta(m: Meta): Option<Bytes> {
    var e := EncElementOpt(m.record);
    if e.None? then None else Some(e.value + EncU32(m.numKeyed))
  }

  /** `doDeserializeRecordMeta` */
  function DecMeta(size: SizeFn, bs: Bytes): Option<Read<Meta>> {
    var e := DecElement(size, bs);
    if e.None? then None
    else
      var n := DecU32(e.value.rest);
      if n.None? then None else Some(Read(Meta(e.value.value, n.value.value), n.value.rest))
  }

  // ----- the round trip -----------------------------------------------------------------------------

  /** What element objects can hold. */
  ghost predicate Admissible(size: SizeFn, e: Element) {
    match e
    case Record(maxSize, children) => IsU32(maxSize) && IsU32(Count(children)) && AllAdmissible(size, children)
    case IfBlock(value, field, block) => AdmissibleValue(size, value) && Admissible(size, field)
      && Admissible(size, block)
    case Field(name, t, record, maxSize) =>
      && IsU32(maxSize) && (name.Some? ==> |name.value| < TWO_32 - 1) && (t.Some? ==> WellFormed(t.value))
      && (record.Some? ==> Admissible(size, record.value))
  }

  ghost predicate AllAdmissible(size: SizeFn, es: Elements) {
    es.More? ==> Admissible(size, es.first) && AllAdmissible(size, es.rest)
  }

  ghost predicate AdmissibleValue(size: SizeFn, v: Value) {
    WellFormed(v.valueType) && |v.mem| == size(v.valueType)
  }

  /** Every field has a name and a type, and every type survives. */
  predicate PersistableElement(e: Element) {
    match e
    case Record(_, children) => AllPersistable(children)
    case IfBlock(value, field, block) => Persistable(value.valueType) && PersistableElement(field)
      && PersistableElement(block)
    case Field(name, t, record, _) =>
      name.Some? && t.Some? && Persistable(t.value) && (record.Some? ==> PersistableElement(record.value))
  }

  predicate AllPersistable(es: Elements) {
    es.More? ==> PersistableElement(es.first) && AllPersistable(es.rest)
  }

  lemma {:induction false} PersistableIsWritten(t: Type)
    requires WellFormed(t) && Persistable(t)
    ensures Enc(t).Some?
    decreases Rank(t)
  {
    match t
    case Based(_, base) => if base.Some? { PersistableIsWritten(base.value); }
    case Array(_, base) =>
      assert Rank(t) == 1 + RankOpt(base);
      if base.Some? { PersistableIsWritten(base.value); }
    case Table(row) =>
      var base := row.value.base;
      assert ChildType(row.value) == base && Rank(t) == 1 + Rank(row.value) && Rank(row.value) == 1 + RankOpt(base);
      if base.Some? { PersistableIsWritten(base.value); }
      assert EncSkippingChild(TABLE, t).Some?;
    case _ =>
  }

  lemma TypeBack(t: Type, rest: Bytes)
    requires WellFormed(t) && Persistable(t)
    ensures Enc(t).Some? && DecOpt(Enc(t).value + rest) == Some(Read(Some(t), rest))
  {
    PersistableIsWritten(t);
    TypeReadsBack(t, rest);
    assert EncOpt(Some(t)) == Enc(t);
  }

  lemma AtomBack(name: Bytes, rest: Bytes)
    requires |name| < TWO_32 - 1
    ensures DecAtom(EncName(Some(name)) + rest) == Some(Read(Some(name), rest))
  {
    assert EncName(Some(name)) + rest == EncU32(|name|) + (name + rest);
    U32Back(|name|, name + rest);
  }

  lemma ValueBack(size: SizeFn, v: Value, rest: Bytes)
    requires AdmissibleValue(size, v) && Persistable(v.valueType)
    ensures EncValue(v).Some? && DecValue(size, EncValue(v).value + rest) == Some(Read(v, rest))
  {
    TypeBack(v.valueType, v.mem + rest);
    assert EncValue(v).value + rest == Enc(v.valueType).value + (v.mem + rest);
  }

  ghost predicate ElementReadsBack(size: SizeFn, e: Element, rest: Bytes) {
    EncElement(e).Some? && DecElement(size, EncElement(e).value + rest) == Some(Read(Some(e), rest))
  }

  ghost predicate ElementOptReadsBack(size: SizeFn, e: Option<Element>, rest: Bytes) {
    EncElementOpt(e).Some? && DecElement(size, EncElementOpt(e).value + rest) == Some(Read(e, rest))
  }

  ghost predicate ElementsReadBack(size: SizeFn, es: Elements, rest: Bytes) {
    EncElements(es).Some? && DecElements(size, Count(es), EncElements(es).value + rest) == Some(Read(es, rest))
  }

  lemma {:induction false} PersistableBack(size: SizeFn, e: Element, rest: Bytes)
    requires Admissible(size, e) && PersistableElement(e)
    ensures ElementReadsBack(size, e, rest)
    decreases e
  {
    match e
    case Record(maxSize, children) =>
      PersistablesBack(size, children, rest);
      RecordBack(size, maxSize, children, rest);
    case IfBlock(value, field, block) =>
      PersistableBack(size, block, rest);
      PersistableBack(size, field, EncElement(block).value + rest);
      IfBlockBack(size, value, field, block, rest);
    case Field(name, t, record, maxSize) =>
      if record.Some? {
        PersistableBack(size, record.value, EncU32(maxSize) + rest);
      } else {
        NothingBack(size, EncU32(maxSize) + rest);
      }
      FieldBack(size, name.value, t.value, record, maxSize, rest);
  }

  lemma NothingBack(size: SizeFn, rest: Bytes)
    ensures ElementOptReadsBack(size, None, rest)
  {
    assert (EncByte(KIND_NONE) + rest)[1..] == rest;
  }

  lemma {:induction false} PersistablesBack(size: SizeFn, es: Elements, rest: Bytes)
    requires AllAdmissible(size, es) && AllPersistable(es)
    ensures ElementsReadBack(size, es, rest)
    decreases es
  {
    if es.NoElements? {
      assert [] + rest == rest;
    } else {
      PersistablesBack(size, es.rest, rest);
      var mid := EncElements(es.rest).value + rest;
      PersistableBack(size, es.first, mid);
      MoreBack(size, es.first, es.rest, EncElement(es.first).value + mid, mid, rest);
    }
  }

  lemma Assoc(a: Bytes, b: Bytes, c: Bytes)
    ensures a + b + c == a + (b + c)
  {
  }

  lemma MoreBack(size: SizeFn, first: Element, more: Elements, bs: Bytes, mid: Bytes, rest: Bytes)
    requires EncElement(first).Some? && EncElements(more).Some?
    requires mid == EncElements(more).value + rest && bs == EncElement(first).value + mid
    requires DecElement(size, bs) == Some(Read(Some(first), mid))
             && DecElements(size, Count(more), mid) == Some(Read(more, rest))
    ensures ElementsReadBack(size, More(first, more), rest)
  {
    EncOfMore(first, more);
    Assoc(EncElement(first).value, EncElements(more).value, rest);
    DecOfMore(size, first, more, bs, mid, rest);
  }

  lemma EncOfMore(first: Element, more: Elements)
    requires EncElement(first).Some? && EncElements(more).Some?
    ensures EncElements(More(first, more)) == Some(EncElement(first).value + EncElements(more).value)
  {
  }

  lemma DecOfMore(size: SizeFn, first: Element, more: Elements, bs: Bytes, mid: Bytes, rest: Bytes)
    requires DecElement(size, bs) == Some(Read(Some(first), mid))
             && DecElements(size, Count(more), mid) == Some(Read(more, rest))
    ensures DecElements(size, Count(More(first, more)), bs) == Some(Read(More(first, more), rest))
  {
  }

  lemma RecordBack(size: SizeFn, maxSize: int, children: Elements, rest: Bytes)
    requires ElementsReadBack(size, children, rest)
    ensures ElementReadsBack(size, Record(maxSize, children), rest)
  {
    var cs := EncElements(children).value;
    var counted := EncU32(Count(children)) + (cs + rest);
    assert EncElement(Record(maxSize, children)).value + rest == EncByte(KIND_RECORD) + (EncU32(maxSize) + counted);
    ByteBack(KIND_RECORD, EncU32(maxSize) + counted);
    U32Back(maxSize, counted);
    U32Back(Count(children), cs + rest);
  }

  /** Reading a conditional block, given what its parts read as. */
  lemma DecOfIfBlock(size: SizeFn, v: Value, field: Element, block: Element, body: Bytes, more: Bytes, last: Bytes,
                     rest: Bytes)
    requires DecValue(size, body) == Some(Read(v, more))
    requires DecElement(size, more) == Some(Read(Some(field), last))
             && DecElement(size, last) == Some(Read(Some(block), rest))
    ensures DecElement(size, EncByte(KIND_IFBLOCK) + body) == Some(Read(Some(IfBlock(v, field, block)), rest))
  {
    ByteBack(KIND_IFBLOCK, body);
  }

  lemma IfBlockBack(size: SizeFn, value: Value, field: Element, block: Element, rest: Bytes)
    requires AdmissibleValue(size, value) && Persistable(value.valueType) && ElementReadsBack(size, block, rest)
    requires ElementReadsBack(size, field, EncElement(block).value + rest)
    ensures ElementReadsBack(size, IfBlock(value, field, block), rest)
  {
    var v, f, b := EncValue(value), EncElement(field).value, EncElement(block).value;
    ValueBack(size, value, f + (b + rest));
    assert EncElement(IfBlock(value, field, block)) == Some(EncByte(KIND_IFBLOCK) + v.value + f + b);
    IfBlockShape(v.value, f, b, rest);
    DecOfIfBlock(size, value, field, block, v.value + (f + (b + rest)), f + (b + rest), b + rest, rest);
  }

  lemma IfBlockShape(a: Bytes, b: Bytes, c: Bytes, rest: Bytes)
    ensures EncByte(KIND_IFBLOCK) + a + b + c + rest == EncByte(KIND_IFBLOCK) + (a + (b + (c + rest)))
  {
  }

  lemma FieldBack(size: SizeFn, name: Bytes, t: Type, record: Option<Element>, maxSize: int, rest: Bytes)
    requires |name| < TWO_32 - 1 && WellFormed(t) && Persistable(t)
             && ElementOptReadsBack(size, record, EncU32(maxSize) + rest)
    ensures ElementReadsBack(size, Field(Some(name), Some(t), record, maxSize), rest)
  {
    var mid := EncElementOpt(record).value + (EncU32(maxSize) + rest);
    TypeBack(t, mid);
    var typed := Enc(t).value + mid;
    AtomBack(name, typed);
    FieldShape(EncName(Some(name)), Enc(t).value, EncElementOpt(record).value, EncU32(maxSize), rest);
    ByteBack(KIND_FIELD, EncName(Some(name)) + typed);
    U32Back(maxSize, rest);
  }

  lemma FieldShape(a: Bytes, b: Bytes, c: Bytes, d: Bytes, rest: Bytes)
    ensures EncByte(KIND_FIELD) + a + b + c + d + rest == EncByte(KIND_FIELD) + (a + (b + (c + (d + rest))))
  {
  }

  // ----- what does not survive ----------------------------------------------------------------------

  lemma {:induction false} CountOfRead(size: SizeFn, n: nat, bs: Bytes)
    requires DecElements(size, n, bs).Some?
    ensures Count(DecElements(size, n, bs).value.value) == n
    decreases n
  {
    if n > 0 { CountOfRead(size, n - 1, DecElement(size, bs).value.rest); }
  }

  lemma SameDigits(x: int, xs: int, y: int, ys: int)
    requires x + 0x100 * xs == y + 0x100 * ys && 0 <= x < 0x100 && 0 <= y < 0x100
    ensures x == y && xs == ys
  {
  }

  /** A number that reads the same one byte late consists of one byte repeated. */
  lemma ShiftedNumber(a: int, n: int, more: Bytes)
    requires IsU32(n) && 0 <= a < 0x100
    ensures var d := DecU32(EncByte(a) + EncU32(n) + more);
            d.Some? && d.value.rest == EncByte(EncU32(n)[3]) + more
              && (d.value.value == n ==> EncU32(n)[3] == a && (a > 0 ==> n > 0))
  {
    var bs, e := EncByte(a) + EncU32(n) + more, EncU32(n);
    U32Back(n, []);
    assert EncU32(n) + [] == EncU32(n);
    assert bs[0] == a && bs[1] == e[0] && bs[2] == e[1] && bs[3] == e[2] && bs[4..] == EncByte(e[3]) + more;
    if a + 0x100 * (e[0] + 0x100 * (e[1] + 0x100 * e[2])) == n {
      SameDigits(a, e[0] + 0x100 * (e[1] + 0x100 * e[2]), e[0], e[1] + 0x100 * (e[2] + 0x100 * e[3]));
      SameDigits(e[0], e[1] + 0x100 * e[2], e[1], e[2] + 0x100 * e[3]);
      SameDigits(e[1], e[2], e[2], e[3]);
    }
  }

  /** The parts that a record is read from. */
  lemma PartsOfRecord(size: SizeFn, body: Bytes, e: Element)
    requires DecElement(size, EncByte(KIND_RECORD) + body).Some?
    requires DecElement(size, EncByte(KIND_RECORD) + body).value.value == Some(e)
    ensures e.Record?
    ensures var m := DecU32(body);
            && m.Some? && m.value.value == e.maxSize
            && var n := DecU32(m.value.rest);
            && n.Some? && n.value.value >= 0
            && var cs := DecElements(size, n.value.value, n.value.rest); cs.Some? && cs.value.value == e.children
  {
    ByteBack(KIND_RECORD, body);
  }

  /** The first of some elements, read as they are. */
  lemma FirstRead(size: SizeFn, n: nat, bs: Bytes)
    requires DecElements(size, n, bs).Some?
    ensures Count(DecElements(size, n, bs).value.value) == n
    ensures n > 0 ==> DecElement(size, bs).Some? && DecElement(size,
                                                               bs).value.value ==
                                                                 Some(DecElements(size, n, bs).value.value.first)
  {
    CountOfRead(size, n, bs);
  }

  /** A record that is read from its bytes with a 1 in front has a child that is, too. */
  lemma ShiftedRecord(size: SizeFn, maxSize: int, children: Elements, body: Bytes)
    requires IsU32(maxSize) && IsU32(Count(children))
    requires var d := DecElement(size,
                                 EncByte(1) + (EncByte(KIND_RECORD) + EncU32(maxSize)
                                               + (EncU32(Count(children)) + body)));
             d.Some? && d.value.value == Some(Record(maxSize, children))
    ensures children.More?
    ensures var d := DecElement(size, EncByte(1) + body); d.Some? && d.value.value == Some(children.first)
  {
    PartsOfRecord(size, EncByte(KIND_RECORD) + EncU32(maxSize) + (EncU32(Count(children)) + body),
                  Record(maxSize, children));
    ShiftedNumber(1, maxSize, EncU32(Count(children)) + body);
    Assoc(EncByte(1), EncU32(Count(children)), body);
    ShiftedNumber(1, Count(children), body);
    FirstRead(size, DecU32(EncByte(1) + EncU32(Count(children)) + body).value.value,
              EncByte(EncU32(Count(children))[3]) + body);
  }

  lemma RecordShape(maxSize: int, children: Elements, rest: Bytes)
    requires EncElement(Record(maxSize, children)).Some?
    ensures EncElements(children).Some?
    ensures EncByte(1) + EncElement(Record(maxSize, children)).value + rest
            == EncByte(1) + (EncByte(KIND_RECORD) + EncU32(maxSize)
                             + (EncU32(Count(children)) + (EncElements(children).value + rest)))
  {
    assert EncElement(Record(maxSize, children)) ==
           Some(EncByte(KIND_RECORD) + EncU32(maxSize) + EncU32(Count(children)) + EncElements(children).value);
  }

  lemma ElementsShape(es: Elements, rest: Bytes)
    requires es.More? && EncElements(es).Some?
    ensures EncByte(1) + (EncElements(es).value + rest) ==
            EncByte(1) + EncElement(es.first).value + (EncElements(es.rest).value + rest)
  {
    EncOfMore(es.first, es.rest);
  }

  /** An element is never read from its bytes with a 1 in front. */
  lemma {:induction false} ShiftedElement(size: SizeFn, e: Element, rest: Bytes)
    requires Admissible(size, e) && EncElement(e).Some?
    ensures var d := DecElement(size, EncByte(1) + EncElement(e).value + rest);
            d.Some? ==> d.value.value != Some(e)
    decreases e
  {
    var bs := EncByte(1) + EncElement(e).value + rest;
    if DecElement(size, bs).Some? && DecElement(size, bs).value.value == Some(e) {
      if !e.Record? {
        Assoc(EncByte(1), EncElement(e).value, rest);
        PartsOfRecord(size, EncElement(e).value + rest, e);
        assert false;
      } else {
        var cs := e.children;
        RecordShape(e.maxSize, cs, rest);
        ShiftedRecord(size, e.maxSize, cs, EncElements(cs).value + rest);
        ElementsShape(cs, rest);
        ShiftedElement(size, cs.first, EncElements(cs.rest).value + rest);
        assert false;
      }
    }
  }

  lemma ShiftedOptional(size: SizeFn, e: Option<Element>, rest: Bytes)
    requires (e.Some? ==> Admissible(size, e.value)) && EncElementOpt(e).Some?
    ensures var d := DecElement(size, EncByte(1) + EncElementOpt(e).value + rest);
            d.Some? ==> d.value.value != e
  {
    if e.Some? { ShiftedElement(size, e.value, rest); }
  }

  /** A value of a type that does not survive is misread, or leaves a byte that is 1. */
  lemma ValueOneByteShort(size: SizeFn, v: Value, rest: Bytes)
    requires AdmissibleValue(size, v) && EncValue(v).Some? && !Persistable(v.valueType)
    ensures var d := DecValue(size, EncValue(v).value + rest);
            d.Some? && d.value.value == v ==> d.value.rest == EncByte(1) + rest
  {
    var bs, t, mem := EncValue(v).value + rest, v.valueType, v.mem;
    assert bs == Enc(t).value + (mem + rest);
    TypeOneByteShort(t, mem + rest);
    assert EncOpt(Some(t)) == Enc(t);
    var d := DecValue(size, bs);
    if d.Some? && d.value.value == v {
      var after := EncByte(1) + (mem + rest);
      assert DecType(bs) == Some(Read(t, after)) && d.value.rest == after[|mem|..] && mem == after[..|mem|];
      AllOnes(mem, rest);
    }
  }

  lemma {:induction false} AllOnes(mem: Bytes, rest: Bytes)
    requires mem == (EncByte(1) + (mem + rest))[..|mem|]
    ensures (EncByte(1) + (mem + rest))[|mem|..] == EncByte(1) + rest
  {
    var after := EncByte(1) + (mem + rest);
    for i := 0 to |mem|
      invariant forall k | 0 <= k < i :: mem[k] == 1
    {
      assert mem[i] == after[i];
    }
    assert after[|mem|] == 1 && after[|mem|..][1..] == rest;
  }

  /** What is read for an element that does not survive is something else, or nothing. */
  ghost predicate Lost(size: SizeFn, e: Element, rest: Bytes)
    requires EncElement(e).Some?
  {
    var d := DecElement(size, EncElement(e).value + rest);
    d.Some? ==> d.value.value != Some(e)
  }

  lemma {:induction false} ElementIsLost(size: SizeFn, e: Element, rest: Bytes)
    requires Admissible(size, e) && EncElement(e).Some? && !PersistableElement(e)
    ensures Lost(size, e, rest)
    decreases e
  {
    match e
    case Record(maxSize, children) => RecordIsLost(size, maxSize, children, rest);
    case IfBlock(value, field, block) => IfBlockIsLost(size, value, field, block, rest);
    case Field(name, t, record, maxSize) => FieldIsLost(size, name, t, record, maxSize, rest);
  }

  lemma {:induction false} RecordIsLost(size: SizeFn, maxSize: int, children: Elements, rest: Bytes)
    requires Admissible(size, Record(maxSize, children)) && EncElements(children).Some? && !AllPersistable(children)
    ensures Lost(size, Record(maxSize, children), rest)
    decreases children, 1
  {
    var cs := EncElements(children).value;
    var counted := EncU32(Count(children)) + (cs + rest);
    assert EncElement(Record(maxSize, children)).value + rest == EncByte(KIND_RECORD) + (EncU32(maxSize) + counted);
    ByteBack(KIND_RECORD, EncU32(maxSize) + counted);
    U32Back(maxSize, counted);
    U32Back(Count(children), cs + rest);
    ElementsAreLost(size, children, rest);
  }

  lemma {:induction false} ElementsAreLost(size: SizeFn, es: Elements, rest: Bytes)
    requires AllAdmissible(size, es) && EncElements(es).Some? && !AllPersistable(es)
    ensures var d := DecElements(size, Count(es), EncElements(es).value + rest);
            d.Some? ==> d.value.value != es
    decreases es, 0
  {
    var mid := EncElements(es.rest).value + rest;
    EncOfMore(es.first, es.rest);
    Assoc(EncElement(es.first).value, EncElements(es.rest).value, rest);
    if PersistableElement(es.first) {
      PersistableBack(size, es.first, mid);
      ElementsAreLost(size, es.rest, rest);
    } else {
      ElementIsLost(size, es.first, mid);
    }
  }

  /** The parts that a conditional block is read from. */
  lemma PartsOfIfBlock(size: SizeFn, body: Bytes, e: Element)
    requires e.IfBlock? && DecElement(size, EncByte(KIND_IFBLOCK) + body).Some?
    requires DecElement(size, EncByte(KIND_IFBLOCK) + body).value.value == Some(e)
    ensures var v := DecValue(size, body);
            && v.Some? && v.value.value == e.value
            && var f := DecElement(size, v.value.rest);
            && f.Some? && f.value.value == Some(e.field)
            && var b := DecElement(size, f.value.rest); b.Some? && b.value.value == Some(e.block)
  {
    ByteBack(KIND_IFBLOCK, body);
  }

  lemma {:induction false} IfBlockIsLost(size: SizeFn, value: Value, field: Element, block: Element, rest: Bytes)
    requires var e := IfBlock(value, field, block); Admissible(size, e) && EncElement(e).Some? && !PersistableElement(e)
    ensures Lost(size, IfBlock(value, field, block), rest)
    decreases IfBlock(value, field, block), 0
  {
    var e := IfBlock(value, field, block);
    var v, f, b := EncValue(value).value, EncElement(field).value, EncElement(block).value;
    IfBlockShape(v, f, b, rest);
    var body := v + (f + (b + rest));
    var d := DecElement(size, EncByte(KIND_IFBLOCK) + body);
    if d.Some? && d.value.value == Some(e) {
      PartsOfIfBlock(size, body, e);
      if !Persistable(value.valueType) {
        ValueOneByteShort(size, value, f + (b + rest));
        ShiftedElement(size, field, b + rest);
        Assoc(EncByte(1), f, b + rest);
      } else {
        ValueBack(size, value, f + (b + rest));
        if PersistableElement(field) {
          PersistableBack(size, field, b + rest);
          ElementIsLost(size, block, rest);
        } else {
          ElementIsLost(size, field, b + rest);
        }
      }
      assert false;
    }
  }

  /** The parts that a field is read from. */
  lemma PartsOfField(size: SizeFn, body: Bytes, e: Element)
    requires e.Field? && DecElement(size, EncByte(KIND_FIELD) + body).Some?
    requires DecElement(size, EncByte(KIND_FIELD) + body).value.value == Some(e)
    ensures var n := DecAtom(body);
            && n.Some? && n.value.value == e.name
            && var t := DecOpt(n.value.rest);
            && t.Some? && t.value.value == e.fieldType
            && var r := DecElement(size, t.value.rest); r.Some? && r.value.value == e.record
  {
    ByteBack(KIND_FIELD, body);
  }

  lemma {:induction false} FieldIsLost(size: SizeFn, name: Option<Bytes>, t: Option<Type>, record: Option<Element>,
                                       maxSize: int, rest: Bytes)
    requires var e := Field(name, t, record, maxSize);
             Admissible(size, e) && EncElement(e).Some? && !PersistableElement(e)
    ensures Lost(size, Field(name, t, record, maxSize), rest)
    decreases Field(name, t, record, maxSize), 0
  {
    var e := Field(name, t, record, maxSize);
    var ty, r, last := Enc(t.value).value, EncElementOpt(record).value, EncU32(maxSize) + rest;
    FieldShape(EncName(name), ty, r, EncU32(maxSize), rest);
    var body := EncName(name) + (ty + (r + last));
    var d := DecElement(size, EncByte(KIND_FIELD) + body);
    if d.Some? && d.value.value == Some(e) {
      PartsOfField(size, body, e);
      AtomBack(if name.Some? then name.value else [], ty + (r + last));
      assert EncOpt(t) == Enc(t.value);
      if !Persistable(t.value) {
        TypeOneByteShort(t.value, r + last);
        ShiftedOptional(size, record, last);
        Assoc(EncByte(1), r, last);
      } else {
        TypeBack(t.value, r + last);
        if name.Some? { ElementIsLost(size, record.value, last); }
      }
      assert false;
    }
  }

  // ----- the theorems -------------------------------------------------------------------------------

  /** A tree of elements is read back as it was, with nothing after it touched, exactly when every field
      has a name and every type in it is persistable. */
  lemma ElementBack(size: SizeFn, e: Element, rest: Bytes)
    requires Admissible(size, e)
    ensures ElementReadsBack(size, e, rest) <==> PersistableElement(e)
  {
    if PersistableElement(e) {
      PersistableBack(size, e, rest);
    } else if EncElement(e).Some? {
      ElementIsLost(size, e, rest);
    }
  }

  ghost predicate MetaReadsBack(size: SizeFn, m: Meta, rest: Bytes) {
    && EncMeta(m).Some?
    && DecMeta(size, EncMeta(m).value + rest) == Some(Read(m, rest))
  }

  /** The whole meta data, whatever bytes follow it. */
  lemma MetaBack(size: SizeFn, m: Meta, rest: Bytes)
    requires IsU32(m.numKeyed) && (m.record.Some? ==> Admissible(size, m.record.value))
    ensures MetaReadsBack(size, m, rest) <==> m.record.Some? ==> PersistableElement(m.record.value)
  {
    var last := EncU32(m.numKeyed) + rest;
    U32Back(m.numKeyed, rest);
    if m.record.None? { NothingBack(size, last); } else { ElementBack(size, m.record.value, last); }
    if EncMeta(m).Some? {
      Assoc(EncElementOpt(m.record).value, EncU32(m.numKeyed), rest);
      if m.record.Some? && !PersistableElement(m.record.value) { ElementIsLost(size, m.record.value, last); }
    }
  }

  /** In particular, a field without a name comes back with an empty one. */
  lemma NamelessFieldIsChanged(size: SizeFn, t: Type, maxSize: int, rest: Bytes)
    requires WellFormed(t) && Persistable(t) && IsU32(maxSize)
    ensures EncElement(Field(None, Some(t), None, maxSize)).Some?
    ensures DecElement(size, EncElement(Field(None, Some(t), None, maxSize)).value + rest)
            == Some(Read(Some(Field(Some([]), Some(t), None, maxSize)), rest))
  {
    PersistableIsWritten(t);
    PersistableBack(size, Field(Some([]), Some(t), None, maxSize), rest);
    assert EncElement(Field(None, Some(t), None, maxSize)) == EncElement(Field(Some([]), Some(t), None, maxSize));
  }
}
