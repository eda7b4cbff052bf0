/** The buffer that record meta data is written to and read from. */
module MetaBuffer {
  import opened Options
  import opened TypeCodec
  import opened RecordMeta

  // ----- what reading a type takes ------------------------------------------------------------------

  predicate IsSuffix(rest: Bytes, bs: Bytes) {
    |rest| <= |bs| && rest == bs[|bs| - |rest|..]
  }

  lemma SuffixOfSuffix(a: Bytes, b: Bytes, c: Bytes)
    requires IsSuffix(a, b) && IsSuffix(b, c)
    ensures IsSuffix(a, c)
  {
  }

  lemma {:induction false} TextReadsSuffix(bs: Bytes)
    requires DecText(bs).Some?
    ensures IsSuffix(DecText(bs).value.rest, bs)
  {
    if bs[0] != 0 {
      TextReadsSuffix(bs[1..]);
      SuffixOfSuffix(DecText(bs[1..]).value.rest, bs[1..], bs);
    }
  }

  lemma NameReadsSuffix(bs: Bytes)
    requires DecName(bs).Some?
    ensures IsSuffix(DecName(bs).value.rest, bs)
  {
    if DecBool(bs).value.value {
      TextReadsSuffix(bs[1..]);
      SuffixOfSuffix(DecText(bs[1..]).value.rest, bs[1..], bs);
    }
  }

  lemma StringReadsSuffix(code: int, bs: Bytes)
    requires DecStringType(code, bs).Some?
    ensures IsSuffix(DecStringType(code, bs).value.rest, bs)
  {
    var named := DecName(bs[4..]);
    NameReadsSuffix(bs[4..]);
    NameReadsSuffix(named.value.rest);
    SuffixOfSuffix(named.value.rest, bs[4..], bs);
    SuffixOfSuffix(DecName(named.value.rest).value.rest, named.value.rest, bs);
  }

  /** The types whose form ends with another type or a text. */
  lemma AfterNumber(n: nat, rest: Bytes, bs: Bytes)
    requires n <= |bs| && IsSuffix(rest, bs[n..])
    ensures IsSuffix(rest, bs)
  {
    SuffixOfSuffix(rest, bs[n..], bs);
  }

  lemma DecOfArray(bs: Bytes)
    requires bs != [] && bs[0] == ARRAY && DecOpt(bs).Some?
    ensures |bs| >= 5 && DecOpt(bs[1..][4..]).Some? && DecOpt(bs).value.rest == DecOpt(bs[1..][4..]).value.rest
  {
    assert DecU32(bs[1..]).Some?;
  }

  lemma DecOfBitfield(bs: Bytes)
    requires bs != [] && bs[0] == BITFIELD && DecOpt(bs).Some?
    ensures |bs| >= 5 && DecOpt(bs[1..][4..]).Some? && DecOpt(bs).value.rest == DecOpt(bs[1..][4..]).value.rest
  {
    assert DecU32(bs[1..]).Some?;
  }

  lemma UnicodeReadsSuffix(bs: Bytes)
    requires bs != [] && bs[0] in {UNICODE, VARUNICODE, UTF8} && DecOpt(bs).Some?
    ensures IsSuffix(DecOpt(bs).value.rest, bs)
  {
    assert DecU32(bs[1..]).Some?;
    TextReadsSuffix(bs[1..][4..]);
    AfterNumber(4, DecOpt(bs).value.rest, bs[1..]);
  }

  lemma ClassReadsSuffix(bs: Bytes)
    requires bs != [] && bs[0] == CLASS && DecOpt(bs).Some?
    ensures IsSuffix(DecOpt(bs).value.rest, bs)
  {
    TextReadsSuffix(bs[1..]);
  }

  lemma PlainReadsSuffix(bs: Bytes)
    requires bs != [] && DecOpt(bs).Some?
    requires bs[0] !in {STRING, VARSTRING, BITFIELD, ARRAY, SET, PTR, RULE, GROUPEDTABLE, TABLE, UNICODE, VARUNICODE,
             UTF8, CLASS}
    ensures IsSuffix(DecOpt(bs).value.rest, bs)
  {
  }

  lemma StringTypeReadsSuffix(bs: Bytes)
    requires bs != [] && bs[0] in {STRING, VARSTRING} && DecOpt(bs).Some?
    ensures IsSuffix(DecOpt(bs).value.rest, bs)
  {
    StringReadsSuffix(bs[0], bs[1..]);
  }

  /** Reading a type takes bytes from the front only. */
  lemma {:induction false} TypeReadsSuffix(bs: Bytes)
    requires DecOpt(bs).Some?
    ensures IsSuffix(DecOpt(bs).value.rest, bs)
    decreases |bs|
  {
    var code, rest := bs[0], DecOpt(bs).value.rest;
    if code in {STRING, VARSTRING} {
      StringTypeReadsSuffix(bs);
    } else if code in {BITFIELD, ARRAY} {
      if code == ARRAY { DecOfArray(bs); } else { DecOfBitfield(bs); }
      TypeReadsSuffix(bs[1..][4..]);
      AfterNumber(4, rest, bs[1..]);
      AfterNumber(1, rest, bs);
    } else if code in {SET, PTR, RULE, GROUPEDTABLE, TABLE} {
      DecOfBased(bs, code);
      TypeReadsSuffix(bs[1..]);
      AfterNumber(1, rest, bs);
    } else if code in {UNICODE, VARUNICODE, UTF8} {
      UnicodeReadsSuffix(bs);
    } else if code == CLASS {
      ClassReadsSuffix(bs);
    } else {
      PlainReadsSuffix(bs);
    }
  }

  // ----- the buffer ---------------------------------------------------------------------------------

  /** Bytes that are appended at the end and read at a cursor. */
  class MemoryBuffer {
    var data: Bytes
    var readPos: nat

    constructor (data: Bytes)
      ensures this.data == data && readPos == 0
    {
      this.data, readPos := data, 0;
    }

    ghost predicate Valid()
      reads this
    {
      readPos <= |data|
    }

    function Remaining(): Bytes
      requires Valid()
      reads this
    {
      data[readPos..]
    }

    method Append(bs: Bytes)
      modifies this`data
      ensures data == old(data) + bs
    {
      data := data + bs;
    }

    /** Moves the cursor to where `rest` is left. */
    method Advance(ghost rest: Bytes, n: nat)
      requires Valid() && n <= |Remaining()| && rest == Remaining()[n..]
      modifies this`readPos
      ensures Valid() && Remaining() == rest
    {
      assert Remaining()[n..] == data[readPos + n..];
      readPos := readPos + n;
    }

    /** A read takes `|before| - |rest|` bytes. */
    method Consume(rest: Bytes)
      requires Valid() && |rest| <= |Remaining()| && rest == Remaining()[|Remaining()| - |rest|..]
      modifies this`readPos
      ensures Valid() && Remaining() == rest
    {
      Advance(rest, |Remaining()| - |rest|);
    }

    method ReadByte() returns (r: Option<int>)
      requires Valid()
      modifies this`readPos
      ensures Valid()
      ensures var d := DecByte(old(Remaining()));
              if d.None? then r.None? else r == Some(d.value.value) && Remaining() == d.value.rest
    {
      if readPos == |data| { return None; }
      r := Some(data[readPos]);
      Advance(Remaining()[1..], 1);
    }

    method ReadU32() returns (r: Option<int>)
      requires Valid()
      modifies this`readPos
      ensures Valid()
      ensures var d := DecU32(old(Remaining()));
              if d.None? then r.None? else r == Some(d.value.value) && Remaining() == d.value.rest
    {
      var d := DecU32(Remaining());
      if d.None? { return None; }
      Advance(d.value.rest, 4);
      return Some(d.value.value);
    }

    method ReadAtom() returns (r: Option<Option<Bytes>>)
      requires Valid()
      modifies this`readPos
      ensures Valid()
      ensures var d := DecAtom(old(Remaining()));
              if d.None? then r.None? else r == Some(d.value.value) && Remaining() == d.value.rest
    {
      ghost var before := Remaining();
      var n := ReadU32();
      if n.None? { return None; }
      if n.value == TWO_32 - 1 { return Some(None); }
      if !(0 <= n.value <= |Remaining()|) { return None; }
      r := Some(Some(Remaining()[..n.value]));
      Advance(Remaining()[n.value..], n.value);
    }
  }

  // ----- reading types and values -------------------------------------------------------------------

  /** What a read leaves behind: the value, and the cursor after it; nothing is said of the cursor when
      an assertion fails. */
  ghost predicate HasRead<T>(source: MemoryBuffer, expected: Option<Read<T>>, r: Option<T>)
    reads source
  {
    source.Valid() && (if expected.None? then r.None?
                       else r == Some(expected.value.value) && source.Remaining() == expected.value.rest)
  }

  method ReadType(source: MemoryBuffer) returns (r: Option<Option<Type>>)
    requires source.Valid()
    modifies source`readPos
    ensures HasRead(source, DecOpt(old(source.Remaining())), r)
  {
    var d := DecOpt(source.Remaining());
    if d.None? { return None; }
    TypeReadsSuffix(source.Remaining());
    source.Consume(d.value.rest);
    return Some(d.value.value);
  }

  method ReadValue(size: SizeFn, source: MemoryBuffer) returns (r: Option<Value>)
    requires source.Valid()
    modifies source`readPos
    ensures HasRead(source, DecValue(size, old(source.Remaining())), r)
  {
    var t := ReadType(source);
    if t.None? || t.value.None? { return None; }
    var n := size(t.value.value);
    if |source.Remaining()| < n { return None; }
    r := Some(Value(t.value.value, source.Remaining()[..n]));
    source.Advance(source.Remaining()[n..], n);
  }
}
