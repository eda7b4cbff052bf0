/** The byte forms of types and of record meta data, byte by byte, without regard to how they are read. */
module CodecForms {
  import opened Options
  import opened TypeCodec
  import opened RecordMeta

  // ----- numbers ------------------------------------------------------------------------------------

  /** Four bytes hold the number, the lowest first. */
  predicate HoldsNumber(bs: Bytes, at: int, n: int) {
    && 0 <= at && at + 4 <= |bs| && (forall i | at <= i < at + 4 :: 0 <= bs[i] < 0x100)
    && n == bs[at] + 0x100 * bs[at + 1] + 0x1_0000 * bs[at + 2] + 0x100_0000 * bs[at + 3]
  }

  /** Some bytes hold these, from a position on. */
  predicate HoldsBytes(bs: Bytes, at: int, part: Bytes) {
    0 <= at && at + |part| <= |bs| && bs[at..at + |part|] == part
  }

  lemma NumberForm(n: int)
    requires IsU32(n)
    ensures HoldsNumber(EncU32(n), 0, n)
  {
    var a := n / 0x100;
    var b := a / 0x100;
    assert n == n % 0x100 + 0x100 * a && a == a % 0x100 + 0x100 * b && b == b % 0x100 + 0x100 * (b / 0x100);
  }

  lemma NumberWithin(front: Bytes, n: int, back: Bytes)
    requires IsU32(n)
    ensures HoldsNumber(front + EncU32(n) + back, |front|, n)
  {
    NumberForm(n);
    var bs := front + EncU32(n) + back;
    assert forall i | 0 <= i < 4 :: bs[|front| + i] == EncU32(n)[i];
    assert bs[|front|] == EncU32(n)[0] && bs[|front| + 1] == EncU32(n)[1] && bs[|front| + 2] == EncU32(n)[2]
           && bs[|front| + 3] == EncU32(n)[3];
  }

  function Bit(b: bool): int {
    if b then 1 else 0
  }

  // ----- types --------------------------------------------------------------------------------------

  /** A type starts with the number of its class; a plain one is nothing else. */
  lemma PlainForms(code: int)
    ensures Enc(Plain(code)) == Some([code]) && EncOpt(None) == Some([27])
    ensures BOOLEAN == 0 && RECORD == 13 && BLOB == 15 && VOID == 24
    ensures PATTERN == 34 && TOKEN == 36 && FEATURE == 37 && EVENT == 38 && NULL == 39
  {
  }

  /** Numbers: the size, or the precision and digits, and the sign. */
  lemma NumericForms(size: int, signed: bool, precision: int, digits: int)
    ensures Enc(Int(false, size, signed)) == Some([1, size, Bit(signed)])
    ensures Enc(Int(true, size, signed)) == Some([26, size, Bit(signed)])
    ensures Enc(Real(size)) == Some([2, size])
    ensures Enc(Decimal(precision, digits, signed)) == Some([3, precision, digits, Bit(signed)])
    ensures Enc(Char(signed)) == Some([11, Bit(signed)])
  {
    assert EncByte(INT) + EncByte(size) + EncBool(signed) == [1, size, Bit(signed)];
    assert EncByte(SWAPINT) + EncByte(size) + EncBool(signed) == [26, size, Bit(signed)];
    assert EncByte(REAL) + EncByte(size) == [2, size];
    assert EncByte(DECIMAL) + EncByte(precision) + EncByte(digits) + EncBool(signed) ==
           [3, precision, digits, Bit(signed)];
    assert EncByte(CHAR) + EncBool(signed) == [11, Bit(signed)];
  }

  /** A bit field: the number of bits, and an unsigned integer of the size that they need. */
  lemma BitfieldForm(bits: int, storeSize: int)
    requires IsU32(bits)
    ensures var bs := Enc(Bitfield(bits, storeSize)).value;
            && |bs| == 8 && bs[0] == 9 && HoldsNumber(bs, 1, bits) && bs[5] == 1 && bs[7] == 0
            && bs[6] == (if bits <= 8 then 1 else if bits <= 16 then 2 else if bits <= 32 then 4 else 8)
  {
    var tail := EncByte(INT) + EncByte(PromotedBitfieldSize(bits)) + EncBool(false);
    NumberWithin(EncByte(BITFIELD), bits, tail);
    assert Enc(Bitfield(bits, storeSize)).value == EncByte(BITFIELD) + EncU32(bits) + tail;
  }

  lemma SizedForm(code: int, length: int)
    requires IsU32(length)
    ensures var bs := Enc(Sized(code, length)).value; |bs| == 5 && bs[0] == code && HoldsNumber(bs, 1, length)
  {
    NumberWithin(EncByte(code), length, []);
    assert Enc(Sized(code, length)).value == EncByte(code) + EncU32(length) + [];
  }

  lemma HoldsFurtherOn(front: Bytes, tail: Bytes, at: int, part: Bytes)
    requires HoldsBytes(tail, at, part)
    ensures HoldsBytes(front + tail, |front| + at, part)
  {
    assert (front + tail)[|front| + at..|front| + at + |part|] == tail[at..at + |part|];
  }

  lemma TwoNames(order: Bytes, chars: Bytes)
    ensures var tail := [1] + (order + [0, 1]) + (chars + [0]);
            |tail| == 4 + |order| + |chars| && tail[0] == 1
            && HoldsBytes(tail, 1, order + [0, 1]) && HoldsBytes(tail, 3 + |order|, chars + [0])
  {
    var tail := [1] + (order + [0, 1]) + (chars + [0]);
    assert tail[1..3 + |order|] == order + [0, 1];
    assert tail[3 + |order|..4 + |order| + |chars|] == chars + [0];
  }

  lemma JoinNames(front: Bytes, order: Bytes, chars: Bytes)
    ensures front + [1] + (order + [0]) + [1] + (chars + [0]) == front + ([1] + (order + [0, 1]) + (chars + [0]))
  {
    var a, b := [1] + (order + [0]) + [1] + (chars + [0]), [1] + (order + [0, 1]) + (chars + [0]);
    assert order + [0, 1] == order + [0] + [1];
    assert a == b;
    assert front + [1] + (order + [0]) + [1] + (chars + [0]) == front + a;
  }

  lemma TextBytes(terminated: bool, length: int, charset: Charset, collation: Collation)
    ensures Enc(Text(terminated, length, charset, collation)) ==
            Some(EncByte(if terminated then VARSTRING else STRING) + EncU32(length)
                 + ([1] + (CollationName(collation) + [0, 1]) + (CharsetName(charset) + [0])))
  {
    JoinNames(EncByte(if terminated then VARSTRING else STRING) + EncU32(length), CollationName(collation),
              CharsetName(charset));
  }

  /** A text type: its length, then the names of its collation and of its character set, each marked as present
      and ended by a zero. */
  lemma TextForm(terminated: bool, length: int, charset: Charset, collation: Collation)
    requires IsU32(length)
    ensures var bs := Enc(Text(terminated, length, charset, collation)).value;
            var order, chars := CollationName(collation), CharsetName(charset);
            && |bs| == 9 + |order| + |chars| && bs[0] == (if terminated then 14 else 4) && HoldsNumber(bs, 1, length)
            && bs[5] == 1 && HoldsBytes(bs, 6, order + [0, 1]) && HoldsBytes(bs, 8 + |order|, chars + [0])
  {
    var order, chars := CollationName(collation), CharsetName(charset);
    var front := EncByte(if terminated then VARSTRING else STRING) + EncU32(length);
    var tail := [1] + (order + [0, 1]) + (chars + [0]);
    NumberWithin(EncByte(if terminated then VARSTRING else STRING), length, tail);
    TwoNames(order, chars);
    HoldsFurtherOn(front, tail, 1, order + [0, 1]);
    HoldsFurtherOn(front, tail, 3 + |order|, chars + [0]);
    TextBytes(terminated, length, charset, collation);
  }

  /** The names, in ASCII. */
  lemma NamesInForms()
    ensures CharsetName(Ascii) == CollationName(AsciiOrder) == AsBytes("ascii")
    ensures CharsetName(Ebcdic) == CollationName(EbcdicOrder) == AsBytes("ebcdic")
    ensures CharsetName(Data) == AsBytes("data") && CharsetName(Utf8) == AsBytes("utf8")
  {
  }

  function AsBytes(s: string): Bytes {
    seq(|s|, i requires 0 <= i < |s| => s[i] as int)
  }

  lemma UnicodeForm(code: int, length: int, locale: Bytes)
    requires IsU32(length)
    ensures var bs := Enc(Unicode(code, length, locale)).value;
            && |bs| == 6 + |locale| && bs[0] == code && HoldsNumber(bs, 1, length) && HoldsBytes(bs, 5, locale + [0])
  {
    NumberWithin(EncByte(code), length, EncText(locale));
    var bs := Enc(Unicode(code, length, locale)).value;
    assert bs == EncByte(code) + EncU32(length) + EncText(locale);
    assert bs[5..6 + |locale|] == locale + [0];
  }

  /** A type made of another: its own number, the length of an array, and the other type, or 27 for none. */
  lemma BasedForms(code: int, length: int, base: Option<Type>)
    requires IsU32(length)
    ensures Enc(Based(code, base)).Some? <==> EncOpt(base).Some?
    ensures Enc(Array(length, base)).Some? <==> EncOpt(base).Some?
    ensures EncOpt(base).Some? ==> Enc(Based(code, base)).value == [code] + EncOpt(base).value
    ensures EncOpt(base).Some? ==>
              var bs := Enc(Array(length, base)).value;
              bs[0] == 19 && HoldsNumber(bs, 1, length) && bs[5..] == EncOpt(base).value
  {
    if EncOpt(base).Some? {
      NumberWithin(EncByte(ARRAY), length, EncOpt(base).value);
      var bs := Enc(Array(length, base)).value;
      assert bs == EncByte(ARRAY) + EncU32(length) + EncOpt(base).value;
    }
  }

  /** What is not written: the row type of a table or dictionary itself, the modifiers of a type, the base of a
      keyed blob. */
  lemma SkippedForms(row: Option<Type>, m: int, t: Type, name: Bytes)
    ensures row.Some? && EncOpt(ChildType(row.value)).Some? ==>
              Enc(Table(row)) == Some([20] + EncOpt(ChildType(row.value)).value)
              && Enc(Dictionary(row)) == Some([46] + EncOpt(ChildType(row.value)).value)
    ensures Enc(Modified(m, t)) == Enc(t) && Enc(KeyedBlob(row)) == Some([15])
    ensures Enc(Class(name)) == Some([18] + name + [0])
  {
    assert EncByte(CLASS) + (name + [0]) == [18] + name + [0];
  }

  /** The child of a bit field is an unsigned integer of its store size. */
  lemma BitfieldRow(bits: int, storeSize: int)
    ensures Enc(Table(Some(Bitfield(bits, storeSize)))) == Some([20, 1, storeSize, 0])
  {
    SkippedForms(Some(Bitfield(bits, storeSize)), 0, Plain(0), []);
    NumericForms(storeSize, false, 0, 0);
    assert EncOpt(ChildType(Bitfield(bits, storeSize))) == Enc(Int(false, storeSize, false));
    assert [20] + [1, storeSize, 0] == [20, 1, storeSize, 0];
  }

  // ----- record meta data ---------------------------------------------------------------------------

  /** A name: its length and its characters. */
  lemma NameForm(name: Bytes)
    requires IsU32(|name|)
    ensures var bs := EncName(Some(name)); |bs| == 4 + |name| && HoldsNumber(bs, 0, |name|) && HoldsBytes(bs, 4, name)
    ensures EncName(None) == [0, 0, 0, 0]
  {
    NumberWithin([], |name|, name);
    assert EncName(Some(name)) == [] + EncU32(|name|) + name;
  }

  /** A record: 1, its size, the number of its children, and the children in order. */
  lemma RecordForm(maxSize: int, children: Elements)
    requires IsU32(maxSize) && IsU32(Count(children)) && EncElements(children).Some?
    ensures var bs := EncElement(Record(maxSize, children)).value;
            bs[0] == 1 && HoldsNumber(bs, 1, maxSize) && HoldsNumber(bs, 5, Count(children))
            && bs[9..] == EncElements(children).value
  {
    var count, rest := EncU32(Count(children)), EncElements(children).value;
    var bs := EncElement(Record(maxSize, children)).value;
    NumberWithin(EncByte(KIND_RECORD), maxSize, count + rest);
    NumberWithin(EncByte(KIND_RECORD) + EncU32(maxSize), Count(children), rest);
    assert bs == EncByte(KIND_RECORD) + EncU32(maxSize) + (count + rest)
           == EncByte(KIND_RECORD) + EncU32(maxSize) + count + rest;
  }

  /** A conditional block: 2, the type and the bytes of its value, the field, and what depends on it. */
  lemma IfBlockForm(value: Value, field: Element, block: Element)
    requires Enc(value.valueType).Some? && EncElement(field).Some? && EncElement(block).Some?
    ensures EncElement(IfBlock(value, field, block)) ==
            Some([2] + Enc(value.valueType).value + value.mem + EncElement(field).value + EncElement(block).value)
  {
    assert EncByte(KIND_IFBLOCK) + (Enc(value.valueType).value + value.mem) ==
           [2] + Enc(value.valueType).value + value.mem;
  }

  lemma TwoPartsAndNumber(head: Bytes, inner: Bytes, n: int)
    requires IsU32(n)
    ensures var bs := head + inner + EncU32(n);
            && |bs| == |head| + |inner| + 4 && HoldsBytes(bs, 0, head) && HoldsBytes(bs, |head|, inner)
            && HoldsNumber(bs, |head| + |inner|, n)
  {
    var bs := head + inner + EncU32(n);
    NumberWithin(head + inner, n, []);
    assert bs == head + inner + EncU32(n) + [];
    assert bs[..|head|] == head && bs[|head|..|head| + |inner|] == inner;
  }

  /** A field: 3, its name, its type, the record it holds, or 0 for none, and its size. */
  lemma FieldForm(name: Option<Bytes>, t: Type, record: Option<Element>, maxSize: int)
    requires IsU32(maxSize) && Enc(t).Some? && EncElementOpt(record).Some?
    ensures var bs := EncElement(Field(name, Some(t), record, maxSize)).value;
            var head := [3] + EncName(name) + Enc(t).value;
            var inner := if record.Some? then EncElement(record.value).value else [0];
            |bs| == |head| + |inner| + 4 && HoldsBytes(bs, 0, head) && HoldsBytes(bs, |head|, inner)
            && HoldsNumber(bs, |head| + |inner|, maxSize)
  {
    TwoPartsAndNumber([3] + EncName(name) + Enc(t).value,
                      if record.Some? then EncElement(record.value).value else [0], maxSize);
  }

  /** Children follow one another without anything between them. */
  lemma ChildrenForm(first: Element, rest: Elements)
    requires EncElement(first).Some? && EncElements(rest).Some?
    ensures EncElements(More(first, rest)) == Some(EncElement(first).value + EncElements(rest).value)
    ensures EncElements(NoElements) == Some([])
  {
  }

  /** The meta data: the record, or 0 for none, and the number of keyed fields. */
  lemma MetaForm(m: Meta)
    requires IsU32(m.numKeyed) && EncElementOpt(m.record).Some?
    ensures var bs := EncMeta(m).value;
            var record := if m.record.Some? then EncElement(m.record.value).value else [0];
            |bs| == |record| + 4 && HoldsBytes(bs, 0, record) && HoldsNumber(bs, |record|, m.numKeyed)
  {
    var record := EncElementOpt(m.record).value;
    NumberWithin(record, m.numKeyed, []);
    assert EncMeta(m).value == record + EncU32(m.numKeyed) + [];
    assert EncMeta(m).value[..|record|] == record;
  }

  // ----- which types there are ----------------------------------------------------------------------

  /** The numbers that can be made ... */
  lemma NumbersThatAreMade(b: bool, n: int, m: int)
    ensures WellFormed(Int(b, n, b)) <==> 1 <= n <= 8
    ensures WellFormed(Real(n)) <==> n == 4 || n == 8
    ensures WellFormed(Bitfield(n, m)) <==> 1 <= n <= 64 && 1 <= m <= 8
    ensures WellFormed(Decimal(m, n, b)) <==>
            (m == 255 && n == 255) || (0 <= m <= 32 && (n == 255 || 0 <= n - m <= 32))
  {
  }

  /** The lengths that stand for an unknown one, and what a name that is not known leaves. */
  lemma Unknowns(n: int, name: Bytes, charset: Charset)
    ensures IsUnknownLength(n) <==> n in {0xFFFF_FFF1, 0xFFFF_FFF2, 0xFFFF_FFF3}
    ensures name !in {CharsetName(Ascii), CharsetName(Data), CharsetName(Ebcdic), CharsetName(Utf8)} ==>
              GetCharset(name) == Ascii && GetCollation(name) == None
    ensures DefaultCollation(charset) == if charset == Ebcdic then EbcdicOrder else AsciiOrder
  {
  }

  /** ... the texts of up to 32 bits of length ... */
  lemma TextsThatAreMade(b: bool, n: int, name: Bytes, charset: Charset, order: Collation)
    requires 0 <= n < 0x1_0000_0000
    ensures WellFormed(Sized(16, n)) && WellFormed(Sized(30, n)) && WellFormed(Text(false, n, charset, order))
    ensures 0 !in name ==>
              WellFormed(Unicode(31, n, name)) && WellFormed(Unicode(33, n, name)) && WellFormed(Unicode(41, n, name))
    ensures 0 < n < UNKNOWN_LENGTH ==> WellFormed(Text(true, n, charset, order))
    ensures WellFormed(Char(b)) && (WellFormed(Class(name)) <==> 0 !in name)
  {
  }

  /** ... and what is made of other types. */
  lemma OthersThatAreMade(n: int, base: Option<Type>)
    requires 0 <= n < 0x1_0000_0000 && (base.Some? ==> WellFormed(base.value))
    ensures WellFormed(Array(n, base)) && WellFormed(Based(21, base)) && WellFormed(Based(22, base))
    ensures WellFormed(Table(base)) && WellFormed(Dictionary(base)) && WellFormed(KeyedBlob(base))
  {
  }
}
