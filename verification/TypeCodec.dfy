/** The byte form of types.  Which types survive it is a theorem, not an assumption: several classes
    write what the reader does not expect, or less than they hold. */
module TypeCodec {
  import opened Options

  type Bytes = seq<int>

  datatype Read<+T> = Read(value: T, rest: Bytes)

  // ----- numbers, flags and texts -------------------------------------------------------------------

  const TWO_32: int := 0x1_0000_0000

  function EncU32(n: int): (bs: Bytes)
    ensures |bs| == 4
  {
    [n % 0x100, n / 0x100 % 0x100, n / 0x100 / 0x100 % 0x100, n / 0x100 / 0x100 / 0x100]
  }

  function DecU32(bs: Bytes): Option<Read<int>> {
    if |bs| < 4 then None else Some(Read(bs[0] + 0x100 * (bs[1] + 0x100 * (bs[2] + 0x100 * bs[3])), bs[4..]))
  }

  lemma U32Back(n: int, rest: Bytes)
    ensures DecU32(EncU32(n) + rest) == Some(Read(n, rest))
  {
    var bs := EncU32(n) + rest;
    assert bs[..4] == EncU32(n) && bs[4..] == rest;
    assert bs[0] == EncU32(n)[0] && bs[1] == EncU32(n)[1] && bs[2] == EncU32(n)[2] && bs[3] == EncU32(n)[3];
    var a := n / 0x100;
    var b := a / 0x100;
    assert n == n % 0x100 + 0x100 * a && a == a % 0x100 + 0x100 * b && b == b % 0x100 + 0x100 * (b / 0x100);
  }

  function EncByte(n: int): Bytes {
    [n]
  }

  function DecByte(bs: Bytes): Option<Read<int>> {
    if bs == [] then None else Some(Read(bs[0], bs[1..]))
  }

  lemma ByteBack(n: int, rest: Bytes)
    ensures DecByte(EncByte(n) + rest) == Some(Read(n, rest))
  {
    assert ([n] + rest)[1..] == rest;
  }

  function EncBool(b: bool): Bytes {
    [if b then 1 else 0]
  }

  /** Any byte but 0 reads as true. */
  function DecBool(bs: Bytes): Option<Read<bool>> {
    if bs == [] then None else Some(Read(bs[0] != 0, bs[1..]))
  }

  lemma BoolBack(b: bool, rest: Bytes)
    ensures DecBool(EncBool(b) + rest) == Some(Read(b, rest))
  {
    assert (EncBool(b) + rest)[1..] == rest;
  }

  predicate NoNul(s: Bytes) {
    0 !in s
  }

  /** A text up to a NUL. */
  function EncText(s: Bytes): Bytes {
    s + [0]
  }

  function DecText(bs: Bytes): (r: Option<Read<Bytes>>)
    ensures r.Some? ==> |r.value.rest| < |bs|
  {
    if bs == [] then None
    else if bs[0] == 0 then Some(Read([], bs[1..]))
    else
      var r := DecText(bs[1..]);
      if r.None? then None else Some(Read([bs[0]] + r.value.value, r.value.rest))
  }

  lemma {:induction false} TextBack(s: Bytes, rest: Bytes)
    requires NoNul(s)
    ensures DecText(EncText(s) + rest) == Some(Read(s, rest))
  {
    var bs := EncText(s) + rest;
    if s == [] {
      assert bs[1..] == rest;
    } else {
      TextBack(s[1..], rest);
      assert bs[1..] == EncText(s[1..]) + rest;
      assert [s[0]] + s[1..] == s;
    }
  }

  // ----- types --------------------------------------------------------------------------------------

  const UNKNOWN_LENGTH: int := 0xFFFF_FFF1

  predicate IsUnknownLength(n: int) {
    UNKNOWN_LENGTH <= n <= UNKNOWN_LENGTH + 2
  }

  datatype Charset = Ascii | Data | Ebcdic | Utf8
  datatype Collation = AsciiOrder | EbcdicOrder

  function CharsetName(c: Charset): Bytes {
    match c
    case Ascii => [97, 115, 99, 105, 105]
    case Data => [100, 97, 116, 97]
    case Ebcdic => [101, 98, 99, 100, 105, 99]
    case Utf8 => [117, 116, 102, 56]
  }

  function CollationName(c: Collation): Bytes {
    match c
    case AsciiOrder => [97, 115, 99, 105, 105]
    case EbcdicOrder => [101, 98, 99, 100, 105, 99]
  }

  /** `getCharset`; an unknown name leaves the default. */
  function GetCharset(name: Bytes): Charset {
    if name == CharsetName(Data) then Data else if name == CharsetName(Ebcdic) then Ebcdic
    else if name == CharsetName(Utf8) then Utf8 else Ascii
  }

  /** `getCollation`; an unknown name leaves the default of the character set. */
  function GetCollation(name: Bytes): Option<Collation> {
    if name in {CharsetName(Ascii), CharsetName(Data), CharsetName(Utf8)} then Some(AsciiOrder)
    else if name == CharsetName(Ebcdic) then Some(EbcdicOrder)
    else None
  }

  function DefaultCollation(c: Charset): Collation {
    if c == Ebcdic then EbcdicOrder else AsciiOrder
  }

  const BOOLEAN: int := 0   const INT: int := 1       const REAL: int := 2      const DECIMAL: int := 3
  const STRING: int := 4    const BITFIELD: int := 9  const KEYEDINT: int := 10 const CHAR: int := 11
  const RECORD: int := 13   const VARSTRING: int := 14 const BLOB: int := 15    const DATA: int := 16
  const PTR: int := 17  const CLASS: int := 18    const ARRAY: int := 19    const TABLE: int := 20
  const SET: int := 21      const ROW: int := 22      const GROUPEDTABLE: int := 23 const VOID: int := 24
  const SWAPINT: int := 26  const NONE: int := 27     const PACKEDINT: int := 28 const FILEPOS: int := 29
  const QSTRING: int := 30  const UNICODE: int := 31  const VARUNICODE: int := 33 const PATTERN: int := 34
  const RULE: int := 35     const TOKEN: int := 36    const FEATURE: int := 37  const EVENT: int := 38
  const NULL: int := 39     const UTF8: int := 41     const TRANSFORM: int := 42 const SORTLIST: int := 45
  const DICTIONARY: int := 46

  predicate IsPlain(code: int) {
    code in {BOOLEAN, VOID, NULL, PATTERN, TOKEN, FEATURE, EVENT, RECORD, BLOB}
  }

  datatype Type =
    | Plain(code: int)
    | Int(swapped: bool, size: int, signed: bool)
    | Real(size: int)
    | Char(caseSensitive: bool)
    | Text(terminated: bool, length: int, charset: Charset, collation: Collation)
    | Unicode(code: int, length: int, locale: Bytes)
    | Sized(code: int, length: int)
    | Decimal(precision: int, digits: int, signed: bool)
    | Bitfield(bits: int, storeSize: int)
    | Based(code: int, base: Option<Type>)
    | Array(length: int, base: Option<Type>)
    | Class(name: Bytes)
    | Table(row: Option<Type>)
    | Dictionary(row: Option<Type>)
    | KeyedBlob(base: Option<Type>)
    | Modified(modifier: int, unmodified: Type)
    | Unserializable

  predicate IsU32(n: int) {
    0 <= n < TWO_32
  }

  /** `makeDecimalType` */
  predicate IsDecimal(precision: int, digits: int) {
    if precision == 0xFF then digits == 0xFF
    else 0 <= precision <= 32 && (digits == 0xFF || 0 <= digits - precision <= 32)
  }

  /** `makeVarStringType`: the characters and a terminator. */
  function VarStringSize(characters: int): int {
    if IsUnknownLength(characters) then UNKNOWN_LENGTH else characters + 1
  }

  function PromotedBitfieldSize(bits: int): int {
    if bits <= 8 then 1 else if bits <= 16 then 2 else if bits <= 32 then 4 else 8
  }

  /** What the functions that make types admit. */
  predicate WellFormed(t: Type) {
    match t
    case Plain(code) => IsPlain(code)
    case Int(_, size, _) => 1 <= size <= 8
    case Real(size) => size == 4 || size == 8
    case Text(terminated, length, _, _) =>
      IsU32(length) && (terminated ==>
                        length > 0 && VarStringSize(if IsUnknownLength(length) then length else length - 1) == length)
    case Unicode(code, length, locale) => code in {UNICODE, VARUNICODE, UTF8} && IsU32(length) && NoNul(locale)
    case Sized(code, length) => code in {DATA, QSTRING} && IsU32(length)
    case Decimal(precision, digits, _) => IsDecimal(precision, digits)
    case Bitfield(bits, storeSize) => 1 <= bits <= 64 && 1 <= storeSize <= 8
    case Based(code, base) =>
      && code in {SET, PTR, RULE, GROUPEDTABLE, ROW, KEYEDINT, PACKEDINT, FILEPOS, TRANSFORM, SORTLIST}
      && (base.Some? ==> WellFormed(base.value))
      && (code == PACKEDINT ==> base.Some? && base.value.Int? && !base.value.swapped)
    case Array(length, base) => IsU32(length) && (base.Some? ==> WellFormed(base.value))
    case Class(name) => NoNul(name)
    case Table(row) => row.Some? ==> WellFormed(row.value)
    case Dictionary(row) => row.Some? ==> WellFormed(row.value)
    case KeyedBlob(base) => base.Some? ==> WellFormed(base.value)
    case Modified(_, base) => WellFormed(base)
    case _ => true
  }

  /** `queryChildType` */
  function ChildType(t: Type): Option<Type> {
    match t
    case Based(_, base) => base
    case Array(_, base) => base
    case Table(row) => row
    case Dictionary(row) => row
    case KeyedBlob(base) => base
    case Bitfield(_, storeSize) => Some(Int(false, storeSize, false))
    case Modified(_, base) => ChildType(base)
    case _ => None
  }

  function RankOpt(t: Option<Type>): nat {
    if t.None? then 0 else Rank(t.value)
  }

  /** How deep types are nested. */
  function Rank(t: Type): nat {
    match t
    case Bitfield(_, _) => 1
    case Based(_, base) => 1 + RankOpt(base)
    case Array(_, base) => 1 + RankOpt(base)
    case Table(row) => 1 + RankOpt(row)
    case Dictionary(row) => 1 + RankOpt(row)
    case KeyedBlob(base) => 1 + RankOpt(base)
    case Modified(_, base) => 1 + Rank(base)
    case _ => 0
  }

  lemma {:induction false} ChildIsSmaller(t: Type)
    ensures ChildType(t).Some? ==> Rank(ChildType(t).value) < Rank(t)
  {
    if t.Modified? { ChildIsSmaller(t.unmodified); }
  }

  // ----- writing ------------------------------------------------------------------------------------

  function EncOpt(t: Option<Type>): Option<Bytes>
    decreases RankOpt(t), 2
  {
    if t.None? then Some(EncByte(NONE)) else Enc(t.value)
  }

  /** What `serialize` appends; None where it throws. */
  function Enc(t: Type): Option<Bytes>
    decreases Rank(t), 1
  {
    match t
    case Plain(code) => Some(EncByte(code))
    case Int(swapped, size, signed) => Some(EncByte(if swapped then SWAPINT else INT) + EncByte(size) + EncBool(signed))
    case Real(size) => Some(EncByte(REAL) + EncByte(size))
    case Char(caseSensitive) => Some(EncByte(CHAR) + EncBool(caseSensitive))
    case Text(terminated, length, charset, collation) =>
      Some(EncByte(if terminated then VARSTRING else STRING) + EncU32(length) + EncBool(true)
           + EncText(CollationName(collation))
           + EncBool(true) + EncText(CharsetName(charset)))
    case Unicode(code, length, locale) => Some(EncByte(code) + EncU32(length) + EncText(locale))
    case Sized(code, length) => Some(EncByte(code) + EncU32(length))
    case Decimal(precision, digits, signed) =>
      Some(EncByte(DECIMAL) + EncByte(precision) + EncByte(digits) + EncBool(signed))
    case Bitfield(bits, _) =>
      Some(EncByte(BITFIELD) + EncU32(bits) + (EncByte(INT) + EncByte(PromotedBitfieldSize(bits)) + EncBool(false)))
    case Based(code, base) => if EncOpt(base).None? then None else Some(EncByte(code) + EncOpt(base).value)
    case Array(length, base) => if EncOpt(base).None? then None
      else Some(EncByte(ARRAY) + EncU32(length) + EncOpt(base).value)
    case Class(name) => Some(EncByte(CLASS) + EncText(name))
    case Table(row) => EncSkippingChild(TABLE, t)
    case Dictionary(row) => EncSkippingChild(DICTIONARY, t)
    case KeyedBlob(_) => Some(EncByte(BLOB))
    case Modified(_, base) => Enc(base)
    case Unserializable => None
  }

  /** `serializeSkipChild`: the child of the row type instead of the row type. */
  function EncSkippingChild(code: int, t: Type): Option<Bytes>
    requires t.Table? || t.Dictionary?
    decreases Rank(t), 0
  {
    if t.row.None? then Some(EncByte(code) + EncByte(NONE))
    else
      var child := ChildType(t.row.value);
      ChildIsSmaller(t.row.value);
      assert Rank(t) == 1 + Rank(t.row.value) && RankOpt(child) <= Rank(t.row.value);
      if EncOpt(child).None? then None else Some(EncByte(code) + EncOpt(child).value)
  }

  // ----- reading ------------------------------------------------------------------------------------

  /** `deserializeType`, which may give no type.  None stands for a failed assertion. */
  function DecOpt(bs: Bytes): (r: Option<Read<Option<Type>>>)
    ensures r.Some? ==> |r.value.rest| < |bs|
    decreases |bs|
  {
    if bs == [] then None
    else
      var code, rest := bs[0], bs[1..];
      if code == NONE then Some(Read(None, rest))
      else if IsPlain(code) then Some(Read(Some(Plain(code)), rest))
      else if code in {INT, SWAPINT, PACKEDINT} then DecInt(code, rest)
      else if code == CHAR then
        var b := DecBool(rest);
        if b.None? then None else Some(Read(Some(Char(b.value.value)), b.value.rest))
      else if code == REAL then
        var size := DecByte(rest);
        if size.None? || (size.value.value != 4 && size.value.value != 8) then None
        else Some(Read(Some(Real(size.value.value)), size.value.rest))
      else if code in {STRING, VARSTRING} then DecStringType(code, rest)
      else if code in {UNICODE, VARUNICODE, UTF8} then
        var length := DecU32(rest);
        if length.None? then None
        else
          var locale := DecText(length.value.rest);
          if locale.None? then None
          else Some(Read(Some(Unicode(code, length.value.value, locale.value.value)), locale.value.rest))
      else if code in {DATA, QSTRING} then
        var length := DecU32(rest);
        if length.None? then None else Some(Read(Some(Sized(code, length.value.value)), length.value.rest))
      else if code == DECIMAL then DecDecimal(rest)
      else if code == BITFIELD then
        var bits := DecU32(rest);
        if bits.None? then None
        else
          var base := DecOpt(bits.value.rest);
          if base.None? || !(1 <= bits.value.value <= 64) then None
          else if base.value.value.None? then
            Some(Read(Some(Bitfield(bits.value.value, PromotedBitfieldSize(bits.value.value))), base.value.rest))
          else if base.value.value.value.Int? && !base.value.value.value.swapped then
            Some(Read(Some(Bitfield(bits.value.value, base.value.value.value.size)), base.value.rest))
          else None
      else if code in {SET, PTR, RULE, GROUPEDTABLE} then
        var base := DecOpt(rest);
        if base.None? then None else Some(Read(Some(Based(code, base.value.value)), base.value.rest))
      else if code == ARRAY then
        var length := DecU32(rest);
        if length.None? then None
        else
          var base := DecOpt(length.value.rest);
          if base.None? then None else Some(Read(Some(Array(length.value.value, base.value.value)), base.value.rest))
      else if code == CLASS then
        var name := DecText(rest);
        if name.None? then None else Some(Read(Some(Class(name.value.value)), name.value.rest))
      else if code == TABLE then
        var base := DecOpt(rest);
        if base.None? then None else Some(Read(Some(Table(Some(Based(ROW, base.value.value)))), base.value.rest))
      else None
  }

  function DecInt(code: int, bs: Bytes): (r: Option<Read<Option<Type>>>)
    ensures r.Some? ==> |r.value.rest| < |bs|
  {
    if |bs| < 2 || !(1 <= bs[0] <= 8) then None
    else
      var signed := bs[1] != 0;
      Some(Read(Some(if code == PACKEDINT then Based(PACKEDINT, Some(Int(false, bs[0], signed)))
                     else Int(code == SWAPINT, bs[0], signed)), bs[2..]))
  }

  function DecDecimal(bs: Bytes): (r: Option<Read<Option<Type>>>)
    ensures r.Some? ==> |r.value.rest| < |bs|
  {
    if |bs| < 3 || !IsDecimal(bs[0], bs[1]) then None else Some(Read(Some(Decimal(bs[0], bs[1], bs[2] != 0)), bs[3..]))
  }

  /** A flag, and a name if it is set. */
  function DecName(bs: Bytes): (r: Option<Read<Option<Bytes>>>)
    ensures r.Some? ==> |r.value.rest| < |bs|
  {
    var b := DecBool(bs);
    if b.None? then None
    else if !b.value.value then Some(Read(None, b.value.rest))
    else
      var name := DecText(b.value.rest);
      if name.None? then None else Some(Read(Some(name.value.value), name.value.rest))
  }

  function DecStringType(code: int, bs: Bytes): (r: Option<Read<Option<Type>>>)
    ensures r.Some? ==> |r.value.rest| < |bs|
  {
    var size := DecU32(bs);
    if size.None? then None
    else
      var collation := DecName(size.value.rest);
      if collation.None? then None
      else
        var charset := DecName(collation.value.rest);
        if charset.None? then None
        else
          var n := size.value.value;
          var c := if charset.value.value.Some? then GetCharset(charset.value.value.value) else Ascii;
          var named := if collation.value.value.Some? then GetCollation(collation.value.value.value) else None;
          var o := if named.Some? then named.value else DefaultCollation(c);
          var length := if code == STRING then n else VarStringSize(if IsUnknownLength(n) then n else (n - 1) % TWO_32);
          Some(Read(Some(Text(code == VARSTRING, length, c, o)), charset.value.rest))
  }

  // ----- what survives ------------------------------------------------------------------------------

  predicate PersistableOpt(t: Option<Type>) {
    t.Some? ==> Persistable(t.value)
  }

  /** The types that are read back as they were. */
  predicate Persistable(t: Type) {
    match t
    case Bitfield(bits, storeSize) => storeSize == PromotedBitfieldSize(bits)
    case Based(code, base) => code in {SET, PTR, RULE, GROUPEDTABLE} && PersistableOpt(base)
    case Array(_, base) => PersistableOpt(base)
    case Table(row) => row.Some? && row.value.Based? && row.value.code == ROW && PersistableOpt(row.value.base)
    case Dictionary(_) => false
    case KeyedBlob(_) => false
    case Modified(_, _) => false
    case Unserializable => false
    case _ => true
  }

  lemma IntBack(code: int, size: int, signed: bool, rest: Bytes)
    requires code in {INT, SWAPINT} && 1 <= size <= 8
    ensures DecOpt(EncByte(code) + EncByte(size) + EncBool(signed) + rest) ==
            Some(Read(Some(Int(code == SWAPINT, size, signed)), rest))
  {
    var bs := EncByte(code) + EncByte(size) + EncBool(signed) + rest;
    assert bs[1..] == EncByte(size) + EncBool(signed) + rest;
    assert bs[1..][2..] == rest;
  }

  lemma NameBack(name: Bytes, rest: Bytes)
    requires NoNul(name)
    ensures DecName(EncBool(true) + EncText(name) + rest) == Some(Read(Some(name), rest))
  {
    assert EncBool(true) + EncText(name) + rest == EncBool(true) + (EncText(name) + rest);
    BoolBack(true, EncText(name) + rest);
    TextBack(name, rest);
  }

  lemma NamesAreKnown(c: Charset, o: Collation)
    ensures GetCharset(CharsetName(c)) == c && GetCollation(CollationName(o)) == Some(o)
    ensures NoNul(CharsetName(c)) && NoNul(CollationName(o))
  {
    assert CharsetName(Data)[0] == 100 && CharsetName(Ebcdic)[0] == 101 && CharsetName(Utf8)[0] == 117
           && CharsetName(Ascii)[0] == 97;
  }

  lemma StringBodyBack(code: int, length: int, charset: Charset, collation: Collation, rest: Bytes)
    requires code in {STRING, VARSTRING} && IsU32(length)
    requires code == VARSTRING ==>
             length > 0 && VarStringSize(if IsUnknownLength(length) then length else length - 1) == length
    ensures DecStringType(code, EncU32(length) + (EncBool(true) + EncText(CollationName(collation))
                                                  + (EncBool(true) + EncText(CharsetName(charset)) + rest)))
            == Some(Read(Some(Text(code == VARSTRING, length, charset, collation)), rest))
  {
    var last := EncBool(true) + EncText(CharsetName(charset)) + rest;
    var names := EncBool(true) + EncText(CollationName(collation)) + last;
    U32Back(length, names);
    NamesAreKnown(charset, collation);
    NameBack(CollationName(collation), last);
    NameBack(CharsetName(charset), rest);
  }

  lemma Regroup(a: Bytes, b: Bytes, f: Bytes, o: Bytes, c: Bytes, rest: Bytes)
    ensures a + b + f + o + f + c + rest == a + (b + (f + o + (f + c + rest)))
  {
  }

  lemma DecOfString(bs: Bytes, code: int)
    requires bs != [] && bs[0] == code && code in {STRING, VARSTRING}
    ensures DecOpt(bs) == DecStringType(code, bs[1..])
  {
  }

  lemma TextTypeBack(t: Type, rest: Bytes)
    requires t.Text? && WellFormed(t)
    ensures DecOpt(Enc(t).value + rest) == Some(Read(Some(t), rest))
  {
    var code := if t.terminated then VARSTRING else STRING;
    var body := EncU32(t.length) + (EncBool(true) + EncText(CollationName(t.collation))
                                    + (EncBool(true) + EncText(CharsetName(t.charset)) + rest));
    Regroup(EncByte(code), EncU32(t.length), EncBool(true), EncText(CollationName(t.collation)),
            EncText(CharsetName(t.charset)), rest);
    ByteBack(code, body);
    DecOfString(EncByte(code) + body, code);
    StringBodyBack(code, t.length, t.charset, t.collation, rest);
  }

  lemma CodeFirst(code: int, more: Bytes, rest: Bytes)
    ensures (EncByte(code) + more + rest)[0] == code && (EncByte(code) + more + rest)[1..] == more + rest
  {
  }

  lemma NumberedBack(t: Type, rest: Bytes)
    requires WellFormed(t) && (t.Plain? || t.Int? || t.Real? || t.Char? || t.Decimal?)
    ensures DecOpt(Enc(t).value + rest) == Some(Read(Some(t), rest))
  {
    var bs := Enc(t).value + rest;
    match t
    case Plain(code) => assert bs[1..] == rest;
    case Int(swapped, size, signed) => IntBack(if swapped then SWAPINT else INT, size, signed, rest);
    case Real(size) => CodeFirst(REAL, EncByte(size), rest); ByteBack(size, rest);
    case Char(b) => CodeFirst(CHAR, EncBool(b), rest); BoolBack(b, rest);
    case Decimal(precision, digits, signed) =>
      assert bs[1..] == EncByte(precision) + EncByte(digits) + EncBool(signed) + rest;
      assert bs[1..][3..] == rest;
  }

  lemma UnicodeBack(code: int, length: int, locale: Bytes, rest: Bytes)
    requires code in {UNICODE, VARUNICODE, UTF8} && NoNul(locale)
    ensures DecOpt(EncByte(code) + EncU32(length) + EncText(locale) + rest) ==
            Some(Read(Some(Unicode(code, length, locale)), rest))
  {
    var text := EncText(locale) + rest;
    assert EncByte(code) + EncU32(length) + EncText(locale) + rest == EncByte(code) + (EncU32(length) + text);
    ByteBack(code, EncU32(length) + text);
    U32Back(length, text);
    TextBack(locale, rest);
  }

  lemma SizedBack(code: int, length: int, rest: Bytes)
    requires code in {DATA, QSTRING}
    ensures DecOpt(EncByte(code) + EncU32(length) + rest) == Some(Read(Some(Sized(code, length)), rest))
  {
    CodeFirst(code, EncU32(length), rest);
    U32Back(length, rest);
  }

  lemma ClassBack(name: Bytes, rest: Bytes)
    requires NoNul(name)
    ensures DecOpt(EncByte(CLASS) + EncText(name) + rest) == Some(Read(Some(Class(name)), rest))
  {
    CodeFirst(CLASS, EncText(name), rest);
    TextBack(name, rest);
  }

  lemma BitfieldBack(bits: int, storeSize: int, rest: Bytes)
    requires 1 <= bits <= 64
    ensures DecOpt(Enc(Bitfield(bits, storeSize)).value + rest) ==
            Some(Read(Some(Bitfield(bits, PromotedBitfieldSize(bits))), rest))
  {
    var base := EncByte(INT) + EncByte(PromotedBitfieldSize(bits)) + EncBool(false);
    var bs := Enc(Bitfield(bits, storeSize)).value + rest;
    assert bs == EncByte(BITFIELD) + (EncU32(bits) + (base + rest));
    ByteBack(BITFIELD, EncU32(bits) + (base + rest));
    U32Back(bits, base + rest);
    IntBack(INT, PromotedBitfieldSize(bits), false, rest);
  }

  /** Reading the bytes of a type gives the type itself, and leaves what follows. */
  ghost predicate ReadsBack(t: Option<Type>, rest: Bytes)
    requires EncOpt(t).Some?
  {
    DecOpt(EncOpt(t).value + rest) == Some(Read(t, rest))
  }

  lemma NoneBack(rest: Bytes)
    ensures ReadsBack(None, rest)
  {
    assert (EncByte(NONE) + rest)[1..] == rest;
  }

  lemma DecOfBased(bs: Bytes, code: int)
    requires bs != [] && bs[0] == code && code in {SET, PTR, RULE, GROUPEDTABLE, TABLE}
    ensures var base := DecOpt(bs[1..]);
            DecOpt(bs) ==
            if base.None? then None
            else Some(Read(Some(if code == TABLE then Table(Some(Based(ROW, base.value.value)))
                                else Based(code, base.value.value)), base.value.rest))
  {
  }

  /** Types made from one other type after their code. */
  lemma BasedReads(code: int, base: Option<Type>, rest: Bytes)
    requires code in {SET, PTR, RULE, GROUPEDTABLE} && EncOpt(base).Some?
    ensures Enc(Based(code, base)).Some? && (ReadsBack(Some(Based(code, base)), rest) <==> ReadsBack(base, rest))
  {
    CodeFirst(code, EncOpt(base).value, rest);
    DecOfBased(EncByte(code) + EncOpt(base).value + rest, code);
    assert Enc(Based(code, base)) == Some(EncByte(code) + EncOpt(base).value);
  }

  lemma ArrayReads(length: int, base: Option<Type>, rest: Bytes)
    requires EncOpt(base).Some?
    ensures Enc(Array(length, base)).Some? && (ReadsBack(Some(Array(length, base)), rest) <==> ReadsBack(base, rest))
  {
    var more := EncOpt(base).value + rest;
    assert Enc(Array(length, base)) == Some(EncByte(ARRAY) + EncU32(length) + EncOpt(base).value);
    assert EncByte(ARRAY) + EncU32(length) + EncOpt(base).value + rest == EncByte(ARRAY) + (EncU32(length) + more);
    ByteBack(ARRAY, EncU32(length) + more);
    U32Back(length, more);
    DecOfArray(EncByte(ARRAY) + (EncU32(length) + more), length, more);
  }

  lemma DecOfArray(bs: Bytes, length: int, more: Bytes)
    requires bs != [] && bs[0] == ARRAY && DecU32(bs[1..]) == Some(Read(length, more))
    ensures var base := DecOpt(more);
            DecOpt(bs) == if base.None? then None
              else Some(Read(Some(Array(length, base.value.value)), base.value.rest))
  {
  }

  lemma TableReads(row: Option<Type>, rest: Bytes)
    requires Enc(Table(row)).Some?
    ensures ReadsBack(Some(Table(row)), rest) <==>
            row.Some? && row.value.Based? && row.value.code == ROW && EncOpt(row.value.base).Some?
              && ReadsBack(row.value.base, rest)
  {
    var child := if row.None? then None else ChildType(row.value);
    assert EncOpt(child).Some? && Enc(Table(row)) == Some(EncByte(TABLE) + EncOpt(child).value) by { TableWrites(row); }
    CodeFirst(TABLE, EncOpt(child).value, rest);
    DecOfBased(EncByte(TABLE) + EncOpt(child).value + rest, TABLE);
  }

  lemma TableWrites(row: Option<Type>)
    requires Enc(Table(row)).Some?
    ensures var child := if row.None? then None else ChildType(row.value);
            EncOpt(child).Some? && Enc(Table(row)) == Some(EncByte(TABLE) + EncOpt(child).value)
  {
    assert Enc(Table(row)) == EncSkippingChild(TABLE, Table(row));
  }

  /** The codes that are written but not read. */
  lemma UnreadCode(code: int, more: Bytes, rest: Bytes)
    requires code in {ROW, KEYEDINT, FILEPOS, TRANSFORM, SORTLIST, DICTIONARY}
    ensures DecOpt(EncByte(code) + more + rest) == None
  {
    CodeFirst(code, more, rest);
  }

  /** A packed integer writes the type it is based on, whose code is then taken for the size. */
  lemma PackedIntMisread(size: int, signed: bool, rest: Bytes)
    requires 1 <= size <= 8
    ensures var t := Based(PACKEDINT, Some(Int(false, size, signed)));
            Enc(t).Some? && DecOpt(Enc(t).value + rest) ==
              Some(Read(Some(Based(PACKEDINT, Some(Int(false, 1, true)))), EncBool(signed) + rest))
  {
    var t := Based(PACKEDINT, Some(Int(false, size, signed)));
    var int_ := EncByte(INT) + EncByte(size) + EncBool(signed);
    assert EncOpt(Some(Int(false, size, signed))) == Enc(Int(false, size, signed)) == Some(int_);
    var bs := Enc(t).value + rest;
    assert bs == EncByte(PACKEDINT) + (EncByte(INT) + EncByte(size) + EncBool(signed)) + rest;
    CodeFirst(PACKEDINT, EncByte(INT) + EncByte(size) + EncBool(signed), rest);
    assert bs[1..][2..] == EncBool(signed) + rest;
  }

  /** What is read is never one of the classes whose own form is lost. */
  lemma NeverRead(bs: Bytes)
    requires DecOpt(bs).Some? && DecOpt(bs).value.value.Some?
    ensures var t := DecOpt(bs).value.value.value; !t.Modified? && !t.KeyedBlob? && !t.Dictionary? && !t.Unserializable?
  {
  }

  lemma {:induction false} OptReadsBack(t: Option<Type>, rest: Bytes)
    requires (t.Some? ==> WellFormed(t.value)) && EncOpt(t).Some?
    ensures ReadsBack(t, rest) <==> PersistableOpt(t)
    decreases RankOpt(t), 1
  {
    if t.None? { NoneBack(rest); } else { TypeReadsBack(t.value, rest); }
  }

  /** A type that can be written is read back, whatever follows it, exactly if it is persistable. */
  lemma {:induction false} TypeReadsBack(t: Type, rest: Bytes)
    requires WellFormed(t) && Enc(t).Some?
    ensures ReadsBack(Some(t), rest) <==> Persistable(t)
    decreases Rank(t), 0
  {
    match t
    case Text(_, _, _, _) => TextTypeBack(t, rest);
    case Bitfield(bits, storeSize) => BitfieldBack(bits, storeSize, rest);
    case Based(code, base) =>
      if code in {SET, PTR, RULE, GROUPEDTABLE} {
        OptReadsBack(base, rest);
        BasedReads(code, base, rest);
      } else if code == PACKEDINT {
        PackedIntMisread(base.value.size, base.value.signed, rest);
        assert |EncBool(base.value.signed) + rest| == |rest| + 1;
      } else {
        UnreadCode(code, EncOpt(base).value, rest);
      }
    case Array(length, base) =>
      OptReadsBack(base, rest);
      ArrayReads(length, base, rest);
    case Table(row) =>
      TableReads(row, rest);
      if row.Some? && row.value.Based? && row.value.code == ROW { OptReadsBack(row.value.base, rest); }
    case Dictionary(row) =>
      if row.None? {
        UnreadCode(DICTIONARY, EncByte(NONE), rest);
      } else {
        UnreadCode(DICTIONARY, EncOpt(ChildType(row.value)).value, rest);
      }
    case KeyedBlob(_) => if DecOpt(Enc(t).value + rest).Some?
      && DecOpt(Enc(t).value + rest).value.value.Some? { NeverRead(Enc(t).value + rest); }
    case Modified(_, base) => if DecOpt(Enc(t).value + rest).Some?
      && DecOpt(Enc(t).value + rest).value.value.Some? { NeverRead(Enc(t).value + rest); }
    case Unicode(code, length, locale) => UnicodeBack(code, length, locale, rest);
    case Sized(code, length) => SizedBack(code, length, rest);
    case Class(name) => ClassBack(name, rest);
    case Unserializable =>
    case _ => NumberedBack(t, rest);
  }

  // ----- what is left behind by a type that does not survive ----------------------------------------

  /** Where the same type is read after all, it has been read one byte short, and that byte is 1. */
  ghost predicate OneByteShort(t: Option<Type>, rest: Bytes)
    requires EncOpt(t).Some?
  {
    var d := DecOpt(EncOpt(t).value + rest);
    d.Some? && d.value.value == t ==> d.value.rest == EncByte(1) + rest
  }

  lemma BasedOneByteShort(code: int, base: Option<Type>, rest: Bytes)
    requires code in {SET, PTR, RULE, GROUPEDTABLE} && EncOpt(base).Some? && OneByteShort(base, rest)
    ensures Enc(Based(code, base)).Some? && OneByteShort(Some(Based(code, base)), rest)
  {
    CodeFirst(code, EncOpt(base).value, rest);
    DecOfBased(EncByte(code) + EncOpt(base).value + rest, code);
    assert Enc(Based(code, base)) == Some(EncByte(code) + EncOpt(base).value);
  }

  lemma ArrayOneByteShort(length: int, base: Option<Type>, rest: Bytes)
    requires EncOpt(base).Some? && OneByteShort(base, rest)
    ensures Enc(Array(length, base)).Some? && OneByteShort(Some(Array(length, base)), rest)
  {
    var more := EncOpt(base).value + rest;
    assert Enc(Array(length, base)) == Some(EncByte(ARRAY) + EncU32(length) + EncOpt(base).value);
    assert EncByte(ARRAY) + EncU32(length) + EncOpt(base).value + rest == EncByte(ARRAY) + (EncU32(length) + more);
    ByteBack(ARRAY, EncU32(length) + more);
    U32Back(length, more);
    DecOfArray(EncByte(ARRAY) + (EncU32(length) + more), length, more);
  }

  lemma TableOneByteShort(row: Option<Type>, rest: Bytes)
    requires Enc(Table(row)).Some?
    requires row.Some? && row.value.Based? && row.value.code == ROW ==>
             EncOpt(row.value.base).Some? && OneByteShort(row.value.base, rest)
    ensures OneByteShort(Some(Table(row)), rest)
  {
    var child := if row.None? then None else ChildType(row.value);
    TableWrites(row);
    CodeFirst(TABLE, EncOpt(child).value, rest);
    DecOfBased(EncByte(TABLE) + EncOpt(child).value + rest, TABLE);
  }

  /** Only a packed integer of one signed byte, by itself or inside, is read as what was written. */
  lemma {:induction false} TypeOneByteShort(t: Type, rest: Bytes)
    requires WellFormed(t) && Enc(t).Some? && !Persistable(t)
    ensures OneByteShort(Some(t), rest)
    decreases Rank(t)
  {
    var bs := Enc(t).value + rest;
    match t
    case Bitfield(bits, storeSize) => BitfieldBack(bits, storeSize, rest);
    case Based(code, base) =>
      if code in {SET, PTR, RULE, GROUPEDTABLE} {
        assert Rank(t) == 1 + RankOpt(base);
        TypeOneByteShort(base.value, rest);
        BasedOneByteShort(code, base, rest);
      } else if code == PACKEDINT {
        PackedIntMisread(base.value.size, base.value.signed, rest);
      } else {
        UnreadCode(code, EncOpt(base).value, rest);
      }
    case Array(length, base) =>
      assert Rank(t) == 1 + RankOpt(base);
      TypeOneByteShort(base.value, rest);
      ArrayOneByteShort(length, base, rest);
    case Table(row) =>
      if row.Some? && row.value.Based? && row.value.code == ROW {
        assert Rank(t) == 1 + Rank(row.value) && Rank(row.value) == 1 + RankOpt(row.value.base);
        TableWrites(row);
        TypeOneByteShort(row.value.base.value, rest);
      }
      TableOneByteShort(row, rest);
    case Dictionary(_) => if DecOpt(bs).Some? && DecOpt(bs).value.value.Some? { NeverRead(bs); }
    case KeyedBlob(_) => if DecOpt(bs).Some? && DecOpt(bs).value.value.Some? { NeverRead(bs); }
    case Modified(_, _) => if DecOpt(bs).Some? && DecOpt(bs).value.value.Some? { NeverRead(bs); }
    case _ =>
  }
}
