/** The resource locator: finds a section of an ELF or Mach-O image by name, reading only the image's
    own bytes.  Offsets are 64-bit numbers whose arithmetic is shown never to wrap around. */
module ResourceLocator {
  import opened Options

  newtype Byte = b: int | 0 <= b < 0x100
  newtype Size = n: int | 0 <= n < 0x1_0000_0000_0000_0000

  const SIZE_MAX: Size := 0xFFFF_FFFF_FFFF_FFFF
  const UINT_MAX: int := 0xFFFF_FFFF

  /** A mapped file. */
  type Image = img: seq<Byte> | |img| < 0x1_0000_0000_0000_0000

  /** Where a resource is. */
  datatype Resource = Resource(offset: int, length: int)

  // ----- reading numbers ----------------------------------------------------------------------------

  predicate InImage(img: Image, offset: int, length: int) {
    0 <= offset && 0 <= length && offset + length <= |img|
  }

  function U16(img: Image, offset: int): (n: int)
    requires InImage(img, offset, 2)
    ensures 0 <= n < 0x1_0000
  {
    img[offset] as int + 0x100 * img[offset + 1] as int
  }

  function U32(img: Image, offset: int): (n: int)
    requires InImage(img, offset, 4)
    ensures 0 <= n < 0x1_0000_0000
  {
    U16(img, offset) + 0x1_0000 * U16(img, offset + 2)
  }

  function U64(img: Image, offset: int): (n: int)
    requires InImage(img, offset, 8)
    ensures 0 <= n < 0x1_0000_0000_0000_0000
  {
    U32(img, offset) + 0x1_0000_0000 * U32(img, offset + 4)
  }

  /** `rangeIsValid`: the range lies in the buffer, without adding its ends. */
  function RangeIsValid(offset: Size, length: Size, bufferLength: Size): (valid: bool)
    ensures valid <==> offset as int + length as int <= bufferLength as int
  {
    offset <= bufferLength && length <= bufferLength - offset
  }

  /** `calculateArraySize`: the product, if it is a 64-bit number. */
  function CalculateArraySize(elementSize: Size, count: Size): (total: Option<Size>)
    ensures if elementSize as int * count as int <= SIZE_MAX as int then total.Some?
            && total.value as int == elementSize as int * count as int
            else total.None?
  {
    ProductFits(elementSize as int, count as int, SIZE_MAX as int);
    if count != 0 && elementSize > SIZE_MAX / count then None else Some(elementSize * count)
  }

  lemma ProductFits(a: int, b: int, m: int)
    requires a >= 0 && b >= 0 && m >= 0
    ensures b > 0 ==> (a * b <= m <==> a <= m / b)
    ensures 0 <= a * b
  {
    if b > 0 {
      var q := m / b;
      assert m == q * b + m % b;
      if a <= q {
        assert (q - a) * b >= 0;
        assert q * b == (q - a) * b + a * b;
      } else {
        assert (a - q - 1) * b >= 0;
        assert a * b == (a - q - 1) * b + (q + 1) * b;
        assert (q + 1) * b == q * b + b;
      }
    }
  }

  // ----- ELF (System V ABI, chapter 4) --------------------------------------------------------------

  /** The two layouts: sizes of the structures, and where their fields are. */
  datatype Layout = Layout(wide: bool) {
    function HeaderSize(): int { if wide then 64 else 52 }
    function SectionSize(): int { if wide then 64 else 40 }
  }

  function Word(l: Layout, img: Image, offset: int): (n: int)
    requires InImage(img, offset, if l.wide then 8 else 4)
    ensures 0 <= n <= SIZE_MAX as int
  {
    if l.wide then U64(img, offset) else U32(img, offset)
  }

  predicate HasHeader(l: Layout, img: Image) {
    InImage(img, 0, l.HeaderSize())
  }

  function TableOffset(l: Layout, img: Image): int
    requires HasHeader(l, img)
  {
    Word(l, img, if l.wide then 40 else 32)
  }

  function EntrySize(l: Layout, img: Image): int
    requires HasHeader(l, img)
  {
    U16(img, if l.wide then 58 else 46)
  }

  function SectionCount(l: Layout, img: Image): int
    requires HasHeader(l, img)
  {
    U16(img, if l.wide then 60 else 48)
  }

  function NameIndex(l: Layout, img: Image): int
    requires HasHeader(l, img)
  {
    U16(img, if l.wide then 62 else 50)
  }

  predicate HasMagic(l: Layout, img: Image)
    requires HasHeader(l, img)
  {
    img[0] == 0x7f && img[1] == 0x45 && img[2] == 0x4c && img[3] == 0x46 && img[4] == (if l.wide then 2 else 1)
      && img[5] == 1
  }

  /** The section header table lies in the image, and its entries are large enough. */
  predicate HasTable(l: Layout, img: Image) {
    && HasHeader(l, img) && HasMagic(l, img)
    && EntrySize(l, img) >= l.SectionSize() && NameIndex(l, img) < SectionCount(l, img)
    && InImage(img, TableOffset(l, img), EntrySize(l, img) * SectionCount(l, img))
  }

  function SectionAt(l: Layout, img: Image, i: int): int
    requires HasHeader(l, img)
  {
    TableOffset(l, img) + i * EntrySize(l, img)
  }

  lemma SectionInImage(l: Layout, img: Image, i: int)
    requires HasTable(l, img) && 0 <= i < SectionCount(l, img)
    ensures InImage(img, SectionAt(l, img, i), l.SectionSize())
    ensures 0 <= i * EntrySize(l, img) <= |img|
  {
    RowInTable(EntrySize(l, img), SectionCount(l, img), i);
  }

  lemma RowInTable(e: int, n: int, i: int)
    requires e >= 0 && 0 <= i < n
    ensures 0 <= i * e && i * e + e <= e * n
  {
    assert (n - i - 1) * e >= 0 && i * e >= 0;
    assert e * n == (n - i - 1) * e + i * e + e;
  }

  predicate HasSection(l: Layout, img: Image, i: int) {
    HasTable(l, img) && 0 <= i < SectionCount(l, img)
  }

  function SectionName(l: Layout, img: Image, i: int): int
    requires HasSection(l, img, i)
  {
    SectionInImage(l, img, i);
    U32(img, SectionAt(l, img, i))
  }

  function SectionOffset(l: Layout, img: Image, i: int): (n: int)
    requires HasSection(l, img, i)
    ensures 0 <= n <= SIZE_MAX as int
  {
    SectionInImage(l, img, i);
    Word(l, img, SectionAt(l, img, i) + (if l.wide then 24 else 16))
  }

  function SectionLength(l: Layout, img: Image, i: int): (n: int)
    requires HasSection(l, img, i)
    ensures 0 <= n <= SIZE_MAX as int
  {
    SectionInImage(l, img, i);
    Word(l, img, SectionAt(l, img, i) + (if l.wide then 32 else 20))
  }

  /** The section of names lies in the image. */
  predicate HasNames(l: Layout, img: Image) {
    && HasTable(l, img)
    && InImage(img, SectionOffset(l, img, NameIndex(l, img)), SectionLength(l, img, NameIndex(l, img)))
  }

  function Names(l: Layout, img: Image): seq<Byte>
    requires HasNames(l, img)
  {
    var o, n := SectionOffset(l, img, NameIndex(l, img)), SectionLength(l, img, NameIndex(l, img));
    img[o..o + n]
  }

  /** The text at a position of the names, up to its terminator, is the given one. */
  predicate NamedAt(names: seq<Byte>, at: int, name: seq<Byte>) {
    0 <= at && at + |name| < |names| && names[at..at + |name|] == name && names[at + |name|] == 0
  }

  /** Section `i` is one that is looked for. */
  predicate IsWanted(l: Layout, img: Image, i: int, name: seq<Byte>)
    requires HasNames(l, img) && HasSection(l, img, i)
  {
    && NamedAt(Names(l, img), SectionName(l, img, i), name)
    && InImage(img, SectionOffset(l, img, i), SectionLength(l, img, i))
    && (l.wide ==> SectionLength(l, img, i) <= UINT_MAX)
  }

  /** `memchr` for a terminator, and `streq`.  The name itself has no zero in it. */
  method NameMatches(names: seq<Byte>, at: int, name: seq<Byte>) returns (matches: bool)
    requires 0 <= at <= |names| && 0 !in name
    ensures matches <==> NamedAt(names, at, name)
  {
    var end := at;
    while end < |names| && names[end] != 0
      invariant at <= end <= |names| && forall k | at <= k < end :: names[k] != 0
    {
      end := end + 1;
    }
    matches := end < |names| && names[at..end] == name;
    if NamedAt(names, at, name) {
      var found := names[at..at + |name|];
      assert forall k | 0 <= k < |found| :: found[k] != 0;
      assert end == at + |name|;
    }
  }

  /** The result is the first section of the table, in its order, that has the name and lies in the image. */
  ghost predicate IsElfResult(l: Layout, img: Image, name: seq<Byte>, found: Option<Resource>) {
    if found.None? then !HasNames(l, img) || forall i | HasSection(l, img, i) :: !IsWanted(l, img, i, name)
    else
      && HasNames(l, img)
      && exists i :: HasSection(l, img, i) && IsWanted(l, img, i, name)
           && found.value == Resource(SectionOffset(l, img, i), SectionLength(l, img, i))
           && forall j | 0 <= j < i :: !IsWanted(l, img, j, name)
  }

  /** `getElf64Resource` and `getElf32Resource` */
  method GetElfResource(l: Layout, img: Image, name: seq<Byte>) returns (found: Option<Resource>)
    requires 0 !in name
    ensures IsElfResult(l, img, name, found)
    ensures found.Some? ==> InImage(img, found.value.offset, found.value.length) && found.value.length <= UINT_MAX
  {
    var bufferLength := |img| as Size;
    if bufferLength < l.HeaderSize() as Size { return None; }
    if !HasMagic(l, img) { return None; }
    var entrySize, count, nameIndex := EntrySize(l, img) as Size, SectionCount(l, img) as Size,
      NameIndex(l, img) as Size;
    if entrySize < l.SectionSize() as Size || nameIndex >= count { return None; }
    var tableSize := CalculateArraySize(entrySize, count);
    var table := TableOffset(l, img) as Size;
    if tableSize.None? || !RangeIsValid(table, tableSize.value, bufferLength) { return None; }
    assert HasTable(l, img);
    SectionInImage(l, img, nameIndex as int);
    var namesOffset, namesSize := SectionOffset(l, img, nameIndex as int) as Size,
      SectionLength(l, img, nameIndex as int) as Size;
    if !RangeIsValid(namesOffset, namesSize, bufferLength) { return None; }
    var names := Names(l, img);
    for index: int := 0 to count as int
      invariant forall j | 0 <= j < index :: !IsWanted(l, img, j, name)
    {
      SectionInImage(l, img, index);
      ghost var position := table + (index as Size) * entrySize;
      assert RangeIsValid(position, l.SectionSize() as Size, bufferLength);
      var at := SectionName(l, img, index);
      if at < namesSize as int {
        var matches := NameMatches(names, at, name);
        var offset, size := SectionOffset(l, img, index) as Size, SectionLength(l, img, index) as Size;
        if matches && RangeIsValid(offset, size, bufferLength) && size as int <= UINT_MAX {
          return Some(Resource(offset as int, size as int));
        }
      }
    }
    return None;
  }

  // ----- Mach-O -------------------------------------------------------------------------------------

  const MACH_HEADER_SIZE: int := 32
  const MACH_COMMAND_SIZE: int := 8
  const MACH_SEGMENT_SIZE: int := 72
  const MACH_SECTION_SIZE: int := 80
  const MACH64_SEGMENT_COMMAND: int := 0x19

  predicate HasMachHeader(img: Image) {
    && InImage(img, 0, MACH_HEADER_SIZE) && img[0] == 0xcf && img[1] == 0xfa && img[2] == 0xed && img[3] == 0xfe
    && InImage(img, MACH_HEADER_SIZE, U32(img, 20))
  }

  /** A load command of at least its own header lies before the end of the commands. */
  predicate HasCommand(img: Image, offset: int, end: int) {
    && 0 <= offset && offset + MACH_COMMAND_SIZE <= end <= |img|
    && MACH_COMMAND_SIZE <= U32(img, offset + 4) && offset + U32(img, offset + 4) <= end
  }

  predicate IsSegment(img: Image, offset: int, end: int)
    requires HasCommand(img, offset, end)
  {
    U32(img, offset) == MACH64_SEGMENT_COMMAND && U32(img, offset + 4) >= MACH_SEGMENT_SIZE
  }

  /** The sections that a segment announces fit in it. */
  predicate HasSections(img: Image, offset: int, end: int)
    requires HasCommand(img, offset, end) && IsSegment(img, offset, end)
  {
    MACH_SECTION_SIZE * U32(img, offset + 64) <= U32(img, offset + 4) - MACH_SEGMENT_SIZE
  }

  function Rows(first: int, n: nat): (rows: seq<int>)
    ensures |rows| == n && forall i | 0 <= i < n :: rows[i] == first + i * MACH_SECTION_SIZE
  {
    seq(n, i => first + i * MACH_SECTION_SIZE)
  }

  /** Where the sections are, in order, of up to `n` commands, as far as they are well formed. */
  function MachSections(img: Image, offset: int, end: int, n: nat): seq<int>
    requires 0 <= end <= |img|
    decreases n
  {
    if n == 0 || !HasCommand(img, offset, end) then []
    else
      var next := offset + U32(img, offset + 4);
      if !IsSegment(img, offset, end) then MachSections(img, next, end, n - 1)
      else if !HasSections(img, offset, end) then []
      else Rows(offset + MACH_SEGMENT_SIZE, U32(img, offset + 64)) + MachSections(img, next, end, n - 1)
  }

  /** A name in 16 bytes, padded with zeros but not terminated when it fills them: `fixedStringMatches`. */
  predicate FixedNameIs(img: Image, offset: int, name: seq<Byte>)
    requires InImage(img, offset, 16)
  {
    |name| <= 16 && img[offset..offset + |name|] == name && (|name| == 16 || img[offset + |name|] == 0)
  }

  /** __TEXT */
  const TEXT_SEGMENT: seq<Byte> := [0x5f, 0x5f, 0x54, 0x45, 0x58, 0x54]

  predicate IsWantedMach(img: Image, section: int, name: seq<Byte>)
    requires InImage(img, section, MACH_SECTION_SIZE)
  {
    && FixedNameIs(img, section + 16, TEXT_SEGMENT) && FixedNameIs(img, section, name)
    && InImage(img, U32(img, section + 48), U64(img, section + 40)) && U64(img, section + 40) <= UINT_MAX
  }

  /** Every section found lies in the image, after the header and before the end of the commands. */
  lemma {:induction false} SectionsInImage(img: Image, offset: int, end: int, n: nat)
    requires 0 <= end <= |img|
    ensures forall s | s in MachSections(img, offset, end, n) ::
              offset + MACH_SEGMENT_SIZE <= s && s + MACH_SECTION_SIZE <= end
    decreases n
  {
    if n > 0 && HasCommand(img, offset, end) {
      SectionsInImage(img, offset + U32(img, offset + 4), end, n - 1);
    }
  }

  /** The first section of a list that is looked for. */
  function FirstWanted(img: Image, sections: seq<int>, name: seq<Byte>): Option<Resource>
    requires forall s | s in sections :: InImage(img, s, MACH_SECTION_SIZE)
  {
    if sections == [] then None
    else if IsWantedMach(img, sections[0], name) then
      Some(Resource(U32(img, sections[0] + 48), U64(img, sections[0] + 40)))
    else FirstWanted(img, sections[1..], name)
  }

  lemma {:induction false} FirstOfConcat(img: Image, a: seq<int>, b: seq<int>, name: seq<Byte>)
    requires forall s | s in a + b :: InImage(img, s, MACH_SECTION_SIZE)
    requires forall s | s in a :: InImage(img, s, MACH_SECTION_SIZE)
    requires forall s | s in b :: InImage(img, s, MACH_SECTION_SIZE)
    ensures FirstWanted(img, a + b, name) == if FirstWanted(img, a, name).Some? then FirstWanted(img, a, name)
            else FirstWanted(img, b, name)
  {
    if a == [] {
      assert a + b == b;
    } else {
      assert (a + b)[1..] == a[1..] + b;
      FirstOfConcat(img, a[1..], b, name);
    }
  }

  /** The loop over the sections of one segment. */
  method SearchSegment(img: Image, offset: Size, count: Size, name: seq<Byte>) returns (found: Option<Resource>)
    requires offset as int + MACH_SEGMENT_SIZE + MACH_SECTION_SIZE * count as int <= |img|
    ensures var rows := Rows(offset as int + MACH_SEGMENT_SIZE, count as nat);
            (forall s | s in rows :: InImage(img, s, MACH_SECTION_SIZE)) && found == FirstWanted(img, rows, name)
  {
    ghost var rows := Rows(offset as int + MACH_SEGMENT_SIZE, count as nat);
    RowsInImage(img, offset as int + MACH_SEGMENT_SIZE, count as nat);
    for i: int := 0 to count as int
      invariant FirstWanted(img, rows, name) == FirstWanted(img, rows[i..], name)
    {
      ghost var left := rows[i..];
      assert left[0] == rows[i] && left[1..] == rows[i + 1..] && rows[i] in rows;
      var section := offset + MACH_SEGMENT_SIZE as Size + (i as Size) * MACH_SECTION_SIZE as Size;
      assert section as int == rows[i];
      var wanted := TestSection(img, section, name);
      if wanted { return Some(Resource(U32(img, section as int + 48), U64(img, section as int + 40))); }
    }
    return None;
  }

  /** The test of one section. */
  method TestSection(img: Image, section: Size, name: seq<Byte>) returns (wanted: bool)
    requires InImage(img, section as int, MACH_SECTION_SIZE)
    ensures wanted <==> IsWantedMach(img, section as int, name)
  {
    var at := section as int;
    wanted := FixedNameIs(img, at + 16, TEXT_SEGMENT) && FixedNameIs(img, at, name)
      && RangeIsValid(U32(img, at + 48) as Size, U64(img, at + 40) as Size, |img| as Size)
         && U64(img, at + 40) <= UINT_MAX;
  }

  lemma RowsInImage(img: Image, first: int, n: nat)
    requires 0 <= first && first + MACH_SECTION_SIZE * n <= |img|
    ensures forall s | s in Rows(first, n) :: InImage(img, s, MACH_SECTION_SIZE)
  {
  }

  ghost predicate AllInImage(img: Image, sections: seq<int>) {
    forall s | s in sections :: InImage(img, s, MACH_SECTION_SIZE)
  }

  /** One load command: it may end the search, or lead on to the next. */
  method SearchCommand(img: Image, offset: Size, end: Size, name: seq<Byte>, ghost n: nat)
    returns (done: bool, found: Option<Resource>, next: Size)
    requires offset <= end && end as int <= |img| && n > 0
    requires AllInImage(img, MachSections(img, offset as int, end as int, n))
    ensures done ==> found == FirstWanted(img, MachSections(img, offset as int, end as int, n), name)
    ensures !done ==>
              && offset < next <= end && AllInImage(img, MachSections(img, next as int, end as int, n - 1))
              && FirstWanted(img, MachSections(img, offset as int, end as int, n), name) ==
                 FirstWanted(img, MachSections(img, next as int, end as int, n - 1), name)
  {
    found, next := None, offset;
    if !RangeIsValid(offset, MACH_COMMAND_SIZE as Size, end) { return true, None, next; }
    var at := offset as int;
    var size := U32(img, at + 4) as Size;
    if size < MACH_COMMAND_SIZE as Size || !RangeIsValid(offset, size, end) { return true, None, next; }
    next := offset + size;
    if U32(img, at) == MACH64_SEGMENT_COMMAND && size >= MACH_SEGMENT_SIZE as Size {
      var count := U32(img, at + 64) as Size;
      var sectionsSize := CalculateArraySize(MACH_SECTION_SIZE as Size, count);
      if sectionsSize.None? || sectionsSize.value > size - MACH_SEGMENT_SIZE as Size { return true, None, next; }
      found := SearchSegment(img, offset, count, name);
      SegmentFirst(img, at, end as int, n, name);
      if found.Some? { return true, found, next; }
    }
    done := false;
  }

  lemma SegmentFirst(img: Image, offset: int, end: int, n: nat, name: seq<Byte>)
    requires 0 <= end <= |img| && n > 0 && AllInImage(img, MachSections(img, offset, end, n))
    requires HasCommand(img, offset, end) && IsSegment(img, offset, end) && HasSections(img, offset, end)
    ensures var rows := Rows(offset + MACH_SEGMENT_SIZE, U32(img, offset + 64));
            var rest := MachSections(img, offset + U32(img, offset + 4), end, n - 1);
            && AllInImage(img, rows) && AllInImage(img, rest)
            && FirstWanted(img, MachSections(img, offset, end, n), name) ==
               if FirstWanted(img, rows, name).Some? then FirstWanted(img, rows, name) else FirstWanted(img, rest, name)
  {
    var rows := Rows(offset + MACH_SEGMENT_SIZE, U32(img, offset + 64));
    var rest := MachSections(img, offset + U32(img, offset + 4), end, n - 1);
    assert MachSections(img, offset, end, n) == rows + rest;
    assert AllInImage(img, rows) && AllInImage(img, rest);
    FirstOfConcat(img, rows, rest, name);
  }

  /** The result is the first wanted section among those of the well-formed commands. */
  ghost predicate IsMachResult(img: Image, name: seq<Byte>, found: Option<Resource>) {
    if !HasMachHeader(img) then found.None?
    else
      var sections := MachSections(img, MACH_HEADER_SIZE, MACH_HEADER_SIZE + U32(img, 20), U32(img, 16));
      AllInImage(img, sections) && found == FirstWanted(img, sections, name)
  }

  /** `getMach64Resource` */
  method GetMachResource(img: Image, name: seq<Byte>) returns (found: Option<Resource>)
    ensures IsMachResult(img, name, found)
  {
    var bufferLength := |img| as Size;
    if bufferLength < MACH_HEADER_SIZE as Size
      || !(img[0] == 0xcf && img[1] == 0xfa && img[2] == 0xed && img[3] == 0xfe) {
      return None;
    }
    if !RangeIsValid(MACH_HEADER_SIZE as Size, U32(img, 20) as Size, bufferLength) { return None; }
    var commandOffset: Size := MACH_HEADER_SIZE as Size;
    var commandEnd := commandOffset + U32(img, 20) as Size;
    var commandCount := U32(img, 16);
    ghost var all := MachSections(img, MACH_HEADER_SIZE, commandEnd as int, commandCount);
    SectionsInImage(img, MACH_HEADER_SIZE, commandEnd as int, commandCount);
    for index: int := 0 to commandCount
      invariant MACH_HEADER_SIZE <= commandOffset as int <= commandEnd as int <= |img|
      invariant AllInImage(img, MachSections(img, commandOffset as int, commandEnd as int, commandCount - index))
      invariant FirstWanted(img, all, name) ==
                FirstWanted(img, MachSections(img, commandOffset as int, commandEnd as int, commandCount - index), name)
    {
      var done;
      done, found, commandOffset := SearchCommand(img, commandOffset, commandEnd, name, commandCount - index);
      if done { return; }
    }
    return None;
  }

  predicate StartsWith(img: Image, bytes: seq<Byte>) {
    |bytes| <= |img| && img[..|bytes|] == bytes
  }

  const ELF_MAGIC: seq<Byte> := [0x7f, 0x45, 0x4c, 0x46]
  const MACH_MAGIC: seq<Byte> := [0xcf, 0xfa, 0xed, 0xfe]

  /** `getResourceFromMappedFile`: the format is told by the first bytes. */
  method GetResource(img: Image, name: seq<Byte>) returns (found: Option<Resource>)
    requires 0 !in name
    ensures if |img| >= 16 && (StartsWith(img, ELF_MAGIC + [2]) || StartsWith(img, ELF_MAGIC + [1])) then
              IsElfResult(Layout(img[4] == 2), img, name, found)
            else if |img| >= 16 && StartsWith(img, MACH_MAGIC) then IsMachResult(img, name, found)
            else found.None?
    ensures found.Some? ==> InImage(img, found.value.offset, found.value.length) && found.value.length <= UINT_MAX
  {
    if |img| >= 16 {
      if img[0] == 0x7f && img[1] == 0x45 && img[2] == 0x4c && img[3] == 0x46 {
        if img[4] == 2 {
          found := GetElfResource(Layout(true), img, name);
          return;
        }
        if img[4] == 1 {
          found := GetElfResource(Layout(false), img, name);
          return;
        }
      }
      if img[0] == 0xcf && img[1] == 0xfa && img[2] == 0xed && img[3] == 0xfe {
        found := GetMachResource(img, name);
        if found.Some? {
          FirstIsInImage(img, MachSections(img, MACH_HEADER_SIZE, MACH_HEADER_SIZE + U32(img, 20), U32(img, 16)), name);
        }
        return;
      }
    }
    return None;
  }

  lemma {:induction false} FirstIsInImage(img: Image, sections: seq<int>, name: seq<Byte>)
    requires forall s | s in sections :: InImage(img, s, MACH_SECTION_SIZE)
    requires FirstWanted(img, sections, name).Some?
    ensures var r := FirstWanted(img, sections, name).value; InImage(img, r.offset, r.length) && r.length <= UINT_MAX
  {
    if !IsWantedMach(img, sections[0], name) { FirstIsInImage(img, sections[1..], name); }
  }
}
