/** The structures of ELF and Mach-O images, field by field, and what the resource locator makes of an image
    that holds them. */
module ImageLayout {
  import opened Options
  import opened ResourceLocator

  // ----- rows of fields -----------------------------------------------------------------------------

  /** A number in so many bytes, the lowest first. */
  function Little(n: nat, width: nat): (bytes: seq<Byte>)
    ensures |bytes| == width
  {
    if width == 0 then [] else [(n % 0x100) as Byte] + Little(n / 0x100, width - 1)
  }

  type Row = seq<seq<Byte>>

  /** Where field `k` starts. */
  function Start(row: Row, k: nat): nat
    requires k <= |row|
  {
    if k == 0 then 0 else Start(row, k - 1) + |row[k - 1]|
  }

  function Flat(row: Row): seq<Byte> {
    if row == [] then [] else Flat(row[..|row| - 1]) + row[|row| - 1]
  }

  lemma {:induction false} StartOfFront(row: Row, k: nat)
    requires k < |row|
    ensures Start(row[..|row| - 1], k) == Start(row, k)
  {
    if k > 0 { StartOfFront(row, k - 1); }
  }

  lemma {:induction false} LengthOfFlat(row: Row)
    ensures |Flat(row)| == Start(row, |row|)
    decreases |row|
  {
    if row != [] {
      LengthOfFlat(row[..|row| - 1]);
      StartOfFront(row, |row| - 1);
    }
  }

  lemma {:induction false} FieldAt(row: Row, k: nat)
    requires k < |row|
    ensures Start(row, k) + |row[k]| <= |Flat(row)|
    ensures Flat(row)[Start(row, k)..Start(row, k) + |row[k]|] == row[k]
    decreases |row|
  {
    var n := |row| - 1;
    var front := row[..n];
    LengthOfFlat(front);
    StartOfFront(row, k);
    if k < n {
      FieldAt(front, k);
      var s := Start(row, k);
      assert (Flat(front) + row[n])[s..s + |row[k]|] == Flat(front)[s..s + |row[k]|];
    }
  }

  /** The image holds the fields, one after the other, from a position on. */
  predicate HasRow(img: Image, at: int, row: Row) {
    InImage(img, at, |Flat(row)|) && img[at..at + |Flat(row)|] == Flat(row)
  }

  lemma PartOfPart(img: seq<Byte>, at: nat, whole: seq<Byte>, from: nat, part: seq<Byte>)
    requires at + |whole| <= |img| && img[at..at + |whole|] == whole
    requires from + |part| <= |whole| && whole[from..from + |part|] == part
    ensures img[at + from..at + from + |part|] == part
  {
    var found := img[at + from..at + from + |part|];
    forall i | 0 <= i < |part| ensures found[i] == part[i] {
      assert found[i] == img[at..at + |whole|][from + i];
      assert part[i] == whole[from..from + |part|][i];
    }
    assert found == part;
  }

  lemma RowAt(img: Image, at: int, row: Row, k: nat)
    requires HasRow(img, at, row) && k < |row|
    ensures InImage(img, at + Start(row, k), |row[k]|)
    ensures img[at + Start(row, k)..at + Start(row, k) + |row[k]|] == row[k]
  {
    FieldAt(row, k);
    var whole, from, part := Flat(row), Start(row, k), row[k];
    assert at + |whole| <= |img| && img[at..at + |whole|] == whole;
    assert from + |part| <= |whole| && whole[from..from + |part|] == part;
    PartOfPart(img, at, whole, from, part);
  }

  // ----- numbers ------------------------------------------------------------------------------------

  /** The number that bytes spell, the lowest first. */
  function Number(bytes: seq<Byte>): nat {
    if bytes == [] then 0 else bytes[0] as nat + 0x100 * Number(bytes[1..])
  }

  /** One more than the largest number of so many bytes. */
  function Limit(width: nat): nat {
    if width == 0 then 1 else 0x100 * Limit(width - 1)
  }

  lemma {:induction false} NumberOfLittle(n: nat, width: nat)
    requires n < Limit(width)
    ensures Number(Little(n, width)) == n
  {
    if width > 0 {
      NumberOfLittle(n / 0x100, width - 1);
      assert Little(n, width)[1..] == Little(n / 0x100, width - 1);
    }
  }

  lemma TwoMore(bytes: seq<Byte>)
    requires |bytes| >= 2
    ensures Number(bytes) == bytes[0] as nat + 0x100 * bytes[1] as nat + 0x1_0000 * Number(bytes[2..])
  {
    assert bytes[1..][1..] == bytes[2..] && bytes[1..][0] == bytes[1];
  }

  lemma TwoAt(img: Image, at: int, n: nat)
    requires InImage(img, at, n) && n >= 2
    ensures Number(img[at..at + n]) == U16(img, at) + 0x1_0000 * Number(img[at + 2..at + n])
  {
    TwoMore(img[at..at + n]);
    assert img[at..at + n][2..] == img[at + 2..at + n];
  }

  lemma NothingAt(img: Image, at: int)
    requires InImage(img, at, 0)
    ensures Number(img[at..at]) == 0
  {
  }

  /** The numbers that are read are those that the bytes spell. */
  lemma NumbersAreRead(img: Image, at: int)
    ensures InImage(img, at, 2) ==> U16(img, at) == Number(img[at..at + 2])
    ensures InImage(img, at, 4) ==> U32(img, at) == Number(img[at..at + 4])
    ensures InImage(img, at, 8) ==> U64(img, at) == Number(img[at..at + 8])
  {
    if InImage(img, at, 2) {
      TwoAt(img, at, 2);
      NothingAt(img, at + 2);
    }
    if InImage(img, at, 4) {
      TwoAt(img, at, 4);
      TwoAt(img, at + 2, 2);
      NothingAt(img, at + 4);
    }
    if InImage(img, at, 8) {
      TwoAt(img, at, 8);
      TwoAt(img, at + 2, 6);
      TwoAt(img, at + 4, 4);
      TwoAt(img, at + 6, 2);
      NothingAt(img, at + 8);
    }
  }

  lemma ReadsBack(img: Image, at: int, n: nat, width: nat)
    requires InImage(img, at, width) && img[at..at + width] == Little(n, width) && n < Limit(width)
    ensures width == 2 ==> U16(img, at) == n
    ensures width == 4 ==> U32(img, at) == n
    ensures width == 8 ==> U64(img, at) == n
  {
    NumbersAreRead(img, at);
    NumberOfLittle(n, width);
  }

  /** A field of two, four or eight bytes that holds a number is read as that number. */
  lemma NumberInRow(img: Image, at: int, row: Row, k: nat, n: nat, width: nat)
    requires HasRow(img, at, row) && k < |row| && row[k] == Little(n, width) && n < Limit(width)
    ensures InImage(img, at + Start(row, k), width)
    ensures width == 2 ==> U16(img, at + Start(row, k)) == n
    ensures width == 4 ==> U32(img, at + Start(row, k)) == n
    ensures width == 8 ==> U64(img, at + Start(row, k)) == n
  {
    RowAt(img, at, row, k);
    ReadsBack(img, at + Start(row, k), n, width);
  }

  // ----- ELF (System V ABI, chapter 4) --------------------------------------------------------------

  datatype ElfHeader = ElfHeader(
    ident: seq<Byte>, fileType: nat, machine: nat, version: nat, entry: nat, programHeaderOffset: nat,
    sectionHeaderOffset: nat, flags: nat, headerSize: nat, programHeaderEntrySize: nat, programHeaderCount: nat,
    sectionHeaderEntrySize: nat, sectionHeaderCount: nat, sectionNameIndex: nat)

  /** The bytes of an address or an offset. */
  function WordWidth(l: Layout): nat {
    if l.wide then 8 else 4
  }

  function HeaderRow(l: Layout, h: ElfHeader): Row {
    var w := WordWidth(l);
    [h.ident, Little(h.fileType, 2), Little(h.machine, 2), Little(h.version, 4), Little(h.entry, w),
     Little(h.programHeaderOffset, w), Little(h.sectionHeaderOffset, w), Little(h.flags, 4), Little(h.headerSize, 2),
     Little(h.programHeaderEntrySize, 2), Little(h.programHeaderCount, 2), Little(h.sectionHeaderEntrySize, 2),
     Little(h.sectionHeaderCount, 2), Little(h.sectionNameIndex, 2)]
  }

  /** The image starts with the header. */
  predicate HasElfHeader(l: Layout, img: Image, h: ElfHeader) {
    && HasRow(img, 0, HeaderRow(l, h)) && |h.ident| == 16 && h.sectionHeaderOffset < Limit(WordWidth(l))
    && h.sectionHeaderEntrySize < Limit(2) && h.sectionHeaderCount < Limit(2) && h.sectionNameIndex < Limit(2)
  }

  /** The fields of a header start where the layouts say. */
  lemma HeaderStarts(l: Layout, h: ElfHeader)
    requires |h.ident| == 16
    ensures var row := HeaderRow(l, h);
            && Start(row, 0) == 0 && Start(row, 6) == (if l.wide then 40 else 32)
            && Start(row, 11) == (if l.wide then 58 else 46) && Start(row, 12) == (if l.wide then 60 else 48)
            && Start(row, 13) == (if l.wide then 62 else 50) && Start(row, 14) == l.HeaderSize()
  {
    var row, w := HeaderRow(l, h), WordWidth(l);
    assert Start(row, 1) == 16;
    assert Start(row, 2) == 18;
    assert Start(row, 3) == 20;
    assert Start(row, 4) == 24;
    assert Start(row, 5) == 24 + w;
    assert Start(row, 6) == 24 + 2 * w;
    assert Start(row, 7) == 24 + 3 * w;
    assert Start(row, 8) == 28 + 3 * w;
    assert Start(row, 9) == 30 + 3 * w;
    assert Start(row, 10) == 32 + 3 * w;
    assert Start(row, 11) == 34 + 3 * w;
    assert Start(row, 12) == 36 + 3 * w;
    assert Start(row, 13) == 38 + 3 * w;
  }

  /** What is read of a header is what it holds. */
  lemma HeaderIsRead(l: Layout, img: Image, h: ElfHeader)
    requires HasElfHeader(l, img, h)
    ensures HasHeader(l, img)
    ensures TableOffset(l, img) == h.sectionHeaderOffset && EntrySize(l, img) == h.sectionHeaderEntrySize
    ensures SectionCount(l, img) == h.sectionHeaderCount && NameIndex(l, img) == h.sectionNameIndex
    ensures HasMagic(l, img) <==>
            h.ident[..4] == ELF_MAGIC && h.ident[4] == (if l.wide then 2 else 1) && h.ident[5] == 1
  {
    var row := HeaderRow(l, h);
    HeaderStarts(l, h);
    LengthOfFlat(row);
    RowAt(img, 0, row, 0);
    NumberInRow(img, 0, row, 6, h.sectionHeaderOffset, WordWidth(l));
    NumberInRow(img, 0, row, 11, h.sectionHeaderEntrySize, 2);
    NumberInRow(img, 0, row, 12, h.sectionHeaderCount, 2);
    NumberInRow(img, 0, row, 13, h.sectionNameIndex, 2);
    assert forall i | 0 <= i < 16 :: img[i] == img[0..16][i] == h.ident[i];
    var m := h.ident[..4];
    assert m == ELF_MAGIC <==> m[0] == 0x7f && m[1] == 0x45 && m[2] == 0x4c && m[3] == 0x46;
  }

  datatype ElfSection = ElfSection(
    name: nat, sectionType: nat, flags: nat, address: nat, offset: nat, size: nat, link: nat, info: nat,
    addressAlign: nat, entrySize: nat)

  function SectionRow(l: Layout, s: ElfSection): Row {
    var w := WordWidth(l);
    [Little(s.name, 4), Little(s.sectionType, 4), Little(s.flags, w), Little(s.address, w), Little(s.offset, w),
     Little(s.size, w), Little(s.link, 4), Little(s.info, 4), Little(s.addressAlign, w), Little(s.entrySize, w)]
  }

  predicate HasElfSection(l: Layout, img: Image, at: int, s: ElfSection) {
    && HasRow(img, at, SectionRow(l, s)) && s.name < Limit(4)
    && s.offset < Limit(WordWidth(l)) && s.size < Limit(WordWidth(l))
  }

  lemma SectionStarts(l: Layout, s: ElfSection)
    ensures var row := SectionRow(l, s);
            && Start(row, 0) == 0 && Start(row, 4) == (if l.wide then 24 else 16)
            && Start(row, 5) == (if l.wide then 32 else 20) && Start(row, 10) == l.SectionSize()
  {
    var row, w := SectionRow(l, s), WordWidth(l);
    assert Start(row, 1) == 4;
    assert Start(row, 2) == 8;
    assert Start(row, 3) == 8 + w;
    assert Start(row, 4) == 8 + 2 * w;
    assert Start(row, 5) == 8 + 3 * w;
    assert Start(row, 6) == 8 + 4 * w;
    assert Start(row, 7) == 12 + 4 * w;
    assert Start(row, 8) == 16 + 4 * w;
    assert Start(row, 9) == 16 + 5 * w;
  }

  /** What is read of a section is what its row holds. */
  lemma SectionIsRead(l: Layout, img: Image, i: int, s: ElfSection)
    requires HasSection(l, img, i) && HasElfSection(l, img, SectionAt(l, img, i), s)
    ensures SectionName(l, img, i) == s.name && SectionOffset(l, img, i) == s.offset
            && SectionLength(l, img, i) == s.size
  {
    var row, at := SectionRow(l, s), SectionAt(l, img, i);
    SectionStarts(l, s);
    SectionInImage(l, img, i);
    NumberInRow(img, at, row, 0, s.name, 4);
    NumberInRow(img, at, row, 4, s.offset, WordWidth(l));
    NumberInRow(img, at, row, 5, s.size, WordWidth(l));
  }

  /** The header is one of the right class, and its table of sections lies in the image. */
  predicate AnnouncesTable(l: Layout, img: Image, h: ElfHeader) {
    && |h.ident| == 16 && h.ident[..4] == ELF_MAGIC && h.ident[4] == (if l.wide then 2 else 1)
    && h.ident[5] == 1
    && h.sectionHeaderEntrySize >= (if l.wide then 64 else 40) && h.sectionNameIndex < h.sectionHeaderCount
    && h.sectionHeaderOffset + h.sectionHeaderEntrySize * h.sectionHeaderCount <= |img|
  }

  lemma TableFits(img: Image, at: nat, entrySize: nat, count: nat)
    ensures InImage(img, at, entrySize * count) <==> at + entrySize * count <= |img|
  {
    assert entrySize * count >= 0;
  }

  lemma TableIsAnnounced(l: Layout, img: Image, h: ElfHeader)
    requires HasElfHeader(l, img, h)
    ensures HasTable(l, img) <==> AnnouncesTable(l, img, h)
  {
    HeaderIsRead(l, img, h);
    TableFits(img, h.sectionHeaderOffset, h.sectionHeaderEntrySize, h.sectionHeaderCount);
  }

  /** Without a table there is no resource. */
  lemma NoTableNoResource(l: Layout, img: Image, h: ElfHeader, name: seq<Byte>, found: Option<Resource>)
    requires HasElfHeader(l, img, h) && !AnnouncesTable(l, img, h) && IsElfResult(l, img, name, found)
    ensures found.None?
  {
    TableIsAnnounced(l, img, h);
  }

  /** The image is that of a header and a table of sections. */
  ghost predicate IsElfImage(l: Layout, img: Image, h: ElfHeader, sections: seq<ElfSection>) {
    && HasElfHeader(l, img, h) && AnnouncesTable(l, img, h) && |sections| == h.sectionHeaderCount
    && forall i | 0 <= i < |sections| ::
         HasElfSection(l, img, h.sectionHeaderOffset + i * h.sectionHeaderEntrySize, sections[i])
  }

  /** A section lies in an image, by its offset and size in the file. */
  predicate Lies(img: Image, s: ElfSection) {
    s.offset + s.size <= |img|
  }

  /** The section has the name and can be given as a resource. */
  predicate IsNamed(img: Image, names: seq<Byte>, s: ElfSection, name: seq<Byte>) {
    NamedAt(names, s.name, name) && Lies(img, s) && s.size <= UINT_MAX
  }

  lemma SectionsAreRead(l: Layout, img: Image, h: ElfHeader, sections: seq<ElfSection>, i: nat)
    requires IsElfImage(l, img, h, sections) && i < |sections|
    ensures HasSection(l, img, i) && SectionName(l, img, i) == sections[i].name
    ensures SectionOffset(l, img, i) == sections[i].offset && SectionLength(l, img, i) == sections[i].size
  {
    HeaderIsRead(l, img, h);
    TableIsAnnounced(l, img, h);
    SectionIsRead(l, img, i, sections[i]);
  }

  lemma NamesAreRead(l: Layout, img: Image, h: ElfHeader, sections: seq<ElfSection>)
    requires IsElfImage(l, img, h, sections)
    ensures h.sectionNameIndex < |sections|
    ensures var s := sections[h.sectionNameIndex];
            && (HasNames(l, img) <==> Lies(img, s))
            && (HasNames(l, img) ==> Names(l, img) == img[s.offset..s.offset + s.size])
  {
    HeaderIsRead(l, img, h);
    TableIsAnnounced(l, img, h);
    SectionsAreRead(l, img, h, sections, h.sectionNameIndex);
  }

  lemma WantedIsNamed(l: Layout, img: Image, h: ElfHeader, sections: seq<ElfSection>, i: nat, name: seq<Byte>)
    requires IsElfImage(l, img, h, sections) && i < |sections| && HasNames(l, img)
    ensures HasSection(l, img, i)
    ensures IsWanted(l, img, i, name) <==> IsNamed(img, Names(l, img), sections[i], name)
  {
    SectionsAreRead(l, img, h, sections, i);
    if !l.wide { assert sections[i].size < Limit(4) && Limit(4) == 0x1_0000_0000; }
  }

  /** The resource of an ELF image is the first section of its table that has the name, lies in the file and
      is no longer than 32 bits can tell: it is where that section's offset says, and as long as its size. */
  lemma ElfResource(l: Layout, img: Image, h: ElfHeader, sections: seq<ElfSection>, name: seq<Byte>,
                    found: Option<Resource>)
    requires IsElfImage(l, img, h, sections) && IsElfResult(l, img, name, found)
    ensures h.sectionNameIndex < |sections|
    ensures var s := sections[h.sectionNameIndex];
            if !Lies(img, s) then found.None?
            else
              var names := img[s.offset..s.offset + s.size];
              if found.None? then forall i | 0 <= i < |sections| :: !IsNamed(img, names, sections[i], name)
              else
                exists i | 0 <= i < |sections| ::
                  && IsNamed(img, names, sections[i], name)
                  && found.value == Resource(sections[i].offset, sections[i].size)
                  && forall j | 0 <= j < i :: !IsNamed(img, names, sections[j], name)
  {
    NamesAreRead(l, img, h, sections);
    HeaderIsRead(l, img, h);
    if HasNames(l, img) {
      forall i: nat | i < |sections|
        ensures HasSection(l, img, i) && SectionOffset(l, img, i) == sections[i].offset
                && SectionLength(l, img, i) == sections[i].size
                && (IsWanted(l, img, i, name) <==> IsNamed(img, Names(l, img), sections[i], name))
      {
        SectionsAreRead(l, img, h, sections, i);
        WantedIsNamed(l, img, h, sections, i, name);
      }
    }
  }

  // ----- Mach-O -------------------------------------------------------------------------------------

  datatype MachHeader = MachHeader(
    magic: seq<Byte>, cpuType: nat, cpuSubtype: nat, fileType: nat, commandCount: nat, commandSize: nat, flags: nat,
    reserved: nat)

  function MachHeaderRow(h: MachHeader): Row {
    [h.magic, Little(h.cpuType, 4), Little(h.cpuSubtype, 4), Little(h.fileType, 4), Little(h.commandCount, 4),
     Little(h.commandSize, 4), Little(h.flags, 4), Little(h.reserved, 4)]
  }

  predicate StartsAsMach(img: Image, h: MachHeader) {
    && HasRow(img, 0, MachHeaderRow(h)) && |h.magic| == 4 && h.commandCount < Limit(4) && h.commandSize < Limit(4)
  }

  lemma MachHeaderIsRead(img: Image, h: MachHeader)
    requires StartsAsMach(img, h)
    ensures InImage(img, 0, 32) && U32(img, 16) == h.commandCount && U32(img, 20) == h.commandSize
    ensures HasMachHeader(img) <==> h.magic == [0xcf, 0xfa, 0xed, 0xfe] && 32 + h.commandSize <= |img|
  {
    var row := MachHeaderRow(h);
    assert Start(row, 1) == 4;
    assert Start(row, 2) == 8;
    assert Start(row, 3) == 12;
    assert Start(row, 4) == 16;
    assert Start(row, 5) == 20;
    assert Start(row, 6) == 24;
    assert Start(row, 7) == 28;
    LengthOfFlat(row);
    RowAt(img, 0, row, 0);
    assert forall i | 0 <= i < 4 :: img[i] == img[0..4][i] == h.magic[i];
    NumberInRow(img, 0, row, 4, h.commandCount, 4);
    NumberInRow(img, 0, row, 5, h.commandSize, 4);
  }

  datatype MachSegment = MachSegment(
    command: nat, size: nat, segmentName: seq<Byte>, virtualAddress: nat, virtualSize: nat, fileOffset: nat,
    fileSize: nat, maximumProtection: nat, initialProtection: nat, sectionCount: nat, flags: nat)

  function SegmentRow(s: MachSegment): Row {
    [Little(s.command, 4), Little(s.size, 4), s.segmentName, Little(s.virtualAddress, 8), Little(s.virtualSize, 8),
     Little(s.fileOffset, 8), Little(s.fileSize, 8), Little(s.maximumProtection, 4), Little(s.initialProtection, 4),
     Little(s.sectionCount, 4), Little(s.flags, 4)]
  }

  predicate HasSegment(img: Image, at: int, s: MachSegment) {
    && HasRow(img, at, SegmentRow(s)) && |s.segmentName| == 16 && s.command < Limit(4) && s.size < Limit(4)
    && s.sectionCount < Limit(4)
  }

  lemma SegmentIsRead(img: Image, at: int, s: MachSegment)
    requires HasSegment(img, at, s)
    ensures InImage(img, at, 72)
    ensures U32(img, at) == s.command && U32(img, at + 4) == s.size && U32(img, at + 64) == s.sectionCount
  {
    var row := SegmentRow(s);
    assert Start(row, 1) == 4;
    assert Start(row, 2) == 8;
    assert Start(row, 3) == 24;
    assert Start(row, 4) == 32;
    assert Start(row, 5) == 40;
    assert Start(row, 6) == 48;
    assert Start(row, 7) == 56;
    assert Start(row, 8) == 60;
    assert Start(row, 9) == 64;
    assert Start(row, 10) == 68;
    LengthOfFlat(row);
    NumberInRow(img, at, row, 0, s.command, 4);
    NumberInRow(img, at, row, 1, s.size, 4);
    NumberInRow(img, at, row, 9, s.sectionCount, 4);
  }

  datatype MachSection = MachSection(
    sectionName: seq<Byte>, segmentName: seq<Byte>, address: nat, size: nat, offset: nat, align: nat,
    relocationOffset: nat, relocationCount: nat, flags: nat, reserved1: nat, reserved2: nat, reserved3: nat)

  function MachSectionRow(s: MachSection): Row {
    [s.sectionName, s.segmentName, Little(s.address, 8), Little(s.size, 8), Little(s.offset, 4), Little(s.align, 4),
     Little(s.relocationOffset, 4), Little(s.relocationCount, 4), Little(s.flags, 4), Little(s.reserved1, 4),
     Little(s.reserved2, 4), Little(s.reserved3, 4)]
  }

  predicate HasMachSection(img: Image, at: int, s: MachSection) {
    && HasRow(img, at, MachSectionRow(s)) && |s.sectionName| == 16 && |s.segmentName| == 16
    && s.size < Limit(8) && s.offset < Limit(4)
  }

  /** Sixteen bytes hold the name: it, and a zero unless it fills them. */
  predicate Names16(bytes: seq<Byte>, name: seq<Byte>) {
    |bytes| == 16 && (bytes == name || name + [0] <= bytes)
  }

  /** A section of the text segment that has the name and lies in the image. */
  predicate IsNamedMach(img: Image, s: MachSection, name: seq<Byte>) {
    && Names16(s.segmentName, TEXT_SEGMENT) && Names16(s.sectionName, name)
    && s.offset + s.size <= |img| && s.size <= UINT_MAX
  }

  lemma FixedNameIsRead(img: Image, at: int, bytes: seq<Byte>, name: seq<Byte>)
    requires InImage(img, at, 16) && |bytes| == 16 && img[at..at + 16] == bytes
    ensures FixedNameIs(img, at, name) <==> Names16(bytes, name)
  {
    assert forall i | 0 <= i < 16 :: img[at + i] == bytes[i];
    if |name| <= 16 {
      assert img[at..at + |name|] == bytes[..|name|];
      if |name| == 16 { assert bytes[..16] == bytes; }
      if FixedNameIs(img, at, name) && |name| < 16 { assert bytes[..|name| + 1] == name + [0]; }
      if name + [0] <= bytes {
        assert bytes[..|name|] == (name + [0])[..|name|] == name && bytes[|name|] == (name + [0])[|name|];
      }
    }
  }

  lemma MachSectionStarts(s: MachSection)
    requires |s.sectionName| == 16 && |s.segmentName| == 16
    ensures var row := MachSectionRow(s);
            && Start(row, 0) == 0 && Start(row, 1) == 16 && Start(row, 3) == 40 && Start(row, 4) == 48
            && Start(row, 12) == MACH_SECTION_SIZE
  {
    var row := MachSectionRow(s);
    assert Start(row, 1) == 16;
    assert Start(row, 2) == 32;
    assert Start(row, 3) == 40;
    assert Start(row, 4) == 48;
    assert Start(row, 5) == 52;
    assert Start(row, 6) == 56;
    assert Start(row, 7) == 60;
    assert Start(row, 8) == 64;
    assert Start(row, 9) == 68;
    assert Start(row, 10) == 72;
    assert Start(row, 11) == 76;
  }

  lemma MachSectionIsRead(img: Image, at: int, s: MachSection, name: seq<Byte>)
    requires HasMachSection(img, at, s)
    ensures InImage(img, at, MACH_SECTION_SIZE) && U64(img, at + 40) == s.size && U32(img, at + 48) == s.offset
    ensures IsWantedMach(img, at, name) <==> IsNamedMach(img, s, name)
  {
    var row := MachSectionRow(s);
    MachSectionStarts(s);
    LengthOfFlat(row);
    RowAt(img, at, row, 0);
    RowAt(img, at, row, 1);
    NumberInRow(img, at, row, 3, s.size, 8);
    NumberInRow(img, at, row, 4, s.offset, 4);
    FixedNameIsRead(img, at, s.sectionName, name);
    FixedNameIsRead(img, at + 16, s.segmentName, TEXT_SEGMENT);
  }

  /** A load command: a segment with its sections, or one of another kind. */
  datatype MachCommand = Segment(segment: MachSegment, sections: seq<MachSection>) | Other(command: nat, size: nat)

  function SizeOf(c: MachCommand): nat {
    if c.Segment? then c.segment.size else c.size
  }

  function OtherRow(command: nat, size: nat): Row {
    [Little(command, 4), Little(size, 4)]
  }

  /** The command is at a position, complete and before the end of the commands. */
  ghost predicate HasMachCommand(img: Image, at: int, end: int, c: MachCommand) {
    && end <= |img| && at + SizeOf(c) <= end
    && match c
       case Segment(s, sections) =>
         && HasSegment(img, at, s) && s.command == 0x19 && 72 + 80 * s.sectionCount <= s.size
         && |sections| == s.sectionCount
         && forall i | 0 <= i < |sections| :: HasMachSection(img, at + 72 + i * 80, sections[i])
       case Other(command, size) =>
         && HasRow(img, at, OtherRow(command, size)) && command < Limit(4) && 8 <= size < Limit(4)
         && (command != 0x19 || size < 72)
  }

  ghost predicate HasMachCommands(img: Image, at: int, end: int, commands: seq<MachCommand>)
    decreases |commands|
  {
    commands == []
    || (HasMachCommand(img, at, end, commands[0])
        && HasMachCommands(img, at + SizeOf(commands[0]), end, commands[1..]))
  }

  function SectionsOf(commands: seq<MachCommand>): seq<MachSection> {
    if commands == [] then []
    else (if commands[0].Segment? then commands[0].sections else []) + SectionsOf(commands[1..])
  }

  lemma OtherIsRead(img: Image, at: int, end: int, command: nat, size: nat)
    requires HasMachCommand(img, at, end, Other(command, size))
    ensures HasCommand(img, at, end) && U32(img, at + 4) == size && !IsSegment(img, at, end)
  {
    var row := OtherRow(command, size);
    assert Start(row, 1) == 4;
    NumberInRow(img, at, row, 0, command, 4);
    NumberInRow(img, at, row, 1, size, 4);
  }

  lemma SegmentIsListed(img: Image, at: int, end: int, c: MachCommand)
    requires c.Segment? && HasMachCommand(img, at, end, c)
    ensures HasCommand(img, at, end) && U32(img, at + 4) == c.segment.size
    ensures IsSegment(img, at, end) && HasSections(img, at, end) && U32(img, at + 64) == |c.sections|
  {
    SegmentIsRead(img, at, c.segment);
  }

  /** The positions hold the sections, one for one. */
  ghost predicate HoldAll(img: Image, places: seq<int>, sections: seq<MachSection>) {
    |places| == |sections| && forall i | 0 <= i < |places| :: HasMachSection(img, places[i], sections[i])
  }

  lemma HoldsBoth(img: Image, a: seq<int>, b: seq<int>, x: seq<MachSection>, y: seq<MachSection>)
    requires HoldAll(img, a, x) && HoldAll(img, b, y)
    ensures HoldAll(img, a + b, x + y)
  {
  }

  lemma RowsHold(img: Image, at: int, end: int, c: MachCommand)
    requires c.Segment? && HasMachCommand(img, at, end, c)
    ensures HoldAll(img, Rows(at + 72, |c.sections|), c.sections)
  {
  }

  lemma SegmentListed(img: Image, at: int, end: int, c: MachCommand, n: nat)
    requires 0 <= end <= |img| && n > 0 && c.Segment? && HasMachCommand(img, at, end, c)
    ensures MachSections(img, at, end, n) ==
            Rows(at + 72, |c.sections|) + MachSections(img, at + SizeOf(c), end, n - 1)
  {
    SegmentIsListed(img, at, end, c);
  }

  lemma OtherListed(img: Image, at: int, end: int, c: MachCommand, n: nat)
    requires 0 <= end <= |img| && n > 0 && c.Other? && HasMachCommand(img, at, end, c)
    ensures MachSections(img, at, end, n) == MachSections(img, at + SizeOf(c), end, n - 1)
  {
    OtherIsRead(img, at, end, c.command, c.size);
  }

  lemma {:induction false} CommandsAreListed(img: Image, at: int, end: int, commands: seq<MachCommand>)
    requires 0 <= end <= |img| && HasMachCommands(img, at, end, commands)
    ensures HoldAll(img, MachSections(img, at, end, |commands|), SectionsOf(commands))
    decreases |commands|
  {
    if commands != [] {
      var c, n := commands[0], |commands|;
      CommandsAreListed(img, at + SizeOf(c), end, commands[1..]);
      if c.Segment? {
        SegmentListed(img, at, end, c, n);
        RowsHold(img, at, end, c);
        HoldsBoth(img, Rows(at + 72, |c.sections|), MachSections(img, at + SizeOf(c), end, n - 1), c.sections,
                  SectionsOf(commands[1..]));
      } else {
        OtherListed(img, at, end, c, n);
        assert SectionsOf(commands) == SectionsOf(commands[1..]);
      }
    }
  }

  /** The first of some sections that is looked for. */
  ghost predicate IsFirstNamed(img: Image, sections: seq<MachSection>, name: seq<Byte>, found: Option<Resource>) {
    if found.None? then forall i | 0 <= i < |sections| :: !IsNamedMach(img, sections[i], name)
    else
      exists i | 0 <= i < |sections| ::
        && IsNamedMach(img, sections[i], name) && found.value == Resource(sections[i].offset, sections[i].size)
        && forall j | 0 <= j < i :: !IsNamedMach(img, sections[j], name)
  }

  lemma {:induction false} FirstIsNamed(img: Image, places: seq<int>, sections: seq<MachSection>, name: seq<Byte>)
    requires HoldAll(img, places, sections) && AllInImage(img, places)
    ensures IsFirstNamed(img, sections, name, FirstWanted(img, places, name))
  {
    if places != [] {
      MachSectionIsRead(img, places[0], sections[0], name);
      if IsWantedMach(img, places[0], name) {
        assert IsNamedMach(img, sections[0], name);
      } else {
        FirstIsNamed(img, places[1..], sections[1..], name);
        FirstAmongMore(img, sections, name, FirstWanted(img, places[1..], name));
      }
    }
  }

  lemma FirstAmongMore(img: Image, sections: seq<MachSection>, name: seq<Byte>, found: Option<Resource>)
    requires sections != [] && !IsNamedMach(img, sections[0], name) && IsFirstNamed(img, sections[1..], name, found)
    ensures IsFirstNamed(img, sections, name, found)
  {
    if found.None? {
      forall i | 0 <= i < |sections| ensures !IsNamedMach(img, sections[i], name) {
        if i > 0 { assert !IsNamedMach(img, sections[1..][i - 1], name); }
      }
    } else {
      var i :| 0 <= i < |sections[1..]| && IsNamedMach(img, sections[1..][i], name)
        && found.value == Resource(sections[1..][i].offset, sections[1..][i].size)
        && forall j | 0 <= j < i :: !IsNamedMach(img, sections[1..][j], name);
      forall j | 0 <= j < i + 1 ensures !IsNamedMach(img, sections[j], name) {
        if j > 0 { assert !IsNamedMach(img, sections[1..][j - 1], name); }
      }
      assert IsNamedMach(img, sections[i + 1], name);
    }
  }

  lemma FirstOfCommands(img: Image, h: MachHeader, name: seq<Byte>, found: Option<Resource>)
    requires StartsAsMach(img, h) && h.magic == [0xcf, 0xfa, 0xed, 0xfe] && 32 + h.commandSize <= |img|
    requires IsMachResult(img, name, found)
    ensures var places := MachSections(img, 32, 32 + h.commandSize, h.commandCount);
            AllInImage(img, places) && found == FirstWanted(img, places, name)
  {
    MachHeaderIsRead(img, h);
  }

  /** The resource of a Mach-O image is the first section, in the order of its commands, that is of the text
      segment, has the name and lies in the file: it is where the section's offset says, and as long as its size. */
  lemma MachResource(img: Image, h: MachHeader, commands: seq<MachCommand>, name: seq<Byte>, found: Option<Resource>)
    requires StartsAsMach(img, h) && h.magic == [0xcf, 0xfa, 0xed, 0xfe] && 32 + h.commandSize <= |img|
    requires |commands| == h.commandCount && HasMachCommands(img, 32, 32 + h.commandSize, commands)
    requires IsMachResult(img, name, found)
    ensures IsFirstNamed(img, SectionsOf(commands), name, found)
  {
    var end := 32 + h.commandSize;
    FirstOfCommands(img, h, name, found);
    CommandsAreListed(img, 32, end, commands);
    FirstIsNamed(img, MachSections(img, 32, end, h.commandCount), SectionsOf(commands), name);
  }

  /** Another file that starts like one has no resource. */
  lemma NoCommandsNoResource(img: Image, h: MachHeader, name: seq<Byte>, found: Option<Resource>)
    requires StartsAsMach(img, h) && IsMachResult(img, name, found)
    requires h.magic != [0xcf, 0xfa, 0xed, 0xfe] || 32 + h.commandSize > |img|
    ensures found.None?
  {
    MachHeaderIsRead(img, h);
  }
}
