/** `COFFGenerator.generate`: a Windows COFF object with one .rdata section
    holding the padded blob followed by its length, and four symbols. A
    symbol name longer than eight bytes goes to the string table after the
    symbol table; a shorter one is stored inline. */
module Coff {
  import opened Bytes
  import opened Layout
  import opened Inputs
  import opened Align

  /** IMAGE_FILE_MACHINE_AMD64, IMAGE_FILE_MACHINE_ARM64, IMAGE_FILE_MACHINE_I386. */
  function Machine(arch: Arch): nat
  {
    match arch
    case X86_64 => 0x8664
    case Arm64 => 0xAA64
    case X86 => 0x14c
  }

  /** IMAGE_SCN_ALIGN_1BYTES .. IMAGE_SCN_ALIGN_64BYTES for the alignments
      the generator's table lists, and the 4-byte flag for any other. */
  function AlignmentFlag(alignment: nat): nat
  {
    if alignment == 1 then 0x10_0000
    else if alignment == 2 then 0x20_0000
    else if alignment == 4 then 0x30_0000
    else if alignment == 8 then 0x40_0000
    else if alignment == 16 then 0x50_0000
    else if alignment == 32 then 0x60_0000
    else if alignment == 64 then 0x70_0000
    else 0x30_0000
  }

  const CNT_INITIALIZED_DATA: nat := 0x40
  const MEM_READ: nat := 0x4000_0000

  /** The section flags: initialised data, readable, and the alignment field.
      The three occupy disjoint bits, so their bitwise or is their sum. */
  function Characteristics(alignment: nat): nat
  {
    CNT_INITIALIZED_DATA + MEM_READ + AlignmentFlag(alignment)
  }

  /** The alignment a section's characteristics ask for: bits 20-23 hold
      k for an alignment of 2^(k-1) bytes; 0 means no alignment given. */
  function AlignmentOf(characteristics: nat): nat
  {
    var k := characteristics / 0x10_0000 % 16;
    if k == 0 then 0 else Pow2(k - 1)
  }

  /** The alignment field says the requested alignment whenever the table
      has it and 4 otherwise, and the other flags are exactly initialised
      data (bit 6) and readable (bit 30). */
  lemma {:induction false} CharacteristicsFields(alignment: nat)
    ensures var ch := Characteristics(alignment);
      ch % 0x10_0000 == CNT_INITIALIZED_DATA && ch / 0x100_0000 == 0x40
      && AlignmentOf(ch) == if alignment in {1, 2, 4, 8, 16, 32, 64} then alignment else 4
  {
    var flag := AlignmentFlag(alignment);
    var k := flag / 0x10_0000;
    assert flag == k * 0x10_0000 && 1 <= k <= 7;
    var ch := Characteristics(alignment);
    assert ch == 0x40 + (0x400 + k) * 0x10_0000;
    DivModUnique(ch, 0x10_0000, 0x400 + k, 0x40);
    DivModUnique(0x400 + k, 16, 0x40, k);
    DivModUnique(ch, 0x100_0000, 0x40, 0x40 + k * 0x10_0000);
    assert Pow2(0) == 1 && Pow2(1) == 2 && Pow2(2) == 4 && Pow2(3) == 8;
    assert Pow2(4) == 16 && Pow2(5) == 32 && Pow2(6) == 64;
  }

  // ---------------------------------------------------------------------
  // Record formats
  // ---------------------------------------------------------------------

  /** `'<HHIIIHH'`: Machine, NumberOfSections, TimeDateStamp,
      PointerToSymbolTable, NumberOfSymbols, SizeOfOptionalHeader,
      Characteristics. */
  const HeaderShape: Shape := [Int(2), Int(2), Int(4), Int(4), Int(4), Int(2), Int(2)]

  /** `'<8sIIIIIIHHI'`: Name, VirtualSize, VirtualAddress, SizeOfRawData,
      PointerToRawData, PointerToRelocations, PointerToLinenumbers,
      NumberOfRelocations, NumberOfLinenumbers, Characteristics. */
  const SectionShape: Shape := [Str(8), Int(4), Int(4), Int(4), Int(4), Int(4), Int(4), Int(2), Int(2), Int(4)]

  /** The fields after a symbol's name: Value (I), SectionNumber (H; the
      source packs it with `h` for some records, which gives the same bytes
      for section 1), Type (H), StorageClass (B), NumberOfAuxSymbols (B). */
  const SymbolTail: Shape := [Int(4), Int(2), Int(2), Int(1), Int(1)]

  /** `'<8sIHHBB'`: a symbol with its name inline. */
  const ShortShape: Shape := [Str(8), Int(4), Int(2), Int(2), Int(1), Int(1)]

  /** `'<IIIhHBB'`: a symbol whose name is in the string table: four zero
      bytes and the name's offset in place of the inline name. */
  const LongShape: Shape := [Int(4), Int(4), Int(4), Int(2), Int(2), Int(1), Int(1)]

  /** Where the header, the section header and the section contents start. */
  const HeaderSize: nat := 20
  const SectionHeaderSize: nat := 40
  const DataOffset: nat := 60
  const RecordSize: nat := 18

  /** `struct.calcsize` of the four formats. */
  lemma {:induction false} ShapeSizes()
    ensures Size(HeaderShape) == HeaderSize && Size(SectionShape) == SectionHeaderSize
    ensures HeaderSize + SectionHeaderSize == DataOffset
    ensures Size(ShortShape) == RecordSize && Size(LongShape) == RecordSize
    ensures Offset(ShortShape, 1) == 8
  {
    assert Offset(HeaderShape, 7) == 20;
    assert Offset(SectionShape, 10) == 40;
    assert Offset(ShortShape, 6) == 18;
    assert Offset(LongShape, 7) == 18;
  }

  // ---------------------------------------------------------------------
  // Names and the string table
  // ---------------------------------------------------------------------

  const RdataName: seq<byte> := Ascii(".rdata")
  const Underscore: seq<byte> := Ascii("_")

  /** C symbols carry a leading underscore on 32-bit Windows only. */
  function Prefix(arch: Arch): seq<byte>
  {
    if arch == X86 then Underscore else []
  }

  /** The names of the three global symbols: name_data, name_end, name_size. */
  function SymbolNames(name: seq<byte>, arch: Arch): (r: seq<seq<byte>>)
    ensures |r| == 3
  {
    [Prefix(arch) + name + DataSuffix, Prefix(arch) + name + EndSuffix, Prefix(arch) + name + SizeSuffix]
  }

  /** A name that does not fit the eight inline bytes. */
  predicate IsLong(nm: seq<byte>)
  {
    |nm| > 8
  }

  /** The names that go to the string table, in order. */
  function LongNames(names: seq<seq<byte>>): (r: seq<seq<byte>>)
    ensures |r| <= |names|
  {
    if names == [] then []
    else (if IsLong(names[0]) then [names[0]] else []) + LongNames(names[1..])
  }

  /** The bytes after the string table's size field. */
  function StringBody(name: seq<byte>, arch: Arch): seq<byte>
  {
    Concat(Terminated(LongNames(SymbolNames(name, arch))))
  }

  /** The string table: its own length, then each long name NUL-terminated. */
  function StringTable(name: seq<byte>, arch: Arch): (r: seq<byte>)
    ensures |r| == 4 + |StringBody(name, arch)|
  {
    LE(4 + |StringBody(name, arch)|, 4) + StringBody(name, arch)
  }

  /** The string-table offsets the generator writes for name_data, name_end
      and name_size: 4, then past name_data, then past name_end when that
      one is in the table too. */
  function StrOffsets(name: seq<byte>, arch: Arch): seq<nat>
  {
    var names := SymbolNames(name, arch);
    var endOffset := 4 + |names[0]| + 1;
    var sizeOffset := if IsLong(names[1]) then endOffset + |names[1]| + 1 else endOffset;
    [4, endOffset, sizeOffset]
  }

  /** name_data and name_size have the same length and name_end is one
      shorter, so the long names are none, name_data and name_size, or all
      three. */
  lemma {:induction false} NameLengths(name: seq<byte>, arch: Arch)
    ensures var names := SymbolNames(name, arch);
      |names[0]| == |names[2]| == |names[1]| + 1
      && (IsLong(names[1]) ==> IsLong(names[0]))
      && LongNames(names)
         == if !IsLong(names[0]) then []
            else if IsLong(names[1]) then names
            else [names[0], names[2]]
  {
    SuffixesClean();
    var names := SymbolNames(name, arch);
    LongNamesOfThree(names[0], names[1], names[2]);
  }

  lemma {:induction false} LongNamesOfThree(a: seq<byte>, b: seq<byte>, c: seq<byte>)
    ensures LongNames([a, b, c])
         == (if IsLong(a) then [a] else []) + (if IsLong(b) then [b] else []) + (if IsLong(c) then [c] else [])
  {
    assert [a, b, c][1..] == [b, c];
    assert [b, c][1..] == [c];
    assert [c][1..] == [];
    assert LongNames([c]) == (if IsLong(c) then [c] else []) + LongNames([]);
    assert LongNames([b, c]) == (if IsLong(b) then [b] else []) + LongNames([c]);
  }

  /** The generator's names contain no NUL and do not start with one. */
  lemma {:induction false} NamesClean(name: seq<byte>, arch: Arch)
    requires NoNul(name)
    ensures forall k :: 0 <= k < 3 ==> NoNul(SymbolNames(name, arch)[k])
    ensures forall k :: 0 <= k < 3 ==> SymbolNames(name, arch)[k][0] != 0
  {
    SuffixesClean();
    AsciiNoNul("_");
    var names := SymbolNames(name, arch);
    assert NoNul(names[0]) && NoNul(names[1]) && NoNul(names[2]);
  }

  /** Where each name of a string table of two or three names starts
      after the size field, and where the table ends. */
  lemma {:induction false} TerminatedStarts(longs: seq<seq<byte>>)
    requires 2 <= |longs| <= 3
    ensures var t := Terminated(longs);
      Start(t, 0) == 0 && Start(t, 1) == |longs[0]| + 1
      && (|longs| == 3 ==> Start(t, 2) == |longs[0]| + |longs[1]| + 2)
      && |Concat(t)| == Start(t, |longs| - 1) + |longs[|longs| - 1]| + 1
  {
    var t := Terminated(longs);
    StartNext(t, 0);
    StartNext(t, 1);
    if |longs| == 3 {
      StartNext(t, 2);
    }
    ConcatPrefix(t, |t|);
    assert t[..|t|] == t;
  }

  /** Name k of the table reads back from the size field's length plus its
      start, and ends inside the table. */
  lemma {:induction false} LongNameAt(name: seq<byte>, arch: Arch, i: nat)
    requires NoNul(name)
    requires i < |LongNames(SymbolNames(name, arch))|
    ensures var longs := LongNames(SymbolNames(name, arch));
      CStr(StringTable(name, arch), 4 + Start(Terminated(longs), i)) == longs[i]
  {
    var longs := LongNames(SymbolNames(name, arch));
    NameLengths(name, arch);
    NamesClean(name, arch);
    assert NoNul(longs[i]);
    TableAt(LE(4 + |StringBody(name, arch)|, 4), longs, i);
  }

  /** The offsets the generator writes are where the long names sit: every
      long name reads back from its offset, inside the string table. */
  lemma {:induction false} StringOffsets(name: seq<byte>, arch: Arch, k: nat)
    requires NoNul(name) && k < 3 && IsLong(SymbolNames(name, arch)[k])
    ensures StrOffsets(name, arch)[k] + |SymbolNames(name, arch)[k]| < |StringTable(name, arch)|
    ensures CStr(StringTable(name, arch), StrOffsets(name, arch)[k]) == SymbolNames(name, arch)[k]
  {
    var i := LongIndex(name, arch, k);
    LongNameAt(name, arch, i);
  }

  /** Where the k-th symbol name sits among the long names, and that its
      offset is that long name's start past the size field. */
  lemma {:induction false} LongIndex(name: seq<byte>, arch: Arch, k: nat) returns (i: nat)
    requires k < 3 && IsLong(SymbolNames(name, arch)[k])
    ensures var longs := LongNames(SymbolNames(name, arch));
      i < |longs| && longs[i] == SymbolNames(name, arch)[k]
      && StrOffsets(name, arch)[k] == 4 + Start(Terminated(longs), i)
      && StrOffsets(name, arch)[k] + |SymbolNames(name, arch)[k]| < |StringTable(name, arch)|
  {
    var names := SymbolNames(name, arch);
    var longs := LongNames(names);
    NameLengths(name, arch);
    TerminatedStarts(longs);
    i := if k == 0 then 0 else if k == 1 || IsLong(names[1]) then k else 1;
  }

  // ---------------------------------------------------------------------
  // Symbols
  // ---------------------------------------------------------------------

  /** A symbol in section 1 with the given value and storage class
      (2 external, 3 static), no type and no auxiliary records. */
  function TailVals(value: nat, storage: nat): seq<Val>
  {
    [N(value), N(1), N(0), N(storage), N(0)]
  }

  /** An external or static symbol record in section 1: the name inline
      when it fits, otherwise zero and its string-table offset. */
  function Record(nm: seq<byte>, strOffset: nat, value: nat, storage: nat): (r: seq<byte>)
    ensures |r| == RecordSize
  {
    ShapeSizes();
    if IsLong(nm) then Pack(LongShape, [N(0), N(strOffset)] + TailVals(value, storage))
    else Pack(ShortShape, [S(nm)] + TailVals(value, storage))
  }

  /** The inline name bytes: the name padded to eight bytes, or four zero
      bytes and the string-table offset. */
  function NameField(nm: seq<byte>, strOffset: nat): (r: seq<byte>)
    ensures |r| == 8
  {
    if IsLong(nm) then LE(0, 4) + LE(strOffset, 4) else PadTo(nm, 8)
  }

  /** The values of a record in the inline-name format. */
  function RecordVals(nm: seq<byte>, strOffset: nat, value: nat, storage: nat): seq<Val>
  {
    [S(NameField(nm, strOffset))] + TailVals(value, storage)
  }

  /** A long-name record: zero, the offset, then the other fields. */
  lemma {:induction false} LongRecord(strOffset: nat, value: nat, storage: nat)
    ensures Pack(LongShape, [N(0), N(strOffset)] + TailVals(value, storage))
         == LE(0, 4) + LE(strOffset, 4) + Pack(SymbolTail, TailVals(value, storage))
  {
    assert LongShape == [Int(4), Int(4)] + SymbolTail;
    PackCons2(Int(4), N(0), Int(4), N(strOffset), SymbolTail, TailVals(value, storage));
  }

  /** An inline-name record: the name bytes, then the other fields. */
  lemma {:induction false} ShortRecord(field: seq<byte>, value: nat, storage: nat)
    ensures Pack(ShortShape, [S(field)] + TailVals(value, storage))
         == PadTo(field, 8) + Pack(SymbolTail, TailVals(value, storage))
  {
    assert ShortShape == [Str(8)] + SymbolTail;
    PackCons(Str(8), S(field), SymbolTail, TailVals(value, storage));
  }

  /** Both formats lay a record out alike: a long-name record is the
      inline format with zero and the offset as its name bytes. */
  lemma {:induction false} RecordAsShort(nm: seq<byte>, strOffset: nat, value: nat, storage: nat)
    ensures Record(nm, strOffset, value, storage) == Pack(ShortShape, RecordVals(nm, strOffset, value, storage))
  {
    var field := NameField(nm, strOffset);
    ShortRecord(field, value, storage);
    assert PadTo(field, 8) == field;
    if IsLong(nm) {
      LongRecord(strOffset, value, storage);
    } else {
      ShortRecord(nm, value, storage);
    }
  }

  /** The four symbol records as the inline format reads them: .rdata
      (static), then name_data at 0, name_end and name_size at the end of
      the padded blob, all in section 1. */
  function SymbolRows(name: seq<byte>, arch: Arch, aligned: nat): (rows: seq<seq<Val>>)
    ensures |rows| == 4
  {
    var names := SymbolNames(name, arch);
    var offs := StrOffsets(name, arch);
    [RecordVals(RdataName, 0, 0, 3),
     RecordVals(names[0], offs[0], 0, 2),
     RecordVals(names[1], offs[1], aligned, 2),
     RecordVals(names[2], offs[2], aligned, 2)]
  }

  /** The symbol table as the generator packs it. */
  function SymbolTable(name: seq<byte>, arch: Arch, aligned: nat): seq<byte>
  {
    var names := SymbolNames(name, arch);
    var offs := StrOffsets(name, arch);
    Record(RdataName, 0, 0, 3)
    + Record(names[0], offs[0], 0, 2)
    + Record(names[1], offs[1], aligned, 2)
    + Record(names[2], offs[2], aligned, 2)
  }

  /** The symbol table is the four rows in the inline format, 72 bytes. */
  lemma {:induction false} SymbolTableRecords(name: seq<byte>, arch: Arch, aligned: nat)
    ensures RowsFit(ShortShape, SymbolRows(name, arch, aligned))
    ensures SymbolTable(name, arch, aligned) == Records(ShortShape, SymbolRows(name, arch, aligned))
    ensures |SymbolTable(name, arch, aligned)| == 4 * RecordSize
  {
    var names := SymbolNames(name, arch);
    var offs := StrOffsets(name, arch);
    var rows := SymbolRows(name, arch, aligned);
    assert RowsFit(ShortShape, rows);
    RecordAsShort(RdataName, 0, 0, 3);
    RecordAsShort(names[0], offs[0], 0, 2);
    RecordAsShort(names[1], offs[1], aligned, 2);
    RecordAsShort(names[2], offs[2], aligned, 2);
    var blocks := PackedRows(ShortShape, rows);
    assert blocks == [blocks[0]] + [blocks[1]] + [blocks[2]] + [blocks[3]];
    ConcatFour(blocks);
  }

  // ---------------------------------------------------------------------
  // The file
  // ---------------------------------------------------------------------

  /** `aligned_data + size_bytes`: the section contents. */
  function Combined(data: seq<byte>, alignment: nat, arch: Arch): (r: seq<byte>)
    requires alignment > 0 && |data| < Pow256(WordSize(arch))
    ensures |r| == |AlignData(data, alignment)| + WordSize(arch)
  {
    AlignData(data, alignment) + SizeConstant(|data|, arch)
  }

  /** True when every value the generator packs fits its field:
      PointerToSymbolTable (past the section contents) and the string
      table's length fit 32 bits. */
  predicate Fits(len: nat, name: seq<byte>, alignment: nat, arch: Arch)
  {
    alignment > 0
    && DataOffset + len + Padding(len, alignment) + WordSize(arch) < Pow256(4)
    && 4 + |StringBody(name, arch)| < Pow256(4)
  }

  /** The blob, padded and followed by its length, fits where it goes. */
  lemma {:induction false} DataFits(len: nat, name: seq<byte>, alignment: nat, arch: Arch)
    requires Fits(len, name, alignment, arch)
    ensures len < Pow256(WordSize(arch)) && len + Padding(len, alignment) + WordSize(arch) < Pow256(4)
  {
    Pow256Values();
  }

  /** The file header: one section, four symbols, the symbol table at symoff. */
  function HeaderVals(arch: Arch, symoff: nat): seq<Val>
  {
    [N(Machine(arch)), N(1), N(0), N(symoff), N(4), N(0), N(0)]
  }

  /** The .rdata section header: contents right after the headers. */
  function SectionVals(size: nat, alignment: nat): seq<Val>
  {
    [S(PadTo(RdataName, 8)), N(0), N(0), N(size), N(DataOffset), N(0), N(0), N(0), N(0), N(Characteristics(alignment))]
  }

  /** `COFFGenerator.generate`. */
  function Encode(data: seq<byte>, name: seq<byte>, alignment: nat, arch: Arch): (out: seq<byte>)
    requires Fits(|data|, name, alignment, arch)
  {
    var comb := Combined(data, alignment, arch);
    Pack(HeaderShape, HeaderVals(arch, DataOffset + |comb|))
    + Pack(SectionShape, SectionVals(|comb|, alignment))
    + comb
    + SymbolTable(name, arch, |AlignData(data, alignment)|)
    + StringTable(name, arch)
  }
}
