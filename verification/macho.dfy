/** `MachOGenerator.generate`: a Mach-O object (MH_OBJECT) with one
    LC_SEGMENT(_64) command holding a `__TEXT,__const` section with the
    padded blob followed by its length, and an LC_SYMTAB command for three
    external symbols. The load commands are packed with zero offsets first
    and the file offsets patched in afterwards with `struct.pack_into`. */
module MachO {
  import opened Bytes
  import opened Layout
  import opened Inputs
  import opened Align

  // ---------------------------------------------------------------------
  // Header constants
  // ---------------------------------------------------------------------

  /** MH_MAGIC_64 on the 64-bit targets, MH_MAGIC on x86. */
  function Magic(arch: Arch): nat
  {
    if Is64(arch) then 0xFEED_FACF else 0xFEED_FACE
  }

  /** CPU_TYPE_X86_64, CPU_TYPE_ARM64, CPU_TYPE_X86. */
  function CpuType(arch: Arch): nat
  {
    match arch
    case X86_64 => 0x0100_0007
    case Arm64 => 0x0100_000C
    case X86 => 7
  }

  /** CPU_SUBTYPE_X86_64_ALL, CPU_SUBTYPE_ARM64_ALL, CPU_SUBTYPE_X86_ALL. */
  function CpuSubtype(arch: Arch): nat
  {
    match arch
    case X86_64 => 3
    case Arm64 => 0
    case X86 => 3
  }

  const MH_OBJECT: nat := 1
  const MH_SUBSECTIONS_VIA_SYMBOLS: nat := 0x2000
  const LC_SYMTAB: nat := 2
  const N_SECT_EXT: nat := 0x0F

  /** LC_SEGMENT_64 on the 64-bit targets, LC_SEGMENT on x86. */
  function SegmentCmd(arch: Arch): nat
  {
    if Is64(arch) then 0x19 else 1
  }

  // ---------------------------------------------------------------------
  // Record formats, for a word of w bytes (8 or 4)
  // ---------------------------------------------------------------------

  /** `'<IIIIIIII'` (mach_header_64, with its reserved word) or `'<IIIIIII'`
      (mach_header): magic, cputype, cpusubtype, filetype, ncmds,
      sizeofcmds, flags. */
  function HeaderShape(w: nat): Shape
  {
    if w == 8 then [Int(4), Int(4), Int(4), Int(4), Int(4), Int(4), Int(4), Int(4)]
    else [Int(4), Int(4), Int(4), Int(4), Int(4), Int(4), Int(4)]
  }

  /** `'<II16sQQQQIIII'` or `'<II16sIIIIIIII'`: cmd, cmdsize, segname,
      vmaddr, vmsize, fileoff, filesize, maxprot, initprot, nsects, flags. */
  function SegmentShape(w: nat): Shape
  {
    [Int(4), Int(4), Str(16), Int(w), Int(w), Int(w), Int(w), Int(4), Int(4), Int(4), Int(4)]
  }

  /** Indices of vmaddr, vmsize, fileoff, filesize and nsects in SegmentShape. */
  const VmaddrField: nat := 3
  const VmsizeField: nat := 4
  const FileoffField: nat := 5
  const FilesizeField: nat := 6
  const NsectsField: nat := 9

  /** `'<16s16sQQIIIIIIII'` (section_64) or `'<16s16sIIIIIIIII'` (section):
      sectname, segname, addr, size, offset, align, reloff, nreloc, flags
      and three or two reserved words. */
  function SectionShape(w: nat): Shape
  {
    if w == 8 then [Str(16), Str(16), Int(8), Int(8), Int(4), Int(4), Int(4), Int(4), Int(4), Int(4), Int(4), Int(4)]
    else [Str(16), Str(16), Int(4), Int(4), Int(4), Int(4), Int(4), Int(4), Int(4), Int(4), Int(4)]
  }

  /** Index of the section's file offset in SectionShape. */
  const OffsetField: nat := 4

  /** `'<IIIIII'`: cmd, cmdsize, symoff, nsyms, stroff, strsize. */
  const SymtabShape: Shape := [Int(4), Int(4), Int(4), Int(4), Int(4), Int(4)]

  /** `'<IBBHQ'` (nlist_64) or `'<IBBHI'` (nlist): n_strx, n_type, n_sect,
      n_desc, n_value. */
  function NlistShape(w: nat): Shape
  {
    [Int(4), Int(1), Int(1), Int(2), Int(w)]
  }

  /** The sizes the generator writes as literals: the header (32 or 28),
      the segment command without its section (72 or 56). */
  function HeaderSize(arch: Arch): nat
  {
    if Is64(arch) then 32 else 28
  }

  function SegmentHeaderSize(arch: Arch): nat
  {
    if Is64(arch) then 72 else 56
  }

  /** `struct.calcsize` of the formats, and where the patched fields lie. */
  lemma {:induction false} ShapeSizes(arch: Arch)
    ensures var w := WordSize(arch);
      Size(HeaderShape(w)) == HeaderSize(arch)
      && Size(SegmentShape(w)) == SegmentHeaderSize(arch)
      && Size(SectionShape(w)) == (if Is64(arch) then 80 else 68)
      && Size(SymtabShape) == 24
      && Size(NlistShape(w)) == (if Is64(arch) then 16 else 12)
    ensures var w := WordSize(arch);
      Offset(SegmentShape(w), VmaddrField) == 24
      && Offset(SegmentShape(w), VmsizeField) == 24 + w
      && Offset(SegmentShape(w), FileoffField) == 24 + 2 * w
      && Offset(SectionShape(w), OffsetField) == 32 + 2 * w
  {
    var w := WordSize(arch);
    HeaderShapeSizes();
    SegmentShapeSize(w);
    SectionShapeSizes();
    assert Offset(SymtabShape, 6) == 24;
    assert Offset(NlistShape(w), 5) == 8 + w;
  }

  /** The header and the two load commands add up to data_offset. */
  lemma {:induction false} CommandShapeSizes(arch: Arch)
    ensures var w := WordSize(arch);
      Size(HeaderShape(w)) == HeaderSize(arch)
      && Size(SegmentShape(w)) + Size(SectionShape(w)) == SegmentCmdSize(arch)
      && HeaderSize(arch) + SegmentCmdSize(arch) + Size(SymtabShape) == DataOffset(arch)
  {
    ShapeSizes(arch);
  }

  lemma {:induction false} HeaderShapeSizes()
    ensures Size(HeaderShape(8)) == 32 && Size(HeaderShape(4)) == 28
  {
    assert Offset(HeaderShape(8), 4) == 16;
    assert Offset(HeaderShape(8), 8) == 32;
    assert Offset(HeaderShape(4), 4) == 16;
    assert Offset(HeaderShape(4), 7) == 28;
  }

  lemma {:induction false} SegmentShapeSize(w: nat)
    ensures Size(SegmentShape(w)) == 40 + 4 * w
    ensures Offset(SegmentShape(w), VmaddrField) == 24
    ensures Offset(SegmentShape(w), VmsizeField) == 24 + w
    ensures Offset(SegmentShape(w), FileoffField) == 24 + 2 * w
  {
    var s := SegmentShape(w);
    assert Offset(s, 1) == 4;
    assert Offset(s, 2) == 8;
    assert Offset(s, 3) == 24;
    assert Offset(s, 4) == 24 + w;
    assert Offset(s, 5) == 24 + 2 * w;
    assert Offset(s, 6) == 24 + 3 * w;
    assert Offset(s, 7) == 24 + 4 * w;
    assert Offset(s, 9) == 32 + 4 * w;
    assert Offset(s, 11) == 40 + 4 * w;
  }

  lemma {:induction false} SectionShapeSizes()
    ensures Size(SectionShape(8)) == 80 && Size(SectionShape(4)) == 68
    ensures Offset(SectionShape(8), OffsetField) == 48 && Offset(SectionShape(4), OffsetField) == 40
  {
    var s8 := SectionShape(8);
    assert Offset(s8, 2) == 32;
    assert Offset(s8, 4) == 48;
    assert Offset(s8, 6) == 56;
    assert Offset(s8, 8) == 64;
    assert Offset(s8, 10) == 72;
    assert Offset(s8, 12) == 80;
    var s4 := SectionShape(4);
    assert Offset(s4, 2) == 32;
    assert Offset(s4, 4) == 40;
    assert Offset(s4, 6) == 48;
    assert Offset(s4, 8) == 56;
    assert Offset(s4, 10) == 64;
    assert Offset(s4, 11) == 68;
  }

  // ---------------------------------------------------------------------
  // The load commands
  // ---------------------------------------------------------------------

  const SegName: seq<byte> := PadTo(Ascii("__TEXT"), 16)
  const SectName: seq<byte> := PadTo(Ascii("__const"), 16)

  /** `alignment.bit_length() - 1`: the section's alignment as a power of two. */
  function AlignField(alignment: nat): nat
  {
    if alignment == 0 then 0 else BitLength(alignment) - 1
  }

  /** For a power-of-two alignment the field is its base-2 logarithm. */
  lemma {:induction false} AlignFieldLog2(alignment: nat)
    requires IsPowerOfTwo(alignment)
    ensures Pow2(AlignField(alignment)) == alignment
  {
    Log2OfPowerOfTwo(alignment);
  }

  /** cmdsize of the segment command: 72 + 80 or 56 + 68. */
  function SegmentCmdSize(arch: Arch): nat
  {
    SegmentHeaderSize(arch) + if Is64(arch) then 80 else 68
  }

  /** sizeofcmds: the segment command with its section, and LC_SYMTAB. */
  function SizeOfCmds(arch: Arch): nat
  {
    SegmentCmdSize(arch) + 24
  }

  /** `data_offset`: the section contents follow the header and the load commands. */
  function DataOffset(arch: Arch): nat
  {
    HeaderSize(arch) + SizeOfCmds(arch)
  }

  function HeaderVals(arch: Arch): (r: seq<Val>)
    ensures |r| == |HeaderShape(WordSize(arch))|
  {
    var base := [N(Magic(arch)), N(CpuType(arch)), N(CpuSubtype(arch)), N(MH_OBJECT), N(2),
                 N(SizeOfCmds(arch)), N(MH_SUBSECTIONS_VIA_SYMBOLS)];
    if Is64(arch) then base + [N(0)] else base
  }

  /** The segment command as first packed: vmaddr 0, vmsize and filesize the
      section size, fileoff 0 (patched later), rwx maximum and rw initial
      protection, one section. */
  function SegmentVals(arch: Arch, size: nat): (r: seq<Val>)
    ensures |r| == |SegmentShape(WordSize(arch))|
  {
    [N(SegmentCmd(arch)), N(SegmentCmdSize(arch)), S(SegName), N(0), N(size), N(0), N(size),
     N(7), N(3), N(1), N(0)]
  }

  /** The section record: address 0, the given size, file offset and
      alignment, no relocations, S_REGULAR. */
  function SectionVals(arch: Arch, size: nat, offset: nat, alignment: nat): (r: seq<Val>)
    ensures |r| == |SectionShape(WordSize(arch))|
  {
    var base := [S(SectName), S(SegName), N(0), N(size), N(offset), N(AlignField(alignment)),
                 N(0), N(0), N(0), N(0), N(0)];
    if Is64(arch) then base + [N(0)] else base
  }

  function SymtabVals(symoff: nat, stroff: nat, strsize: nat): seq<Val>
  {
    [N(LC_SYMTAB), N(24), N(symoff), N(3), N(stroff), N(strsize)]
  }

  /** `segment_cmd` before patching: the segment command and its section. */
  function SegmentCmdBuilt(arch: Arch, size: nat, alignment: nat): (r: seq<byte>)
    ensures |r| == SegmentCmdSize(arch)
  {
    ShapeSizes(arch);
    var w := WordSize(arch);
    Pack(SegmentShape(w), SegmentVals(arch, size)) + Pack(SectionShape(w), SectionVals(arch, size, 0, alignment))
  }

  /** Where the section's offset field lies in `segment_cmd`: 72 + 48 or 56 + 40. */
  function SectionOffsetAt(arch: Arch): nat
  {
    if Is64(arch) then 72 + 48 else 56 + 40
  }

  /** `segment_cmd` after the two `struct.pack_into` calls: data_offset
      written as a word at `at` and as the section's 32-bit offset. */
  function SegmentCmdPatched(arch: Arch, size: nat, alignment: nat, at: nat): (r: seq<byte>)
    requires at + WordSize(arch) <= SegmentHeaderSize(arch)
    ensures |r| == SegmentCmdSize(arch)
  {
    Pow256Values();
    var once := PokeLE(SegmentCmdBuilt(arch, size, alignment), at, WordSize(arch), DataOffset(arch));
    PokeLE(once, SectionOffsetAt(arch), 4, DataOffset(arch))
  }

  /** Where the generator writes the segment's file offset: byte 32 of
      LC_SEGMENT_64, byte 24 of LC_SEGMENT. */
  function FileoffAtAsWritten(arch: Arch): nat
  {
    if Is64(arch) then 32 else 24
  }

  /** Where fileoff actually lies: after cmd, cmdsize, segname, vmaddr and
      vmsize, byte 40 or 32. */
  function FileoffAt(arch: Arch): nat
  {
    if Is64(arch) then 40 else 32
  }

  /** The field the generator's patch lands in: vmsize in LC_SEGMENT_64,
      vmaddr in LC_SEGMENT. */
  function OverwrittenField(arch: Arch): nat
  {
    if Is64(arch) then VmsizeField else VmaddrField
  }

  /** Patching a word-sized field of the segment and the section's offset
      is packing the segment with data_offset in that field and the section
      with data_offset as its offset. */
  lemma {:induction false} SegmentPatchedFields(arch: Arch, size: nat, alignment: nat, k: nat)
    requires k in {VmaddrField, VmsizeField, FileoffField}
    requires size < Pow256(WordSize(arch))
    ensures var w := WordSize(arch);
      Offset(SegmentShape(w), k) + w <= SegmentHeaderSize(arch)
      && SegmentCmdPatched(arch, size, alignment, Offset(SegmentShape(w), k))
         == Pack(SegmentShape(w), SegmentVals(arch, size)[k := N(DataOffset(arch))])
            + Pack(SectionShape(w), SectionVals(arch, size, DataOffset(arch), alignment))
  {
    var w := WordSize(arch);
    var d := DataOffset(arch);
    WordField(arch, k);
    SegmentPart(arch, size, alignment, k);
    SectionPart(arch, SegmentVals(arch, size)[k := N(d)], size, alignment);
  }

  /** The word patch lands in the segment part of `segment_cmd`. */
  lemma {:induction false} SegmentPart(arch: Arch, size: nat, alignment: nat, k: nat)
    requires k in {VmaddrField, VmsizeField, FileoffField}
    ensures var w := WordSize(arch);
      Offset(SegmentShape(w), k) + w <= SegmentHeaderSize(arch)
      && DataOffset(arch) < Pow256(w)
      && PokeLE(SegmentCmdBuilt(arch, size, alignment), Offset(SegmentShape(w), k), w, DataOffset(arch))
         == Pack(SegmentShape(w), SegmentVals(arch, size)[k := N(DataOffset(arch))])
            + Pack(SectionShape(w), SectionVals(arch, size, 0, alignment))
  {
    var w := WordSize(arch);
    var d := DataOffset(arch);
    WordField(arch, k);
    var segv := SegmentVals(arch, size);
    PokeField(SegmentShape(w), segv, k, d);
    var seg := Pack(SegmentShape(w), segv);
    var sec := Pack(SectionShape(w), SectionVals(arch, size, 0, alignment));
    PokeLeft(seg, sec, Offset(SegmentShape(w), k), w, d);
  }

  /** vmaddr, vmsize and fileoff are words, and data_offset fits in one. */
  lemma {:induction false} WordField(arch: Arch, k: nat)
    requires k in {VmaddrField, VmsizeField, FileoffField}
    ensures var w := WordSize(arch);
      k < |SegmentShape(w)| && SegmentShape(w)[k] == Int(w)
      && DataOffset(arch) < Pow256(w)
      && Offset(SegmentShape(w), k) + w <= SegmentHeaderSize(arch)
  {
    ShapeSizes(arch);
    Pow256Values();
  }

  /** The offset patch lands in the section part. */
  lemma {:induction false} SectionPart(arch: Arch, segv: seq<Val>, size: nat, alignment: nat)
    requires |segv| == |SegmentShape(WordSize(arch))|
    ensures var w := WordSize(arch);
      var seg := Pack(SegmentShape(w), segv);
      SectionOffsetAt(arch) + 4 <= |seg + Pack(SectionShape(w), SectionVals(arch, size, 0, alignment))|
      && DataOffset(arch) < Pow256(4)
      && PokeLE(seg + Pack(SectionShape(w), SectionVals(arch, size, 0, alignment)), SectionOffsetAt(arch), 4, DataOffset(arch))
         == seg + Pack(SectionShape(w), SectionVals(arch, size, DataOffset(arch), alignment))
  {
    var w := WordSize(arch);
    var d := DataOffset(arch);
    OffsetFieldAt(arch);
    var seg := Pack(SegmentShape(w), segv);
    var sv := SectionVals(arch, size, 0, alignment);
    PokeField(SectionShape(w), sv, OffsetField, d);
    PokeAfter(seg + Pack(SectionShape(w), sv), SectionOffsetAt(arch), seg, Pack(SectionShape(w), sv), Offset(SectionShape(w), OffsetField), 4, d);
    SectionValsOffset(arch, size, alignment, d);
  }

  /** The section's offset is a 32-bit field at SectionOffsetAt, and
      data_offset fits in it. */
  lemma {:induction false} OffsetFieldAt(arch: Arch)
    ensures var w := WordSize(arch);
      OffsetField < |SectionShape(w)| && SectionShape(w)[OffsetField] == Int(4)
      && DataOffset(arch) < Pow256(4)
      && SectionOffsetAt(arch) == Size(SegmentShape(w)) + Offset(SectionShape(w), OffsetField)
  {
    ShapeSizes(arch);
    Pow256Values();
  }

  lemma {:induction false} SectionValsOffset(arch: Arch, size: nat, alignment: nat, offset: nat)
    ensures SectionVals(arch, size, 0, alignment)[OffsetField := N(offset)] == SectionVals(arch, size, offset, alignment)
  {
  }

  /** The generator's patch offsets are those of vmsize (64-bit) and vmaddr
      (32-bit), not fileoff's; the corrected offset is fileoff's. */
  lemma {:induction false} PatchOffsets(arch: Arch)
    ensures FileoffAtAsWritten(arch) == Offset(SegmentShape(WordSize(arch)), OverwrittenField(arch))
    ensures FileoffAt(arch) == Offset(SegmentShape(WordSize(arch)), FileoffField)
    ensures FileoffAtAsWritten(arch) != FileoffAt(arch)
    ensures SectionOffsetAt(arch) == SegmentHeaderSize(arch) + Offset(SectionShape(WordSize(arch)), OffsetField)
  {
    ShapeSizes(arch);
  }

  /** The segment command the generator emits: data_offset lands in vmsize
      (64-bit) or vmaddr (32-bit) and fileoff stays 0, while the section's
      offset is data_offset. */
  function SegmentCmdAsWritten(arch: Arch, size: nat, alignment: nat): seq<byte>
  {
    ShapeSizes(arch);
    SegmentCmdPatched(arch, size, alignment, FileoffAtAsWritten(arch))
  }

  /** The segment command with the patch at fileoff's offset. */
  function SegmentCmdFixed(arch: Arch, size: nat, alignment: nat): seq<byte>
  {
    ShapeSizes(arch);
    SegmentCmdPatched(arch, size, alignment, FileoffAt(arch))
  }

  /** As written, the patched segment command declares file offset 0 for
      the segment while its section's bytes start at data_offset, and
      data_offset replaces vmsize (64-bit) or vmaddr (32-bit). */
  lemma {:induction false} SegmentAsWrittenFields(arch: Arch, size: nat, alignment: nat)
    requires size < Pow256(WordSize(arch))
    ensures var w := WordSize(arch);
      var segv := SegmentVals(arch, size)[OverwrittenField(arch) := N(DataOffset(arch))];
      SegmentCmdAsWritten(arch, size, alignment)
      == Pack(SegmentShape(w), segv) + Pack(SectionShape(w), SectionVals(arch, size, DataOffset(arch), alignment))
      && segv[FileoffField] == N(0) && segv[OverwrittenField(arch)] == N(DataOffset(arch))
      && DataOffset(arch) > 0
  {
    AsWrittenPatchAt(arch);
    SegmentPatchedFields(arch, size, alignment, OverwrittenField(arch));
    AsWrittenVals(arch, size);
  }

  /** The as-written patch offset is the overwritten field's offset. */
  lemma {:induction false} AsWrittenPatchAt(arch: Arch)
    ensures FileoffAtAsWritten(arch) == Offset(SegmentShape(WordSize(arch)), OverwrittenField(arch))
  {
    ShapeSizes(arch);
  }

  /** The patch leaves fileoff 0 and puts data_offset in the overwritten field. */
  lemma {:induction false} AsWrittenVals(arch: Arch, size: nat)
    ensures var segv := SegmentVals(arch, size)[OverwrittenField(arch) := N(DataOffset(arch))];
      segv[FileoffField] == N(0) && segv[OverwrittenField(arch)] == N(DataOffset(arch))
      && DataOffset(arch) > 0
  {
    ShapeSizes(arch);
  }

  /** Corrected, the segment's file offset is data_offset, where its section starts. */
  lemma {:induction false} SegmentFixedFields(arch: Arch, size: nat, alignment: nat)
    requires size < Pow256(WordSize(arch))
    ensures var w := WordSize(arch);
      SegmentCmdFixed(arch, size, alignment)
      == Pack(SegmentShape(w), FixedSegmentVals(arch, size))
         + Pack(SectionShape(w), SectionVals(arch, size, DataOffset(arch), alignment))
  {
    PatchOffsets(arch);
    SegmentPatchedFields(arch, size, alignment, FileoffField);
  }

  /** The segment command's values once fileoff holds data_offset. */
  function FixedSegmentVals(arch: Arch, size: nat): (r: seq<Val>)
    ensures |r| == |SegmentShape(WordSize(arch))|
  {
    SegmentVals(arch, size)[FileoffField := N(DataOffset(arch))]
  }

  /** The load commands take 176 bytes on the 64-bit targets and 148 on x86,
      and the contents start at byte 208 or 176. */
  lemma {:induction false} CommandSizes(arch: Arch)
    ensures SizeOfCmds(arch) == (if Is64(arch) then 176 else 148)
    ensures DataOffset(arch) == (if Is64(arch) then 208 else 176)
    ensures SizeOfCmds(arch) == |SegmentCmdBuilt(arch, 0, 1)| + Size(SymtabShape)
  {
    ShapeSizes(arch);
  }

  // ---------------------------------------------------------------------
  // Symbols and the string table
  // ---------------------------------------------------------------------

  /** `_name_data`, `_name_end`, `_name_size`: every target prefixes an underscore. */
  function GlobalNames(name: seq<byte>): (r: seq<seq<byte>>)
    ensures |r| == 3
  {
    var u := Ascii("_");
    [u + name + DataSuffix, u + name + EndSuffix, u + name + SizeSuffix]
  }

  /** The string table: a NUL, then the three names, each NUL-terminated. */
  function StringTable(name: seq<byte>): seq<byte>
  {
    NameTable(GlobalNames(name))
  }

  /** The string indices the generator computes: 1, then
      `1 + len(name) + len("_data") + 1 + 1`, then that plus
      `len(name) + len("_end") + 1 + 1`. */
  function StrIndices(name: seq<byte>): (r: seq<nat>)
    ensures |r| == 3
  {
    var endStrx := 1 + |name| + |DataSuffix| + 1 + 1;
    var sizeStrx := endStrx + |name| + |EndSuffix| + 1 + 1;
    [1, endStrx, sizeStrx]
  }

  /** The computed indices are where the names start, and each name reads
      back from its index. */
  lemma {:induction false} StrIndicesAt(name: seq<byte>, k: nat)
    requires NoNul(name) && k < 3
    ensures StrIndices(name)[k] == NameOffset(GlobalNames(name), k)
    ensures CStr(StringTable(name), StrIndices(name)[k]) == GlobalNames(name)[k]
  {
    var names := GlobalNames(name);
    SuffixesClean();
    AsciiNoNul("_");
    assert |Ascii("_")| == 1;
    assert NameOffset(names, 0) == 1 by {
      assert Start(Terminated(names), 0) == 0;
    }
    NameOffsetNext(names, 0);
    NameOffsetNext(names, 1);
    assert NoNul(names[k]);
    NameTableAt(names, k);
  }

  /** The string table is 3 * len(name) + 21 bytes. */
  lemma {:induction false} StringTableLength(name: seq<byte>)
    ensures |StringTable(name)| == 3 * |name| + 21
  {
    var names := GlobalNames(name);
    SuffixesClean();
    assert |Ascii("_")| == 1;
    assert NameOffset(names, 0) == 1 by {
      assert Start(Terminated(names), 0) == 0;
    }
    NameOffsetNext(names, 0);
    NameOffsetNext(names, 1);
    NameOffsetNext(names, 2);
    ConcatPrefix(Terminated(names), 3);
    assert Terminated(names)[..3] == Terminated(names);
  }

  /** An external symbol defined in section 1. */
  function NlistRow(strx: nat, value: nat): seq<Val>
  {
    [N(strx), N(N_SECT_EXT), N(1), N(0), N(value)]
  }

  /** name_data at the start of the section, name_end and name_size at the
      end of the padded blob. */
  function SymbolRows(name: seq<byte>, aligned: nat): (rows: seq<seq<Val>>)
    ensures |rows| == 3
    ensures forall w :: RowsFit(NlistShape(w), rows)
  {
    var strx := StrIndices(name);
    [NlistRow(strx[0], 0), NlistRow(strx[1], aligned), NlistRow(strx[2], aligned)]
  }

  /** The three nlist records, one after another. */
  function SymbolTable(arch: Arch, name: seq<byte>, aligned: nat): (r: seq<byte>)
    ensures |r| == 3 * Size(NlistShape(WordSize(arch)))
  {
    var w := WordSize(arch);
    RecordsLength(NlistShape(w), SymbolRows(name, aligned));
    StrideProduct(3, Size(NlistShape(w)));
    Records(NlistShape(w), SymbolRows(name, aligned))
  }

  // ---------------------------------------------------------------------
  // The file
  // ---------------------------------------------------------------------

  /** `aligned_data_with_size`: the section contents. */
  function Combined(data: seq<byte>, alignment: nat, arch: Arch): (r: seq<byte>)
    requires alignment > 0 && |data| < Pow256(WordSize(arch))
    ensures |r| == |AlignData(data, alignment)| + WordSize(arch)
  {
    AlignData(data, alignment) + SizeConstant(|data|, arch)
  }

  /** The file offset of the symbol table: right after the section contents. */
  function SymOff(len: nat, alignment: nat, arch: Arch): nat
    requires alignment > 0
  {
    DataOffset(arch) + len + Padding(len, alignment) + WordSize(arch)
  }

  /** The file offset of the string table: right after the three records. */
  function StrOff(len: nat, alignment: nat, arch: Arch): nat
    requires alignment > 0
  {
    ShapeSizes(arch);
    SymOff(len, alignment, arch) + 3 * Size(NlistShape(WordSize(arch)))
  }

  /** True when every value the generator packs fits its field: the
      alignment exponent, stroff (and with it symoff and every size and
      address below it) and strsize fit 32 bits. */
  predicate Fits(len: nat, name: seq<byte>, alignment: nat, arch: Arch)
  {
    alignment > 0
    && BitLength(alignment) <= Pow256(4)
    && StrOff(len, alignment, arch) < Pow256(4)
    && |StringTable(name)| < Pow256(4)
  }

  /** The blob, padded and followed by its length, fits where it goes. */
  lemma {:induction false} DataFits(len: nat, name: seq<byte>, alignment: nat, arch: Arch)
    requires Fits(len, name, alignment, arch)
    ensures len < Pow256(WordSize(arch))
    ensures SymOff(len, alignment, arch) < Pow256(4)
  {
    Pow256Values();
    ShapeSizes(arch);
  }

  /** The file as laid out by the generator around a given segment command. */
  function Assemble(data: seq<byte>, name: seq<byte>, alignment: nat, arch: Arch, segmentCmd: seq<byte>): seq<byte>
    requires Fits(|data|, name, alignment, arch)
  {
    DataFits(|data|, name, alignment, arch);
    var comb := Combined(data, alignment, arch);
    var symoff := DataOffset(arch) + |comb|;
    var symtab := SymbolTable(arch, name, |AlignData(data, alignment)|);
    var strtab := StringTable(name);
    Pack(HeaderShape(WordSize(arch)), HeaderVals(arch))
    + segmentCmd
    + Pack(SymtabShape, SymtabVals(symoff, symoff + |symtab|, |strtab|))
    + comb
    + symtab
    + strtab
  }

  /** `MachOGenerator.generate` as written. */
  function EncodeAsWritten(data: seq<byte>, name: seq<byte>, alignment: nat, arch: Arch): seq<byte>
    requires Fits(|data|, name, alignment, arch)
  {
    DataFits(|data|, name, alignment, arch);
    Assemble(data, name, alignment, arch, SegmentCmdAsWritten(arch, |Combined(data, alignment, arch)|, alignment))
  }

  /** `MachOGenerator.generate` with the segment's fileoff patched in place. */
  function Encode(data: seq<byte>, name: seq<byte>, alignment: nat, arch: Arch): seq<byte>
    requires Fits(|data|, name, alignment, arch)
  {
    DataFits(|data|, name, alignment, arch);
    Assemble(data, name, alignment, arch, SegmentCmdFixed(arch, |Combined(data, alignment, arch)|, alignment))
  }
}
