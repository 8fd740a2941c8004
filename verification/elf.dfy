/** `ELFGenerator.generate`: a relocatable ELF object with six sections
    (NULL, .data, .rodata, .shstrtab, .symtab, .strtab), ELFCLASS64 for
    x86_64 and arm64, ELFCLASS32 for x86, little-endian throughout. */
module Elf {
  import opened Bytes
  import opened Layout
  import opened Inputs
  import opened Align

  /** e_machine: EM_X86_64, EM_AARCH64, EM_386. */
  function Machine(arch: Arch): nat
  {
    match arch
    case X86_64 => 0x3e
    case Arm64 => 0xb7
    case X86 => 0x03
  }

  /** EI_CLASS: 2 (64-bit) or 1 (32-bit). */
  function Class(arch: Arch): nat
  {
    if Is64(arch) then 2 else 1
  }

  const Magic: seq<byte> := [0x7f, 0x45, 0x4c, 0x46]

  /** `'<BBBB'`: EI_CLASS, EI_DATA, EI_VERSION, EI_OSABI. */
  const IdentShape: Shape := [Int(1), Int(1), Int(1), Int(1)]

  /** The rest of the file header after the 16 identification bytes:
      `'<HHIQQQIHHHHHH'` for w = 8, `'<HHIIIIIHHHHHH'` for w = 4. */
  function HeaderShape(w: nat): Shape
  {
    [Int(2), Int(2), Int(4), Int(w), Int(w), Int(w), Int(4),
     Int(2), Int(2), Int(2), Int(2), Int(2), Int(2)]
  }

  /** Index of e_shoff in HeaderShape. */
  const ShoffField: nat := 5

  function HeaderSize(arch: Arch): nat
  {
    if Is64(arch) then 64 else 52
  }

  function ShdrSize(arch: Arch): nat
  {
    if Is64(arch) then 64 else 40
  }

  /** e_type ET_REL, e_machine, e_version, e_entry, e_phoff, e_shoff, e_flags,
      e_ehsize, e_phentsize, e_phnum, e_shentsize, e_shnum (6), e_shstrndx (3). */
  function HeaderVals(arch: Arch, shoff: nat): seq<Val>
  {
    [N(1), N(Machine(arch)), N(1), N(0), N(0), N(shoff), N(0),
     N(HeaderSize(arch)), N(0), N(0), N(ShdrSize(arch)), N(6), N(3)]
  }

  function Ident(arch: Arch): seq<byte>
  {
    Magic + Pack(IdentShape, [N(Class(arch)), N(1), N(1), N(0)]) + Zeros(8)
  }

  /** The header as first built, with the header size standing in for e_shoff. */
  function HeaderAsBuilt(arch: Arch): (r: seq<byte>)
    ensures |r| == HeaderSize(arch)
  {
    ShapeSizes(WordSize(arch));
    Ident(arch) + Pack(HeaderShape(WordSize(arch)), HeaderVals(arch, HeaderSize(arch)))
  }

  /** e_ident is 16 bytes, the whole header 64 or 52. */
  lemma {:induction false} HeadLength(arch: Arch, shoff: nat)
    ensures |Ident(arch)| == 16
    ensures |Ident(arch) + Pack(HeaderShape(WordSize(arch)), HeaderVals(arch, shoff))| == HeaderSize(arch)
  {
    ShapeSizes(WordSize(arch));
  }

  /** Where `struct.pack_into` writes e_shoff. */
  function ShoffAt(arch: Arch): nat
  {
    if Is64(arch) then 40 else 32
  }

  // ---------------------------------------------------------------------
  // Sections
  // ---------------------------------------------------------------------

  const DataName: seq<byte> := Ascii(".data")
  const RodataName: seq<byte> := Ascii(".rodata")
  const ShstrtabName: seq<byte> := Ascii(".shstrtab")
  const SymtabName: seq<byte> := Ascii(".symtab")
  const StrtabName: seq<byte> := Ascii(".strtab")

  /** The names of sections 1 to 5, in section-index order. */
  const SectionNames: seq<seq<byte>> := [DataName, RodataName, ShstrtabName, SymtabName, StrtabName]

  /** The section-name string table. */
  function ShStrTab(): seq<byte>
  {
    NameTable(SectionNames)
  }

  /** The names of the three global symbols. */
  function SymbolNames(name: seq<byte>): seq<seq<byte>>
  {
    [name + DataSuffix, name + EndSuffix, name + SizeSuffix]
  }

  /** The symbol-name string table: name_data, name_end and name_size. */
  function StrTab(name: seq<byte>): seq<byte>
  {
    NameTable(SymbolNames(name))
  }

  /** The section names sit at the offsets 1, 7, 15, 25 and 33 that the
      section headers carry, and .shstrtab is 41 bytes long. */
  lemma {:induction false} ShStrTabLayout()
    ensures NameOffset(SectionNames, 0) == 1
    ensures NameOffset(SectionNames, 1) == 7
    ensures NameOffset(SectionNames, 2) == 15
    ensures NameOffset(SectionNames, 3) == 25
    ensures NameOffset(SectionNames, 4) == 33
    ensures |ShStrTab()| == 41
  {
    var names := SectionNames;
    assert Terminated(names)[..0] == [];
    NameOffsetNext(names, 0);
    NameOffsetNext(names, 1);
    NameOffsetNext(names, 2);
    NameOffsetNext(names, 3);
    NameOffsetNext(names, 4);
    assert Terminated(names)[..5] == Terminated(names);
    ConcatLength(Terminated(names));
  }

  /** The symbol names sit at 1, |name| + 7 and 2|name| + 12, and .strtab is
      3|name| + 18 bytes long. */
  lemma {:induction false} StrTabLayout(name: seq<byte>)
    ensures NameOffset(SymbolNames(name), 0) == 1
    ensures NameOffset(SymbolNames(name), 1) == |name| + 7
    ensures NameOffset(SymbolNames(name), 2) == 2 * |name| + 12
    ensures |StrTab(name)| == 3 * |name| + 18
  {
    var names := SymbolNames(name);
    assert Terminated(names)[..0] == [];
    NameOffsetNext(names, 0);
    NameOffsetNext(names, 1);
    NameOffsetNext(names, 2);
    assert Terminated(names)[..3] == Terminated(names);
    ConcatLength(Terminated(names));
  }

  /** A symbol record: `'<IBBHQQ'` (name, info, other, shndx, value, size) for
      w = 8 and `'<IIIBBH'` (name, value, size, info, other, shndx) for w = 4. */
  function SymShape(w: nat): Shape
  {
    if w == 8 then [Int(4), Int(1), Int(1), Int(2), Int(8), Int(8)]
    else [Int(4), Int(4), Int(4), Int(1), Int(1), Int(2)]
  }

  function SymRow(w: nat, name: nat, info: nat, other: nat, shndx: nat, value: nat, size: nat): seq<Val>
  {
    if w == 8 then [N(name), N(info), N(other), N(shndx), N(value), N(size)]
    else [N(name), N(value), N(size), N(info), N(other), N(shndx)]
  }

  const STT_SECTION: nat := 3
  /** STB_GLOBAL | STT_OBJECT */
  const GLOBAL_OBJECT: nat := 0x11

  /** The six symbols: NULL, the .data and .rodata section symbols,
      name_data at the start of .data, name_end at its end (`aligned` bytes
      in) and name_size at the start of .rodata, a word long. */
  function SymRows(arch: Arch, nameLen: nat, aligned: nat): seq<seq<Val>>
  {
    var w := WordSize(arch);
    var dataNameLen := nameLen + |DataSuffix|;
    var endNameLen := nameLen + |EndSuffix|;
    [SymRow(w, 0, 0, 0, 0, 0, 0),
     SymRow(w, 0, STT_SECTION, 0, 1, 0, 0),
     SymRow(w, 0, STT_SECTION, 0, 2, 0, 0),
     SymRow(w, 1, GLOBAL_OBJECT, 0, 1, 0, aligned),
     SymRow(w, 1 + dataNameLen + 1, GLOBAL_OBJECT, 0, 1, aligned, 0),
     SymRow(w, 1 + dataNameLen + 1 + endNameLen + 1, GLOBAL_OBJECT, 0, 2, 0, w)]
  }

  lemma {:induction false} SymRowsFit(arch: Arch, nameLen: nat, aligned: nat)
    ensures RowsFit(SymShape(WordSize(arch)), SymRows(arch, nameLen, aligned))
    ensures |SymRows(arch, nameLen, aligned)| == 6
  {
  }

  function SymTab(arch: Arch, nameLen: nat, aligned: nat): (r: seq<byte>)
    ensures |r| == 6 * Size(SymShape(WordSize(arch)))
  {
    SymRowsFit(arch, nameLen, aligned);
    RecordsLength(SymShape(WordSize(arch)), SymRows(arch, nameLen, aligned));
    StrideProduct(6, Size(SymShape(WordSize(arch))));
    Records(SymShape(WordSize(arch)), SymRows(arch, nameLen, aligned))
  }

  /** Bytes of the fixed-size parts: the header, the size constant, .shstrtab,
      six symbols and the 18 fixed bytes of .strtab. */
  function FixedBytes(arch: Arch): nat
  {
    if Is64(arch) then 64 + 8 + 41 + 6 * 24 + 18 else 52 + 4 + 41 + 6 * 16 + 18
  }

  /** e_shoff: the section header table follows the header and the six sections. */
  function ShOff(len: nat, nameLen: nat, alignment: nat, arch: Arch): nat
    requires alignment > 0
  {
    FixedBytes(arch) + len + Padding(len, alignment) + 3 * nameLen
  }

  /** Every value the generator packs fits its field: the largest offset
      (e_shoff) and sh_addralign fit a word, and the string-table offsets
      fit 32 bits. Otherwise `struct.pack` raises. */
  predicate Fits(len: nat, nameLen: nat, alignment: nat, arch: Arch)
  {
    alignment > 0
    && ShOff(len, nameLen, alignment, arch) < Pow256(WordSize(arch))
    && alignment < Pow256(WordSize(arch))
    && 2 * nameLen + 12 < Pow256(4)
  }

  /** The six section contents, in section-index order. */
  function Sections(data: seq<byte>, name: seq<byte>, alignment: nat, arch: Arch): (secs: seq<seq<byte>>)
    requires Fits(|data|, |name|, alignment, arch)
    ensures |secs| == 6
  {
    var aligned := AlignData(data, alignment);
    [[], aligned, SizeConstant(|data|, arch), ShStrTab(),
     SymTab(arch, |name|, |aligned|), StrTab(name)]
  }

  /** A section header: `'<IIQQQQIIQQ'` for w = 8 and ten `I`s for w = 4
      (name, type, flags, addr, offset, size, link, info, addralign, entsize). */
  function ShdrShape(w: nat): Shape
  {
    [Int(4), Int(4), Int(w), Int(w), Int(w), Int(w), Int(4), Int(4), Int(w), Int(w)]
  }

  /** `struct.calcsize` of the three record formats. */
  lemma {:induction false} ShapeSizes(w: nat)
    ensures Size(HeaderShape(w)) == 24 + 3 * w
    ensures Offset(HeaderShape(w), ShoffField) == 8 + 2 * w
    ensures HeaderShape(w)[ShoffField] == Int(w)
    ensures Size(ShdrShape(w)) == 16 + 6 * w
    ensures Size(SymShape(8)) == 24 && Size(SymShape(4)) == 16
  {
    HeaderShapeSize(w);
    ShdrShapeSize(w);
    SymShapeSizes();
  }

  lemma {:induction false} HeaderShapeSize(w: nat)
    ensures Size(HeaderShape(w)) == 24 + 3 * w
    ensures Offset(HeaderShape(w), ShoffField) == 8 + 2 * w
  {
    var h := HeaderShape(w);
    assert Offset(h, 1) == 2;
    assert Offset(h, 2) == 4;
    assert Offset(h, 3) == 8;
    assert Offset(h, 4) == 8 + w;
    assert Offset(h, 5) == 8 + 2 * w;
    assert Offset(h, 6) == 8 + 3 * w;
    assert Offset(h, 7) == 12 + 3 * w;
    assert Offset(h, 8) == 14 + 3 * w;
    assert Offset(h, 9) == 16 + 3 * w;
    assert Offset(h, 10) == 18 + 3 * w;
    assert Offset(h, 11) == 20 + 3 * w;
    assert Offset(h, 12) == 22 + 3 * w;
    assert Offset(h, 13) == 24 + 3 * w;
  }

  lemma {:induction false} ShdrShapeSize(w: nat)
    ensures Size(ShdrShape(w)) == 16 + 6 * w
  {
    var t := ShdrShape(w);
    assert Offset(t, 1) == 4;
    assert Offset(t, 2) == 8;
    assert Offset(t, 3) == 8 + w;
    assert Offset(t, 4) == 8 + 2 * w;
    assert Offset(t, 5) == 8 + 3 * w;
    assert Offset(t, 6) == 8 + 4 * w;
    assert Offset(t, 7) == 12 + 4 * w;
    assert Offset(t, 8) == 16 + 4 * w;
    assert Offset(t, 9) == 16 + 5 * w;
    assert Offset(t, 10) == 16 + 6 * w;
  }

  lemma {:induction false} SymShapeSizes()
    ensures Size(SymShape(8)) == 24 && Size(SymShape(4)) == 16
  {
    var s8 := SymShape(8);
    assert Offset(s8, 1) == 4;
    assert Offset(s8, 2) == 5;
    assert Offset(s8, 3) == 6;
    assert Offset(s8, 4) == 8;
    assert Offset(s8, 5) == 16;
    assert Offset(s8, 6) == 24;
    var s4 := SymShape(4);
    assert Offset(s4, 1) == 4;
    assert Offset(s4, 2) == 8;
    assert Offset(s4, 3) == 12;
    assert Offset(s4, 4) == 13;
    assert Offset(s4, 5) == 14;
    assert Offset(s4, 6) == 16;
  }

  const SHT_PROGBITS: nat := 1
  const SHT_SYMTAB: nat := 2
  const SHT_STRTAB: nat := 3

  /** The six section headers for sections at the given file offsets. */
  function ShdrRows(arch: Arch, offs: seq<nat>, secs: seq<seq<byte>>, alignment: nat): seq<seq<Val>>
    requires |offs| == 6 && |secs| == 6
  {
    var w := WordSize(arch);
    [[N(0), N(0), N(0), N(0), N(0), N(0), N(0), N(0), N(0), N(0)],
     [N(1), N(SHT_PROGBITS), N(3), N(0), N(offs[1]), N(|secs[1]|), N(0), N(0), N(alignment), N(0)],
     [N(7), N(SHT_PROGBITS), N(2), N(0), N(offs[2]), N(|secs[2]|), N(0), N(0), N(w), N(0)],
     [N(15), N(SHT_STRTAB), N(0), N(0), N(offs[3]), N(|secs[3]|), N(0), N(0), N(1), N(0)],
     [N(25), N(SHT_SYMTAB), N(0), N(0), N(offs[4]), N(|secs[4]|), N(5), N(3), N(w), N(Size(SymShape(w)))],
     [N(33), N(SHT_STRTAB), N(0), N(0), N(offs[5]), N(|secs[5]|), N(0), N(0), N(1), N(0)]]
  }

  lemma {:induction false} ShdrRowsFit(arch: Arch, offs: seq<nat>, secs: seq<seq<byte>>, alignment: nat)
    requires |offs| == 6 && |secs| == 6
    ensures RowsFit(ShdrShape(WordSize(arch)), ShdrRows(arch, offs, secs, alignment))
    ensures |ShdrRows(arch, offs, secs, alignment)| == 6
  {
  }

  /** Where each of six appended blocks starts, as running sums of lengths. */
  lemma {:induction false} SixStarts(secs: seq<seq<byte>>)
    requires |secs| == 6
    ensures Start(secs, 0) == 0
    ensures Start(secs, 1) == |secs[0]|
    ensures Start(secs, 2) == |secs[0]| + |secs[1]|
    ensures Start(secs, 3) == |secs[0]| + |secs[1]| + |secs[2]|
    ensures Start(secs, 4) == |secs[0]| + |secs[1]| + |secs[2]| + |secs[3]|
    ensures Start(secs, 5) == |secs[0]| + |secs[1]| + |secs[2]| + |secs[3]| + |secs[4]|
    ensures TotalLen(secs) == |secs[0]| + |secs[1]| + |secs[2]| + |secs[3]| + |secs[4]| + |secs[5]|
  {
    assert secs[..0] == [];
    StartNext(secs, 0);
    StartNext(secs, 1);
    StartNext(secs, 2);
    StartNext(secs, 3);
    StartNext(secs, 4);
    StartNext(secs, 5);
    assert secs[..6] == secs;
  }

  /** Where the section-offset loop leaves `offset`: after the last section.
      This is e_shoff. */
  function TableOffset(arch: Arch, secs: seq<seq<byte>>): nat
    requires |secs| == 6
  {
    RunningOffsets(HeaderSize(arch), secs)[5] + |secs[5]|
  }

  /** The section header table starts at ShOff: after the header and the six sections. */
  lemma {:induction false} SectionsLength(data: seq<byte>, name: seq<byte>, alignment: nat, arch: Arch)
    requires Fits(|data|, |name|, alignment, arch)
    ensures TableOffset(arch, Sections(data, name, alignment, arch)) == ShOff(|data|, |name|, alignment, arch)
  {
    var secs := Sections(data, name, alignment, arch);
    SymShapeSizes();
    ShStrTabLayout();
    StrTabLayout(name);
    SixStarts(secs);
  }

  /** `ELFGenerator.generate`: the six sections laid out after the header. */
  function Encode(data: seq<byte>, name: seq<byte>, alignment: nat, arch: Arch): (out: seq<byte>)
    requires Fits(|data|, |name|, alignment, arch)
  {
    SectionsLength(data, name, alignment, arch);
    Build(arch, Sections(data, name, alignment, arch), alignment)
  }

  /** The header with e_shoff patched in, the sections back to back, then the
      section header table; sh_addralign of .data is `alignment`. */
  function Build(arch: Arch, secs: seq<seq<byte>>, alignment: nat): (out: seq<byte>)
    requires |secs| == 6 && TableOffset(arch, secs) < Pow256(WordSize(arch))
  {
    Assemble(arch, secs, RunningOffsets(HeaderSize(arch), secs), TableOffset(arch, secs), alignment)
  }

  /** The output bytes given the sections, their offsets and e_shoff. */
  function Assemble(arch: Arch, secs: seq<seq<byte>>, offs: seq<nat>, shoff: nat, alignment: nat): (out: seq<byte>)
    requires |secs| == 6 && |offs| == 6 && shoff < Pow256(WordSize(arch))
  {
    var w := WordSize(arch);
    ShdrRowsFit(arch, offs, secs, alignment);
    ShapeSizes(w);
    var header := PokeLE(HeaderAsBuilt(arch), ShoffAt(arch), w, shoff);
    header + Concat(secs) + Records(ShdrShape(w), ShdrRows(arch, offs, secs, alignment))
  }

  lemma {:induction false} HeaderValsUpdate(arch: Arch, x: nat, y: nat)
    ensures HeaderVals(arch, x)[ShoffField := N(y)] == HeaderVals(arch, y)
  {
  }

  /** `struct.pack_into` of e_shoff changes that field and nothing else: the
      patched header is the header packed with the final offset. */
  lemma {:induction false} HeaderPatched(arch: Arch, shoff: nat)
    requires shoff < Pow256(WordSize(arch))
    ensures ShoffAt(arch) + WordSize(arch) <= HeaderSize(arch)
    ensures PokeLE(HeaderAsBuilt(arch), ShoffAt(arch), WordSize(arch), shoff)
         == Ident(arch) + Pack(HeaderShape(WordSize(arch)), HeaderVals(arch, shoff))
  {
    ShapeSizes(WordSize(arch));
    HeadLength(arch, HeaderSize(arch));
    PokeAfter(HeaderAsBuilt(arch), ShoffAt(arch), Ident(arch),
      Pack(HeaderShape(WordSize(arch)), HeaderVals(arch, HeaderSize(arch))),
      Offset(HeaderShape(WordSize(arch)), ShoffField), WordSize(arch), shoff);
    PokeField(HeaderShape(WordSize(arch)), HeaderVals(arch, HeaderSize(arch)), ShoffField, shoff);
    HeaderValsUpdate(arch, HeaderSize(arch), shoff);
  }

  lemma {:induction false} AssembleLayout(arch: Arch, secs: seq<seq<byte>>, offs: seq<nat>, shoff: nat, alignment: nat)
    requires |secs| == 6 && |offs| == 6 && shoff < Pow256(WordSize(arch))
    ensures var w := WordSize(arch);
      Assemble(arch, secs, offs, shoff, alignment)
      == Ident(arch) + Pack(HeaderShape(w), HeaderVals(arch, shoff)) + Concat(secs)
         + Records(ShdrShape(w), ShdrRows(arch, offs, secs, alignment))
      && |Ident(arch) + Pack(HeaderShape(w), HeaderVals(arch, shoff))| == HeaderSize(arch)
  {
    HeaderPatched(arch, shoff);
  }

  /** The file as the ELF format lays it out: the header carrying e_shoff,
      the six sections, and the section header table. */
  function Image(arch: Arch, secs: seq<seq<byte>>, alignment: nat): seq<byte>
    requires |secs| == 6
  {
    var w := WordSize(arch);
    ShdrRowsFit(arch, RunningOffsets(HeaderSize(arch), secs), secs, alignment);
    Ident(arch) + Pack(HeaderShape(w), HeaderVals(arch, TableOffset(arch, secs))) + Concat(secs)
    + Records(ShdrShape(w), ShdrRows(arch, RunningOffsets(HeaderSize(arch), secs), secs, alignment))
  }

  /** Build patches e_shoff into the header and so produces the Image, whose
      section header table starts at e_shoff. */
  lemma {:induction false} BuildLayout(arch: Arch, secs: seq<seq<byte>>, alignment: nat)
    requires |secs| == 6 && TableOffset(arch, secs) < Pow256(WordSize(arch))
    ensures var w := WordSize(arch);
      var pre := Ident(arch) + Pack(HeaderShape(w), HeaderVals(arch, TableOffset(arch, secs))) + Concat(secs);
      Build(arch, secs, alignment) == Image(arch, secs, alignment)
      && |pre| == TableOffset(arch, secs)
  {
    var offs := RunningOffsets(HeaderSize(arch), secs);
    ShdrRowsFit(arch, offs, secs, alignment);
    AssembleLayout(arch, secs, offs, TableOffset(arch, secs), alignment);
    TableAfterSections(arch, secs);
  }

  /** The section header table follows the header and the six sections. */
  lemma {:induction false} TableAfterSections(arch: Arch, secs: seq<seq<byte>>)
    requires |secs| == 6
    ensures TableOffset(arch, secs) == HeaderSize(arch) + |Concat(secs)|
  {
    StartNext(secs, 5);
    assert secs[..6] == secs;
    ConcatLength(secs);
  }

  /** The generated file is the six sections laid out by Build, with the
      section header table at ShOff. */
  lemma {:induction false} EncodeLayout(data: seq<byte>, name: seq<byte>, alignment: nat, arch: Arch)
    requires Fits(|data|, |name|, alignment, arch)
    ensures var secs := Sections(data, name, alignment, arch);
      TableOffset(arch, secs) == ShOff(|data|, |name|, alignment, arch)
      && Encode(data, name, alignment, arch) == Build(arch, secs, alignment)
  {
    SectionsLength(data, name, alignment, arch);
  }

  /** A built file is the header carrying e_shoff, the six sections and the
      section header table. */
  lemma {:induction false} ImageParts(arch: Arch, secs: seq<seq<byte>>, alignment: nat)
      returns (head: seq<byte>, recs: seq<byte>)
    requires |secs| == 6 && TableOffset(arch, secs) < Pow256(WordSize(arch))
    ensures Build(arch, secs, alignment) == head + Concat(secs) + recs
    ensures TableOffset(arch, secs) == |head| + |Concat(secs)| && |head| == HeaderSize(arch)
    ensures ShoffAt(arch) + WordSize(arch) <= |head| && ReadLE(head, ShoffAt(arch), WordSize(arch)) == TableOffset(arch, secs)
    ensures RowsFit(ShdrShape(WordSize(arch)), ShdrRows(arch, RunningOffsets(HeaderSize(arch), secs), secs, alignment))
    ensures recs == Records(ShdrShape(WordSize(arch)), ShdrRows(arch, RunningOffsets(HeaderSize(arch), secs), secs, alignment))
  {
    var w := WordSize(arch);
    head := Ident(arch) + Pack(HeaderShape(w), HeaderVals(arch, TableOffset(arch, secs)));
    ShdrRowsFit(arch, RunningOffsets(HeaderSize(arch), secs), secs, alignment);
    recs := Records(ShdrShape(w), ShdrRows(arch, RunningOffsets(HeaderSize(arch), secs), secs, alignment));
    BuildLayout(arch, secs, alignment);
    TableAfterSections(arch, secs);
    HeaderPatched(arch, TableOffset(arch, secs));
  }

  /** Each block sits at its running offset after the header. */
  lemma {:induction false} BlocksAt(arch: Arch, head: seq<byte>, secs: seq<seq<byte>>, recs: seq<byte>)
    requires |head| == HeaderSize(arch)
    ensures SectionsAtOffsets(head + Concat(secs) + recs, arch, secs)
  {
    var out := head + Concat(secs) + recs;
    var offs := RunningOffsets(HeaderSize(arch), secs);
    forall k | 0 <= k < |secs|
      ensures offs[k] + |secs[k]| <= |out| && out[offs[k]..offs[k] + |secs[k]|] == secs[k]
    {
      ConcatAt(secs, k);
      SliceAt(head, Concat(secs), recs, Start(secs, k), secs[k]);
    }
  }

  /** What a reader finds in an ELF file laid out from these sections:
      e_shoff in the header, the section header table from e_shoff to the
      end of the file, and every section's bytes at the offset its section
      header records. */
  predicate LaidOut(out: seq<byte>, arch: Arch, secs: seq<seq<byte>>, alignment: nat)
    requires |secs| == 6
  {
    ShoffRecorded(out, arch, secs) && TableAtShoff(out, arch, secs, alignment) && SectionsAtOffsets(out, arch, secs)
  }

  /** The header's e_shoff field holds where the section header table starts. */
  predicate ShoffRecorded(out: seq<byte>, arch: Arch, secs: seq<seq<byte>>)
    requires |secs| == 6
  {
    var shoff := TableOffset(arch, secs);
    ShoffAt(arch) + WordSize(arch) <= shoff <= |out| && ReadLE(out, ShoffAt(arch), WordSize(arch)) == shoff
  }

  /** From e_shoff to the end of the file: the six section headers. */
  predicate TableAtShoff(out: seq<byte>, arch: Arch, secs: seq<seq<byte>>, alignment: nat)
    requires |secs| == 6
  {
    var rows := ShdrRows(arch, RunningOffsets(HeaderSize(arch), secs), secs, alignment);
    TableOffset(arch, secs) <= |out| && RowsFit(ShdrShape(WordSize(arch)), rows)
    && out[TableOffset(arch, secs)..] == Records(ShdrShape(WordSize(arch)), rows)
  }

  /** Every section's bytes at the offset its section header records. */
  predicate SectionsAtOffsets(out: seq<byte>, arch: Arch, secs: seq<seq<byte>>)
  {
    var offs := RunningOffsets(HeaderSize(arch), secs);
    forall k :: 0 <= k < |secs| ==> offs[k] + |secs[k]| <= |out| && out[offs[k]..offs[k] + |secs[k]|] == secs[k]
  }

  /** The header, the sections and the table, put together, are laid out. */
  lemma {:induction false} PartsLaidOut(arch: Arch, secs: seq<seq<byte>>, alignment: nat, head: seq<byte>, recs: seq<byte>)
    requires |secs| == 6
    requires TableOffset(arch, secs) == |head| + |Concat(secs)| && |head| == HeaderSize(arch)
    requires ShoffAt(arch) + WordSize(arch) <= |head| && ReadLE(head, ShoffAt(arch), WordSize(arch)) == TableOffset(arch, secs)
    requires RowsFit(ShdrShape(WordSize(arch)), ShdrRows(arch, RunningOffsets(HeaderSize(arch), secs), secs, alignment))
    requires recs == Records(ShdrShape(WordSize(arch)), ShdrRows(arch, RunningOffsets(HeaderSize(arch), secs), secs, alignment))
    ensures LaidOut(head + Concat(secs) + recs, arch, secs, alignment)
  {
    HeadRead(head, Concat(secs), recs, ShoffAt(arch), WordSize(arch));
    TailOf(head, Concat(secs), recs);
    BlocksAt(arch, head, secs, recs);
  }

  /** A field of the first part reads the same in the whole buffer. */
  lemma {:induction false} HeadRead(head: seq<byte>, mid: seq<byte>, post: seq<byte>, off: nat, w: nat)
    requires off + w <= |head|
    ensures ReadLE(head + mid + post, off, w) == ReadLE(head, off, w)
  {
    assert (head + mid + post)[off..off + w] == head[off..off + w];
  }

  /** The last part of a buffer is what follows the first two. */
  lemma {:induction false} TailOf(head: seq<byte>, mid: seq<byte>, post: seq<byte>)
    ensures (head + mid + post)[|head| + |mid|..] == post
  {
  }

  /** A built file is laid out as its section headers say. */
  lemma {:induction false} ImageLayout(arch: Arch, secs: seq<seq<byte>>, alignment: nat)
    requires |secs| == 6 && TableOffset(arch, secs) < Pow256(WordSize(arch))
    ensures LaidOut(Build(arch, secs, alignment), arch, secs, alignment)
  {
    var head, recs := ImageParts(arch, secs, alignment);
    PartsLaidOut(arch, secs, alignment, head, recs);
  }

  /** The generated ELF file carries e_shoff = ShOff in its header, holds
      the six section headers from e_shoff to its end, and holds each
      section's contents at the offset its section header records. */
  lemma {:induction false} FileLayout(data: seq<byte>, name: seq<byte>, alignment: nat, arch: Arch)
    requires Fits(|data|, |name|, alignment, arch)
    ensures TableOffset(arch, Sections(data, name, alignment, arch)) == ShOff(|data|, |name|, alignment, arch)
    ensures LaidOut(Encode(data, name, alignment, arch), arch, Sections(data, name, alignment, arch), alignment)
  {
    EncodeLayout(data, name, alignment, arch);
    ImageLayout(arch, Sections(data, name, alignment, arch), alignment);
  }
}
