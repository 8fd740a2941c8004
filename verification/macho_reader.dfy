/** A reader for Mach-O objects, the partner of `MachO.Encode`: it picks
    the header by its magic, walks the load commands by their sizes, reads
    every segment with its sections and the symbol table with its string
    table the way a linker does. `RoundTrip` shows that it recovers from the
    generated file the segment, section and symbols the generator means to
    emit; `AsWrittenMisplaced` shows what it recovers from the file as the
    generator writes it. */
module MachOReader {
  import opened Bytes
  import opened Layout
  import opened Inputs
  import opened Align
  import opened MachO

  datatype Section = Section(name: seq<byte>, segment: seq<byte>, addr: nat, offset: nat,
                             content: seq<byte>, align: nat, flags: nat)

  datatype Segment = Segment(name: seq<byte>, vmaddr: nat, vmsize: nat, fileoff: nat, filesize: nat,
                             maxprot: nat, initprot: nat, flags: nat, sections: seq<Section>)

  datatype Symbol = Symbol(name: seq<byte>, kind: nat, section: nat, desc: nat, value: nat)

  datatype Object = Object(cputype: nat, cpusubtype: nat, filetype: nat, flags: nat,
                           segments: seq<Segment>, symbols: seq<Symbol>)

  /** A load command: its kind, where it starts and its cmdsize. */
  datatype Command = Command(cmd: nat, at: nat, size: nat)

  /** `n` load commands from byte `at` on, each found cmdsize bytes after the
      previous one; None when one runs past the end of the file or declares
      fewer than the 8 bytes of cmd and cmdsize. */
  function Commands(out: seq<byte>, at: nat, n: nat): Option<seq<Command>>
    decreases n
  {
    if n == 0 then Some([])
    else if at + 8 > |out| then None
    else
      var size := ReadLE(out, at + 4, 4);
      if size < 8 || at + size > |out| then None
      else match Commands(out, at + size, n - 1)
        case None => None
        case Some(rest) => Some([Command(ReadLE(out, at, 4), at, size)] + rest)
  }

  /** A section record whose contents lie inside the file. */
  predicate InFile(out: seq<byte>, row: seq<Val>)
  {
    Num(row, 4) + Num(row, 3) <= |out|
  }

  function SectionOf(out: seq<byte>, row: seq<Val>): Section
    requires InFile(out, row)
  {
    Section(CStr(Text(row, 0), 0), CStr(Text(row, 1), 0), Num(row, 2), Num(row, 4),
            out[Num(row, 4)..Num(row, 4) + Num(row, 3)], Num(row, 5), Num(row, 8))
  }

  function SectionList(out: seq<byte>, rows: seq<seq<Val>>): (r: seq<Section>)
    requires forall i :: 0 <= i < |rows| ==> InFile(out, rows[i])
    ensures |r| == |rows|
  {
    seq(|rows|, i requires 0 <= i < |rows| => SectionOf(out, rows[i]))
  }

  function SegmentOf(sv: seq<Val>, sections: seq<Section>): Segment
  {
    Segment(CStr(Text(sv, 2), 0), Num(sv, VmaddrField), Num(sv, VmsizeField), Num(sv, FileoffField),
            Num(sv, FilesizeField), Num(sv, 7), Num(sv, 8), Num(sv, 10), sections)
  }

  /** The segment command at `at` and the nsects section records after it. */
  function SegmentAt(out: seq<byte>, w: nat, at: nat): Option<Segment>
  {
    match UnpackAt(SegmentShape(w), out, at)
    case None => None
    case Some(sv) =>
      match ReadTable(SectionShape(w), out, at + Size(SegmentShape(w)), Num(sv, NsectsField))
      case None => None
      case Some(rows) =>
        if !(forall i :: 0 <= i < |rows| ==> InFile(out, rows[i])) then None
        else Some(SegmentOf(sv, SectionList(out, rows)))
  }

  /** LC_SEGMENT_64 in a 64-bit file, LC_SEGMENT in a 32-bit one. */
  function SegmentKind(w: nat): nat
  {
    if w == 8 then 0x19 else 1
  }

  /** Every segment command, in order. */
  function Segments(out: seq<byte>, w: nat, cmds: seq<Command>): Option<seq<Segment>>
    decreases |cmds|
  {
    if cmds == [] then Some([])
    else match Segments(out, w, cmds[1..])
      case None => None
      case Some(rest) =>
        if cmds[0].cmd != SegmentKind(w) then Some(rest)
        else match SegmentAt(out, w, cmds[0].at)
          case None => None
          case Some(seg) => Some([seg] + rest)
  }

  /** Where the first LC_SYMTAB command starts. */
  function FindSymtab(cmds: seq<Command>): Option<nat>
    decreases |cmds|
  {
    if cmds == [] then None
    else if cmds[0].cmd == LC_SYMTAB then Some(cmds[0].at)
    else FindSymtab(cmds[1..])
  }

  function SymbolOf(strtab: seq<byte>, row: seq<Val>): Symbol
  {
    Symbol(CStr(strtab, Num(row, 0)), Num(row, 1), Num(row, 2), Num(row, 3), Num(row, 4))
  }

  function SymbolList(strtab: seq<byte>, rows: seq<seq<Val>>): (r: seq<Symbol>)
    ensures |r| == |rows|
  {
    seq(|rows|, i requires 0 <= i < |rows| => SymbolOf(strtab, rows[i]))
  }

  /** Reads a 64-bit file (MH_MAGIC_64) or a 32-bit one (MH_MAGIC); None
      for any other magic or when a part lies outside the file. */
  function Read(out: seq<byte>): Option<Object>
  {
    if |out| < 4 then None
    else
      var magic := ReadLE(out, 0, 4);
      if magic == 0xFEED_FACF then ReadHeader(out, 8)
      else if magic == 0xFEED_FACE then ReadHeader(out, 4)
      else None
  }

  /** The header, then ncmds load commands right after it. */
  function ReadHeader(out: seq<byte>, w: nat): Option<Object>
  {
    match UnpackAt(HeaderShape(w), out, 0)
    case None => None
    case Some(h) =>
      match Commands(out, Size(HeaderShape(w)), Num(h, 4))
      case None => None
      case Some(cmds) => ReadCommands(out, w, h, cmds)
  }

  /** The segments, and the symbol table of the first LC_SYMTAB. */
  function ReadCommands(out: seq<byte>, w: nat, h: seq<Val>, cmds: seq<Command>): Option<Object>
  {
    match Segments(out, w, cmds)
    case None => None
    case Some(segs) =>
      match FindSymtab(cmds)
      case None => None
      case Some(at) => ReadSymtab(out, w, h, segs, at)
  }

  /** nsyms records at symoff, named from the strsize bytes at stroff. */
  function ReadSymtab(out: seq<byte>, w: nat, h: seq<Val>, segs: seq<Segment>, at: nat): Option<Object>
  {
    match UnpackAt(SymtabShape, out, at)
    case None => None
    case Some(st) =>
      if Num(st, 4) + Num(st, 5) > |out| then None
      else match ReadTable(NlistShape(w), out, Num(st, 2), Num(st, 3))
        case None => None
        case Some(rows) =>
          Some(Object(Num(h, 1), Num(h, 2), Num(h, 3), Num(h, 6), segs,
                      SymbolList(out[Num(st, 4)..Num(st, 4) + Num(st, 5)], rows)))
  }

  // ---------------------------------------------------------------------
  // What the generator means to emit
  // ---------------------------------------------------------------------

  /** A section lies inside its segment's part of the file. */
  predicate InSegment(seg: Segment, sec: Section)
  {
    seg.fileoff <= sec.offset && sec.offset + |sec.content| <= seg.fileoff + seg.filesize
  }

  /** The three external symbols: name_data at the start of section 1,
      name_end and name_size `end` bytes in. */
  function Globals(name: seq<byte>, end: nat): (r: seq<Symbol>)
    ensures |r| == 3
  {
    var names := GlobalNames(name);
    [Symbol(names[0], N_SECT_EXT, 1, 0, 0),
     Symbol(names[1], N_SECT_EXT, 1, 0, end),
     Symbol(names[2], N_SECT_EXT, 1, 0, end)]
  }

  /** The object the generator means to emit: the target's CPU, an
      MH_OBJECT with subsections via symbols, one __TEXT segment mapping
      exactly the bytes of its one __const section, which holds the padded
      blob and then its length, aligned as requested; name_data at the start
      of the section, name_end and name_size at the end of the padded blob,
      where the length is. */
  function Expected(data: seq<byte>, name: seq<byte>, alignment: nat, arch: Arch): (o: Object)
    requires Fits(|data|, name, alignment, arch)
    ensures |o.segments| == 1 && |o.segments[0].sections| == 1 && |o.symbols| == 3
    ensures var seg := o.segments[0];
      InSegment(seg, seg.sections[0]) && seg.fileoff == seg.sections[0].offset
      && seg.filesize == seg.vmsize == |seg.sections[0].content|
    ensures var body := o.segments[0].sections[0].content;
      |data| <= |body| && body[..|data|] == data
    ensures var body := o.segments[0].sections[0].content;
      o.symbols[1].value == o.symbols[2].value
      && o.symbols[2].value + WordSize(arch) == |body|
      && o.symbols[2].value % alignment == 0
      && FromLE(body[o.symbols[2].value..]) == |data|
    ensures var body := o.segments[0].sections[0].content;
      o.symbols[2].value == |AlignData(data, alignment)|
      && (forall i :: |data| <= i < o.symbols[2].value ==> body[i] == 0)
    ensures o.symbols[0].name == Ascii("_") + name + DataSuffix && o.symbols[0].value == 0
    ensures o.symbols[1].name == Ascii("_") + name + EndSuffix
    ensures o.symbols[2].name == Ascii("_") + name + SizeSuffix
    ensures IsPowerOfTwo(alignment) ==> Pow2(o.segments[0].sections[0].align) == alignment
  {
    DataFits(|data|, name, alignment, arch);
    var aligned := AlignData(data, alignment);
    var comb := Combined(data, alignment, arch);
    assert comb[..|data|] == aligned[..|data|];
    assert comb[|aligned|..] == SizeConstant(|data|, arch);
    assert IsPowerOfTwo(alignment) ==> Pow2(AlignField(alignment)) == alignment by {
      if IsPowerOfTwo(alignment) {
        AlignFieldLog2(alignment);
      }
    }
    Object(CpuType(arch), CpuSubtype(arch), MH_OBJECT, MH_SUBSECTIONS_VIA_SYMBOLS,
           [ExpectedSegment(arch, comb, alignment)], Globals(name, |aligned|))
  }

  /** The `__TEXT` segment the generator means to emit: it maps exactly its
      one `__const` section, which holds the contents at data_offset. */
  function ExpectedSegment(arch: Arch, comb: seq<byte>, alignment: nat): Segment
  {
    Segment(Ascii("__TEXT"), 0, |comb|, DataOffset(arch), |comb|, 7, 3, 0, [ConstSection(arch, comb, alignment)])
  }

  // ---------------------------------------------------------------------
  // Reading back the parts of a file laid out like the generator's
  // ---------------------------------------------------------------------

  /** A file laid out as the generator lays it out, around any segment
      command values, section record and contents. */
  function Image(arch: Arch, segv: seq<Val>, secv: seq<Val>, comb: seq<byte>, symtab: seq<byte>, strtab: seq<byte>): seq<byte>
    requires |segv| == |SegmentShape(WordSize(arch))| && |secv| == |SectionShape(WordSize(arch))|
  {
    var w := WordSize(arch);
    Pack(HeaderShape(w), HeaderVals(arch)) + (Pack(SegmentShape(w), segv) + Pack(SectionShape(w), secv))
    + Pack(SymtabShape, ImageSymtab(arch, comb, symtab, strtab)) + comb + symtab + strtab
  }

  /** The symtab command of such a file: the symbols right after the
      contents, the strings right after the symbols. */
  function ImageSymtab(arch: Arch, comb: seq<byte>, symtab: seq<byte>, strtab: seq<byte>): seq<Val>
  {
    var symoff := DataOffset(arch) + |comb|;
    SymtabVals(symoff, symoff + |symtab|, |strtab|)
  }

  /** Two load commands one after the other are walked as such. */
  lemma {:induction false} TwoCommands(out: seq<byte>, pre: seq<byte>, c1: seq<byte>, c2: seq<byte>, post: seq<byte>)
    requires out == pre + c1 + c2 + post
    requires 8 <= |c1| < Pow256(4) && 8 <= |c2| < Pow256(4)
    requires ReadLE(c1, 4, 4) == |c1| && ReadLE(c2, 4, 4) == |c2|
    ensures Commands(out, |pre|, 2)
         == Some([Command(ReadLE(c1, 0, 4), |pre|, |c1|), Command(ReadLE(c2, 0, 4), |pre + c1|, |c2|)])
  {
    var a := |pre|;
    var b := a + |c1|;
    assert out == pre + c1 + (c2 + post);
    ReadInside(pre, c1, c2 + post, 0, 4);
    ReadInside(pre, c1, c2 + post, 4, 4);
    ReadInside(pre + c1, c2, post, 0, 4);
    ReadInside(pre + c1, c2, post, 4, 4);
    assert Commands(out, b + |c2|, 0) == Some([]);
    assert b + 8 <= |out|;
    assert ReadLE(out, b + 4, 4) == |c2|;
    assert ReadLE(out, b, 4) == ReadLE(c2, 0, 4);
    var second := Command(ReadLE(c2, 0, 4), b, |c2|);
    assert [second] + [] == [second];
    assert Commands(out, b, 1) == Some([Command(ReadLE(c2, 0, 4), b, |c2|)]);
    assert a + 8 <= |out| && ReadLE(out, a + 4, 4) == |c1| && ReadLE(out, a, 4) == ReadLE(c1, 0, 4);
    var first := Command(ReadLE(c1, 0, 4), a, |c1|);
    assert a + ReadLE(out, a + 4, 4) == b;
    assert [first] + [second] == [first, second];
  }

  /** The segment command starts with its kind and cmdsize. */
  lemma {:induction false} SegmentCmdFields(arch: Arch, segv: seq<Val>, secv: seq<Val>)
    requires AllConform(SegmentShape(WordSize(arch)), segv) && |secv| == |SectionShape(WordSize(arch))|
    ensures var c := Pack(SegmentShape(WordSize(arch)), segv) + Pack(SectionShape(WordSize(arch)), secv);
      |c| >= 8 && ReadLE(c, 0, 4) == Num(segv, 0) && ReadLE(c, 4, 4) == Num(segv, 1)
  {
    var w := WordSize(arch);
    LeadingWords(SegmentShape(w), segv, Pack(SectionShape(w), secv));
  }

  /** The symtab command starts with its kind and cmdsize. */
  lemma {:induction false} SymtabCmdFields(stv: seq<Val>)
    requires AllConform(SymtabShape, stv)
    ensures var c := Pack(SymtabShape, stv);
      |c| == 24 && ReadLE(c, 0, 4) == Num(stv, 0) && ReadLE(c, 4, 4) == Num(stv, 1)
  {
    assert Offset(SymtabShape, 6) == 24;
    assert Pack(SymtabShape, stv) + [] == Pack(SymtabShape, stv);
    LeadingWords(SymtabShape, stv, []);
  }

  /** Read assembles the object from the parts it finds: the magic picks
      the word size, ReadHeader finds the header and the commands,
      ReadCommands the segments and the symtab command, ReadSymtab the
      symbols. */
  lemma {:induction false} ReadOfMagic(out: seq<byte>, w: nat, obj: Object)
    requires |out| >= 4 && w in {8, 4}
    requires ReadLE(out, 0, 4) == if w == 8 then 0xFEED_FACF else 0xFEED_FACE
    requires ReadHeader(out, w) == Some(obj)
    ensures Read(out) == Some(obj)
  {
  }

  lemma {:induction false} ReadHeaderOfParts(out: seq<byte>, w: nat, h: seq<Val>, cmds: seq<Command>, obj: Object)
    requires UnpackAt(HeaderShape(w), out, 0) == Some(h)
    requires Commands(out, Size(HeaderShape(w)), Num(h, 4)) == Some(cmds)
    requires ReadCommands(out, w, h, cmds) == Some(obj)
    ensures ReadHeader(out, w) == Some(obj)
  {
  }

  lemma {:induction false} ReadCommandsOfParts(out: seq<byte>, w: nat, h: seq<Val>, cmds: seq<Command>, segs: seq<Segment>, at: nat, obj: Object)
    requires Segments(out, w, cmds) == Some(segs)
    requires FindSymtab(cmds) == Some(at)
    requires ReadSymtab(out, w, h, segs, at) == Some(obj)
    ensures ReadCommands(out, w, h, cmds) == Some(obj)
  {
  }

  lemma {:induction false} ReadSymtabOfParts(out: seq<byte>, w: nat, h: seq<Val>, segs: seq<Segment>, at: nat,
                          st: seq<Val>, rows: seq<seq<Val>>, strtab: seq<byte>)
    requires UnpackAt(SymtabShape, out, at) == Some(st)
    requires Num(st, 4) + Num(st, 5) <= |out| && out[Num(st, 4)..Num(st, 4) + Num(st, 5)] == strtab
    requires ReadTable(NlistShape(w), out, Num(st, 2), Num(st, 3)) == Some(rows)
    ensures ReadSymtab(out, w, h, segs, at)
         == Some(Object(Num(h, 1), Num(h, 2), Num(h, 3), Num(h, 6), segs, SymbolList(strtab, rows)))
  {
  }

  /** A segment command followed by a symtab command: the reader finds the
      one segment and the symbol table. */
  lemma {:induction false} SegmentThenSymtab(out: seq<byte>, w: nat, cmds: seq<Command>, seg: Segment)
    requires |cmds| == 2 && cmds[0].cmd == SegmentKind(w) && cmds[1].cmd == LC_SYMTAB
    requires SegmentAt(out, w, cmds[0].at) == Some(seg)
    ensures Segments(out, w, cmds) == Some([seg])
    ensures FindSymtab(cmds) == Some(cmds[1].at)
  {
    assert cmds[1..][1..] == [];
    assert Segments(out, w, cmds[1..]) == Some([]);
    assert [seg] + [] == [seg];
  }

  /** A segment command with one section record whose contents are in the file. */
  lemma {:induction false} SegmentOfParts(out: seq<byte>, w: nat, at: nat, sv: seq<Val>, secv: seq<Val>)
    requires SegmentRecordsAt(out, w, at, sv, secv) && Num(sv, NsectsField) == 1
    ensures SegmentAt(out, w, at) == Some(SegmentOf(sv, [SectionOf(out, secv)]))
  {
    assert SectionList(out, [secv]) == [SectionOf(out, secv)];
  }

  // ---------------------------------------------------------------------
  // The parts of an image
  // ---------------------------------------------------------------------

  /** A record of fitting values at byte |pre| reads back, and so does its
      first field. */
  lemma {:induction false} RecordAt(out: seq<byte>, pre: seq<byte>, shape: Shape, vals: seq<Val>, post: seq<byte>)
    requires AllConform(shape, vals) && |shape| > 0 && shape[0] == Int(4)
    requires out == pre + Pack(shape, vals) + post
    ensures UnpackAt(shape, out, |pre|) == Some(vals)
    ensures |pre| + 4 <= |out| && ReadLE(out, |pre|, 4) == vals[0].n
  {
    UnpackAtConforming(out, |pre|, pre, shape, vals, post);
    assert Conforms(shape[0], vals[0]);
    PackedField(shape, vals, 0);
    assert Offset(shape, 0) == 0;
    ReadWithin(out, pre, Pack(shape, vals), post, 0, 4, vals[0].n);
  }

  lemma {:induction false} HeaderValsConform(arch: Arch)
    ensures AllConform(HeaderShape(WordSize(arch)), HeaderVals(arch))
    ensures HeaderVals(arch)[0] == N(Magic(arch)) && Num(HeaderVals(arch), 4) == 2
    ensures HeaderShape(WordSize(arch))[0] == Int(4)
    ensures var h := HeaderVals(arch);
      Num(h, 1) == CpuType(arch) && Num(h, 2) == CpuSubtype(arch) && Num(h, 3) == MH_OBJECT
      && Num(h, 6) == MH_SUBSECTIONS_VIA_SYMBOLS
  {
    Pow256Values();
  }

  /** The header is found at the start, under its magic. */
  lemma {:induction false} HeaderOfImage(arch: Arch, rest: seq<byte>)
    ensures var out := Pack(HeaderShape(WordSize(arch)), HeaderVals(arch)) + rest;
      |out| >= 4 && ReadLE(out, 0, 4) == Magic(arch)
      && UnpackAt(HeaderShape(WordSize(arch)), out, 0) == Some(HeaderVals(arch))
  {
    var w := WordSize(arch);
    var hd := Pack(HeaderShape(w), HeaderVals(arch));
    assert hd + rest == [] + hd + rest;
    HeaderValsConform(arch);
    RecordAt(hd + rest, [], HeaderShape(w), HeaderVals(arch), rest);
  }

  /** What the segment and section records must hold for the reader to
      find the segment command with its one section. */
  predicate SegmentRecords(arch: Arch, segv: seq<Val>, secv: seq<Val>)
  {
    var w := WordSize(arch);
    AllConform(SegmentShape(w), segv) && AllConform(SectionShape(w), secv)
    && segv[0] == N(SegmentCmd(arch)) && segv[1] == N(SegmentCmdSize(arch)) && segv[NsectsField] == N(1)
  }

  /** A one-record table is the record. */
  lemma {:induction false} OneRecordTable(out: seq<byte>, pre: seq<byte>, shape: Shape, vals: seq<Val>, post: seq<byte>)
    requires AllConform(shape, vals)
    requires out == pre + Pack(shape, vals) + post
    ensures ReadTable(shape, out, |pre|, 1) == Some([vals])
  {
    assert RowsFit(shape, [vals]);
    assert PackedRows(shape, [vals]) == [Pack(shape, vals)];
    ConcatOne(Pack(shape, vals));
    ReadTableRecords(out, pre, shape, [vals], post);
    NormalRowsConforming(shape, [vals]);
  }

  /** The symtab command at byte |front|. */
  lemma {:induction false} SymtabCmdOfImage(front: seq<byte>, stv: seq<Val>, rest: seq<byte>)
    requires AllConform(SymtabShape, stv)
    ensures UnpackAt(SymtabShape, front + Pack(SymtabShape, stv) + rest, |front|) == Some(stv)
  {
    UnpackAtConforming(front + Pack(SymtabShape, stv) + rest, |front|, front, SymtabShape, stv, rest);
  }

  /** The symbol records after the contents. */
  lemma {:induction false} SymbolsOfImage(front: seq<byte>, shape: Shape, rows: seq<seq<Val>>, strtab: seq<byte>)
    requires forall k :: 0 <= k < |rows| ==> AllConform(shape, rows[k])
    ensures RowsFit(shape, rows)
    ensures ReadTable(shape, front + Records(shape, rows) + strtab, |front|, |rows|) == Some(rows)
  {
    NormalRowsConforming(shape, rows);
    ReadTableRecords(front + Records(shape, rows) + strtab, front, shape, rows, strtab);
  }

  /** The string table at the end of the file. */
  lemma {:induction false} StringsOfImage(front: seq<byte>, strtab: seq<byte>)
    ensures var out := front + strtab;
      |front| + |strtab| == |out| && out[|front|..|front| + |strtab|] == strtab
  {
    assert front + strtab == front + strtab + [];
    SliceAt(front, strtab, [], 0, strtab);
  }

  /** The section's bytes sit after the header and the load commands. */
  lemma {:induction false} ContentOfImage(front: seq<byte>, comb: seq<byte>, rest: seq<byte>)
    ensures var out := front + comb + rest;
      |front| + |comb| <= |out| && out[|front|..|front| + |comb|] == comb
  {
    SliceAt(front, comb, rest, 0, comb);
  }

  // ---------------------------------------------------------------------
  // Reading an image
  // ---------------------------------------------------------------------

  /** The one section as the reader sees it: its names, address 0, its
      bytes at data_offset, its alignment exponent, S_REGULAR. */
  function ConstSection(arch: Arch, comb: seq<byte>, alignment: nat): Section
  {
    Section(Ascii("__const"), Ascii("__TEXT"), 0, DataOffset(arch), comb, AlignField(alignment), 0)
  }

  /** The padded names read back up to their first NUL. */
  lemma {:induction false} PaddedNames()
    ensures CStr(SegName, 0) == Ascii("__TEXT") && CStr(SectName, 0) == Ascii("__const")
  {
    AsciiNoNul("__TEXT");
    AsciiNoNul("__const");
    CStrPadded(Ascii("__TEXT"), 16);
    CStrPadded(Ascii("__const"), 16);
  }

  /** The section record of the generator, with its contents at data_offset. */
  lemma {:induction false} ConstSectionRead(out: seq<byte>, front: seq<byte>, rest: seq<byte>, arch: Arch, comb: seq<byte>, alignment: nat)
    requires out == front + comb + rest && |front| == DataOffset(arch)
    ensures InFile(out, SectionVals(arch, |comb|, DataOffset(arch), alignment))
    ensures SectionOf(out, SectionVals(arch, |comb|, DataOffset(arch), alignment)) == ConstSection(arch, comb, alignment)
  {
    ContentOfImage(front, comb, rest);
    PaddedNames();
  }

  /** The values of a file that fits: every symtab field fits 32 bits. */
  predicate ImageFits(arch: Arch, comb: seq<byte>, symtab: seq<byte>, strtab: seq<byte>)
  {
    DataOffset(arch) + |comb| + |symtab| < Pow256(4) && |strtab| < Pow256(4)
  }

  lemma {:induction false} ImageSymtabConforms(arch: Arch, comb: seq<byte>, symtab: seq<byte>, strtab: seq<byte>)
    requires ImageFits(arch, comb, symtab, strtab)
    ensures var stv := ImageSymtab(arch, comb, symtab, strtab);
      AllConform(SymtabShape, stv) && stv[0] == N(LC_SYMTAB) && stv[1] == N(24)
      && Num(stv, 2) == DataOffset(arch) + |comb| && Num(stv, 3) == 3
      && Num(stv, 4) == Num(stv, 2) + |symtab| && Num(stv, 5) == |strtab|
  {
  }

  lemma {:induction false} SectionValsFields(arch: Arch, size: nat, offset: nat, alignment: nat)
    ensures Num(SectionVals(arch, size, offset, alignment), 3) == size
    ensures Num(SectionVals(arch, size, offset, alignment), 4) == offset
  {
  }

  /** The symtab command after the header and the segment command, the
      records it points at after the contents, and the strings after them. */
  lemma {:induction false} SymtabOfBlocks(out: seq<byte>, w: nat, h: seq<Val>, segs: seq<Segment>, front: seq<byte>,
                       st: seq<byte>, stv: seq<Val>, comb: seq<byte>, rows: seq<seq<Val>>, symtab: seq<byte>, strtab: seq<byte>)
    requires forall k :: 0 <= k < |rows| ==> AllConform(NlistShape(w), rows[k])
    requires RowsFit(NlistShape(w), rows) && symtab == Records(NlistShape(w), rows)
    requires Packed(st, SymtabShape, stv)
    requires out == front + st + comb + symtab + strtab
    requires Num(stv, 2) == |front| + |st| + |comb| && Num(stv, 3) == |rows|
    requires Num(stv, 4) == Num(stv, 2) + |symtab| && Num(stv, 5) == |strtab|
    ensures ReadSymtab(out, w, h, segs, |front|)
         == Some(Object(Num(h, 1), Num(h, 2), Num(h, 3), Num(h, 6), segs, SymbolList(strtab, rows)))
  {
    Assoc(front + st, comb, symtab);
    Assoc(front + st, comb + symtab, strtab);
    SymtabCmdOfImage(front, stv, comb + symtab + strtab);
    SymbolsOfImage(front + st + comb, NlistShape(w), rows, strtab);
    StringsOfImage(front + st + comb + symtab, strtab);
    assert Num(stv, 2) == |front + st + comb|;
    assert Num(stv, 4) == |front + st + comb + symtab|;
    ReadSymtabOfParts(out, w, h, segs, |front|, stv, rows, strtab);
  }

  /** The segment command after the header, with its one section record
      and the section's contents after the load commands. */
  lemma {:induction false} SegmentOfBlocks(out: seq<byte>, w: nat, hd: seq<byte>, g: seq<byte>, c: seq<byte>, st: seq<byte>,
                             comb: seq<byte>, rest: seq<byte>, segv: seq<Val>, secv: seq<Val>)
    requires Packed(g, SegmentShape(w), segv) && Packed(c, SectionShape(w), secv)
    requires out == hd + (g + c) + st + comb + rest
    requires Num(secv, 4) == |hd| + |g| + |c| + |st| && Num(secv, 3) == |comb|
    ensures SegmentRecordsAt(out, w, |hd|, segv, secv)
  {
    ContentsInFile(out, hd + (g + c) + st, comb, rest, secv);
    var x := hd + g + c;
    Assoc(hd, g, c);
    Assoc(x, st + comb, rest);
    Assoc(x, st, comb);
    SegmentFound(out, w, hd, g, c, st + comb + rest, segv, secv);
  }

  /** The contents lie inside the file when they follow the front part. */
  lemma {:induction false} ContentsInFile(out: seq<byte>, front: seq<byte>, comb: seq<byte>, rest: seq<byte>, secv: seq<Val>)
    requires out == front + comb + rest
    requires Num(secv, 4) == |front| && Num(secv, 3) == |comb|
    ensures InFile(out, secv)
  {
  }

  /** A segment command at `at` with one section record right after it,
      whose contents lie inside the file. */
  predicate SegmentRecordsAt(out: seq<byte>, w: nat, at: nat, sv: seq<Val>, secv: seq<Val>)
  {
    UnpackAt(SegmentShape(w), out, at) == Some(sv)
    && ReadTable(SectionShape(w), out, at + Size(SegmentShape(w)), 1) == Some([secv])
    && InFile(out, secv)
  }

  /** A segment command record and its section record, one after the other. */
  lemma {:induction false} SegmentFound(out: seq<byte>, w: nat, hd: seq<byte>, g: seq<byte>, c: seq<byte>, post: seq<byte>,
                     segv: seq<Val>, secv: seq<Val>)
    requires Packed(g, SegmentShape(w), segv) && Packed(c, SectionShape(w), secv)
    requires out == hd + g + c + post
    ensures UnpackAt(SegmentShape(w), out, |hd|) == Some(segv)
    ensures ReadTable(SectionShape(w), out, |hd| + Size(SegmentShape(w)), 1) == Some([secv])
  {
    Assoc(hd + g, c, post);
    UnpackAtConforming(out, |hd|, hd, SegmentShape(w), segv, c + post);
    OneRecordTable(out, hd + g, SectionShape(w), secv, post);
  }

  /** The header, then a segment command and a symtab command. */
  lemma {:induction false} CommandsOfBlocks(out: seq<byte>, arch: Arch, hd: seq<byte>, g: seq<byte>, c: seq<byte>, st: seq<byte>, rest: seq<byte>,
                         segv: seq<Val>, secv: seq<Val>, stv: seq<Val>)
    requires SegmentRecords(arch, segv, secv) && AllConform(SymtabShape, stv)
    requires stv[0] == N(LC_SYMTAB) && stv[1] == N(24)
    requires hd == Pack(HeaderShape(WordSize(arch)), HeaderVals(arch))
    requires g == Pack(SegmentShape(WordSize(arch)), segv) && c == Pack(SectionShape(WordSize(arch)), secv)
    requires st == Pack(SymtabShape, stv)
    requires out == hd + (g + c) + st + rest
    ensures |out| >= 4 && ReadLE(out, 0, 4) == Magic(arch)
    ensures UnpackAt(HeaderShape(WordSize(arch)), out, 0) == Some(HeaderVals(arch))
    ensures Commands(out, |hd|, 2)
         == Some([Command(SegmentCmd(arch), |hd|, |g + c|), Command(LC_SYMTAB, |hd + (g + c)|, 24)])
  {
    Pow256Values();
    SegmentCmdFields(arch, segv, secv);
    SymtabCmdFields(stv);
    SegmentCmdSizeFits(arch, segv, secv);
    TwoCommands(out, hd, g + c, st, rest);
    Assoc(hd, g + c, st);
    Assoc(hd, (g + c) + st, rest);
    HeaderOfImage(arch, (g + c) + st + rest);
  }

  /** The segment command is cmdsize bytes long. */
  lemma {:induction false} SegmentCmdSizeFits(arch: Arch, segv: seq<Val>, secv: seq<Val>)
    requires SegmentRecords(arch, segv, secv)
    ensures var w := WordSize(arch);
      |Pack(SegmentShape(w), segv) + Pack(SectionShape(w), secv)| == SegmentCmdSize(arch) < Pow256(4)
  {
    ShapeSizes(arch);
    Pow256Values();
  }

  /** The header and the two load commands take data_offset bytes. */
  lemma {:induction false} BlockSizes(arch: Arch, hd: seq<byte>, g: seq<byte>, c: seq<byte>, st: seq<byte>,
                   segv: seq<Val>, secv: seq<Val>, stv: seq<Val>)
    requires SegmentRecords(arch, segv, secv) && AllConform(SymtabShape, stv)
    requires hd == Pack(HeaderShape(WordSize(arch)), HeaderVals(arch))
    requires g == Pack(SegmentShape(WordSize(arch)), segv) && c == Pack(SectionShape(WordSize(arch)), secv)
    requires st == Pack(SymtabShape, stv)
    ensures |hd| == Size(HeaderShape(WordSize(arch))) == HeaderSize(arch) && |g + c| == SegmentCmdSize(arch)
    ensures |hd| + |g| + |c| + |st| == DataOffset(arch) && |hd + (g + c)| + |st| == DataOffset(arch)
    ensures |hd + (g + c) + st| == DataOffset(arch)
  {
    CommandShapeSizes(arch);
  }

  /** The load commands of such a file: the header under its magic, then
      the segment command with its section, then the symtab command. */
  lemma {:induction false} CommandsPart(out: seq<byte>, arch: Arch, hd: seq<byte>, g: seq<byte>, c: seq<byte>, st: seq<byte>,
                     comb: seq<byte>, rest: seq<byte>, segv: seq<Val>, secv: seq<Val>, stv: seq<Val>, cmds: seq<Command>)
    requires SegmentRecords(arch, segv, secv) && AllConform(SymtabShape, stv)
    requires stv[0] == N(LC_SYMTAB) && stv[1] == N(24)
    requires hd == Pack(HeaderShape(WordSize(arch)), HeaderVals(arch))
    requires g == Pack(SegmentShape(WordSize(arch)), segv) && c == Pack(SectionShape(WordSize(arch)), secv)
    requires st == Pack(SymtabShape, stv)
    requires out == hd + (g + c) + st + comb + rest
    requires Num(secv, 4) == |hd| + |g| + |c| + |st| && Num(secv, 3) == |comb|
    requires cmds == [Command(SegmentCmd(arch), |hd|, |g + c|), Command(LC_SYMTAB, |hd + (g + c)|, 24)]
    ensures InFile(out, secv)
    ensures |out| >= 4 && ReadLE(out, 0, 4) == Magic(arch)
    ensures UnpackAt(HeaderShape(WordSize(arch)), out, 0) == Some(HeaderVals(arch))
    ensures Commands(out, Size(HeaderShape(WordSize(arch))), Num(HeaderVals(arch), 4)) == Some(cmds)
    ensures Segments(out, WordSize(arch), cmds) == Some([SegmentOf(segv, [SectionOf(out, secv)])])
    ensures FindSymtab(cmds) == Some(|hd + (g + c)|)
  {
    Assoc(hd + (g + c) + st, comb, rest);
    HeaderValsConform(arch);
    BlockSizes(arch, hd, g, c, st, segv, secv, stv);
    CommandsOfBlocks(out, arch, hd, g, c, st, comb + rest, segv, secv, stv);
    SegmentOfBlocks(out, WordSize(arch), hd, g, c, st, comb, rest, segv, secv);
    SegmentOfParts(out, WordSize(arch), |hd|, segv, secv);
    SegmentThenSymtab(out, WordSize(arch), cmds, SegmentOf(segv, [SectionOf(out, secv)]));
  }

  /** A file of a header, a segment command with one section, a symtab
      command, the contents, the symbol records and the strings, whose
      offsets point at those parts, reads back as those parts. */
  lemma {:induction false} ReadBlocks(out: seq<byte>, arch: Arch, hd: seq<byte>, g: seq<byte>, c: seq<byte>, st: seq<byte>,
                   comb: seq<byte>, symtab: seq<byte>, strtab: seq<byte>,
                   segv: seq<Val>, secv: seq<Val>, stv: seq<Val>, rows: seq<seq<Val>>)
    requires SegmentRecords(arch, segv, secv) && AllConform(SymtabShape, stv)
    requires stv[0] == N(LC_SYMTAB) && stv[1] == N(24)
    requires hd == Pack(HeaderShape(WordSize(arch)), HeaderVals(arch))
    requires g == Pack(SegmentShape(WordSize(arch)), segv) && c == Pack(SectionShape(WordSize(arch)), secv)
    requires st == Pack(SymtabShape, stv)
    requires forall k :: 0 <= k < |rows| ==> AllConform(NlistShape(WordSize(arch)), rows[k])
    requires RowsFit(NlistShape(WordSize(arch)), rows) && symtab == Records(NlistShape(WordSize(arch)), rows)
    requires out == hd + (g + c) + st + comb + symtab + strtab
    requires Num(secv, 4) == |hd| + |g| + |c| + |st| && Num(secv, 3) == |comb|
    requires Num(stv, 2) == |hd + (g + c)| + |st| + |comb| && Num(stv, 3) == |rows|
    requires Num(stv, 4) == Num(stv, 2) + |symtab| && Num(stv, 5) == |strtab|
    ensures InFile(out, secv)
    ensures Read(out) == Some(Object(CpuType(arch), CpuSubtype(arch), MH_OBJECT, MH_SUBSECTIONS_VIA_SYMBOLS,
                                     [SegmentOf(segv, [SectionOf(out, secv)])], SymbolList(strtab, rows)))
  {
    Assoc(hd + (g + c) + st + comb, symtab, strtab);
    var cmds := [Command(SegmentCmd(arch), |hd|, |g + c|), Command(LC_SYMTAB, |hd + (g + c)|, 24)];
    CommandsPart(out, arch, hd, g, c, st, comb, symtab + strtab, segv, secv, stv, cmds);
    var seg := SegmentOf(segv, [SectionOf(out, secv)]);
    HeaderValsConform(arch);
    SymtabOfBlocks(out, WordSize(arch), HeaderVals(arch), [seg], hd + (g + c), st, stv, comb, rows, symtab, strtab);
    var obj := Object(CpuType(arch), CpuSubtype(arch), MH_OBJECT, MH_SUBSECTIONS_VIA_SYMBOLS, [seg], SymbolList(strtab, rows));
    ReadStages(out, WordSize(arch), HeaderVals(arch), cmds, [seg], |hd + (g + c)|, obj);
  }

  /** Read goes through its stages. */
  lemma {:induction false} ReadStages(out: seq<byte>, w: nat, h: seq<Val>, cmds: seq<Command>, segs: seq<Segment>, at: nat, obj: Object)
    requires |out| >= 4 && w in {8, 4}
    requires ReadLE(out, 0, 4) == if w == 8 then 0xFEED_FACF else 0xFEED_FACE
    requires UnpackAt(HeaderShape(w), out, 0) == Some(h)
    requires Commands(out, Size(HeaderShape(w)), Num(h, 4)) == Some(cmds)
    requires Segments(out, w, cmds) == Some(segs)
    requires FindSymtab(cmds) == Some(at)
    requires ReadSymtab(out, w, h, segs, at) == Some(Object(Num(h, 1), Num(h, 2), Num(h, 3), Num(h, 6), obj.segments, obj.symbols))
    requires obj.cputype == Num(h, 1) && obj.cpusubtype == Num(h, 2) && obj.filetype == Num(h, 3) && obj.flags == Num(h, 6)
    ensures Read(out) == Some(obj)
  {
    ReadCommandsOfParts(out, w, h, cmds, segs, at, obj);
    ReadHeaderOfParts(out, w, h, cmds, obj);
    ReadOfMagic(out, w, obj);
  }

  /** What the values of an image must satisfy for it to read back: each
      fits its field, three symbol records, and every offset fits 32 bits. */
  predicate ImageRecords(arch: Arch, segv: seq<Val>, alignment: nat, comb: seq<byte>, rows: seq<seq<Val>>, strtab: seq<byte>)
  {
    SegmentRecords(arch, segv, SectionVals(arch, |comb|, DataOffset(arch), alignment))
    && (forall k :: 0 <= k < |rows| ==> AllConform(NlistShape(WordSize(arch)), rows[k]))
    && |rows| == 3 && RowsFit(NlistShape(WordSize(arch)), rows)
    && ImageFits(arch, comb, Records(NlistShape(WordSize(arch)), rows), strtab)
  }

  /** A file laid out like the generator's, with any segment command values,
      contents, symbol records and string table, reads back as those. */
  lemma {:induction false} ReadImage(arch: Arch, segv: seq<Val>, alignment: nat, comb: seq<byte>, rows: seq<seq<Val>>, strtab: seq<byte>)
    requires ImageRecords(arch, segv, alignment, comb, rows, strtab)
    ensures var w := WordSize(arch);
      Read(Image(arch, segv, SectionVals(arch, |comb|, DataOffset(arch), alignment), comb, Records(NlistShape(w), rows), strtab))
      == Some(Object(CpuType(arch), CpuSubtype(arch), MH_OBJECT, MH_SUBSECTIONS_VIA_SYMBOLS,
                     [SegmentOf(segv, [ConstSection(arch, comb, alignment)])], SymbolList(strtab, rows)))
  {
    var secv := SectionVals(arch, |comb|, DataOffset(arch), alignment);
    var symtab := Records(NlistShape(WordSize(arch)), rows);
    var stv := ImageSymtab(arch, comb, symtab, strtab);
    var hd := Pack(HeaderShape(WordSize(arch)), HeaderVals(arch));
    var g := Pack(SegmentShape(WordSize(arch)), segv);
    var c := Pack(SectionShape(WordSize(arch)), secv);
    var st := Pack(SymtabShape, stv);
    var out := Image(arch, segv, secv, comb, symtab, strtab);
    ImageSymtabConforms(arch, comb, symtab, strtab);
    BlockSizes(arch, hd, g, c, st, segv, secv, stv);
    SectionValsFields(arch, |comb|, DataOffset(arch), alignment);
    ReadBlocks(out, arch, hd, g, c, st, comb, symtab, strtab, segv, secv, stv, rows);
    Assoc(hd + (g + c) + st + comb, symtab, strtab);
    ConstSectionRead(out, hd + (g + c) + st, symtab + strtab, arch, comb, alignment);
  }

  // ---------------------------------------------------------------------
  // The generated file
  // ---------------------------------------------------------------------

  /** The segment command values with data_offset written into field k and
      the section record fit their fields. */
  lemma {:induction false} PatchedRecords(arch: Arch, size: nat, alignment: nat, k: nat)
    requires k == VmaddrField || k == VmsizeField || k == FileoffField
    requires size < Pow256(4) && BitLength(alignment) <= Pow256(4)
    ensures SegmentRecords(arch, SegmentVals(arch, size)[k := N(DataOffset(arch))],
                           SectionVals(arch, size, DataOffset(arch), alignment))
  {
    CommandSizes(arch);
    Pow256Values();
    SegmentValsConform(arch, size, k, DataOffset(arch));
    SectionValsConform(arch, size, DataOffset(arch), alignment);
  }

  lemma {:induction false} SegmentValsConform(arch: Arch, size: nat, k: nat, v: nat)
    requires k == VmaddrField || k == VmsizeField || k == FileoffField
    requires size < Pow256(4) && v < Pow256(4)
    ensures AllConform(SegmentShape(WordSize(arch)), SegmentVals(arch, size)[k := N(v)])
    ensures var vals := SegmentVals(arch, size)[k := N(v)];
      vals[0] == N(SegmentCmd(arch)) && vals[1] == N(SegmentCmdSize(arch)) && vals[NsectsField] == N(1)
  {
    Pow256Values();
    var shape := SegmentShape(WordSize(arch));
    var vals := SegmentVals(arch, size);
    assert Pow256(4) <= Pow256(WordSize(arch));
    forall i | 0 <= i < |shape|
      ensures Conforms(shape[i], vals[i])
    {
    }
    ConformUpdate(shape, vals, k, N(v));
  }

  lemma {:induction false} SectionValsConform(arch: Arch, size: nat, offset: nat, alignment: nat)
    requires size < Pow256(4) && offset < Pow256(4) && BitLength(alignment) <= Pow256(4)
    ensures AllConform(SectionShape(WordSize(arch)), SectionVals(arch, size, offset, alignment))
  {
    Pow256Values();
    var shape := SectionShape(WordSize(arch));
    var vals := SectionVals(arch, size, offset, alignment);
    assert Pow256(4) <= Pow256(WordSize(arch));
    assert AlignField(alignment) < Pow256(4);
    forall i | 0 <= i < |shape|
      ensures Conforms(shape[i], vals[i])
    {
    }
  }

  /** The generator's layout around any segment command: the symtab
      command points just past the contents and the records. */
  lemma {:induction false} AssembleParts(data: seq<byte>, name: seq<byte>, alignment: nat, arch: Arch, cmd: seq<byte>)
    requires Fits(|data|, name, alignment, arch)
    ensures |data| < Pow256(WordSize(arch))
    ensures Assemble(data, name, alignment, arch, cmd)
         == Pack(HeaderShape(WordSize(arch)), HeaderVals(arch)) + cmd
            + Pack(SymtabShape, ImageSymtab(arch, Combined(data, alignment, arch),
                                            SymbolTable(arch, name, |AlignData(data, alignment)|), StringTable(name)))
            + Combined(data, alignment, arch) + SymbolTable(arch, name, |AlignData(data, alignment)|) + StringTable(name)
  {
    DataFits(|data|, name, alignment, arch);
  }

  /** The generator's layout around a segment command of values segv whose
      section starts at data_offset is an image. */
  lemma {:induction false} AssembleIsImage(data: seq<byte>, name: seq<byte>, alignment: nat, arch: Arch, segv: seq<Val>)
    requires Fits(|data|, name, alignment, arch) && |segv| == |SegmentShape(WordSize(arch))|
    ensures |data| < Pow256(WordSize(arch))
    ensures var comb := Combined(data, alignment, arch);
      var secv := SectionVals(arch, |comb|, DataOffset(arch), alignment);
      Assemble(data, name, alignment, arch, Pack(SegmentShape(WordSize(arch)), segv) + Pack(SectionShape(WordSize(arch)), secv))
      == Image(arch, segv, secv, comb, SymbolTable(arch, name, |AlignData(data, alignment)|), StringTable(name))
  {
    DataFits(|data|, name, alignment, arch);
    var comb := Combined(data, alignment, arch);
    var secv := SectionVals(arch, |comb|, DataOffset(arch), alignment);
    AssembleParts(data, name, alignment, arch, Pack(SegmentShape(WordSize(arch)), segv) + Pack(SectionShape(WordSize(arch)), secv));
  }

  /** The nlist records fit their fields: every string index lies inside
      the string table, whose size fits 32 bits, and the values fit a word. */
  lemma {:induction false} RowsConform(arch: Arch, name: seq<byte>, aligned: nat)
    requires |StringTable(name)| < Pow256(4) && aligned < Pow256(4)
    ensures forall k :: 0 <= k < 3 ==> AllConform(NlistShape(WordSize(arch)), SymbolRows(name, aligned)[k])
  {
    Pow256Values();
    SuffixesClean();
    StringTableLength(name);
  }

  /** The records name the three globals, at their values. */
  lemma {:induction false} SymbolsNamed(name: seq<byte>, aligned: nat)
    requires NoNul(name)
    ensures SymbolList(StringTable(name), SymbolRows(name, aligned)) == Globals(name, aligned)
  {
    StrIndicesAt(name, 0);
    StrIndicesAt(name, 1);
    StrIndicesAt(name, 2);
  }

  /** The corrected segment command reads back as the __TEXT segment
      mapping its section's bytes at data_offset. */
  lemma {:induction false} FixedSegmentRead(arch: Arch, comb: seq<byte>, alignment: nat)
    ensures SegmentOf(FixedSegmentVals(arch, |comb|), [ConstSection(arch, comb, alignment)])
         == ExpectedSegment(arch, comb, alignment)
  {
    PaddedNames();
  }

  /** The contents, and the offset of the records after them, fit 32 bits. */
  lemma {:induction false} ContentsFit(data: seq<byte>, name: seq<byte>, alignment: nat, arch: Arch)
    requires Fits(|data|, name, alignment, arch)
    ensures |data| < Pow256(WordSize(arch))
    ensures DataOffset(arch) + |Combined(data, alignment, arch)| == SymOff(|data|, alignment, arch) < Pow256(4)
    ensures |Combined(data, alignment, arch)| < Pow256(4) <= Pow256(WordSize(arch))
  {
    DataFits(|data|, name, alignment, arch);
    Pow256Values();
  }

  /** The file the generator lays out around the segment command of values
      segv (data_offset written into field k) reads back as that segment,
      the section at data_offset and the records named from the string
      table. */
  lemma {:induction false} AssembledRead(data: seq<byte>, name: seq<byte>, alignment: nat, arch: Arch, k: nat)
    requires Fits(|data|, name, alignment, arch)
    requires k == VmaddrField || k == VmsizeField || k == FileoffField
    ensures |data| < Pow256(WordSize(arch))
    ensures var segv := SegmentVals(arch, |Combined(data, alignment, arch)|)[k := N(DataOffset(arch))];
      Read(WithSegment(data, name, alignment, arch, segv)) == Some(ObjectWith(data, name, alignment, arch, segv))
  {
    ContentsFit(data, name, alignment, arch);
    var comb := Combined(data, alignment, arch);
    var aligned := |AlignData(data, alignment)|;
    var segv := SegmentVals(arch, |comb|)[k := N(DataOffset(arch))];
    AssembleIsImage(data, name, alignment, arch, segv);
    GeneratedRecords(data, name, alignment, arch, k);
    ReadImage(arch, segv, alignment, comb, SymbolRows(name, aligned), StringTable(name));
  }

  /** The generated file with the given segment command values and the
      section record at data_offset. */
  function WithSegment(data: seq<byte>, name: seq<byte>, alignment: nat, arch: Arch, segv: seq<Val>): seq<byte>
    requires Fits(|data|, name, alignment, arch) && |segv| == |SegmentShape(WordSize(arch))|
  {
    DataFits(|data|, name, alignment, arch);
    var w := WordSize(arch);
    var secv := SectionVals(arch, |Combined(data, alignment, arch)|, DataOffset(arch), alignment);
    Assemble(data, name, alignment, arch, Pack(SegmentShape(w), segv) + Pack(SectionShape(w), secv))
  }

  /** The object such a file describes: one segment with those values and
      the __const section, and the generator's symbols. */
  function ObjectWith(data: seq<byte>, name: seq<byte>, alignment: nat, arch: Arch, segv: seq<Val>): Object
    requires Fits(|data|, name, alignment, arch)
  {
    DataFits(|data|, name, alignment, arch);
    Object(CpuType(arch), CpuSubtype(arch), MH_OBJECT, MH_SUBSECTIONS_VIA_SYMBOLS,
           [SegmentOf(segv, [ConstSection(arch, Combined(data, alignment, arch), alignment)])],
           SymbolList(StringTable(name), SymbolRows(name, |AlignData(data, alignment)|)))
  }

  /** The generator's values fit: the segment command with data_offset in
      field k, the section record, the symbol records and the offsets. */
  lemma {:induction false} GeneratedRecords(data: seq<byte>, name: seq<byte>, alignment: nat, arch: Arch, k: nat)
    requires Fits(|data|, name, alignment, arch)
    requires k == VmaddrField || k == VmsizeField || k == FileoffField
    ensures |data| < Pow256(WordSize(arch))
    ensures var comb := Combined(data, alignment, arch);
      ImageRecords(arch, SegmentVals(arch, |comb|)[k := N(DataOffset(arch))], alignment, comb,
                   SymbolRows(name, |AlignData(data, alignment)|), StringTable(name))
  {
    ContentsFit(data, name, alignment, arch);
    var comb := Combined(data, alignment, arch);
    var aligned := |AlignData(data, alignment)|;
    PatchedRecords(arch, |comb|, alignment, k);
    RowsConform(arch, name, aligned);
    assert |SymbolTable(arch, name, aligned)| == 3 * Size(NlistShape(WordSize(arch)));
  }

  /** Read back, the corrected file holds exactly the object the generator
      means to emit: its CPU and flags, one __TEXT segment whose file
      offset is where its one __const section's bytes are, the padded blob
      followed by its length, and the three globals with their names and
      values. */
  lemma {:induction false} RoundTrip(data: seq<byte>, name: seq<byte>, alignment: nat, arch: Arch)
    requires Fits(|data|, name, alignment, arch) && NoNul(name)
    ensures Read(Encode(data, name, alignment, arch)) == Some(Expected(data, name, alignment, arch))
  {
    ContentsFit(data, name, alignment, arch);
    SegmentFixedFields(arch, |Combined(data, alignment, arch)|, alignment);
    AssembledRead(data, name, alignment, arch, FileoffField);
    SymbolsNamed(name, |AlignData(data, alignment)|);
    FixedSegmentRead(arch, Combined(data, alignment, arch), alignment);
  }

  /** Read back, the file as the generator writes it maps no part of the
      file into its segment (fileoff 0), has data_offset where vmsize
      (64-bit) or vmaddr (32-bit) belongs, so its section's bytes lie
      outside its segment, and is not the object the generator means to
      emit. */
  lemma {:induction false} AsWrittenMisplaced(data: seq<byte>, name: seq<byte>, alignment: nat, arch: Arch)
    requires Fits(|data|, name, alignment, arch)
    ensures var r := Read(EncodeAsWritten(data, name, alignment, arch));
      r.Some? && |r.value.segments| == 1 && |r.value.segments[0].sections| == 1
      && r.value.segments[0].fileoff == 0
      && (if Is64(arch) then r.value.segments[0].vmsize else r.value.segments[0].vmaddr) == DataOffset(arch)
      && !InSegment(r.value.segments[0], r.value.segments[0].sections[0])
      && r != Some(Expected(data, name, alignment, arch))
  {
    AsWrittenRead(data, name, alignment, arch);
    var comb := Combined(data, alignment, arch);
    AsWrittenSegment(arch, comb, alignment);
    assert ExpectedSegment(arch, comb, alignment).fileoff != 0;
  }

  /** The file as the generator writes it reads back as one segment
      carrying the patched values, and the same symbols as intended. */
  lemma {:induction false} AsWrittenRead(data: seq<byte>, name: seq<byte>, alignment: nat, arch: Arch)
    requires Fits(|data|, name, alignment, arch)
    ensures alignment > 0 && |data| < Pow256(WordSize(arch))
    ensures var comb := Combined(data, alignment, arch);
      Read(EncodeAsWritten(data, name, alignment, arch))
      == Some(Object(CpuType(arch), CpuSubtype(arch), MH_OBJECT, MH_SUBSECTIONS_VIA_SYMBOLS,
                     [AsWrittenSeg(arch, comb, alignment)],
                     SymbolList(StringTable(name), SymbolRows(name, |AlignData(data, alignment)|))))
  {
    ContentsFit(data, name, alignment, arch);
    var comb := Combined(data, alignment, arch);
    SegmentAsWrittenFields(arch, |comb|, alignment);
    AssembledRead(data, name, alignment, arch, OverwrittenField(arch));
  }

  /** The segment the as-written file describes. */
  function AsWrittenSeg(arch: Arch, comb: seq<byte>, alignment: nat): Segment
  {
    SegmentOf(SegmentVals(arch, |comb|)[OverwrittenField(arch) := N(DataOffset(arch))],
              [ConstSection(arch, comb, alignment)])
  }

  /** The segment as written: fileoff 0, data_offset in vmsize (64-bit) or
      vmaddr (32-bit), and its section's bytes past its end. */
  lemma {:induction false} AsWrittenSegment(arch: Arch, comb: seq<byte>, alignment: nat)
    ensures var seg := AsWrittenSeg(arch, comb, alignment);
      |seg.sections| == 1 && seg.fileoff == 0 && (if Is64(arch) then seg.vmsize else seg.vmaddr) == DataOffset(arch)
      && !InSegment(seg, seg.sections[0])
  {
    var sv := SegmentVals(arch, |comb|)[OverwrittenField(arch) := N(DataOffset(arch))];
    AsWrittenVals(arch, |comb|);
    assert Num(sv, FileoffField) == 0 && Num(sv, FilesizeField) == |comb|;
  }
}
