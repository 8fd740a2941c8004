/** What a linker reads back from an ELF relocatable object: the class and
    machine from the file header, the section header table at e_shoff, each
    section's name (from the section named by e_shstrndx) and contents, and
    the symbols of the first SHT_SYMTAB section with their names taken from
    the string table its sh_link names. This reader is the partner of
    `Elf.Encode`: `RoundTrip` shows that it recovers, from the generated
    bytes, the sections and symbols the generator meant to emit. */
module ElfReader {
  import opened Bytes
  import opened Layout
  import opened Inputs
  import opened Align
  import opened Elf

  datatype Section = Section(name: seq<byte>, kind: nat, flags: nat, content: seq<byte>,
                             link: nat, info: nat, align: nat, entsize: nat)

  datatype Symbol = Symbol(name: seq<byte>, info: nat, shndx: nat, value: nat, size: nat)

  datatype Object = Object(wordSize: nat, fileType: nat, machine: nat,
                           sections: seq<Section>, symbols: seq<Symbol>)

  /** The word size EI_CLASS announces, if it is one of the two classes. */
  function ClassWord(c: byte): Option<nat>
  {
    if c == 2 then Some(8) else if c == 1 then Some(4) else None
  }

  /** A section whose bytes (sh_offset, sh_size) lie inside the file. */
  predicate InFile(out: seq<byte>, row: seq<Val>)
  {
    Num(row, 4) + Num(row, 5) <= |out|
  }

  function Contents(out: seq<byte>, row: seq<Val>): seq<byte>
    requires InFile(out, row)
  {
    out[Num(row, 4)..Num(row, 4) + Num(row, 5)]
  }

  function SectionOf(out: seq<byte>, names: seq<byte>, row: seq<Val>): Section
    requires InFile(out, row)
  {
    Section(CStr(names, Num(row, 0)), Num(row, 1), Num(row, 2), Contents(out, row),
            Num(row, 6), Num(row, 7), Num(row, 8), Num(row, 9))
  }

  /** The sections the headers describe, named from the string table `names`. */
  function SectionList(out: seq<byte>, names: seq<byte>, rows: seq<seq<Val>>): seq<Section>
    requires forall k :: 0 <= k < |rows| ==> InFile(out, rows[k])
  {
    seq(|rows|, k requires 0 <= k < |rows| => SectionOf(out, names, rows[k]))
  }

  /** The index of the first section of the given kind at or after i. */
  function FindKind(secs: seq<Section>, kind: nat, i: nat): Option<nat>
    decreases |secs| - i
  {
    if i >= |secs| then None
    else if secs[i].kind == kind then Some(i)
    else FindKind(secs, kind, i + 1)
  }

  /** A symbol record, whose field order depends on the class. */
  function SymbolOf(w: nat, strtab: seq<byte>, row: seq<Val>): Symbol
  {
    if w == 8 then Symbol(CStr(strtab, Num(row, 0)), Num(row, 1), Num(row, 3), Num(row, 4), Num(row, 5))
    else Symbol(CStr(strtab, Num(row, 0)), Num(row, 3), Num(row, 5), Num(row, 1), Num(row, 2))
  }

  /** The symbols of the first symbol table; none when there is no symbol
      table, and a failure when its entry size or string-table link is wrong. */
  function Symbols(w: nat, secs: seq<Section>): Option<seq<Symbol>>
  {
    match FindKind(secs, SHT_SYMTAB, 0)
    case None => Some([])
    case Some(k) =>
      if k >= |secs| || secs[k].entsize != Size(SymShape(w)) || secs[k].link >= |secs| then None
      else
        var tab := secs[k].content;
        match ReadTable(SymShape(w), tab, 0, |tab| / secs[k].entsize)
        case None => None
        case Some(rows) =>
          Some(SymbolList(w, secs[secs[k].link].content, rows))
  }

  /** Symbol records named from the given string table. */
  function SymbolList(w: nat, strtab: seq<byte>, rows: seq<seq<Val>>): (r: seq<Symbol>)
    ensures |r| == |rows|
  {
    seq(|rows|, i requires 0 <= i < |rows| => SymbolOf(w, strtab, rows[i]))
  }

  /** The word size, the file header fields after e_ident, and the sections. */
  datatype Table = Table(w: nat, header: seq<Val>, sections: seq<Section>)

  /** Reads the file header and the section header table, or None when the
      file is not a little-endian ELF file of either class or a section lies
      outside it. */
  function ReadSections(out: seq<byte>): Option<Table>
  {
    if |out| < 16 || out[..4] != Magic then None
    else match ClassWord(out[4])
    case None => None
    case Some(w) =>
      match UnpackAt(HeaderShape(w), out, 16)
      case None => None
      case Some(h) =>
        match ReadTable(ShdrShape(w), out, Num(h, ShoffField), Num(h, 11))
        case None => None
        case Some(rows) =>
          if Num(h, 12) >= |rows| || exists k :: 0 <= k < |rows| && !InFile(out, rows[k]) then None
          else
            Some(Table(w, h, SectionList(out, Contents(out, rows[Num(h, 12)]), rows)))
  }

  /** Reads an object file: its sections, then the symbols of its symbol table. */
  function Read(out: seq<byte>): Option<Object>
  {
    match ReadSections(out)
    case None => None
    case Some(t) =>
      match Symbols(t.w, t.sections)
      case None => None
      case Some(syms) => Some(Object(t.w, Num(t.header, 0), Num(t.header, 1), t.sections, syms))
  }

  /** The sections the generator means to emit: the null section, .data
      holding the padded blob aligned to `alignment`, .rodata holding the
      blob's length in a word, the section-name table, the symbol table
      (linked to section 5, first global symbol 3) and the symbol-name table. */
  function ExpectedSections(data: seq<byte>, name: seq<byte>, alignment: nat, arch: Arch): seq<Section>
    requires Fits(|data|, |name|, alignment, arch)
  {
    var w := WordSize(arch);
    var aligned := AlignData(data, alignment);
    [Section([], 0, 0, [], 0, 0, 0, 0),
     Section(DataName, SHT_PROGBITS, 3, aligned, 0, 0, alignment, 0),
     Section(RodataName, SHT_PROGBITS, 2, SizeConstant(|data|, arch), 0, 0, w, 0),
     Section(ShstrtabName, SHT_STRTAB, 0, ShStrTab(), 0, 0, 1, 0),
     Section(SymtabName, SHT_SYMTAB, 0, SymTab(arch, |name|, |aligned|), 5, 3, w, Size(SymShape(w))),
     Section(StrtabName, SHT_STRTAB, 0, StrTab(name), 0, 0, 1, 0)]
  }

  /** The symbols the generator means to emit: the null symbol, one section
      symbol each for .data and .rodata, then name_data at the start of .data
      spanning its `size` bytes, name_end just past them, and name_size at the
      start of .rodata, one word long. */
  function Globals(name: seq<byte>, size: nat, arch: Arch): seq<Symbol>
  {
    [Symbol([], 0, 0, 0, 0),
     Symbol([], STT_SECTION, 1, 0, 0),
     Symbol([], STT_SECTION, 2, 0, 0),
     Symbol(name + DataSuffix, GLOBAL_OBJECT, 1, 0, size),
     Symbol(name + EndSuffix, GLOBAL_OBJECT, 1, size, 0),
     Symbol(name + SizeSuffix, GLOBAL_OBJECT, 2, 0, WordSize(arch))]
  }

  /** The object the generator means to emit: a relocatable file (e_type 1)
      for the target's machine. */
  function Expected(data: seq<byte>, name: seq<byte>, alignment: nat, arch: Arch): (o: Object)
    requires Fits(|data|, |name|, alignment, arch)
    ensures |o.sections| == 6 && |o.symbols| == 6
    ensures var body := o.sections[1].content;
      |data| <= |body| && |body| % alignment == 0 && body[..|data|] == data
      && (forall i :: |data| <= i < |body| ==> body[i] == 0)
    ensures FromLE(o.sections[2].content) == |data| && |o.sections[2].content| == o.wordSize
    ensures o.symbols[3].name == name + DataSuffix && o.symbols[3].size == |o.sections[1].content|
    ensures o.symbols[4].name == name + EndSuffix && o.symbols[4].value == |o.sections[1].content|
    ensures o.symbols[5].name == name + SizeSuffix && o.symbols[5].shndx == 2
         && o.symbols[5].size == |o.sections[2].content|
  {
    Object(WordSize(arch), 1, Machine(arch), ExpectedSections(data, name, alignment, arch),
           Globals(name, |AlignData(data, alignment)|, arch))
  }

  // ---------------------------------------------------------------------
  // Reading back the header
  // ---------------------------------------------------------------------

  /** e_ident: the magic number and the class byte come first. */
  lemma {:induction false} IdentRead(arch: Arch, a: seq<byte>, b: seq<byte>, c: seq<byte>)
    ensures var out := Ident(arch) + a + b + c;
      |out| >= 16 && out[..4] == Magic && ClassWord(out[4]) == Some(WordSize(arch))
  {
    var vals := [N(Class(arch)), N(1), N(1), N(0)];
    var p := Pack(IdentShape, vals);
    PackAt(IdentShape, vals, 0);
    assert p[0..1] == LE(Class(arch), 1);
    var out := Ident(arch) + a + b + c;
    assert out == Magic + p + (Zeros(8) + a + b + c);
    assert out[4] == p[0];
  }

  /** Every value of the file header fits its field. */
  lemma {:induction false} HeaderConforms(arch: Arch, shoff: nat)
    requires shoff < Pow256(WordSize(arch))
    ensures AllConform(HeaderShape(WordSize(arch)), HeaderVals(arch, shoff))
  {
    Pow256Values();
  }

  /** The file header reads back as the values it was packed from. */
  lemma {:induction false} HeaderRead(arch: Arch, shoff: nat, b: seq<byte>, c: seq<byte>)
    requires shoff < Pow256(WordSize(arch))
    ensures var w := WordSize(arch);
      UnpackAt(HeaderShape(w), Ident(arch) + Pack(HeaderShape(w), HeaderVals(arch, shoff)) + b + c, 16)
      == Some(HeaderVals(arch, shoff))
  {
    var w := WordSize(arch);
    var vals := HeaderVals(arch, shoff);
    var out := Ident(arch) + Pack(HeaderShape(w), vals) + b + c;
    HeaderConforms(arch, shoff);
    HeadLength(arch, shoff);
    assert out == Ident(arch) + Pack(HeaderShape(w), vals) + (b + c);
    UnpackAtConforming(out, 16, Ident(arch), HeaderShape(w), vals, b + c);
  }

  // ---------------------------------------------------------------------
  // Reading back the section header table and the sections
  // ---------------------------------------------------------------------

  /** Every section ends at or before e_shoff. */
  lemma {:induction false} OffsetsWithin(arch: Arch, secs: seq<seq<byte>>)
    requires |secs| == 6
    ensures forall i :: 0 <= i < 6 ==>
      RunningOffsets(HeaderSize(arch), secs)[i] == HeaderSize(arch) + Start(secs, i)
      && RunningOffsets(HeaderSize(arch), secs)[i] + |secs[i]| <= TableOffset(arch, secs)
  {
    SixStarts(secs);
  }

  /** Every value of the section headers fits its field when the offsets,
      sizes and the alignment fit a word. */
  lemma {:induction false} ShdrRowsConform(arch: Arch, offs: seq<nat>, secs: seq<seq<byte>>, alignment: nat)
    requires |offs| == 6 && |secs| == 6
    requires forall i :: 0 <= i < 6 ==> offs[i] < Pow256(WordSize(arch)) && |secs[i]| < Pow256(WordSize(arch))
    requires alignment < Pow256(WordSize(arch))
    ensures forall k :: 0 <= k < 6 ==> AllConform(ShdrShape(WordSize(arch)), ShdrRows(arch, offs, secs, alignment)[k])
  {
    Pow256Values();
    SymShapeSizes();
  }

  /** The section header table reads back from e_shoff as the rows written. */
  lemma {:induction false} ShdrsRead(arch: Arch, secs: seq<seq<byte>>, alignment: nat)
    requires |secs| == 6 && TableOffset(arch, secs) < Pow256(WordSize(arch))
    requires alignment < Pow256(WordSize(arch))
    ensures ReadTable(ShdrShape(WordSize(arch)), Image(arch, secs, alignment), TableOffset(arch, secs), 6)
         == Some(ShdrRows(arch, RunningOffsets(HeaderSize(arch), secs), secs, alignment))
  {
    var w := WordSize(arch);
    var offs := RunningOffsets(HeaderSize(arch), secs);
    var rows := ShdrRows(arch, offs, secs, alignment);
    var pre := Ident(arch) + Pack(HeaderShape(w), HeaderVals(arch, TableOffset(arch, secs))) + Concat(secs);
    BuildLayout(arch, secs, alignment);
    OffsetsWithin(arch, secs);
    ShdrRowsConform(arch, offs, secs, alignment);
    NormalRowsConforming(ShdrShape(w), rows);
    assert Image(arch, secs, alignment) == pre + Records(ShdrShape(w), rows) + [];
    ReadTableRecords(Image(arch, secs, alignment), pre, ShdrShape(w), rows, []);
  }

  /** Section i's bytes sit at its running offset. */
  lemma {:induction false} ContentAt(arch: Arch, secs: seq<seq<byte>>, alignment: nat, i: nat)
    requires |secs| == 6 && i < 6
    ensures var o := RunningOffsets(HeaderSize(arch), secs)[i];
      o + |secs[i]| <= |Image(arch, secs, alignment)|
      && Image(arch, secs, alignment)[o..o + |secs[i]|] == secs[i]
  {
    var w := WordSize(arch);
    var rows := ShdrRows(arch, RunningOffsets(HeaderSize(arch), secs), secs, alignment);
    var head := Ident(arch) + Pack(HeaderShape(w), HeaderVals(arch, TableOffset(arch, secs)));
    HeadLength(arch, TableOffset(arch, secs));
    assert RunningOffsets(HeaderSize(arch), secs)[i] == |head| + Start(secs, i);
    assert Image(arch, secs, alignment) == head + Concat(secs) + Records(ShdrShape(w), rows);
    ConcatAt(secs, i);
    SliceAt(head, Concat(secs), Records(ShdrShape(w), rows), Start(secs, i), secs[i]);
  }

  /** Section k as its header describes it, holding the bytes of section k. */
  function Described(arch: Arch, secs: seq<seq<byte>>, alignment: nat, k: nat): Section
    requires |secs| == 6 && k < 6
  {
    var row := ShdrRows(arch, RunningOffsets(HeaderSize(arch), secs), secs, alignment)[k];
    Section(CStr(secs[3], Num(row, 0)), Num(row, 1), Num(row, 2), secs[k],
            Num(row, 6), Num(row, 7), Num(row, 8), Num(row, 9))
  }

  /** The file header of the image reads back. */
  lemma {:induction false} HeaderOfImage(arch: Arch, secs: seq<seq<byte>>, alignment: nat)
    requires |secs| == 6 && TableOffset(arch, secs) < Pow256(WordSize(arch))
    ensures var out := Image(arch, secs, alignment);
      |out| >= 16 && out[..4] == Magic && ClassWord(out[4]) == Some(WordSize(arch))
      && UnpackAt(HeaderShape(WordSize(arch)), out, 16) == Some(HeaderVals(arch, TableOffset(arch, secs)))
  {
    var w := WordSize(arch);
    var hp := Pack(HeaderShape(w), HeaderVals(arch, TableOffset(arch, secs)));
    var tail := Records(ShdrShape(w), ShdrRows(arch, RunningOffsets(HeaderSize(arch), secs), secs, alignment));
    IdentRead(arch, hp, Concat(secs), tail);
    HeaderRead(arch, TableOffset(arch, secs), Concat(secs), tail);
  }

  /** sh_offset and sh_size of section header k: the running offset and the
      length of section k, except for the null header. */
  lemma {:induction false} RowPlace(arch: Arch, offs: seq<nat>, secs: seq<seq<byte>>, alignment: nat, k: nat)
    requires |offs| == 6 && |secs| == 6 && k < 6
    ensures var row := ShdrRows(arch, offs, secs, alignment)[k];
      if k == 0 then Num(row, 4) == 0 && Num(row, 5) == 0
      else Num(row, 4) == offs[k] && Num(row, 5) == |secs[k]|
  {
  }

  /** Section header k points at the bytes of section k. */
  lemma {:induction false} RowContents(arch: Arch, secs: seq<seq<byte>>, alignment: nat, k: nat)
    requires |secs| == 6 && secs[0] == [] && k < 6
    ensures var out := Image(arch, secs, alignment);
      var row := ShdrRows(arch, RunningOffsets(HeaderSize(arch), secs), secs, alignment)[k];
      InFile(out, row) && Contents(out, row) == secs[k]
  {
    RowPlace(arch, RunningOffsets(HeaderSize(arch), secs), secs, alignment, k);
    if k > 0 {
      ContentAt(arch, secs, alignment, k);
    }
  }

  /** The six sections as their headers describe them. */
  function DescribedList(arch: Arch, secs: seq<seq<byte>>, alignment: nat): seq<Section>
    requires |secs| == 6
  {
    seq(6, k requires 0 <= k < 6 => Described(arch, secs, alignment, k))
  }

  /** ReadSections on a file whose header and section header table read
      back as given. */
  lemma {:induction false} ReadSectionsOf(out: seq<byte>, w: nat, h: seq<Val>, rows: seq<seq<Val>>)
    requires |out| >= 16 && out[..4] == Magic && ClassWord(out[4]) == Some(w)
    requires UnpackAt(HeaderShape(w), out, 16) == Some(h)
    requires ReadTable(ShdrShape(w), out, Num(h, ShoffField), Num(h, 11)) == Some(rows)
    requires Num(h, 12) < |rows| && forall k :: 0 <= k < |rows| ==> InFile(out, rows[k])
    ensures ReadSections(out) == Some(Table(w, h, SectionList(out, Contents(out, rows[Num(h, 12)]), rows)))
  {
  }

  /** The section list read from the image is the described one. */
  lemma {:induction false} ImageSections(arch: Arch, secs: seq<seq<byte>>, alignment: nat)
    requires |secs| == 6 && secs[0] == []
    ensures var out := Image(arch, secs, alignment);
      var rows := ShdrRows(arch, RunningOffsets(HeaderSize(arch), secs), secs, alignment);
      (forall k :: 0 <= k < 6 ==> InFile(out, rows[k]))
      && Contents(out, rows[3]) == secs[3]
      && SectionList(out, secs[3], rows) == DescribedList(arch, secs, alignment)
  {
    var out := Image(arch, secs, alignment);
    var rows := ShdrRows(arch, RunningOffsets(HeaderSize(arch), secs), secs, alignment);
    forall k | 0 <= k < 6
      ensures InFile(out, rows[k]) && Contents(out, rows[k]) == secs[k]
    {
      RowContents(arch, secs, alignment, k);
    }
  }

  /** Reading back any six sections laid out as the Image (the first one
      empty) gives each section's header fields and its bytes, with its name
      looked up in section 3. */
  lemma {:induction false} ReadImage(arch: Arch, secs: seq<seq<byte>>, alignment: nat)
    requires |secs| == 6 && secs[0] == []
    requires TableOffset(arch, secs) < Pow256(WordSize(arch)) && alignment < Pow256(WordSize(arch))
    ensures ReadSections(Image(arch, secs, alignment))
         == Some(Table(WordSize(arch), HeaderVals(arch, TableOffset(arch, secs)), DescribedList(arch, secs, alignment)))
  {
    var out := Image(arch, secs, alignment);
    var rows := ShdrRows(arch, RunningOffsets(HeaderSize(arch), secs), secs, alignment);
    HeaderNums(arch, TableOffset(arch, secs));
    HeaderOfImage(arch, secs, alignment);
    ShdrsRead(arch, secs, alignment);
    ImageSections(arch, secs, alignment);
    assert |rows| == 6;
    ReadSectionsOf(out, WordSize(arch), HeaderVals(arch, TableOffset(arch, secs)), rows);
  }

  // ---------------------------------------------------------------------
  // The generated file
  // ---------------------------------------------------------------------

  /** The section names contain no NUL and sit where the headers point. */
  lemma {:induction false} SectionNamesRead()
    ensures CStr(ShStrTab(), 0) == []
    ensures CStr(ShStrTab(), 1) == DataName
    ensures CStr(ShStrTab(), 7) == RodataName
    ensures CStr(ShStrTab(), 15) == ShstrtabName
    ensures CStr(ShStrTab(), 25) == SymtabName
    ensures CStr(ShStrTab(), 33) == StrtabName
  {
    AsciiNoNul(".data");
    AsciiNoNul(".rodata");
    AsciiNoNul(".shstrtab");
    AsciiNoNul(".symtab");
    AsciiNoNul(".strtab");
    ShStrTabLayout();
    NameTableEmpty(SectionNames);
    NameTableAt(SectionNames, 0);
    NameTableAt(SectionNames, 1);
    NameTableAt(SectionNames, 2);
    NameTableAt(SectionNames, 3);
    NameTableAt(SectionNames, 4);
  }

  /** The six sections as intended, around the given contents: named in
      section-index order, with the types, flags, links and alignments the
      generator writes into their headers. */
  function Intended(arch: Arch, secs: seq<seq<byte>>, alignment: nat): (r: seq<Section>)
    requires |secs| == 6
  {
    var w := WordSize(arch);
    [Section([], 0, 0, secs[0], 0, 0, 0, 0),
     Section(DataName, SHT_PROGBITS, 3, secs[1], 0, 0, alignment, 0),
     Section(RodataName, SHT_PROGBITS, 2, secs[2], 0, 0, w, 0),
     Section(ShstrtabName, SHT_STRTAB, 0, secs[3], 0, 0, 1, 0),
     Section(SymtabName, SHT_SYMTAB, 0, secs[4], 5, 3, w, Size(SymShape(w))),
     Section(StrtabName, SHT_STRTAB, 0, secs[5], 0, 0, 1, 0)]
  }

  /** Where the generator's section headers point into the section-name table. */
  const NameOffsets: seq<nat> := [0, 1, 7, 15, 25, 33]

  /** Every field of header k but the position one is what section k intends. */
  lemma {:induction false} RowFields(arch: Arch, offs: seq<nat>, secs: seq<seq<byte>>, alignment: nat, k: nat)
    requires |offs| == 6 && |secs| == 6 && k < 6
    ensures var row := ShdrRows(arch, offs, secs, alignment)[k];
      var s := Intended(arch, secs, alignment)[k];
      Num(row, 0) == NameOffsets[k] && Num(row, 1) == s.kind && Num(row, 2) == s.flags
      && Num(row, 6) == s.link && Num(row, 7) == s.info && Num(row, 8) == s.align
      && Num(row, 9) == s.entsize && s.content == secs[k]
      && s.name == ([[]] + SectionNames)[k]
  {
  }

  /** The name at the offset header k gives is the name section k intends. */
  lemma {:induction false} NameAt(k: nat)
    requires k < 6
    ensures CStr(ShStrTab(), NameOffsets[k]) == ([[]] + SectionNames)[k]
  {
    SectionNamesRead();
  }

  /** Header k describes intended section k. */
  lemma {:induction false} DescribedAt(arch: Arch, secs: seq<seq<byte>>, alignment: nat, k: nat)
    requires |secs| == 6 && secs[3] == ShStrTab() && k < 6
    ensures Described(arch, secs, alignment, k) == Intended(arch, secs, alignment)[k]
  {
    RowFields(arch, RunningOffsets(HeaderSize(arch), secs), secs, alignment, k);
    NameAt(k);
  }

  /** With the section-name table in section 3, the headers name and
      describe the six sections as intended, whatever their contents. */
  lemma {:induction false} DescribedNames(arch: Arch, secs: seq<seq<byte>>, alignment: nat)
    requires |secs| == 6 && secs[3] == ShStrTab()
    ensures DescribedList(arch, secs, alignment) == Intended(arch, secs, alignment)
  {
    forall k | 0 <= k < 6
      ensures DescribedList(arch, secs, alignment)[k] == Intended(arch, secs, alignment)[k]
    {
      DescribedAt(arch, secs, alignment, k);
    }
  }

  /** The section headers of the generated file describe the intended sections. */
  lemma {:induction false} SectionsDescribed(data: seq<byte>, name: seq<byte>, alignment: nat, arch: Arch)
    requires Fits(|data|, |name|, alignment, arch)
    ensures var secs := Sections(data, name, alignment, arch);
      DescribedList(arch, secs, alignment) == Intended(arch, secs, alignment)
      && Intended(arch, secs, alignment) == ExpectedSections(data, name, alignment, arch)
  {
    DescribedNames(arch, Sections(data, name, alignment, arch), alignment);
  }

  /** The generator's symbol table is the first one, at index 4. */
  lemma {:induction false} FindSymtab(arch: Arch, secs: seq<seq<byte>>, alignment: nat)
    requires |secs| == 6
    ensures FindKind(Intended(arch, secs, alignment), SHT_SYMTAB, 0) == Some(4)
  {
    var l := Intended(arch, secs, alignment);
    assert FindKind(l, SHT_SYMTAB, 4) == Some(4);
    assert FindKind(l, SHT_SYMTAB, 3) == Some(4);
    assert FindKind(l, SHT_SYMTAB, 2) == Some(4);
    assert FindKind(l, SHT_SYMTAB, 1) == Some(4);
  }

  /** Every symbol field fits its slot when the name offsets fit 32 bits and
      the .data length fits a word. */
  lemma {:induction false} SymRowsConform(arch: Arch, nameLen: nat, aligned: nat)
    requires 2 * nameLen + 12 < Pow256(4) && aligned < Pow256(WordSize(arch))
    ensures forall k :: 0 <= k < 6 ==> AllConform(SymShape(WordSize(arch)), SymRows(arch, nameLen, aligned)[k])
  {
    Pow256Values();
    SymRowsFit(arch, nameLen, aligned);
  }

  /** The symbol table holds exactly six records. */
  lemma {:induction false} SymTabCount(arch: Arch, nameLen: nat, aligned: nat)
    ensures |SymTab(arch, nameLen, aligned)| / Size(SymShape(WordSize(arch))) == 6
  {
    SymShapeSizes();
    if WordSize(arch) == 8 {
      assert |SymTab(arch, nameLen, aligned)| == 144;
    } else {
      assert |SymTab(arch, nameLen, aligned)| == 96;
    }
  }

  /** The symbol table reads back as the records written, normalised. */
  lemma {:induction false} SymTabRecords(arch: Arch, nameLen: nat, aligned: nat)
    ensures SymTab(arch, nameLen, aligned) == [] + Records(SymShape(WordSize(arch)), SymRows(arch, nameLen, aligned)) + []
    ensures RowsFit(SymShape(WordSize(arch)), SymRows(arch, nameLen, aligned))
    ensures ReadTable(SymShape(WordSize(arch)), SymTab(arch, nameLen, aligned), 0, 6)
         == Some(NormalRows(SymShape(WordSize(arch)), SymRows(arch, nameLen, aligned)))
  {
    var shape := SymShape(WordSize(arch));
    var rows := SymRows(arch, nameLen, aligned);
    SymRowsFit(arch, nameLen, aligned);
    assert SymTab(arch, nameLen, aligned) == [] + Records(shape, rows) + [];
    ReadTableRecords(SymTab(arch, nameLen, aligned), [], shape, rows, []);
  }

  /** The symbol table reads back as the six records written. */
  lemma {:induction false} SymTabRead(arch: Arch, nameLen: nat, aligned: nat)
    requires 2 * nameLen + 12 < Pow256(4) && aligned < Pow256(WordSize(arch))
    ensures var tab := SymTab(arch, nameLen, aligned);
      var shape := SymShape(WordSize(arch));
      |tab| / Size(shape) == 6 && ReadTable(shape, tab, 0, 6) == Some(SymRows(arch, nameLen, aligned))
  {
    SymTabCount(arch, nameLen, aligned);
    SymTabRecords(arch, nameLen, aligned);
    SymRowsConform(arch, nameLen, aligned);
    NormalRowsConforming(SymShape(WordSize(arch)), SymRows(arch, nameLen, aligned));
  }

  /** The three symbol names contain no NUL when the base name has none. */
  lemma {:induction false} SymbolNamesClean(name: seq<byte>)
    requires NoNul(name)
    ensures forall k :: 0 <= k < 3 ==> NoNul(SymbolNames(name)[k])
  {
    SuffixesClean();
    assert NoNul(name + DataSuffix);
    assert NoNul(name + EndSuffix);
    assert NoNul(name + SizeSuffix);
  }

  /** The symbol names sit where the symbols point. */
  lemma {:induction false} SymbolNamesRead(name: seq<byte>)
    requires NoNul(name)
    ensures CStr(StrTab(name), 0) == []
    ensures CStr(StrTab(name), 1) == name + DataSuffix
    ensures CStr(StrTab(name), |name| + 7) == name + EndSuffix
    ensures CStr(StrTab(name), 2 * |name| + 12) == name + SizeSuffix
  {
    SymbolNamesClean(name);
    StrTabLayout(name);
    NameTableEmpty(SymbolNames(name));
    NameTableAt(SymbolNames(name), 0);
    NameTableAt(SymbolNames(name), 1);
    NameTableAt(SymbolNames(name), 2);
  }

  /** Where the generator's symbols point into the symbol-name table. */
  function SymNameOffsets(nameLen: nat): seq<nat>
  {
    [0, 0, 0, 1, nameLen + 7, 2 * nameLen + 12]
  }

  /** Every field of symbol k but its name is what symbol k intends. */
  lemma {:induction false} SymRowFields(arch: Arch, name: seq<byte>, aligned: nat, k: nat)
    requires k < 6
    ensures var sym := SymbolOf(WordSize(arch), StrTab(name), SymRows(arch, |name|, aligned)[k]);
      var g := Globals(name, aligned, arch)[k];
      Num(SymRows(arch, |name|, aligned)[k], 0) == SymNameOffsets(|name|)[k]
      && sym.info == g.info && sym.shndx == g.shndx && sym.value == g.value && sym.size == g.size
      && g.name == ([[], [], []] + SymbolNames(name))[k]
  {
  }

  /** The name at the offset symbol k gives is the name symbol k intends. */
  lemma {:induction false} SymbolNameAt(name: seq<byte>, k: nat)
    requires NoNul(name) && k < 6
    ensures CStr(StrTab(name), SymNameOffsets(|name|)[k]) == ([[], [], []] + SymbolNames(name))[k]
  {
    SymbolNamesRead(name);
  }

  /** Symbol k reads back as intended. */
  lemma {:induction false} SymbolAt(arch: Arch, name: seq<byte>, aligned: nat, k: nat)
    requires NoNul(name) && k < 6
    ensures SymbolOf(WordSize(arch), StrTab(name), SymRows(arch, |name|, aligned)[k])
         == Globals(name, aligned, arch)[k]
  {
    SymRowFields(arch, name, aligned, k);
    SymbolNameAt(name, k);
  }

  /** The six symbol records, named from the symbol-name table, are the
      intended symbols. */
  lemma {:induction false} SymbolsNamed(arch: Arch, name: seq<byte>, aligned: nat)
    requires NoNul(name)
    ensures SymbolList(WordSize(arch), StrTab(name), SymRows(arch, |name|, aligned))
         == Globals(name, aligned, arch)
  {
    SymRowsFit(arch, |name|, aligned);
    forall k | 0 <= k < 6
      ensures SymbolList(WordSize(arch), StrTab(name), SymRows(arch, |name|, aligned))[k]
           == Globals(name, aligned, arch)[k]
    {
      SymbolAt(arch, name, aligned, k);
    }
  }

  /** The symbols of the intended sections, around a symbol table and a
      symbol-name table as generated, are the intended symbols. */
  lemma {:induction false} SymbolsRead(arch: Arch, secs: seq<seq<byte>>, alignment: nat, name: seq<byte>, aligned: nat)
    requires |secs| == 6 && secs[4] == SymTab(arch, |name|, aligned) && secs[5] == StrTab(name)
    requires 2 * |name| + 12 < Pow256(4) && aligned < Pow256(WordSize(arch)) && NoNul(name)
    ensures Symbols(WordSize(arch), Intended(arch, secs, alignment)) == Some(Globals(name, aligned, arch))
  {
    FindSymtab(arch, secs, alignment);
    SymTabRead(arch, |name|, aligned);
    SymbolsNamed(arch, name, aligned);
  }

  /** The padded blob is shorter than the section header table's offset,
      so its length fits a word. */
  lemma {:induction false} AlignedFits(data: seq<byte>, name: seq<byte>, alignment: nat, arch: Arch)
    requires Fits(|data|, |name|, alignment, arch)
    ensures |AlignData(data, alignment)| < Pow256(WordSize(arch))
  {
  }

  /** The symbols of the generated file read back as intended. */
  lemma {:induction false} SymbolsOfSections(data: seq<byte>, name: seq<byte>, alignment: nat, arch: Arch)
    requires Fits(|data|, |name|, alignment, arch) && NoNul(name)
    ensures Symbols(WordSize(arch), Intended(arch, Sections(data, name, alignment, arch), alignment))
         == Some(Globals(name, |AlignData(data, alignment)|, arch))
  {
    AlignedFits(data, name, alignment, arch);
    SymbolsRead(arch, Sections(data, name, alignment, arch), alignment, name, |AlignData(data, alignment)|);
  }

  /** The generated file's header and section header table read back. */
  lemma {:induction false} SectionsOfEncode(data: seq<byte>, name: seq<byte>, alignment: nat, arch: Arch)
    requires Fits(|data|, |name|, alignment, arch)
    ensures var secs := Sections(data, name, alignment, arch);
      ReadSections(Encode(data, name, alignment, arch))
      == Some(Table(WordSize(arch), HeaderVals(arch, TableOffset(arch, secs)), DescribedList(arch, secs, alignment)))
  {
    var secs := Sections(data, name, alignment, arch);
    EncodeLayout(data, name, alignment, arch);
    BuildLayout(arch, secs, alignment);
    ReadImage(arch, secs, alignment);
  }

  /** Reading back what the generator writes gives the intended object: a
      relocatable file for the target's machine whose sections and symbols
      are those the generator means to emit. */
  lemma {:induction false} RoundTrip(data: seq<byte>, name: seq<byte>, alignment: nat, arch: Arch)
    requires Fits(|data|, |name|, alignment, arch) && NoNul(name)
    ensures Read(Encode(data, name, alignment, arch)) == Some(Expected(data, name, alignment, arch))
  {
    var secs := Sections(data, name, alignment, arch);
    SectionsOfEncode(data, name, alignment, arch);
    SectionsDescribed(data, name, alignment, arch);
    SymbolsOfSections(data, name, alignment, arch);
    ReadObject(Encode(data, name, alignment, arch), arch, TableOffset(arch, secs),
               ExpectedSections(data, name, alignment, arch), Globals(name, |AlignData(data, alignment)|, arch));
  }

  /** A file whose header is the generator's and whose sections and symbols
      read back reads as a relocatable object for the target's machine. */
  lemma {:induction false} ReadObject(out: seq<byte>, arch: Arch, shoff: nat, secs: seq<Section>, syms: seq<Symbol>)
    requires ReadSections(out) == Some(Table(WordSize(arch), HeaderVals(arch, shoff), secs))
    requires Symbols(WordSize(arch), secs) == Some(syms)
    ensures Read(out) == Some(Object(WordSize(arch), 1, Machine(arch), secs, syms))
  {
    HeaderNums(arch, shoff);
  }

  /** The file type and machine fields of the generated header. */
  lemma {:induction false} HeaderNums(arch: Arch, shoff: nat)
    ensures Num(HeaderVals(arch, shoff), 0) == 1 && Num(HeaderVals(arch, shoff), 1) == Machine(arch)
    ensures Num(HeaderVals(arch, shoff), ShoffField) == shoff
    ensures Num(HeaderVals(arch, shoff), 11) == 6 && Num(HeaderVals(arch, shoff), 12) == 3
  {
  }
}
