/** A reader for COFF objects, the partner of `Coff.Encode`: it follows
    PointerToSymbolTable, the section headers and the string table the way
    a linker does, and `RoundTrip` shows that it recovers from the
    generated file exactly the section and the symbols the generator means
    to emit. */
module CoffReader {
  import opened Bytes
  import opened Layout
  import opened Inputs
  import opened Align
  import opened Coff

  datatype Section = Section(name: seq<byte>, virtualSize: nat, virtualAddress: nat,
                             content: seq<byte>, characteristics: nat)

  datatype Symbol = Symbol(name: seq<byte>, value: nat, section: nat, kind: nat, storage: nat, aux: nat)

  /** The header fields a linker looks at, the sections, the symbols, and
      how many bytes follow the string table. */
  datatype Object = Object(machine: nat, timeDateStamp: nat, sections: seq<Section>,
                           symbols: seq<Symbol>, trailing: nat)

  /** Section header row lies inside the file (PointerToRawData + SizeOfRawData). */
  predicate InFile(out: seq<byte>, row: seq<Val>)
  {
    Num(row, 4) + Num(row, 3) <= |out|
  }

  function SectionOf(out: seq<byte>, row: seq<Val>): Section
    requires InFile(out, row)
  {
    Section(CStr(Text(row, 0), 0), Num(row, 1), Num(row, 2),
            out[Num(row, 4)..Num(row, 4) + Num(row, 3)], Num(row, 9))
  }

  function SectionList(out: seq<byte>, rows: seq<seq<Val>>): (r: seq<Section>)
    requires forall i :: 0 <= i < |rows| ==> InFile(out, rows[i])
    ensures |r| == |rows|
  {
    seq(|rows|, i requires 0 <= i < |rows| => SectionOf(out, rows[i]))
  }

  /** A symbol's name: from the string table when its first four bytes are
      zero (the next four give the offset), otherwise inline up to the first
      NUL. */
  function NameOf(field: seq<byte>, strtab: seq<byte>): seq<byte>
  {
    if |field| == 8 && field[..4] == [0, 0, 0, 0] then CStr(strtab, FromLE(field[4..])) else CStr(field, 0)
  }

  function SymbolOf(strtab: seq<byte>, row: seq<Val>): Symbol
  {
    Symbol(NameOf(Text(row, 0), strtab), Num(row, 1), Num(row, 2), Num(row, 3), Num(row, 4), Num(row, 5))
  }

  function SymbolList(strtab: seq<byte>, rows: seq<seq<Val>>): (r: seq<Symbol>)
    ensures |r| == |rows|
  {
    seq(|rows|, i requires 0 <= i < |rows| => SymbolOf(strtab, rows[i]))
  }

  /** Where the string table starts: right after the symbol records. */
  function StringStart(h: seq<Val>): nat
  {
    Num(h, 3) + Stride(Num(h, 4), RecordSize)
  }

  /** Reads the file header, the section headers after the optional header,
      the symbol table and the string table, or None when any of them lies
      outside the file or the string table's size field is below 4. */
  function Read(out: seq<byte>): Option<Object>
  {
    match UnpackAt(HeaderShape, out, 0)
    case None => None
    case Some(h) => ReadSections(out, h)
  }

  /** The section headers follow the file header and the optional header. */
  function ReadSections(out: seq<byte>, h: seq<Val>): Option<Object>
  {
    match ReadTable(SectionShape, out, HeaderSize + Num(h, 5), Num(h, 1))
    case None => None
    case Some(rows) =>
      if !(forall i :: 0 <= i < |rows| ==> InFile(out, rows[i])) then None
      else ReadSymbols(out, h, rows)
  }

  /** NumberOfSymbols records at PointerToSymbolTable. */
  function ReadSymbols(out: seq<byte>, h: seq<Val>, rows: seq<seq<Val>>): Option<Object>
    requires forall i :: 0 <= i < |rows| ==> InFile(out, rows[i])
  {
    match ReadTable(ShortShape, out, Num(h, 3), Num(h, 4))
    case None => None
    case Some(syms) => ReadStrings(out, h, rows, syms)
  }

  /** The string table after the symbol records, as long as its size field says. */
  function ReadStrings(out: seq<byte>, h: seq<Val>, rows: seq<seq<Val>>, syms: seq<seq<Val>>): Option<Object>
    requires forall i :: 0 <= i < |rows| ==> InFile(out, rows[i])
  {
    var start := StringStart(h);
    if start + 4 > |out| then None
    else
      var size := FromLE(out[start..start + 4]);
      if size < 4 || start + size > |out| then None
      else
        Some(Object(Num(h, 0), Num(h, 2), SectionList(out, rows),
                    SymbolList(out[start..start + size], syms), |out| - (start + size)))
  }

  // ---------------------------------------------------------------------
  // What the generator means to emit
  // ---------------------------------------------------------------------

  /** The object the generator means to emit: one readable .rdata section of
      initialised data, aligned as requested, holding the padded blob and
      then its length; the static section symbol; name_data at the start of
      the section, name_end and name_size at the end of the padded blob,
      where the length is. */
  function Expected(data: seq<byte>, name: seq<byte>, alignment: nat, arch: Arch): (o: Object)
    requires Fits(|data|, name, alignment, arch)
    ensures |o.sections| == 1 && |o.symbols| == 4
    ensures var body := o.sections[0].content;
      |data| <= |body| && body[..|data|] == data
    ensures var body := o.sections[0].content;
      o.symbols[2].value == o.symbols[3].value
      && o.symbols[3].value + WordSize(arch) == |body|
      && o.symbols[3].value % alignment == 0
      && FromLE(body[o.symbols[3].value..]) == |data|
    ensures var body := o.sections[0].content;
      o.symbols[3].value == |AlignData(data, alignment)|
      && (forall i :: |data| <= i < o.symbols[3].value ==> body[i] == 0)
    ensures o.symbols[1].name == Prefix(arch) + name + DataSuffix && o.symbols[1].value == 0
    ensures o.symbols[2].name == Prefix(arch) + name + EndSuffix
    ensures o.symbols[3].name == Prefix(arch) + name + SizeSuffix
  {
    DataFits(|data|, name, alignment, arch);
    var aligned := AlignData(data, alignment);
    var comb := Combined(data, alignment, arch);
    assert comb[..|data|] == aligned[..|data|];
    assert comb[|aligned|..] == SizeConstant(|data|, arch);
    Object(Machine(arch), 0, [Section(RdataName, 0, 0, comb, Characteristics(alignment))],
           Globals(name, arch, |aligned|), 0)
  }

  /** The four symbols: the static section symbol, then name_data at the
      start of the section and name_end and name_size `end` bytes in. */
  function Globals(name: seq<byte>, arch: Arch, end: nat): (r: seq<Symbol>)
    ensures |r| == 4
  {
    var names := SymbolNames(name, arch);
    [Symbol(RdataName, 0, 1, 0, 3, 0),
     Symbol(names[0], 0, 1, 0, 2, 0),
     Symbol(names[1], end, 1, 0, 2, 0),
     Symbol(names[2], end, 1, 0, 2, 0)]
  }

  // ---------------------------------------------------------------------
  // Reading back the parts of a file laid out like the generator's
  // ---------------------------------------------------------------------

  /** A file laid out as the generator lays it out. */
  function Image(hv: seq<Val>, sv: seq<Val>, comb: seq<byte>, symtab: seq<byte>, strtab: seq<byte>): seq<byte>
    requires |hv| == |HeaderShape| && |sv| == |SectionShape|
  {
    Pack(HeaderShape, hv) + Pack(SectionShape, sv) + comb + symtab + strtab
  }

  lemma {:induction false} HeaderOfImage(hv: seq<Val>, sv: seq<Val>, comb: seq<byte>, symtab: seq<byte>, strtab: seq<byte>)
    requires AllConform(HeaderShape, hv) && |sv| == |SectionShape|
    ensures UnpackAt(HeaderShape, Image(hv, sv, comb, symtab, strtab), 0) == Some(hv)
  {
    var rest := Pack(SectionShape, sv) + comb + symtab + strtab;
    assert Image(hv, sv, comb, symtab, strtab) == [] + Pack(HeaderShape, hv) + rest;
    UnpackAtConforming(Image(hv, sv, comb, symtab, strtab), 0, [], HeaderShape, hv, rest);
  }

  lemma {:induction false} SectionOfImage(hv: seq<Val>, sv: seq<Val>, comb: seq<byte>, symtab: seq<byte>, strtab: seq<byte>)
    requires |hv| == |HeaderShape| && AllConform(SectionShape, sv)
    ensures ReadTable(SectionShape, Image(hv, sv, comb, symtab, strtab), HeaderSize, 1) == Some([sv])
  {
    var out := Image(hv, sv, comb, symtab, strtab);
    ShapeSizes();
    assert RowsFit(SectionShape, [sv]);
    assert PackedRows(SectionShape, [sv]) == [Pack(SectionShape, sv)];
    ConcatOne(Pack(SectionShape, sv));
    assert out == Pack(HeaderShape, hv) + Records(SectionShape, [sv]) + (comb + symtab + strtab);
    ReadTableRecords(out, Pack(HeaderShape, hv), SectionShape, [sv], comb + symtab + strtab);
    NormalRowsConforming(SectionShape, [sv]);
  }

  lemma {:induction false} ContentOfImage(hv: seq<Val>, sv: seq<Val>, comb: seq<byte>, symtab: seq<byte>, strtab: seq<byte>)
    requires |hv| == |HeaderShape| && |sv| == |SectionShape|
    ensures var out := Image(hv, sv, comb, symtab, strtab);
      DataOffset + |comb| + |symtab| + |strtab| == |out|
      && out[DataOffset..DataOffset + |comb|] == comb
  {
    ShapeSizes();
    var head := Pack(HeaderShape, hv) + Pack(SectionShape, sv);
    SliceAt(head, comb, symtab + strtab, 0, comb);
    assert Image(hv, sv, comb, symtab, strtab) == head + comb + (symtab + strtab);
  }

  lemma {:induction false} SymbolsOfImage(hv: seq<Val>, sv: seq<Val>, comb: seq<byte>, rows: seq<seq<Val>>, strtab: seq<byte>)
    requires |hv| == |HeaderShape| && |sv| == |SectionShape|
    requires forall k :: 0 <= k < |rows| ==> AllConform(ShortShape, rows[k])
    ensures RowsFit(ShortShape, rows)
    ensures ReadTable(ShortShape, Image(hv, sv, comb, Records(ShortShape, rows), strtab), DataOffset + |comb|, |rows|)
         == Some(rows)
  {
    NormalRowsConforming(ShortShape, rows);
    ShapeSizes();
    var head := Pack(HeaderShape, hv) + Pack(SectionShape, sv) + comb;
    ReadTableRecords(Image(hv, sv, comb, Records(ShortShape, rows), strtab), head, ShortShape, rows, strtab);
  }

  /** Everything before the string table: the headers, the contents and the records. */
  lemma {:induction false} FrontLength(hv: seq<Val>, sv: seq<Val>, comb: seq<byte>, symtab: seq<byte>)
    requires |hv| == |HeaderShape| && |sv| == |SectionShape|
    ensures |Pack(HeaderShape, hv) + Pack(SectionShape, sv) + comb + symtab| == DataOffset + |comb| + |symtab|
  {
    ShapeSizes();
  }

  /** The string table is found and read in full when the file ends with it
      and its size field is its length. */
  lemma {:induction false} StringsFound(out: seq<byte>, front: seq<byte>, h: seq<Val>, rows: seq<seq<Val>>,
                                        syms: seq<seq<Val>>, strtab: seq<byte>)
    requires forall i :: 0 <= i < |rows| ==> InFile(out, rows[i])
    requires out == front + strtab && StringStart(h) == |front|
    requires |strtab| >= 4 && FromLE(strtab[..4]) == |strtab|
    ensures ReadStrings(out, h, rows, syms)
         == Some(Object(Num(h, 0), Num(h, 2), SectionList(out, rows), SymbolList(strtab, syms), 0))
  {
    assert out[|front|..|front| + 4] == strtab[..4];
    assert out[|front|..|front| + |strtab|] == strtab;
  }

  /** Read assembles the object from the parts it finds. */
  lemma {:induction false} ReadFromParts(out: seq<byte>, h: seq<Val>, rows: seq<seq<Val>>, syms: seq<seq<Val>>, obj: Object)
    requires UnpackAt(HeaderShape, out, 0) == Some(h)
    requires ReadTable(SectionShape, out, HeaderSize + Num(h, 5), Num(h, 1)) == Some(rows)
    requires forall i :: 0 <= i < |rows| ==> InFile(out, rows[i])
    requires ReadTable(ShortShape, out, Num(h, 3), Num(h, 4)) == Some(syms)
    requires ReadStrings(out, h, rows, syms) == Some(obj)
    ensures Read(out) == Some(obj)
  {
  }

  // ---------------------------------------------------------------------
  // Names
  // ---------------------------------------------------------------------

  /** An inline name reads back from its padded field. */
  lemma {:induction false} ShortNameRead(nm: seq<byte>, strtab: seq<byte>)
    requires NoNul(nm) && 0 < |nm| <= 8
    ensures NameOf(PadTo(nm, 8), strtab) == nm
  {
    CStrPadded(nm, 8);
    assert PadTo(nm, 8)[..4][0] == nm[0];
  }

  /** A long name reads back from the string table through its offset. */
  lemma {:induction false} LongNameRead(off: nat, strtab: seq<byte>)
    requires off < Pow256(4)
    ensures NameOf(LE(0, 4) + LE(off, 4), strtab) == CStr(strtab, off)
  {
    var field := LE(0, 4) + LE(off, 4);
    Pow256Values();
    assert LE(0, 4) == [0, 0, 0, 0];
    assert field[4..] == LE(off, 4);
    FromLEOfLE(off, 4);
  }

  /** Each of the generator's global symbols reads back under its name. */
  lemma {:induction false} GlobalNameRead(name: seq<byte>, arch: Arch, k: nat)
    requires NoNul(name) && k < 3 && 4 + |StringBody(name, arch)| < Pow256(4)
    ensures var names := SymbolNames(name, arch);
      NameOf(NameField(names[k], StrOffsets(name, arch)[k]), StringTable(name, arch)) == names[k]
  {
    var names := SymbolNames(name, arch);
    NamesClean(name, arch);
    if IsLong(names[k]) {
      StringOffsets(name, arch, k);
      LongNameRead(StrOffsets(name, arch)[k], StringTable(name, arch));
    } else {
      ShortNameRead(names[k], StringTable(name, arch));
    }
  }

  /** The section symbol's name reads back. */
  lemma {:induction false} RdataNameRead(strtab: seq<byte>)
    ensures NameOf(NameField(RdataName, 0), strtab) == RdataName
    ensures CStr(PadTo(RdataName, 8), 0) == RdataName
  {
    AsciiNoNul(".rdata");
    ShortNameRead(RdataName, strtab);
    CStrPadded(RdataName, 8);
  }

  /** A symbol record reads back with its name field resolved and its other
      fields as packed. */
  lemma {:induction false} RecordSymbol(nm: seq<byte>, off: nat, value: nat, storage: nat, strtab: seq<byte>)
    ensures SymbolOf(strtab, RecordVals(nm, off, value, storage))
         == Symbol(NameOf(NameField(nm, off), strtab), value, 1, 0, storage, 0)
  {
  }

  /** Symbol record k reads back as intended symbol k. */
  lemma {:induction false} SymbolAt(name: seq<byte>, arch: Arch, end: nat, k: nat)
    requires NoNul(name) && 4 + |StringBody(name, arch)| < Pow256(4) && k < 4
    ensures SymbolOf(StringTable(name, arch), SymbolRows(name, arch, end)[k]) == Globals(name, arch, end)[k]
  {
    if k == 0 {
      RdataNameRead(StringTable(name, arch));
      RecordSymbol(RdataName, 0, 0, 3, StringTable(name, arch));
    } else {
      GlobalSymbolAt(name, arch, end, k);
    }
  }

  /** The same for the three global symbols. */
  lemma {:induction false} GlobalSymbolAt(name: seq<byte>, arch: Arch, end: nat, k: nat)
    requires NoNul(name) && 4 + |StringBody(name, arch)| < Pow256(4) && 1 <= k < 4
    ensures SymbolOf(StringTable(name, arch), SymbolRows(name, arch, end)[k]) == Globals(name, arch, end)[k]
  {
    GlobalNameRead(name, arch, k - 1);
    RecordSymbol(SymbolNames(name, arch)[k - 1], StrOffsets(name, arch)[k - 1],
      if k == 1 then 0 else end, 2, StringTable(name, arch));
  }

  /** The four symbol records read back as the intended symbols. */
  lemma {:induction false} SymbolsNamed(name: seq<byte>, arch: Arch, end: nat)
    requires NoNul(name) && 4 + |StringBody(name, arch)| < Pow256(4)
    ensures SymbolList(StringTable(name, arch), SymbolRows(name, arch, end)) == Globals(name, arch, end)
  {
    forall k | 0 <= k < 4
      ensures SymbolList(StringTable(name, arch), SymbolRows(name, arch, end))[k] == Globals(name, arch, end)[k]
    {
      SymbolAt(name, arch, end, k);
    }
  }

  // ---------------------------------------------------------------------
  // The generated file
  // ---------------------------------------------------------------------

  lemma {:induction false} HeaderValsConform(arch: Arch, symoff: nat)
    requires symoff < Pow256(4)
    ensures AllConform(HeaderShape, HeaderVals(arch, symoff))
  {
    Pow256Values();
  }

  lemma {:induction false} SectionValsConform(size: nat, alignment: nat)
    requires size < Pow256(4)
    ensures AllConform(SectionShape, SectionVals(size, alignment))
  {
    Pow256Values();
  }

  lemma {:induction false} SymbolRowsConform(name: seq<byte>, arch: Arch, end: nat)
    requires end < Pow256(4)
    ensures forall k :: 0 <= k < 4 ==> AllConform(ShortShape, SymbolRows(name, arch, end)[k])
  {
    Pow256Values();
  }

  /** The string table's size field is its length. */
  lemma {:induction false} StringSizeField(name: seq<byte>, arch: Arch)
    requires 4 + |StringBody(name, arch)| < Pow256(4)
    ensures FromLE(StringTable(name, arch)[..4]) == |StringTable(name, arch)|
  {
    var t := StringTable(name, arch);
    assert t[..4] == LE(4 + |StringBody(name, arch)|, 4);
    FromLEOfLE(4 + |StringBody(name, arch)|, 4);
  }

  /** The one section header describes the .rdata contents. */
  lemma {:induction false} RdataSection(out: seq<byte>, comb: seq<byte>, alignment: nat)
    requires DataOffset + |comb| <= |out| && out[DataOffset..DataOffset + |comb|] == comb
    ensures InFile(out, SectionVals(|comb|, alignment))
    ensures SectionList(out, [SectionVals(|comb|, alignment)])
         == [Section(RdataName, 0, 0, comb, Characteristics(alignment))]
  {
    RdataNameRead([]);
  }

  /** The parts of a file laid out like the generator's that reading relies
      on: offsets fit their fields, four fitting records, and a string table
      whose size field is its length. */
  predicate ImageParts(comb: seq<byte>, rows: seq<seq<Val>>, strtab: seq<byte>)
  {
    && DataOffset + |comb| < Pow256(4) && |rows| == 4
    && (forall k :: 0 <= k < 4 ==> AllConform(ShortShape, rows[k])) && RowsFit(ShortShape, rows)
    && |strtab| >= 4 && FromLE(strtab[..4]) == |strtab|
  }

  /** A file laid out as the generator lays it out, with any section
      contents, symbol records and string table, reads back as those. */
  lemma {:induction false} ReadImage(out: seq<byte>, arch: Arch, alignment: nat, comb: seq<byte>, rows: seq<seq<Val>>,
                                     strtab: seq<byte>)
    requires ImageParts(comb, rows, strtab)
    requires out == Image(HeaderVals(arch, DataOffset + |comb|), SectionVals(|comb|, alignment), comb,
                          Records(ShortShape, rows), strtab)
    ensures Read(out)
         == Some(Object(Machine(arch), 0, [Section(RdataName, 0, 0, comb, Characteristics(alignment))],
                        SymbolList(strtab, rows), 0))
  {
    SectionsOfImage(out, arch, alignment, comb, rows, strtab);
    SymbolsOfImageAt(out, arch, alignment, comb, rows, strtab);
    ReadFromParts(out, HeaderVals(arch, DataOffset + |comb|), [SectionVals(|comb|, alignment)], rows,
      Object(Machine(arch), 0, SectionList(out, [SectionVals(|comb|, alignment)]), SymbolList(strtab, rows), 0));
  }

  /** The header and the one section header of such a file read back. */
  lemma {:induction false} SectionsOfImage(out: seq<byte>, arch: Arch, alignment: nat, comb: seq<byte>,
                                           rows: seq<seq<Val>>, strtab: seq<byte>)
    requires ImageParts(comb, rows, strtab)
    requires out == Image(HeaderVals(arch, DataOffset + |comb|), SectionVals(|comb|, alignment), comb,
                          Records(ShortShape, rows), strtab)
    ensures UnpackAt(HeaderShape, out, 0) == Some(HeaderVals(arch, DataOffset + |comb|))
    ensures ReadTable(SectionShape, out, HeaderSize + Num(HeaderVals(arch, DataOffset + |comb|), 5),
                      Num(HeaderVals(arch, DataOffset + |comb|), 1))
         == Some([SectionVals(|comb|, alignment)])
    ensures InFile(out, SectionVals(|comb|, alignment))
    ensures SectionList(out, [SectionVals(|comb|, alignment)])
         == [Section(RdataName, 0, 0, comb, Characteristics(alignment))]
  {
    HeaderValsConform(arch, DataOffset + |comb|);
    HeaderOfImage(HeaderVals(arch, DataOffset + |comb|), SectionVals(|comb|, alignment), comb, Records(ShortShape, rows), strtab);
    SectionTableOfImage(arch, alignment, comb, Records(ShortShape, rows), strtab);
    ContentOfImage(HeaderVals(arch, DataOffset + |comb|), SectionVals(|comb|, alignment), comb, Records(ShortShape, rows), strtab);
    RdataSection(out, comb, alignment);
  }

  /** The header points at one section record, right after itself. */
  lemma {:induction false} SectionTableOfImage(arch: Arch, alignment: nat, comb: seq<byte>, symtab: seq<byte>, strtab: seq<byte>)
    requires DataOffset + |comb| < Pow256(4)
    ensures var hv := HeaderVals(arch, DataOffset + |comb|);
      ReadTable(SectionShape, Image(hv, SectionVals(|comb|, alignment), comb, symtab, strtab),
                HeaderSize + Num(hv, 5), Num(hv, 1))
      == Some([SectionVals(|comb|, alignment)])
  {
    var hv := HeaderVals(arch, DataOffset + |comb|);
    assert |hv| == |HeaderShape|;
    SectionValsConform(|comb|, alignment);
    HeaderNums(arch, DataOffset + |comb|);
    SectionOfImage(hv, SectionVals(|comb|, alignment), comb, symtab, strtab);
  }

  /** The symbol records and the string table of such a file read back. */
  lemma {:induction false} SymbolsOfImageAt(out: seq<byte>, arch: Arch, alignment: nat, comb: seq<byte>,
                                            rows: seq<seq<Val>>, strtab: seq<byte>)
    requires ImageParts(comb, rows, strtab) && InFile(out, SectionVals(|comb|, alignment))
    requires out == Image(HeaderVals(arch, DataOffset + |comb|), SectionVals(|comb|, alignment), comb,
                          Records(ShortShape, rows), strtab)
    ensures ReadTable(ShortShape, out, Num(HeaderVals(arch, DataOffset + |comb|), 3),
                      Num(HeaderVals(arch, DataOffset + |comb|), 4))
         == Some(rows)
    ensures ReadStrings(out, HeaderVals(arch, DataOffset + |comb|), [SectionVals(|comb|, alignment)], rows)
         == Some(Object(Machine(arch), 0, SectionList(out, [SectionVals(|comb|, alignment)]), SymbolList(strtab, rows), 0))
  {
    HeaderNums(arch, DataOffset + |comb|);
    SymbolsOfImage(HeaderVals(arch, DataOffset + |comb|), SectionVals(|comb|, alignment), comb, rows, strtab);
    StringsOfGenerated(arch, alignment, comb, rows, strtab);
  }


  /** The string table of such a file is found after the four records. */
  lemma {:induction false} StringsOfGenerated(arch: Arch, alignment: nat, comb: seq<byte>, rows: seq<seq<Val>>, strtab: seq<byte>)
    requires |rows| == 4 && RowsFit(ShortShape, rows)
    requires DataOffset + |comb| <= |Image(HeaderVals(arch, DataOffset + |comb|), SectionVals(|comb|, alignment), comb,
                                           Records(ShortShape, rows), strtab)|
    requires |strtab| >= 4 && FromLE(strtab[..4]) == |strtab|
    ensures var out := Image(HeaderVals(arch, DataOffset + |comb|), SectionVals(|comb|, alignment), comb,
                             Records(ShortShape, rows), strtab);
      var sv := SectionVals(|comb|, alignment);
      InFile(out, sv)
      ==> ReadStrings(out, HeaderVals(arch, DataOffset + |comb|), [sv], rows)
          == Some(Object(Machine(arch), 0, SectionList(out, [sv]), SymbolList(strtab, rows), 0))
  {
    var hv := HeaderVals(arch, DataOffset + |comb|);
    var sv := SectionVals(|comb|, alignment);
    var front := Pack(HeaderShape, hv) + Pack(SectionShape, sv) + comb + Records(ShortShape, rows);
    var out := Image(hv, sv, comb, Records(ShortShape, rows), strtab);
    StringStartOfImage(arch, comb, rows);
    HeaderNums(arch, DataOffset + |comb|);
    FrontLength(hv, sv, comb, Records(ShortShape, rows));
    if InFile(out, sv) {
      StringsFound(out, front, hv, [sv], rows, strtab);
    }
  }

  /** The machine and timestamp fields of the generated header. */
  lemma {:induction false} HeaderNums(arch: Arch, symoff: nat)
    ensures Num(HeaderVals(arch, symoff), 0) == Machine(arch) && Num(HeaderVals(arch, symoff), 2) == 0
    ensures Num(HeaderVals(arch, symoff), 1) == 1 && Num(HeaderVals(arch, symoff), 5) == 0
    ensures Num(HeaderVals(arch, symoff), 3) == symoff && Num(HeaderVals(arch, symoff), 4) == 4
  {
  }

  /** The header's symbol table pointer and count put the string table right
      after the four records. */
  lemma {:induction false} StringStartOfImage(arch: Arch, comb: seq<byte>, rows: seq<seq<Val>>)
    requires |rows| == 4 && RowsFit(ShortShape, rows)
    ensures StringStart(HeaderVals(arch, DataOffset + |comb|)) == DataOffset + |comb| + |Records(ShortShape, rows)|
  {
    ShapeSizes();
    RecordsLength(ShortShape, rows);
  }

  /** The generated file is laid out as `Image` describes. */
  lemma {:induction false} EncodeImage(data: seq<byte>, name: seq<byte>, alignment: nat, arch: Arch)
    requires Fits(|data|, name, alignment, arch)
    ensures var comb := Combined(data, alignment, arch);
      var rows := SymbolRows(name, arch, |AlignData(data, alignment)|);
      RowsFit(ShortShape, rows)
      && Encode(data, name, alignment, arch)
         == Image(HeaderVals(arch, DataOffset + |comb|), SectionVals(|comb|, alignment), comb,
                  Records(ShortShape, rows), StringTable(name, arch))
  {
    SymbolTableRecords(name, arch, |AlignData(data, alignment)|);
  }

  /** The generated file reads back as its parts, the symbols named from
      its string table. */
  lemma {:induction false} EncodeRead(data: seq<byte>, name: seq<byte>, alignment: nat, arch: Arch)
    requires Fits(|data|, name, alignment, arch)
    ensures Read(Encode(data, name, alignment, arch))
         == Some(Object(Machine(arch), 0,
                        [Section(RdataName, 0, 0, Combined(data, alignment, arch), Characteristics(alignment))],
                        SymbolList(StringTable(name, arch), SymbolRows(name, arch, |AlignData(data, alignment)|)), 0))
  {
    var out, comb, rows, strtab := GeneratedParts(data, name, alignment, arch);
    ReadImage(out, arch, alignment, comb, rows, strtab);
  }

  /** The generator's output and its parts, named. */
  lemma {:induction false} GeneratedParts(data: seq<byte>, name: seq<byte>, alignment: nat, arch: Arch)
    returns (out: seq<byte>, comb: seq<byte>, rows: seq<seq<Val>>, strtab: seq<byte>)
    requires Fits(|data|, name, alignment, arch)
    ensures ImageParts(comb, rows, strtab)
    ensures out == Image(HeaderVals(arch, DataOffset + |comb|), SectionVals(|comb|, alignment), comb,
                         Records(ShortShape, rows), strtab)
    ensures |data| < Pow256(WordSize(arch))
    ensures out == Encode(data, name, alignment, arch) && comb == Combined(data, alignment, arch)
    ensures rows == SymbolRows(name, arch, |AlignData(data, alignment)|) && strtab == StringTable(name, arch)
  {
    DataFits(|data|, name, alignment, arch);
    out := Encode(data, name, alignment, arch);
    comb := Combined(data, alignment, arch);
    rows := SymbolRows(name, arch, |AlignData(data, alignment)|);
    strtab := StringTable(name, arch);
    PartsFit(data, name, alignment, arch, comb, rows, strtab);
    PartsImage(data, name, alignment, arch, out, comb, rows, strtab);
  }

  /** The generator's parts are the kind reading relies on. */
  lemma {:induction false} PartsFit(data: seq<byte>, name: seq<byte>, alignment: nat, arch: Arch,
                                    comb: seq<byte>, rows: seq<seq<Val>>, strtab: seq<byte>)
    requires Fits(|data|, name, alignment, arch) && |data| < Pow256(WordSize(arch))
    requires comb == Combined(data, alignment, arch)
    requires rows == SymbolRows(name, arch, |AlignData(data, alignment)|) && strtab == StringTable(name, arch)
    ensures ImageParts(comb, rows, strtab)
  {
    DataFits(|data|, name, alignment, arch);
    SymbolRowsConform(name, arch, |AlignData(data, alignment)|);
    StringSizeField(name, arch);
  }

  /** The generator's output is laid out as `Image` describes. */
  lemma {:induction false} PartsImage(data: seq<byte>, name: seq<byte>, alignment: nat, arch: Arch,
                                      out: seq<byte>, comb: seq<byte>, rows: seq<seq<Val>>, strtab: seq<byte>)
    requires Fits(|data|, name, alignment, arch) && |data| < Pow256(WordSize(arch)) && ImageParts(comb, rows, strtab)
    requires out == Encode(data, name, alignment, arch) && comb == Combined(data, alignment, arch)
    requires rows == SymbolRows(name, arch, |AlignData(data, alignment)|) && strtab == StringTable(name, arch)
    ensures out == Image(HeaderVals(arch, DataOffset + |comb|), SectionVals(|comb|, alignment), comb,
                         Records(ShortShape, rows), strtab)
  {
    EncodeImage(data, name, alignment, arch);
  }


  /** Reading back what the generator writes gives the intended object: the
      target's machine, one .rdata section holding the padded blob and its
      length, the four intended symbols under their names, and nothing after
      the string table. */
  lemma {:induction false} RoundTrip(data: seq<byte>, name: seq<byte>, alignment: nat, arch: Arch)
    requires Fits(|data|, name, alignment, arch) && NoNul(name)
    ensures Read(Encode(data, name, alignment, arch)) == Some(Expected(data, name, alignment, arch))
  {
    EncodeRead(data, name, alignment, arch);
    SymbolsNamed(name, arch, |AlignData(data, alignment)|);
  }
}
