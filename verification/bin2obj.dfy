/** The command line of bin2obj: the symbol name and alignment checks, the
    size limit, and the dispatch to the ELF, COFF and Mach-O generators.
    Reading the input and writing the output are left to the caller: the
    input arrives as bytes and the object file leaves as bytes. */
module Bin2Obj {
  import opened Bytes
  import opened Inputs
  import Elf
  import Coff
  import MachO
  import ElfReader
  import CoffReader
  import MachOReader

  /** The three choices of `--format`: elf, coff and mach-o. */
  datatype Format = ElfFormat | CoffFormat | MachOFormat

  /** The object file, or the reason the program exits with status 1. */
  datatype Outcome =
    | Written(bytes: seq<byte>)
    | InvalidSymbol
    | InvalidAlignment
    | TooLarge
    | GenerationFailed

  /** The symbol's bytes as the generators encode them. */
  function Name(symbol: string): (r: seq<byte>)
    requires IsCIdentifier(symbol)
    ensures |r| == |symbol| && NoNul(r)
  {
    IdentifierIsPrintable(symbol);
    AsciiNoNul(symbol);
    Ascii(symbol)
  }

  /** Every value the chosen generator packs fits its field; otherwise
      `struct.pack` raises and the program reports a generation error. */
  predicate Fits(format: Format, data: seq<byte>, name: seq<byte>, alignment: nat, arch: Arch)
  {
    match format
    case ElfFormat => Elf.Fits(|data|, |name|, alignment, arch)
    case CoffFormat => Coff.Fits(|data|, name, alignment, arch)
    case MachOFormat => MachO.Fits(|data|, name, alignment, arch)
  }

  /** The chosen generator; the Mach-O one with the segment's file offset
      where its section starts. */
  function Encode(format: Format, data: seq<byte>, name: seq<byte>, alignment: nat, arch: Arch): seq<byte>
    requires Fits(format, data, name, alignment, arch)
  {
    match format
    case ElfFormat => Elf.Encode(data, name, alignment, arch)
    case CoffFormat => Coff.Encode(data, name, alignment, arch)
    case MachOFormat => MachO.Encode(data, name, alignment, arch)
  }

  /** `main` after the arguments are parsed and the input is read: the
      symbol must be a C identifier, the alignment a power of two (checked
      with `a & (a - 1)`), the input at most 2048 MB, and every value the
      generator packs must fit. */
  function Generate(data: seq<byte>, symbol: string, alignment: int, format: Format, arch: Arch): (r: Outcome)
    ensures r == InvalidSymbol <==> !IsCIdentifier(symbol)
    ensures r == InvalidAlignment <==> IsCIdentifier(symbol) && !IsPowerOfTwo(alignment)
    ensures r == TooLarge <==> IsCIdentifier(symbol) && IsPowerOfTwo(alignment) && |data| > MaxInputBytes
    ensures r.Written? || r == GenerationFailed <==> IsCIdentifier(symbol) && IsPowerOfTwo(alignment) && |data| <= MaxInputBytes
    ensures r == GenerationFailed <==> IsCIdentifier(symbol) && AlignmentAccepted(alignment) && |data| <= MaxInputBytes
                                       && !Fits(format, data, Name(symbol), alignment, arch)
  {
    AlignmentCheck(alignment);
    if !IsCIdentifier(symbol) then InvalidSymbol
    else if !AlignmentAccepted(alignment) then InvalidAlignment
    else if |data| > MaxInputBytes then TooLarge
    else if !Fits(format, data, Name(symbol), alignment, arch) then GenerationFailed
    else Written(Encode(format, data, Name(symbol), alignment, arch))
  }

  /** What the program writes reads back, in its format, as the object the
      generator means to emit: the blob padded to the alignment and followed
      by its length, and the three symbols name_data, name_end and
      name_size. */
  lemma {:induction false} GenerateReadsBack(data: seq<byte>, symbol: string, alignment: int, format: Format, arch: Arch)
    requires Generate(data, symbol, alignment, format, arch).Written?
    ensures IsCIdentifier(symbol) && alignment > 0
    ensures Fits(format, data, Name(symbol), alignment, arch)
    ensures Generate(data, symbol, alignment, format, arch).bytes == Encode(format, data, Name(symbol), alignment, arch)
    ensures ReadsAsIntended(format, data, Name(symbol), alignment, arch)
  {
    AlignmentCheck(alignment);
    EncodeReadsBack(format, data, Name(symbol), alignment, arch);
  }

  /** The encoded file reads back, in its format, as the intended object. */
  predicate ReadsAsIntended(format: Format, data: seq<byte>, name: seq<byte>, alignment: nat, arch: Arch)
    requires Fits(format, data, name, alignment, arch)
  {
    var out := Encode(format, data, name, alignment, arch);
    match format
    case ElfFormat => ElfReader.Read(out) == Some(ElfReader.Expected(data, name, alignment, arch))
    case CoffFormat => CoffReader.Read(out) == Some(CoffReader.Expected(data, name, alignment, arch))
    case MachOFormat => MachOReader.Read(out) == Some(MachOReader.Expected(data, name, alignment, arch))
  }

  /** Each generator's output reads back as the object it means to emit. */
  lemma {:induction false} EncodeReadsBack(format: Format, data: seq<byte>, name: seq<byte>, alignment: nat, arch: Arch)
    requires Fits(format, data, name, alignment, arch) && NoNul(name)
    ensures ReadsAsIntended(format, data, name, alignment, arch)
  {
    match format
    case ElfFormat => ElfReader.RoundTrip(data, name, alignment, arch);
    case CoffFormat => CoffReader.RoundTrip(data, name, alignment, arch);
    case MachOFormat => MachOReader.RoundTrip(data, name, alignment, arch);
  }

  // ---------------------------------------------------------------------
  // The program as written
  // ---------------------------------------------------------------------

  /** `symbol.encode()` of a name the regular expression as written
      accepts; it may end in a newline. */
  function NameAsWritten(symbol: string): (r: seq<byte>)
    requires MatchesAsWritten(symbol)
    ensures |r| == |symbol| && NoNul(r)
  {
    AsWrittenIsAscii(symbol);
    AsciiNoNul(symbol);
    Ascii(symbol)
  }

  /** The generators as written: the Mach-O one patches data_offset into
      the segment command at byte 32 (64-bit) or 24 (32-bit). */
  function EncodeAsWritten(format: Format, data: seq<byte>, name: seq<byte>, alignment: nat, arch: Arch): seq<byte>
    requires Fits(format, data, name, alignment, arch)
  {
    match format
    case ElfFormat => Elf.Encode(data, name, alignment, arch)
    case CoffFormat => Coff.Encode(data, name, alignment, arch)
    case MachOFormat => MachO.EncodeAsWritten(data, name, alignment, arch)
  }

  /** `main` as written: the symbol check is `re.match` with `$`, and the
      Mach-O generator is the one with the misplaced patch. */
  function GenerateAsWritten(data: seq<byte>, symbol: string, alignment: int, format: Format, arch: Arch): (r: Outcome)
    ensures r == InvalidSymbol <==> !MatchesAsWritten(symbol)
    ensures r == InvalidAlignment <==> MatchesAsWritten(symbol) && !IsPowerOfTwo(alignment)
    ensures r == TooLarge <==> MatchesAsWritten(symbol) && IsPowerOfTwo(alignment) && |data| > MaxInputBytes
    ensures r == GenerationFailed <==> MatchesAsWritten(symbol) && AlignmentAccepted(alignment) && |data| <= MaxInputBytes
                                       && !Fits(format, data, NameAsWritten(symbol), alignment, arch)
  {
    AlignmentCheck(alignment);
    if !MatchesAsWritten(symbol) then InvalidSymbol
    else if !AlignmentAccepted(alignment) then InvalidAlignment
    else if |data| > MaxInputBytes then TooLarge
    else if !Fits(format, data, NameAsWritten(symbol), alignment, arch) then GenerationFailed
    else Written(EncodeAsWritten(format, data, NameAsWritten(symbol), alignment, arch))
  }

  /** On C identifiers the program as written and the corrected one agree on
      every outcome; they write the same ELF and COFF files, and differ
      only in the Mach-O segment command. */
  lemma {:induction false} AsWrittenAgrees(data: seq<byte>, symbol: string, alignment: int, format: Format, arch: Arch)
    requires IsCIdentifier(symbol)
    ensures GenerateAsWritten(data, symbol, alignment, format, arch).Written?
        <==> Generate(data, symbol, alignment, format, arch).Written?
    ensures format != MachOFormat ==> GenerateAsWritten(data, symbol, alignment, format, arch) == Generate(data, symbol, alignment, format, arch)
    ensures var r := GenerateAsWritten(data, symbol, alignment, format, arch);
      format == MachOFormat && r.Written? ==>
        MachO.Fits(|data|, Name(symbol), alignment, arch) && r.bytes == MachO.EncodeAsWritten(data, Name(symbol), alignment, arch)
  {
    assert NameAsWritten(symbol) == Name(symbol);
  }

  /** A C identifier followed by a newline is rejected by the corrected
      check but passes the check as written, and the newline is then part
      of the name every generator writes. */
  lemma {:induction false} NewlineAccepted(data: seq<byte>, symbol: string, alignment: int, format: Format, arch: Arch)
    requires IsCIdentifier(symbol)
    ensures Generate(data, symbol + "\n", alignment, format, arch) == InvalidSymbol
    ensures GenerateAsWritten(data, symbol + "\n", alignment, format, arch) != InvalidSymbol
    ensures MatchesAsWritten(symbol + "\n") && NameAsWritten(symbol + "\n") == Name(symbol) + [10]
  {
    var s := symbol + "\n";
    assert s[..|s| - 1] == symbol;
    assert !IsIdentChar(s[|s| - 1]);
    IdentifierIsPrintable(symbol);
    AsciiAppend(symbol, "\n");
  }

  /** What the program as written emits for Mach-O reads back with its
      segment at file offset 0 and its section outside the segment: not the
      object the generator means to emit. */
  lemma {:induction false} MachOAsWrittenMisplaced(data: seq<byte>, symbol: string, alignment: int, arch: Arch)
    requires GenerateAsWritten(data, symbol, alignment, MachOFormat, arch).Written?
    ensures MatchesAsWritten(symbol) && alignment > 0
    ensures MachO.Fits(|data|, NameAsWritten(symbol), alignment, arch)
    ensures var r := MachOReader.Read(GenerateAsWritten(data, symbol, alignment, MachOFormat, arch).bytes);
      r.Some? && |r.value.segments| == 1 && |r.value.segments[0].sections| == 1
      && r.value.segments[0].fileoff == 0
      && !MachOReader.InSegment(r.value.segments[0], r.value.segments[0].sections[0])
      && r != Some(MachOReader.Expected(data, NameAsWritten(symbol), alignment, arch))
  {
    AlignmentCheck(alignment);
    MachOReader.AsWrittenMisplaced(data, NameAsWritten(symbol), alignment, arch);
  }
}
