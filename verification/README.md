# bin2obj in Dafny

bin2obj turns a binary blob into a relocatable object file that a C program
can link against. The blob is exposed through three global symbols:

- `name_data`: the start of the blob.
- `name_end`: just past the blob.
- `name_size`: a word holding the blob's length.

This project models the core of that program:

- the padding helper `align_data`;
- the three generators, which are ELF for Linux, COFF for Windows and Mach-O for macOS, each for x86, x86_64 and arm64;
- the checks `main` runs before generating.

It proves what the generated bytes mean.

Modules, one per file:

- `Bytes` (bytes.dfy): bytes and little-endian words, which is `struct.pack` of `B`, `H`, `I` and `Q`. Also in-place overwrites (`struct.pack_into`), concatenation of blocks, and NUL-terminated name tables.
- `Layout` (layout.dfy): a `struct` format string becomes a `Shape`, a list of integer and fixed-length string slots. `Pack` and `Unpack` are defined on shapes, and so are tables of equal records.
- `Inputs` (inputs.dfy): the target architecture, and the symbol-name check, which is a regular expression in `main`. It also holds the alignment check, which is a bit trick, `bit_length`, ASCII encoding and the size limit.
- `Align` (align.dfy): `align_data` and the size constant that follows the padded blob.
- `Elf`, `Coff`, `MachO` (elf.dfy, coff.dfy, macho.dfy): the three generators. Each is a function from the blob, the symbol name, the alignment and the architecture to the bytes of the object file. A `Fits` predicate says when every packed value fits its field. When it does not, `struct.pack` raises.
- `ElfReader`, `CoffReader`, `MachOReader`: one reader per format, as a linker reads that format.
  - ELF: header, section header table, section names, the symbol table and its string table.
  - COFF: header, section table, symbol records with inline or string-table names.
  - Mach-O: magic, load commands walked by cmdsize, segments with their sections, LC_SYMTAB.

  Each reader is its generator's partner. `RoundTrip` proves that reading the generated bytes gives back the object the generator means to emit (`Expected`). Each `Expected` states the symbols and what each section means: the padded blob, the length word, names, values and flags. These are decoded independently of the byte layout. Some expected section contents are the encoder's own bytes and are compared byte for byte: ELF sections 3 to 5 (`.shstrtab`, `.symtab`, `.strtab`), and the COFF and Mach-O section contents built by `Combined`.
- `Bin2Obj` (bin2obj.dfy): `main` after argument parsing. The symbol check, then the alignment check, then the 2 GB limit, then generation. It either writes bytes or exits with status 1.

Two defects in the program are recorded under "Findings". Each is modelled twice: once as written, with the discrepancy proved, and once corrected. `Bin2Obj.GenerateAsWritten` is `main` as written. `Bin2Obj.Generate` is `main` with both defects corrected, and the read-back theorems are stated about it.

## Model

| member | source | states |
|---|---|---|
| Align.AlignData | bin2obj.py:20-23 | The result is the data followed only by zero bytes. It is fewer than `alignment` bytes longer than the data, and its length is a multiple of the alignment. |
| Align.PaddingFormula | bin2obj.py:22 | The padding, defined as the distance up to the next multiple, equals the source's `(alignment - len % alignment) % alignment`. |
| Align.PaddingFacts | bin2obj.py:22 | The padding is below the alignment. It is zero exactly for aligned lengths, otherwise `a - n % a`. Length plus padding is a multiple of `a`, namely `ceil(n / a)` times `a`. |
| Align.AlignedLength | bin2obj.py:20-23 | The padded length is the length rounded up to the alignment. It is no larger than any multiple of the alignment that holds the data. |
| Align.AlignedUnchanged | bin2obj.py:20-23 | Data whose length is already a multiple of the alignment comes back unchanged. |
| Align.AlignIdempotent | bin2obj.py:20-23 | Aligning twice is the same as aligning once. |
| Align.SizeConstant | bin2obj.py:104-108 | The size constant is one word, 8 bytes on x86_64 and arm64 and 4 on x86, and it decodes to the blob's length. |
| Align.SizeAfterAligned | bin2obj.py:102-111 | In `aligned_data + size_bytes`, the word at offset `len(aligned_data)` decodes to the original length. |
| Bytes.FromLEOfLE | bin2obj.py:106 | Unpacking a little-endian field gives back any value that fits its width. |
| Bytes.LEOfFromLE | bin2obj.py:106 | Every byte string is the encoding of exactly one value of its width. |
| Inputs.MatchSymbol | bin2obj.py:798 | Running the pattern `^[a-zA-Z_][a-zA-Z0-9_]*$` character by character accepts exactly the names that `re.match` accepts. That means an identifier, optionally followed by one final newline. |
| Inputs.AsWrittenAcceptsNewline | bin2obj.py:798 | The names the check accepts that are not C identifiers are exactly an identifier followed by one newline. |
| Inputs.TrailingNewlineCounterexample | bin2obj.py:798 | `"a\n"` passes the check as written but is not a C identifier. |
| Inputs.IdentifierIsPrintable | bin2obj.py:797-801 | A name that is a C identifier is non-empty printable ASCII, with no NUL and no newline, so every generator can store it NUL-terminated. |
| Inputs.AlignmentCheck | bin2obj.py:804 | `a > 0 and a & (a - 1) == 0` holds exactly for the powers of two. |
| Inputs.Log2OfPowerOfTwo | bin2obj.py:566 | For a power of two, `bit_length() - 1` is its base-2 logarithm. |
| Bin2Obj.Generate | bin2obj.py:795-847 | `main` with the corrected symbol check and the corrected Mach-O generator. The checks run in the source's order. The outcome is "invalid symbol" exactly when the name is not a C identifier. It is "invalid alignment" exactly when the name is one but the alignment is not a power of two. It is "too large" exactly when both pass and the input exceeds 2048 MB. Otherwise it is a generation error exactly when some value the chosen generator packs does not fit its field, and a written file in every other case. |
| Bin2Obj.GenerateReadsBack | bin2obj.py:829-847 | Whatever the corrected program writes is the chosen generator's output. Read back in its format, it is the object the generator means to emit. |
| Bin2Obj.EncodeReadsBack | bin2obj.py:829-842 | The ELF and COFF generators and the corrected Mach-O generator each write output that reads back as its intended object. |
| Bin2Obj.GenerateAsWritten | bin2obj.py:795-847 | `main` as written. The outcome is "invalid symbol" exactly when `re.match` with `$` rejects the name. "Invalid alignment", "too large" and "generation error" follow in the source's order, as for the corrected program. The Mach-O file is the one with the misplaced patch. |
| Bin2Obj.AsWrittenAgrees | bin2obj.py:795-847 | On C identifiers, the program as written and the corrected one agree on whether a file is written. They write the same ELF and COFF files. For Mach-O, the program as written writes the as-written generator's file. |
| Bin2Obj.NewlineAccepted | bin2obj.py:798 | For every C identifier `s`, `s + "\n"` is rejected by the corrected check. It passes the check as written, and the newline becomes part of the encoded name. |
| Bin2Obj.MachOAsWrittenMisplaced | bin2obj.py:664-683 | Every Mach-O file the program as written emits reads back with its segment at file offset 0 and its section outside the segment. So it is not the object the generator means to emit. |
| Inputs.AsWrittenIsAscii | bin2obj.py:798 | Every name the check as written accepts is ASCII without NULs, so `symbol.encode()` gives one byte per character. |
| Elf.ShStrTabLayout | bin2obj.py:131-132 | In `.shstrtab`, the names .data, .rodata, .shstrtab, .symtab and .strtab start at 1, 7, 15, 25 and 33. Those are the sh_name values the section headers carry. The table is 41 bytes. |
| Elf.StrTabLayout | bin2obj.py:150-187 | In `.strtab`, name_data, name_end and name_size start at 1, `len(name) + 7` and `2 len(name) + 12`. Those are the st_name values the symbols carry. The table is `3 len(name) + 18` bytes. |
| Elf.HeaderPatched | bin2obj.py:200-205 | Writing e_shoff with `struct.pack_into` at byte 40 (64-bit) or 32 (32-bit) gives the header packed with the final e_shoff and changes no other field. |
| Elf.SectionsLength | bin2obj.py:189-201 | The section header table starts after the header and the six sections. Its offset is a closed formula in the blob length, the padding and the name length. |
| Elf.BuildLayout | bin2obj.py:283-289 | The file is the patched header, the six sections and the six section headers, with the table at e_shoff. |
| Elf.FileLayout | bin2obj.py:189-289 | In the generated file, the header's e_shoff field (byte 40 or 32) holds ShOff. The bytes from e_shoff to the end are the six section headers. Each section's contents sit at the offset its section header records. |
| ElfReader.Expected | bin2obj.py:101-187 | The intended object has six sections and six symbols. `.data` holds the blob zero-padded to the alignment. `.rodata` is one word holding the blob's length. name_data spans `.data`, name_end points just past it, and name_size covers `.rodata`. |
| ElfReader.RoundTrip | bin2obj.py:37-289 | Reading the generated ELF file gives the intended object: class, machine, all six sections with names and contents, and all six symbols with names. |
| Coff.CharacteristicsFields | bin2obj.py:320-352 | The section flags are initialised data and readable. Their alignment field asks for the requested alignment when it is one of 1 to 64, and for 4 bytes otherwise. |
| Coff.NameLengths | bin2obj.py:405-499 | name_data and name_size are equally long and name_end is one byte shorter. So the names sent to the string table are none, name_data and name_size, or all three. |
| Coff.StringOffsets | bin2obj.py:433-502 | The string-table offset written for each long name is where that name starts, and the name reads back from there. |
| Coff.RecordAsShort | bin2obj.py:405-486 | A long-name record (`<IIIhHBB`) has the layout of the inline format (`<8sIHHBB`), with four zero bytes and the offset as its name. |
| Coff.SymbolTableRecords | bin2obj.py:393-486 | The symbol table is four 18-byte records: the static .rdata symbol, name_data at 0, and name_end and name_size at the end of the padded blob. |
| CoffReader.Expected | bin2obj.py:299-507 | The intended object has one section and four symbols. The section holds the blob, then zero bytes up to `len(aligned_data)`, then one word that decodes to the length. name_data is at 0. name_end and name_size are at `len(aligned_data)`, a multiple of the alignment. The three symbol names are the prefix, the name and `_data`, `_end` or `_size`. |
| CoffReader.RoundTrip | bin2obj.py:299-507 | Reading the generated COFF file gives the intended object: the machine, one .rdata section with its flags and contents, and four symbols named inline or from the string table. Nothing follows the string table. |
| MachO.AlignFieldLog2 | bin2obj.py:566 | The section's align field, `alignment.bit_length() - 1`, is the base-2 logarithm of a power-of-two alignment. |
| MachO.CommandSizes | bin2obj.py:572-662 | The load commands take 176 bytes on 64-bit targets and 148 on x86. Contents start at data_offset 208 or 176. |
| MachO.StrIndicesAt | bin2obj.py:686-698 | The string indices the generator computes are where the three names start in the string table, and each name reads back from its index. |
| MachO.StringTableLength | bin2obj.py:686-698 | The string table is `3 len(name) + 21` bytes. |
| MachO.SegmentAsWrittenFields | bin2obj.py:664-683 | As written, the patched segment command carries data_offset in vmsize (64-bit) or vmaddr (32-bit) and 0 in fileoff. The section's offset is data_offset. |
| MachO.SegmentFixedFields | bin2obj.py:664-683 | With the patch at fileoff, the segment command carries data_offset in fileoff and in the section's offset, and nothing else changes. |
| MachOReader.Expected | bin2obj.py:517-765 | The intended object has one `__TEXT` segment whose file range is exactly its one `__const` section. The section is aligned as requested. It holds the blob, then zero bytes up to `len(aligned_data)`, then one word that decodes to the length. name_data is at 0. name_end and name_size are at `len(aligned_data)`. The names are `_` + name + `_data`, `_end` or `_size`. |
| MachOReader.RoundTrip | bin2obj.py:517-765 | Reading the corrected Mach-O file gives the intended object: CPU, file type, flags, the segment and its section, and three external symbols with their names. |
| MachOReader.AsWrittenRead | bin2obj.py:517-765 | Reading the file as the generator writes it gives one segment carrying the patched values, and the intended symbols. |
| MachOReader.AsWrittenMisplaced | bin2obj.py:664-683 | As written, the segment reads back with fileoff 0 and data_offset in vmsize or vmaddr. Its section's bytes lie outside the segment, so the file is not the intended object. |

## Left out

- Reading the input file, writing the output file, argparse and the printed messages are left out. The model takes the blob as bytes and returns the object file's bytes or the reason for exit status 1.
- The warnings for an empty input and for one above 500 MB are left out because they do not change the output.
- argparse rejects any format other than elf, coff and mach-o, and any architecture other than x86, x86_64 and arm64. The model's `Format` and `Arch` hold only those values, so the unreachable `'pe'`/`'macho'` spellings and the "unknown format" branch are not modelled.
- Any exception inside `generate()` becomes `GenerationFailed`. `struct.pack` raises when a value does not fit its field, and each `Fits` predicate states exactly those field bounds.
- Bin2Obj.Generate: memory is unbounded in the model. `b'\x00' * padding` in `align_data` (bin2obj.py:23) raises MemoryError or OverflowError when the padding cannot be allocated, and `main` then exits with status 1. An example is ELF-64 with alignment 2^63 and a one-byte blob. For such inputs the model says `Written` where the program fails, because the limit depends on the machine.
- Bin2Obj.GenerateAsWritten: the same unbounded-memory simplification as for `Bin2Obj.Generate`.
- Bin2Obj.GenerateReadsBack: holds for the corrected program only. For the program as written, `Bin2Obj.MachOAsWrittenMisplaced` shows that the Mach-O output does not read back as intended.
- Bin2Obj.EncodeReadsBack: states read-back for the corrected Mach-O generator. The as-written one is covered by `MachOReader.AsWrittenMisplaced`.
- The size check divides by `1024.0 * 1024.0` in floating point. It is modelled as the exact comparison `len > 2^31`, which agrees with the double computation for every possible length.
- Bytewise OR of flags (`0x40 | 0x40000000 | flag`) is modelled as a sum. The bits are disjoint, and `Coff.CharacteristicsFields` checks the fields.
- Signed `h` fields in the COFF records are modelled as unsigned 16-bit fields. The only value written there is 1, whose bytes are the same either way.
- `align_data` with alignment 0 raises ZeroDivisionError. `main` never calls it that way, so `Align.AlignData` requires a positive alignment.
- The readers are definitions of how each format is read, written for this model. They are not a real linker and do not check relocations, since the generators emit none.
- `str.encode()` is modelled only for ASCII strings. That is all a checked symbol name can be.

## Findings

| source | as written | input that shows it | evidently intended | confidence | as-written member | corrected member |
|---|---|---|---|---|---|---|
| bin2obj.py:664-683 | The "fileoff" patch writes data_offset at byte 32 of LC_SEGMENT_64 and byte 24 of LC_SEGMENT. Those bytes are vmsize and vmaddr, since fileoff is at byte 40 or 32. fileoff stays 0, so the segment's file range does not contain its section. | Any input, e.g. an empty blob, symbol `a`, alignment 4, x86_64: the segment has vmsize 208 and fileoff 0, while its section is at offset 208. | fileoff = data_offset, so the segment maps exactly its section's bytes. vmsize and vmaddr stay as first packed. | high; not executed | MachO.SegmentAsWrittenFields, MachOReader.AsWrittenMisplaced, Bin2Obj.MachOAsWrittenMisplaced | MachO.SegmentFixedFields, MachOReader.RoundTrip |
| bin2obj.py:798 | `re.match(r'^[a-zA-Z_][a-zA-Z0-9_]*$', s)`: Python's `$` also matches before a final newline. | The symbol `"a\n"` passes the check and ends up inside every symbol name. | Accept only C identifiers, as the error message says (`\Z` or `re.fullmatch`). | high; not executed | Inputs.MatchSymbol, Inputs.TrailingNewlineCounterexample, Bin2Obj.NewlineAccepted | Inputs.IdentifierIsPrintable, Bin2Obj.Generate |
