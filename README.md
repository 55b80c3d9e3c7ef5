# paintelf, modelled in Dafny

paintelf converts the data tables of a PowerPC game between big-endian
32-bit ELF relocatable objects and an editable form, and back, byte for
byte. This project models the part of it that works on bytes and tables,
and proves properties of that model:

- **ELF containers.** Three versions exist in the repository. The current
  one (`src/elf/container.rs` with `src/elf/mod.rs`) reads a file into
  content and meta sections, attaches `.rela*` relocations to their target
  section and names the symbols. It writes the file back with aligned
  sections, a rewritten section header table and a patched `e_shoff`. The
  older `src/elf_container.rs` differs only in its 16-byte `e_ident`. The
  oldest, `src/elf.rs`, keeps every section in one map. The record layouts
  (`Elf32_Ehdr`, `Elf32_Shdr`, `Elf32_Sym`, `Elf32_Rela`) follow the TIS
  ELF specification v1.2, book I, chapter 1. `SymbolNameGenerator` is the
  odometer that invents short symbol names.
- **Pointers through relocations** (`ElfReadDomain`, `read_string`,
  `Pointer`). A pointer field is a zero word in `.rodata` with a
  relocation keyed at its offset. The relocation's symbol gives the
  target, and strings are NUL-terminated runs at their targets.
- **Writer bookkeeping** (`ElfWriteDomain`). This covers the string pool,
  with position-gated deduplication and alignment chosen from the previous
  string's length, and boxes and slices. It also covers the symbols and
  relocations the writer collects. vivibin's write context is modelled as
  a list of heap blocks and token references. A reader's view of each
  written field is stated on those blocks.
- **Reassembly steps of `src/main.rs`.** `write_symtab` renames the
  invented symbols, orders them with `is_less_special`, writes `.symtab`
  and `.strtab`, and hands out symbol indices. `write_relocations` writes
  `.rela.rodata` against those indices. `get_section_linked` patches
  relocated words with `offset | 0x70000000`.
- **Table formats** (`maplink`, `mapid`, `shop`, `lct`, `dispos`, `chr`).
  Each table is a count symbol and a table symbol, under one of three
  count conventions: exact, one more than the records (a trailing null),
  or ended by a default record. Records are strides of 4-byte fields. The
  formats also include the file types of `src/formats/mod.rs` and the
  symbol names of `src/lib.rs`.

Code that updates state step by step is written as imperative Dafny:
- the stream cursors;
- the container's read and write loops;
- the name generator;
- `ElfWriteDomain`;
- the table readers and writers;
- the symbol table, relocation and linking loops.

Each method is proved to compute a function of its inputs. The properties
are then proved about those functions. Panics of the source (an
out-of-range index, an `unwrap`, a failed `assert`, a zero count
decremented) are the error value `Panic`.

## Model

| member | source | states |
|---|---|---|
| Bytes.U32RoundTrip | src/util/pointer.rs:94-118 | decoding the big-endian encoding of a u32 gives the value back |
| Bytes.U32BytesRoundTrip | src/util/pointer.rs:94-118 | encoding the value decoded from four bytes gives the bytes back |
| Bytes.U16RoundTrip | src/elf/mod.rs:86-103 | the two-byte big-endian encoding of a u16 (`st_shndx`) decodes back to it |
| Bytes.U16BytesRoundTrip | src/elf/mod.rs:86-103 | re-encoding the u16 decoded from two bytes gives the bytes back |
| Bytes.U32ZeroIff | src/util/pointer.rs:94-102 | four bytes decode to 0 exactly when they are all zero |
| Bytes.Padding | src/elf/container.rs:300-306 | the zero padding up to the next multiple of the alignment: shorter than the alignment, and landing on a multiple |
| Bytes.Find | src/elf/container.rs:366-368 | the first position where a byte string occurs inside another, or none when it occurs nowhere |
| IndexMaps.FindKey | src/binutil.rs:116 | the first position holding a key, with no earlier entry holding it; none when no entry does |
| IndexMaps.IndexMap.Get | src/binutil.rs:116 | `get` finds a value exactly when the key is among the keys, and the value is stored under that key |
| IndexMaps.IndexMap.GetIndex | src/elf/container.rs:273 | `get_index` finds the entry at a position exactly when the position is below the length |
| IndexMaps.IndexMap.Insert | src/elf/container.rs:225-230 | `insert` of a new key appends it; of an existing key replaces its value in place; keys stay distinct |
| IndexMaps.Empty | src/elf/container.rs:53-60 | an empty map has no keys and is valid |
| PointerUtil.New | src/util/pointer.rs:86-88 | `Pointer::new` is none exactly for 0 and otherwise holds the value |
| PointerUtil.Current | src/util/pointer.rs:90-92 | the stream position as a pointer, failing exactly when it does not fit in a u32 |
| PointerUtil.ReadAt | src/util/pointer.rs:94-102 | reading a pointer needs four bytes, is none exactly when they are zero, and otherwise holds their big-endian value |
| PointerUtil.ReadRelativeAt | src/util/pointer.rs:104-113 | a relative pointer is none for a zero word and otherwise the word plus the position it was read at, failing when that sum overflows an i32 |
| PointerUtil.Read | src/util/pointer.rs:94-102 | the reader method returns `ReadAt` at the old position and advances four bytes |
| PointerUtil.ReadRelative | src/util/pointer.rs:104-113 | the reader method returns `ReadRelativeAt` at the old position and advances four bytes |
| PointerUtil.EncodeOption | src/util/pointer.rs:120-125 | `write_option` writes nothing for none and the four bytes of the pointer otherwise |
| PointerUtil.ReadOfWrite | src/util/pointer.rs:94-118 | reading back what `write` wrote gives `Pointer::new` of the value, wherever it sits in the stream |
| PointerUtil.WriteOfRead | src/util/pointer.rs:94-118 | writing back what was read reproduces the four bytes, zero included |
| PointerUtil.Write | src/util/pointer.rs:115-118 | the writer method overwrites four bytes at the position with the encoding and advances by four |
| PointerUtil.WriteOption | src/util/pointer.rs:120-125 | the writer method writes the optional encoding at the position and advances by its length |
| PointerUtil.Add | src/util/pointer.rs:134-140 | pointer plus u32 adds the values, when the sum fits |
| PointerUtil.Sub | src/util/pointer.rs:142-148 | pointer minus u32 subtracts the values, when the right side is not larger |
| PointerUtil.AddSubInverse | src/util/pointer.rs:134-148 | subtracting what was added gives the pointer back |
| PointerUtil.AddWide | src/util/pointer.rs:43-49 | adding a wide integer goes through i32 and panics exactly when an operand or the sum is outside the i32 range or the sum is negative |
| PointerUtil.SubWide | src/util/pointer.rs:52-58 | subtracting a wide integer goes through i32 and panics exactly when an operand or the difference is outside that range |
| PointerUtil.FromWide | src/util/pointer.rs:35-41 | converting a wide integer succeeds exactly in the u32 range |
| PointerUtil.ToI32 | src/util/pointer.rs:72-80 | converting to i32 succeeds exactly when the value fits an i32 |
| Util.FirstNul | src/util/mod.rs:40-44 | the first NUL of a byte string, with none before it; none when the string holds no NUL |
| Util.ReadString | src/util/mod.rs:40-44 | `read_string` gives the bytes from the index up to the first NUL; it fails exactly when there is no NUL, or when those bytes are not UTF-8 |
| Util.ReadStringChecked | src/util/mod.rs:40-44 | an index past the end of the buffer panics; otherwise the result is `ReadString` |
| Util.ReadStringOfTerminated | src/util/mod.rs:40-44 | a NUL-free UTF-8 string followed by a NUL reads back as itself |
| Util.ReadStringAt | src/util/mod.rs:40-44 | a NUL-free UTF-8 string stored at an index and followed by a NUL reads back from there |
| Util.ReadStringExtends | src/util/mod.rs:40-44 | bytes appended after the buffer do not change a successful read |
| Util.AsciiIsUtf8 | src/util/mod.rs:42 | ASCII bytes are valid UTF-8 |
| Util.ReaderGuard.constructor | src/util/mod.rs:14-23 | the guard remembers the reader's position at scope entry |
| Util.ReaderGuard.Drop | src/util/mod.rs:25-37 | on drop the reader is back at the remembered position, whatever seeks happened in between |
| SymbolNames.SymbolName.AsStr | src/lib.rs:26-35 | `as_str` is none exactly for `None` and `Internal`, and otherwise the carried name |
| SymbolNames.SymbolName.Display | src/lib.rs:37-47 | `Display` agrees with `as_str` when that is some, prints `<none>` for `None` and the initial followed by `<???>` for `Internal` |
| SymbolNames.InternalWithoutName | src/lib.rs:21-35 | `is_internal` without a name is exactly `Internal`, and a name missing outside the internal variants is exactly `None` |
| SymbolNames.EncodeChar | src/lib.rs:42 | a `char` printed as UTF-8 takes one to four bytes, one exactly for ASCII |
| Elf.SectionTypeOfCode | src/elf/mod.rs:16-25 | `sh_type` decodes exactly for the codes 0 to 4, each back to the variant it came from; anything else is an error |
| Elf.SectionTypeCode | src/elf/mod.rs:16-25 | `SectionType` as its `repr = u32` code, at most 4 |
| Elf.SectionTypeRoundTrip | src/elf/mod.rs:16-25 | decoding the code of a section type gives the type back |
| Elf.WordsToBE | src/elf/mod.rs:27-40 | a record of u32 fields as big-endian bytes, four per field |
| Elf.WordsToBEWord | src/elf/mod.rs:27-40 | field `k` of an encoded record reads back from bytes `4k..4k+4` |
| Elf.WordsToBEZeros | src/elf/mod.rs:27-40 | a record of zero fields encodes to zero bytes |
| Elf.SectionHeaderWords | src/elf/mod.rs:27-40 | `SectionHeader` is ten u32 fields |
| Elf.EncodeSectionHeader | src/elf/mod.rs:27-40 | an encoded `SectionHeader` is 40 bytes |
| Elf.DecodeSectionHeader | src/elf/mod.rs:27-40 | decoding 40 bytes succeeds exactly when the `sh_type` word is at most 4; `sh_offset` and `sh_size` are words 4 and 5 |
| Elf.SectionHeaderRoundTrip | src/elf/mod.rs:27-40 | decoding an encoded section header gives it back |
| Elf.EncodeRelocation | src/elf/mod.rs:76-82 | an encoded `Elf32_Rela` is 12 bytes |
| Elf.DecodeRelocation | src/elf/mod.rs:76-82 | decoding 12 bytes gives the relocation whose encoding they are |
| Elf.RelocationRoundTrip | src/elf/mod.rs:76-82 | decoding an encoded relocation gives it back |
| Elf.EncodeSymbolHeader | src/elf/mod.rs:94-103 | an encoded `Elf32_Sym` is 16 bytes |
| Elf.DecodeSymbolHeader | src/elf/mod.rs:94-103 | decoding 16 bytes gives the symbol header whose encoding they are |
| Elf.SymbolHeaderRoundTrip | src/elf/mod.rs:94-103 | decoding an encoded symbol header gives it back |
| Elf.WordOfConcat | src/elf/mod.rs:27-40 | a u32 stored at a word boundary reads back as that word |
| Elf.SectionAt | src/elf/mod.rs:51-63 | a section read from a file succeeds exactly when `sh_offset + sh_size` is within the file, and holds those bytes with no relocations |
| Elf.SectionFromReader | src/elf/mod.rs:51-63 | the reader method returns `SectionAt` and leaves the cursor after the content |
| ElfNames.AutoIndexOfChar | src/elf/mod.rs:125-127 | each character of the 93-character alphabet maps back to its position |
| ElfNames.SpecialIndexOf | src/elf/mod.rs:126-127 | each of the 31 punctuation characters maps back to its position |
| ElfNames.AutoCharsDistinct | src/elf/mod.rs:125-127 | the alphabet has no repeated character |
| ElfNames.Render | src/elf/mod.rs:142-181 | `result` is the alphabet character of each index, position by position |
| ElfNames.RenderInjective | src/elf/mod.rs:142-181 | different index vectors render to different names |
| ElfNames.Carry | src/elf/mod.rs:150-158 | counting up from position `i` keeps digits in range, grows by at most one position, and keeps a nonzero first digit nonzero |
| ElfNames.Succ | src/elf/mod.rs:150-158 | counting up from the last position gives a nonempty digit vector |
| ElfNames.DigitsAfter | src/elf/mod.rs:142-181 | the indices after `n` calls: empty only before the first call, and with a nonzero first digit from the second call on |
| ElfNames.CarryLength | src/elf/mod.rs:150-158 | the carry adds a position exactly when every digit up to `i` is at its maximum |
| ElfNames.SuccLength | src/elf/mod.rs:150-158 | a name grows by one character exactly when every position overflows, and otherwise keeps its length |
| ElfNames.BelowTransitive | src/elf/mod.rs:142-181 | shortlex order on index vectors is transitive |
| ElfNames.BelowIrreflexive | src/elf/mod.rs:142-181 | shortlex order on index vectors is irreflexive |
| ElfNames.CarryAbove | src/elf/mod.rs:150-158 | the carry from `i` gives a longer vector, or an equal-length one larger at some position up to `i` |
| ElfNames.SuccAbove | src/elf/mod.rs:150-158 | every step strictly increases the index vector in shortlex order |
| ElfNames.DigitsClimb | src/elf/mod.rs:142-181 | the index vectors after later calls are strictly larger |
| ElfNames.OutputsDistinct | src/elf/mod.rs:142-181 | no two calls to `next` return the same name |
| ElfNames.OutputShape | src/elf/mod.rs:142-181 | the first output is empty, later ones use only alphabet characters and never start with `a` |
| ElfNames.SingleDigitPhase | src/elf/mod.rs:142-181 | for the first 93 calls the indices are the single digit `n - 1` |
| ElfNames.SecondOutput | src/elf/mod.rs:142-181 | the second call returns `b` |
| ElfNames.OutputSingle | src/elf/mod.rs:142-181 | calls 2 to 93 return the single character at position `n - 1` |
| ElfNames.RenderOne | src/elf/mod.rs:142-181 | one index renders as its character |
| ElfNames.LastAutoChar | src/elf/mod.rs:126-127 | the last alphabet character is the backquote |
| ElfNames.LastSingleCharacter | src/elf/mod.rs:142-181 | the 93rd call returns the backquote |
| ElfNames.FirstCarry | src/elf/mod.rs:166-181 | after the backquote the indices become `[1, 0]`, not `[0, 0]` |
| ElfNames.TopCarry | src/elf/mod.rs:166-181 | counting up from the last single digit gives `[1, 0]` |
| ElfNames.RenderTwo | src/elf/mod.rs:142-181 | two indices render as their two characters |
| ElfNames.OutputFirstPair | src/elf/mod.rs:142-181 | the output after the backquote is the characters at positions 1 and 0 |
| ElfNames.FirstTwoCharacters | src/elf/mod.rs:142-181 | the output after the backquote is `ba` |
| ElfNames.CarryStep | src/elf/mod.rs:166-181 | one step of the carry is what `count_up_check_overflow` does at that position, followed by the carry of the next position on overflow |
| ElfNames.RenderAppendFirst | src/elf/mod.rs:152-155 | appending a zero index appends the first alphabet character |
| ElfNames.SymbolNameGenerator.constructor | src/elf/mod.rs:129-138 | a new generator has no indices, no result and no calls |
| ElfNames.SymbolNameGenerator.CountUpCheckOverflow | src/elf/mod.rs:166-181 | increments one digit, reports overflow exactly at 93, then resets it to 1 at position 0 and to 0 elsewhere, keeping `result` the rendering of `indices` |
| ElfNames.SymbolNameGenerator.CountUp | src/elf/mod.rs:150-158 | the carry loop leaves `indices` as the successor of the old indices and `result` as its rendering |
| ElfNames.SymbolNameGenerator.Next | src/elf/mod.rs:142-164 | the `n`-th call returns the `n`-th output of the odometer |
| Container.EncodeHeader | src/elf/container.rs:20-42 | the ELF header encodes to 52 bytes with `e_shoff` at byte 0x20 |
| Container.DecodeHeader | src/elf/container.rs:20-42 | decoding 52 bytes takes `e_shoff` from bytes 0x20..0x24 |
| Container.HeaderBytesIdent | src/elf/container.rs:23-27 | `e_ident`, its padding word, `e_type` and `e_machine` sit at bytes 0, 12, 16 and 18 |
| Container.HeaderBytesOffsets | src/elf/container.rs:28-32 | `e_version`, `e_entry`, `e_phoff` and `e_shoff` sit at bytes 20, 24, 28 and 32 |
| Container.HeaderBytesSizes | src/elf/container.rs:33-36 | `e_flags`, `e_ehsize`, `e_phentsize` and `e_phnum` sit at bytes 36, 40, 42 and 44 |
| Container.HeaderBytesCounts | src/elf/container.rs:37-41 | `e_shentsize`, `e_shnum` and `e_shstrndx` sit at bytes 46, 48 and 50 |
| Container.HeaderRoundTrip | src/elf/container.rs:20-42 | decoding an encoded ELF header gives it back |
| Container.HeaderAt | src/elf/container.rs:189 | reading the header succeeds exactly when 52 bytes are left, and decodes them |
| Container.SectionHeaderAt | src/elf/container.rs:193-195 | a section header read at a position is the decoding of the 40 bytes there |
| Container.SectionHeadersAt | src/elf/container.rs:191-195 | reading `e_shnum` headers from `e_shoff` gives that many headers |
| Container.SectionHeadersAtEach | src/elf/container.rs:191-195 | header `k` of the table is the one decoded at `e_shoff + 40k` |
| Container.TableNames | src/elf/container.rs:217-252 | the names the parser dispatches on are `.rela`, `.strtab`, `.symtab` and `.shstrtab` |
| Container.KindOf | src/elf/container.rs:217-258 | a name is a relocation section exactly when it starts with `.rela`, and then names its target; it is content exactly when it is none of the four table names |
| Container.TableKinds | src/elf/container.rs:236-254 | `.strtab`, `.symtab` and `.shstrtab` are the string, symbol and name tables |
| Container.RelocationRecords | src/elf/container.rs:218-226 | a `.rela` section holds `len / 12` relocations, record `k` encoded at byte `12k` |
| Container.CollectRelocations | src/elf/container.rs:221-226 | collecting relocations into a map keeps at most one entry per record |
| Container.CollectRelocationsValid | src/elf/container.rs:221-226 | the relocation map has distinct keys |
| Container.CollectRelocationsOffsets | src/elf/container.rs:223 | each relocation is keyed by its own `r_offset` |
| Container.CollectRelocationsHas | src/elf/container.rs:221-226 | every record's offset is a key of the map |
| Container.ParseSymbolHeaders | src/elf/container.rs:242-247 | `.symtab` holds `len / 16` symbol headers, header `k` encoded at byte `16k` |
| Container.FileSection | src/elf/container.rs:211-258 | filing one section: a `.rela` section whose target is not yet a content section is an error; otherwise the name is recorded, a `.rela` section attaches its relocations to the target, content goes to content sections and the rest to meta sections |
| Container.SymbolNameOf | src/elf/container.rs:270-279 | a section symbol (`st_info == 3`) is named after section `st_shndx`, failing when that index is out of range; any other is read from `.strtab` at `st_name` |
| Container.NameSymbolsValid | src/elf/container.rs:268-282 | the symbol map has distinct keys and no more entries than headers |
| Container.NameSymbolsErr | src/elf/container.rs:270-279 | naming fails only when some header cannot be named |
| Container.NameSymbolsKeyed | src/elf/container.rs:281 | each symbol is stored under its own name |
| Container.NameSymbolsHas | src/elf/container.rs:270-282 | every header is named and its name is a key of the map |
| Container.FileSectionKeepsFiled | src/elf/container.rs:211-258 | filing keeps content and meta sections apart, keeps every recorded name in one of them, and records the tables exactly when they were seen |
| Container.InsertedKeys | src/elf/container.rs:232-256 | after an insert the keys are the old keys plus the new one |
| Container.FoldKeepsFiled | src/elf/container.rs:211-259 | after the loop every section name is recorded once per header and the split invariant holds |
| Container.ParseBodySplitsSections | src/elf/container.rs:211-266 | a parsed container has only content names among content sections, no content names among meta sections, and holds `.strtab` and `.symtab` |
| Container.ParseBodyNeedsTables | src/elf/container.rs:261-266 | parsing fails with a missing section when `.strtab` or `.symtab` was not seen |
| Container.FoldFindsTables | src/elf/container.rs:236-251 | the string table and symbol headers are kept exactly when sections of those names were seen |
| Container.PlaceSection | src/elf/container.rs:301-305 | placing a section fails exactly when its aligned start does not fit in a u32 |
| Container.PlaceAll | src/elf/container.rs:300-327 | placing sections keeps what was written and the offsets already recorded, adding one start per section |
| Container.PlaceAllNames | src/elf/container.rs:300-327 | every placed section's name gets an offset |
| Container.SelectRelaMembers | src/elf/container.rs:308-322 | the two meta passes select exactly the sections whose names do, and do not, start with `.rela` |
| Container.LayoutPlacesAll | src/elf/container.rs:292-327 | the layout starts with the header and gives every content and meta section an offset |
| Container.WriteSectionHeader | src/elf/container.rs:363-377 | writing a header pads with zeros to the section's alignment and appends 40 bytes |
| Container.RewrittenHeader | src/elf/container.rs:364-372 | the written header has the first match of the name in `.shstrtab` (or 0), the recorded offset and the content length, and every other field copied |
| Container.WriteSectionHeaderDecodes | src/elf/container.rs:363-377 | the last 40 bytes written decode to the rewritten header |
| Container.WriteHeaders | src/elf/container.rs:335-354 | writing several headers keeps what was written before |
| Container.EntrySections | src/elf/container.rs:340-345 | a content section's entry is the section, followed by its `.rela` meta section if any |
| Container.TableSections | src/elf/container.rs:335-346 | the table's middle is made of content sections and their meta sections |
| Container.MetaSection | src/elf/container.rs:331-353 | indexing meta sections by name panics exactly when the name is missing |
| Container.HeaderTable | src/elf/container.rs:329-354 | the table starts with 40 zero bytes right after the laid-out sections |
| Container.NullHeaderZeros | src/elf/container.rs:333 | the default section header encodes to 40 zero bytes |
| Container.PlaceAllAppend | src/elf/container.rs:300-327 | placing two runs of sections is placing the first and then the second |
| Container.HoldsAtExtended | src/elf/container.rs:304 | a section copied into the output stays there as the output grows |
| Container.PlaceSectionPlaces | src/elf/container.rs:302-304 | a placed section's bytes sit at its aligned start |
| Container.PlaceAllPlaces | src/elf/container.rs:300-327 | every placed section's bytes sit at its aligned start |
| Container.PlaceAllOffsets | src/elf/container.rs:303 | a section with no later namesake is recorded at its own start |
| Container.LayoutIsOneLoop | src/elf/container.rs:300-327 | the three write loops are one loop over content, non-rela meta and rela sections in that order |
| Container.SerializeIsPatchedTable | src/elf/container.rs:329-360 | the output is the written table with `e_shoff` overwritten by the table's start |
| Container.TableOfShape | src/elf/container.rs:292-354 | the written file starts with the header, then the sections, then a null header at the table's start |
| Container.OverwriteInside | src/elf/container.rs:357-358 | overwriting inside the buffer replaces just those bytes |
| Container.PatchShoff | src/elf/container.rs:357-358 | patching changes only bytes 0x20..0x24, to the table offset |
| Container.PatchKeeps | src/elf/container.rs:357-358 | bytes after the patch are untouched |
| Container.SerializePatchesOnlyShoff | src/elf/container.rs:292-360 | `to_bytes` reproduces the header except `e_shoff`, which holds the table offset, and starts the table with a null entry |
| Container.PatchedTable | src/elf/container.rs:357-358 | patching keeps the header's other bytes and the null entry |
| Container.PlaceAllAt | src/elf/container.rs:300-327 | section `k` lies after the header at its start, and is recorded there if no later section shares its name |
| Container.LayoutPlacesOrder | src/elf/container.rs:300-327 | in `to_bytes` order, section `k` is copied verbatim at an aligned start after the header |
| Container.PatchedHolds | src/elf/container.rs:357-358 | the patch does not disturb section contents |
| Container.SerializePlacesContent | src/elf/container.rs:292-360 | each section's content reads back from the output of `to_bytes` at its start |
| ContainerIo.ReadRelocations | src/elf/container.rs:218-226 | the loop builds `ParseRelocations` of the content |
| ContainerIo.CollectLoop | src/elf/container.rs:221-226 | the loop builds `CollectRelocations` |
| ContainerIo.ReadSymbolHeaders | src/elf/container.rs:242-247 | the loop builds `ParseSymbolHeaders` of the content |
| ContainerIo.ReadSectionHeader | src/elf/container.rs:194 | the reader method returns `SectionHeaderAt` and advances 40 bytes |
| ContainerIo.ReadSectionHeaders | src/elf/container.rs:191-195 | the loop returns `SectionHeadersAt` |
| ContainerIo.SectionStep | src/elf/container.rs:212-258 | one iteration reads the name and the section, then files it |
| ContainerIo.ReadSections | src/elf/container.rs:211-259 | the loop returns `FoldSections` |
| ContainerIo.NameSymbolsLoop | src/elf/container.rs:268-282 | the loop returns `NameSymbols` |
| ContainerIo.ReadBody | src/elf/container.rs:191-289 | reading after the header returns `ParseBody` |
| ContainerIo.SelectRelaAppend | src/elf/container.rs:308-327 | selecting from two runs is selecting from each |
| ContainerIo.PlaceOne | src/elf/container.rs:302-304 | aligning, recording the offset and copying one section is `PlaceSection` |
| ContainerIo.PlaceLoop | src/elf/container.rs:300-327 | each write loop is `PlaceAll` of the sections it selects |
| ContainerIo.WriteSectionHeaderTo | src/elf/container.rs:363-377 | the writer method appends `WriteSectionHeader` |
| ContainerIo.WriteHeadersAppend | src/elf/container.rs:335-354 | writing two runs of headers is writing the first and then the second |
| ContainerIo.WriteEntry | src/elf/container.rs:340-345 | writes the headers of a content section and its `.rela` section |
| ContainerIo.WriteTableEntries | src/elf/container.rs:335-346 | the loop writes the headers of every content section and its relocations |
| ContainerIo.WriteLayout | src/elf/container.rs:300-327 | the three loops return `LayoutOf` |
| ContainerIo.WriteTail | src/elf/container.rs:348-354 | writes the `.shstrtab`, `.symtab` and `.strtab` headers |
| ContainerIo.WriteBody | src/elf/container.rs:298-360 | everything after the header returns `Serialize` |
| ContainerIo.ProgbitsSection | src/elf/container.rs:79-100 | an added content section is Progbits with `SHF_ALLOC`, the given alignment and content, and an empty relocation map |
| ContainerIo.RelaSection | src/elf/container.rs:105-131 | the added `.rela` section is named `.rela` plus the name, Rela with `SHF_INFO_LINK`, link 4, info 1 and entry size 12 |
| ContainerIo.RelaSectionTargets | src/elf/container.rs:106 | the added relocation section's name targets the content section |
| ContainerIo.StringTableSection | src/elf/container.rs:135-159 | an added string table has the given flags, alignment and content and no relocations |
| ContainerIo.SymbolTableSection | src/elf/container.rs:161-186 | an added symbol table has link 5, info the last local symbol and entry size 16 |
| ContainerIo.AddedHeaderRewritten | src/elf/container.rs:79-100 | the zeroed name, offset and size of an added section are what `write_section_header` fills in |
| ContainerIo.ElfContainer.constructor | src/elf/container.rs:53-63 | `new` holds the header, no symbols, no meta sections, and one default content section named `""` |
| ContainerIo.ElfContainer.GetSection | src/elf/container.rs:65-73 | `get_section` finds a section exactly when the name is a content or meta key, preferring content sections |
| ContainerIo.ElfContainer.AddContentSection | src/elf/container.rs:75-100 | inserts the Progbits section and changes nothing else |
| ContainerIo.ElfContainer.AddContentSectionWithRelocations | src/elf/container.rs:102-133 | inserts the content section and its `.rela` meta section and changes nothing else |
| ContainerIo.ElfContainer.AddStringTableRaw | src/elf/container.rs:135-159 | inserts the string table among meta sections and changes nothing else |
| ContainerIo.ElfContainer.AddSymbolTableRaw | src/elf/container.rs:161-186 | inserts the symbol table among meta sections and changes nothing else |
| ContainerIo.ElfContainer.FromReader | src/elf/container.rs:188-290 | `from_reader` fails exactly when `Parse` does, and otherwise holds its header and parts |
| ContainerIo.ElfContainer.ToBytes | src/elf/container.rs:292-361 | `to_bytes` returns `Serialize` of the encoded header and the section maps |
| LegacyContainer.EncodeLegacyHeader | src/elf_container.rs:13-34 | the older header encodes to 52 bytes starting with its 16-byte `e_ident` |
| LegacyContainer.DecodeLegacyHeader | src/elf_container.rs:13-34 | decoding 52 bytes takes `e_ident` from the first 16 |
| LegacyContainer.ToModern | src/elf_container.rs:13-34 | the 16-byte `e_ident` is the newer 12-byte `e_ident` followed by its padding word; the table fields agree |
| LegacyContainer.FromModern | src/elf_container.rs:13-34 | the newer header's `e_ident` and padding word make up the 16-byte `e_ident` |
| LegacyContainer.ModernViewInverse | src/elf_container.rs:13-34 | the two header views are inverse to each other |
| LegacyContainer.EncodeAgrees | src/elf_container.rs:13-34 | both headers encode to the same 52 bytes |
| LegacyContainer.DecodeAgrees | src/elf_container.rs:13-34 | decoding the older header is decoding the newer one and viewing it |
| LegacyContainer.LegacyHeaderRoundTrip | src/elf_container.rs:13-34 | decoding an encoded older header gives it back |
| LegacyContainer.LegacyShoffAt | src/elf_container.rs:24 | with the 16-byte identification `e_shoff` sits at byte 0x20 |
| LegacyContainer.ParseAgrees | src/elf_container.rs:57-159 | the older `from_reader` fails exactly when the newer one does, with the same error, and otherwise gives the same sections and symbols |
| LegacyContainer.SerializeAgrees | src/elf_container.rs:161-246 | the older `to_bytes` is the newer one applied to the same header bytes |
| LegacyContainer.LegacyElfContainer.constructor | src/elf_container.rs:45-55 | `new` holds the header, no symbols, no meta sections, and one default content section named `""` |
| LegacyContainer.LegacyElfContainer.FromReader | src/elf_container.rs:57-159 | `from_reader` fails exactly when `ParseLegacy` does, and otherwise holds its header and parts |
| LegacyContainer.LegacyElfContainer.ToBytes | src/elf_container.rs:161-230 | `to_bytes` returns `SerializeLegacy` |
| LegacyElf.RawWords | src/elf.rs:134-147 | the oldest section header is ten u32 fields, `sh_type` kept raw |
| LegacyElf.EncodeRawSectionHeader | src/elf.rs:134-147 | the oldest section header encodes to 40 bytes |
| LegacyElf.DecodeRawSectionHeader | src/elf.rs:134-147 | any 40 bytes decode, with `sh_type`, `sh_offset` and `sh_size` from words 1, 4 and 5 |
| LegacyElf.RawSectionHeaderRoundTrip | src/elf.rs:134-147 | decoding an encoded raw section header gives it back |
| LegacyElf.RawLayoutAgrees | src/elf.rs:134-147 | a typed header encodes to the same bytes as its raw view |
| LegacyElf.RawDecodeAgrees | src/elf.rs:134-147 | the typed decoder succeeds exactly when the raw `sh_type` is at most 4, and then agrees with the raw one |
| LegacyElf.RawSectionAt | src/elf.rs:158-170 | a section read from a file succeeds exactly when its bytes are within the file, and holds them with no relocations |
| LegacyElf.RawSectionFromReader | src/elf.rs:158-170 | the reader method returns `RawSectionAt` |
| LegacyElf.RawHeaderAt | src/elf.rs:48-50 | a raw section header read succeeds exactly when 40 bytes are left |
| LegacyElf.RawHeadersAt | src/elf.rs:46-50 | reading `e_shnum` headers gives that many |
| LegacyElf.RawHeadersAtOk | src/elf.rs:46-50 | reading the table succeeds exactly when it lies within the file |
| LegacyElf.RawHeadersAtEach | src/elf.rs:46-50 | header `k` is the one decoded at `e_shoff + 40k` |
| LegacyElf.ReadRawHeader | src/elf.rs:49 | the reader method returns `RawHeaderAt` and advances 40 bytes |
| LegacyElf.ReadRawHeaders | src/elf.rs:46-50 | the loop returns `RawHeadersAt` |
| LegacyElf.AttachRelocations | src/elf.rs:67-81 | a `.rela` section whose target `name[5..]` is missing is an error; otherwise its relocations replace the target's and nothing else changes |
| LegacyElf.FileRawSection | src/elf.rs:63-101 | every section is stored under its name in the single map, and the string and symbol tables are recorded when seen |
| LegacyElf.AttachKeepsFiled | src/elf.rs:67-81 | attaching keeps each section stored under its own name and the table records in step |
| LegacyElf.FileRawKeepsFiled | src/elf.rs:63-101 | filing keeps each section stored under its own name and the table records in step |
| LegacyElf.FoldRawKeepsFiled | src/elf.rs:63-101 | the loop keeps that invariant |
| LegacyElf.FoldRawHas | src/elf.rs:63-101 | every header's name is read and is a key of the map |
| LegacyElf.RawSymbolNameOf | src/elf.rs:112-122 | a section symbol is named after the section at map position `st_shndx` (`get_index`), failing when out of range; any other is read from `.strtab` |
| LegacyElf.RawSymbolNameAgrees | src/elf.rs:112-122 | naming by map position agrees with naming by the list of keys |
| LegacyElf.NameRawSymbolsAgrees | src/elf.rs:110-125 | naming the oldest container's symbols equals the newer naming over the map's keys |
| LegacyElf.ParseOldNeedsTables | src/elf.rs:103-108 | parsing fails with a missing section when `.strtab` or `.symtab` was not seen |
| LegacyElf.ParseOldShape | src/elf.rs:43-131 | a parsed container keeps every section under its own name and holds `.strtab` and `.symtab` |
| LegacyElf.RawSectionStep | src/elf.rs:64-100 | one iteration reads the name and the section, then files it |
| LegacyElf.ReadRawSections | src/elf.rs:63-101 | the loop returns `FoldRaw` |
| LegacyElf.NameRawSymbolsLoop | src/elf.rs:110-125 | the loop returns `NameRawSymbols` |
| LegacyElf.OldElfContainer.constructor | src/elf.rs:127-130 | the container holds the given symbols and sections |
| LegacyElf.OldElfContainer.FromReader | src/elf.rs:43-131 | `from_reader` fails exactly when `ParseOld` does, and otherwise holds its symbols and sections |
| ElfRead.FindSymbol | src/binutil.rs:45-50 | `find_symbol` succeeds exactly when the name is a key of the symbol map, giving the symbol stored under it |
| ElfRead.RelocationTarget | src/binutil.rs:115-123 | a relocation at the offset names symbol `info >> 8`; the target is that symbol's `st_value`, an error when the index is out of range, and none without a relocation |
| ElfRead.PointerOptionalAt | src/binutil.rs:109-124 | `read_pointer_optional` fails on a position past u32, a short read or a nonzero word; otherwise it is none exactly without a relocation there, and else the relocation's target |
| ElfRead.ZeroWord | src/binutil.rs:112-113 | the word read is zero exactly when its four bytes are |
| ElfRead.PointerAt | src/binutil.rs:98-107 | `read_pointer` is the optional read, with none turned into an error |
| ElfRead.StringIn | src/binutil.rs:61 | a string at a target in `.rodata` is the NUL-free UTF-8 run before the next NUL; a target past the end panics |
| ElfRead.StringAt | src/binutil.rs:53-63 | `read_string` follows the pointer to a string, and a null pointer is an error |
| ElfRead.StringOptionalAt | src/binutil.rs:65-74 | `read_string_optional` is none for a null pointer and otherwise the string at the target |
| ElfRead.StringReadersAgree | src/binutil.rs:53-74 | the two string readers agree: a string read is the optional read of some, and the null error is the optional none |
| ElfRead.PointerReadersAgree | src/binutil.rs:98-124 | the two pointer readers agree in the same way |
| ElfRead.VecRecords | src/binutil.rs:80-95 | a null pointer or a zero count gives an empty vector; otherwise `count` records are read |
| ElfRead.VecAt | src/binutil.rs:76-96 | `read_vec` reads the pointer, then the count word, then the records at the target |
| ElfRead.VecRecordsEach | src/binutil.rs:88-93 | record `k` is read at the target plus `k` strides |
| ElfRead.VecRecordsOk | src/binutil.rs:91-93 | the vector reads exactly when every record does |
| ElfRead.BoxNullableAt | src/binutil.rs:163-172 | `read_box_nullable` is none for a null pointer and otherwise the content read at the target |
| ElfRead.ReadPointerOptional | src/binutil.rs:109-124 | the reader method returns `PointerOptionalAt` and advances four bytes |
| ElfRead.ReadPointer | src/binutil.rs:98-107 | the reader method returns `PointerAt` and advances four bytes |
| ElfRead.ReadString | src/binutil.rs:53-63 | the reader method returns `StringAt` and advances four bytes |
| ElfRead.ReadStringOptional | src/binutil.rs:65-74 | the reader method returns `StringOptionalAt` and advances four bytes |
| Folds.FoldEachNext | src/elf/container.rs:211-259 | one more step of a successful fold is the step function applied to its state |
| Folds.FoldEachErrLater | src/elf/container.rs:211-259 | an error in a prefix is the error of every longer prefix |
| Folds.FoldEachStop | src/elf/container.rs:211-259 | a failing step ends the whole fold with its error |
| Stream.ReadAt | src/elf/mod.rs:54-55 | `read_exact` of `n` bytes succeeds exactly when they are there, giving them |
| Stream.ReadEach | src/elf/container.rs:193-195 | reading `n` records in a row gives `n` values |
| Stream.ReadEachNext | src/elf/container.rs:193-195 | one more successful record extends the values |
| Stream.ReadEachErrLater | src/elf/container.rs:193-195 | an error stops the read for good |
| Stream.ReadEachStop | src/elf/container.rs:193-195 | the first failing record gives the error |
| Stream.ReadEachAt | src/elf/container.rs:193-195 | value `k` is record `k` |
| Stream.ReadEachOk | src/elf/container.rs:193-195 | the read succeeds exactly when every record does |
| Stream.RecordPosNext | src/binutil.rs:91-93 | records follow each other one stride apart |
| Stream.Prepend | src/formats/shop.rs:62-71 | prefixing a result keeps its success, and the prefix comes first |
| Stream.ReadUntilNext | src/formats/shop.rs:62-71 | a record that is not the sentinel joins the items and the read continues one stride on |
| Stream.ReadUntilDone | src/formats/shop.rs:62-71 | the sentinel ends the read with the items so far |
| Stream.ReadUntilItemsFrom | src/formats/shop.rs:62-71 | a successful sentinel-terminated read holds the records before the sentinel, none of them the sentinel |
| Stream.ReadUntilItems | src/formats/shop.rs:62-71 | the same, from the first record |
| Stream.ReadUntilOfFrom | src/formats/shop.rs:62-71 | records followed by the sentinel read back as those records |
| Stream.ReadUntilOf | src/formats/shop.rs:62-71 | the same, from the first record |
| Stream.U32At | src/util/pointer.rs:94-102 | `read_u32::<BigEndian>` succeeds exactly when four bytes are left and gives their value |
| Stream.U32AtEncoding | src/util/pointer.rs:94-118 | a written u32 reads back |
| Stream.Cursor.constructor | src/util/pointer.rs:104-113 | a cursor starts at position 0 over its data |
| Stream.Cursor.Seek | src/util/mod.rs:26-30 | `seek` sets the position |
| Stream.Cursor.ReadExact | src/elf/mod.rs:51-55 | `read_exact` returns `ReadAt` and advances by `n` |
| Stream.Cursor.ReadU32 | src/util/pointer.rs:94-102 | `read_u32` returns `U32At` and advances by four |
| Stream.Overwrite | src/elf/container.rs:357-358 | writing into a `Cursor<Vec<u8>>` replaces the bytes at the position, zero-fills a gap past the end and keeps the rest |
| Stream.OverwriteAtEnd | src/elf/container.rs:304 | writing at the end appends |
| Stream.ByteWriter.constructor | src/elf/container.rs:293 | a writer starts empty at position 0 |
| Stream.ByteWriter.Write | src/elf/container.rs:304 | `write_all` overwrites at the position and advances by the length |
| Stream.ByteWriter.SetPosition | src/elf/container.rs:357 | `set_position` moves without writing |
| Stream.ByteWriter.WriteU32 | src/util/pointer.rs:115-118 | `write_u32::<BigEndian>` writes the four bytes and advances by four |
| Stream.ByteWriter.AlignTo | src/elf/container.rs:302 | `align_to` writes the zero padding up to the alignment and lands on a multiple of it |
| WriteContext.Appended | src/binutil.rs:318-326 | appending bytes to one heap block leaves the number of blocks unchanged and extends exactly that block with the new bytes |
| WriteContext.ExtendsTrans | src/binutil.rs:318-341 | growing the heap is transitive: later writes never disturb what earlier writes put down |
| WriteContext.AppendedExtends | src/binutil.rs:320-324 | writing bytes at the end of a block keeps every byte and every pending reference already in the heap |
| WriteContext.TokenExtends | src/binutil.rs:341 | writing a 4-byte placeholder for a heap reference at the cursor keeps the earlier heap and adds exactly that reference |
| WriteContext.UntouchedTrans | src/binutil.rs:318-326 | a sequence of writes that leave the blocks other than the current one alone also leaves them alone as a whole |
| WriteContext.WriteCtx.Current | src/binutil.rs:318-326 | the block being written is always one of the heap's blocks |
| WriteContext.WriteCtx.Here | src/binutil.rs:429 | the heap token at the cursor names a spot that has not been written and carries no reference yet |
| WriteContext.WriteCtx.Write | src/binutil.rs:320 | writing bytes extends the current block by exactly those bytes and advances the position by their length, with references and open blocks unchanged |
| WriteContext.WriteCtx.WriteU32 | src/binutil.rs:384 | writing a 32-bit word appends its big-endian bytes to the current block and advances the position by 4 |
| WriteContext.WriteCtx.WriteCStr | src/binutil.rs:320 | writing a C string appends the bytes and a single terminating zero, advancing the position by the length plus one |
| WriteContext.WriteCtx.AlignTo | src/binutil.rs:321-323 | aligning pads the current block with zeros so that, for an alignment above one, the new position is a multiple of it |
| WriteContext.WriteCtx.WriteToken | src/binutil.rs:341 | writing a token puts four zero bytes at the cursor and records that this spot refers to the token |
| WriteContext.WriteCtx.BeginBlock | src/binutil.rs:318 | allocating the next block adds one empty block with the requested alignment and makes it current at position 0 |
| WriteContext.WriteCtx.EndBlock | src/binutil.rs:318-326 | closing an allocated block returns to the enclosing block, with the heap bytes and references unchanged |
| WriteContext.HereAdvanced | src/binutil.rs:429-434 | after n more bytes in the same block, the token at the cursor is the earlier token moved n bytes along |
| WriteContext.HeapWord | src/binutil.rs:112 | a word can be read back exactly when four bytes exist at the token's offset in its block |
| WriteContext.HeapField | src/binutil.rs:109-124 | a field only reads back when its 4-byte slot exists in the heap |
| WriteContext.DefaultRecord | src/binutil.rs:406 | the default record has one value per field |
| WriteContext.RecordInWithin | src/binutil.rs:91-93 | reading consecutive records of a block never reads past the block's end |
| WriteContext.HeapBox | src/binutil.rs:109-124 | a box slot reads back exactly when it holds the word 0 and a reference is recorded for it, and then yields the referenced token |
| WriteContext.WordWritten | src/binutil.rs:384 | a word written at the end of a block reads back as that same word |
| WriteContext.ZeroWord | src/binutil.rs:287 | the zero placeholder is the big-endian encoding of 0 |
| WriteContext.WordExtends | src/binutil.rs:318-341 | a word that reads back keeps reading back the same after any later heap growth |
| WriteContext.StringExtends | src/binutil.rs:318-341 | a string that reads back keeps reading back the same after any later heap growth |
| WriteContext.FieldExtends | src/binutil.rs:318-341 | a field that reads back keeps reading back the same after any later heap growth |
| WriteContext.RecordFields | src/binutil.rs:91-93 | a record that reads back is made of fields that each read back as the corresponding value |
| WriteContext.RecordOf | src/binutil.rs:91-93 | if every field slot of a record reads back as the corresponding value, the record reads back as those values |
| WriteContext.RecordExtends | src/binutil.rs:318-341 | a record that reads back keeps reading back the same after any later heap growth |
| WriteContext.FieldsNext | src/binutil.rs:91-93 | the fields that read back grow by one when the next field is written |
| WriteContext.RecordsNext | src/binutil.rs:376-378 | the records that read back grow by one when the next record is written |
| WriteContext.RecordsExtend | src/binutil.rs:376-378 | records that read back keep reading back after any later heap growth |
| WriteContext.RecordsOf | src/binutil.rs:91-93 | if every record slot reads back, reading that many records yields exactly the written items |
| WriteContext.BoxExtends | src/binutil.rs:345-367 | a box that reads back keeps reading back the same after any later heap growth |
| WriteContext.SliceExtends | src/binutil.rs:369-394 | a slice that reads back keeps reading back the same after any later heap growth |
| WriteContext.UntilDefaultExtends | src/binutil.rs:396-421 | a null-terminated slice that reads back keeps reading back the same after any later heap growth |
| ElfWrite.Kinds | src/binutil.rs:76-96 | a record layout code gives one field kind per character, matching the flat layout |
| WriteState.StringBlock | src/binutil.rs:317-326 | a string block starts with the string and a zero byte; a string longer than two bytes is padded to a multiple of 4 and by at most 4 bytes, a shorter one is not padded |
| WriteState.StringsInExtends | src/binutil.rs:297-301 | strings remembered for deduplication stay readable at their tokens after any later heap growth |
| ElfWrite.StringBlockReadsBack | src/binutil.rs:53-74 | a block that starts with a string's bytes and its terminator reads back as that string |
| ElfWrite.WriteStringExtends | src/binutil.rs:294-343 | writing a string keeps all earlier heap contents and leaves every block other than the current one untouched |
| ElfWrite.WriteStringKeeps | src/binutil.rs:334-336 | after writing a string, every string in the deduplication map still reads back at its token |
| ElfWrite.WriteStringReadsBack | src/binutil.rs:294-343 | a string written at the cursor reads back as that string, whether it was newly allocated or reused |
| ElfWrite.WriteStringRemembers | src/binutil.rs:297-301 | a deduplicated string written below the dedup limit is found again by a later write below the limit and reuses the same token |
| ElfWrite.DefaultRecordConforms | src/binutil.rs:406 | the default record fits its layout and contains no unwritable value |
| ElfWrite.SliceWritten | src/binutil.rs:383-384 | writing a slice's token and count advances by 8 bytes, keeps the heap and makes the slice read back as the written items |
| ElfWrite.SliceHeaderReadsBack | src/binutil.rs:383-384 | a pointer to written records followed by their count reads back as exactly those records |
| ElfWrite.UntilDefaultWritten | src/binutil.rs:411 | writing the token of a default-terminated block keeps the heap and makes it read back as the items before the terminator |
| ElfWrite.UntilDefaultReadsBack | src/binutil.rs:401-411 | records followed by a default record, none of which is default, read back as exactly those records |
| ElfWrite.WriteStringBlock | src/binutil.rs:318-326 | a string is allocated in a new block with the given alignment, holding the string block, and its token is the start of that block |
| ElfWrite.StringPointsBack | src/binutil.rs:294-343 | the 4 bytes a string write leaves in the current block are a zero word whose reference leads to that string |
| ElfWrite.FieldGrows | src/binutil.rs:462-476 | one `FieldSpec` step keeps all earlier heap contents and remembered strings and adds exactly 4 bytes to the current block |
| ElfWrite.FieldReadsBack | src/binutil.rs:462-476 | after one `FieldSpec` step a plain value reads back by its kind where the step started |
| ElfWrite.RecordGrows | src/binutil.rs:376-378 | the first n `FieldSpec` steps of a record keep the heap, add 4n bytes to the current block and, with plain values, read back as the first n fields from where the record starts |
| ElfWrite.RecordWritten | src/binutil.rs:376-378 | a whole `RecordSpec` adds the record size to the current block and a plain record reads back as its values |
| ElfWrite.RecordsGrow | src/binutil.rs:376-378 | the first n records of `RecordsSpec` add n record sizes to the current block and, with plain values, read back one after the other |
| ElfWrite.ElfWriteDomain.constructor | src/binutil.rs:273-283 | a new domain starts with an empty string map, no symbols, no relocations and no previous string length |
| ElfWrite.ElfWriteDomain.PutSymbol | src/binutil.rs:444-446 | a symbol declaration is appended and nothing else changes |
| ElfWrite.ElfWriteDomain.PutRelocation | src/binutil.rs:448-450 | a relocation declaration is appended and nothing else changes |
| ElfWrite.ElfWriteDomain.AllocateString | src/binutil.rs:303-338 | a new string gets its own block, aligned 0 when the previous and current strings are short and 4 otherwise, is declared as an internal '.' symbol of the block's size, and is remembered only when deduplicating |
| ElfWrite.ElfWriteDomain.WriteString | src/binutil.rs:294-343 | writing a string reuses a remembered token below the dedup limit or allocates a new block, then writes a 4-byte reference that reads back as the string |
| ElfWrite.ElfWriteDomain.WriteWord | src/binutil.rs:287 | writing a plain word advances by 4 and the word reads back |
| ElfWrite.ElfWriteDomain.WriteStringOptional | src/binutil.rs:285-292 | a missing string is written as a zero word with nothing else changed; a present one is written as by write_string; either way it reads back as written |
| ElfWrite.ElfWriteDomain.WriteField | src/binutil.rs:462-476 | writing a field advances by 4 and leaves the string map, symbols, previous string length and heap as `FieldSpec` gives them: a word appended as it is, a string or a present optional string through `write_string` with deduplication, an absent one as a zero word; a plain value reads back by its kind |
| ElfWrite.ElfWriteDomain.WriteRecord | src/binutil.rs:376-378 | writing a record advances by 4 per field and leaves the domain and heap as `RecordSpec` gives them, the `FieldSpec` steps taken in field order; a plain record reads back as the written values |
| ElfWrite.ElfWriteDomain.WriteRecords | src/binutil.rs:376-378 | writing records one after another leaves the domain and heap as `RecordsSpec`, one `RecordSpec` per item in order, ends right after the last record, and plain records read back in order |
| ElfWrite.ElfWriteDomain.WriteSliceBlock | src/binutil.rs:374-381 | a slice's contents go into a new 4-aligned block at the end of the heap, the domain and heap become `SliceBlockSpec` (every record, then the default record when terminated, written there in order with string writes deduplicated), the block is the record size times the item count (plus one record when terminated) and plain items read back from its start |
| ElfWrite.ElfWriteDomain.WriteSlice | src/binutil.rs:369-394 | a slice leaves the domain and heap as `SliceSpec`: its block as `SliceBlockSpec`, then a reference to that block and a 32-bit count in the current block, and a named symbol of the contents' size appended when a name is given; the slice reads back as the items |
| ElfWrite.ElfWriteDomain.WriteNullTerminatedSlice | src/binutil.rs:396-421 | a null-terminated slice leaves the domain and heap as `NullTerminatedSliceSpec`: its block holding the items and one default record, a reference to that block with no count, and a named symbol whose size counts the terminator; it reads back as the items when none of them is default |
| ElfWrite.ElfWriteDomain.WriteEachField | src/binutil.rs:376-378 | the fields of one record are written in order and the state after them is `RecordSpec` over all of them |
| ElfWrite.ElfWriteDomain.WriteEachRecord | src/binutil.rs:376-378 | the records are written in order and the state after them is `RecordsSpec` over all of them |
| ElfWrite.ElfWriteDomain.WriteTerminator | src/binutil.rs:406 | the default record after the items is written as a `RecordSpec` step, ends the block one record after the items, and with plain items the block reads back as the items followed by the default record |
| ElfWrite.ElfWriteDomain.BeginBox | src/binutil.rs:350 | a box starts a new 4-aligned block whose token is the start of that block |
| ElfWrite.ElfWriteDomain.EndBox | src/binutil.rs:351-367 | finishing a box writes a reference to its block, which reads back as a box, and declares a symbol of the contents' size when a name is given |
| ElfWrite.ElfWriteDomain.EndSymbol | src/binutil.rs:423-442 | write_symbol declares an unmangled symbol at the token where the content started, sized by the bytes written since |
| ElfWrite.ElfWriteDomain.WritePointerDebug | src/binutil.rs:452-455 | a debug pointer is written as its value with the 0x70000000 bits set, in big-endian order, advancing by 4 |
| ElfWrite.ElfWriteDomain.ApplyReference | src/binutil.rs:478-488 | every reference records a relocation from the writer's position to the heap offset, and writes the debug pointer only when debug relocations are enabled |
| HeapRead.HeapValue | src/binutil.rs:53-204 | a value read by shape lies within its block: a field, a record field by field, a `Vec` as pointer and count (read_vec), a null-terminated list and a nullable box (read_box_nullable) |
| HeapRead.FlatValue | src/binutil.rs:181-204 | a record of derived fields read field by field is what the reader of the flat shape finds, 4 bytes per field |
| HeapRead.FlatItemsValue | src/binutil.rs:91-93 | records at each stride are what the reader reads count times from the pointer |
| HeapRead.SliceValue | src/binutil.rs:76-96 | a slice written as pointer and count reads back through read_vec as the list of the records |
| HeapRead.UntilDefaultValue | src/binutil.rs:76-96 | records followed by the default one read back as the records before it when read up to the first default record |
| HeapRead.PairValueOf | src/binutil.rs:181-204 | two values at consecutive offsets read back as a two-field record of those values |
| Formats.FileType.Name | src/formats/mod.rs:41-50 | every file type displays as one of the four accepted names, and parsing that name gives the same type back |
| Formats.FileType.ContentSectionName | src/formats/mod.rs:33-38 | dispos data lives in `.data`, every other type in `.rodata` |
| Formats.FromString | src/formats/mod.rs:21-31 | a name is accepted exactly when it is one of the four listed values |
| Formats.NameOfParsed | src/formats/mod.rs:21-50 | parsing a listed name and displaying the result gives the name back |
| Formats.FileData.CppFileName | src/formats/mod.rs:61-68 | dispos has no source file name and panics; the others are `data_shop.cpp` and `data_fld_<type>.cpp` |
| Formats.FileData.ElfIdentPaddingUnk | src/formats/mod.rs:70-75 | the padding byte is 1 for maplink and 0 for every other type |
| Formats.FileData.StringDedupSize | src/formats/mod.rs:78-85 | the dedup limit is 0xa028 for mapid and 0xc32c for every other type |
| Layouts.Size | src/formats/maplink.rs:51-69 | a record layout that has a size has a positive one |
| Layouts.FieldsSize | src/formats/maplink.rs:51-69 | fields whose last field has a size take up a positive number of bytes |
| Layouts.FieldOffsetNext | src/formats/maplink.rs:51-69 | each field starts where the previous one ends, and the end of the last one is the record size |
| Layouts.ReadValue | src/formats/maplink.rs:31-49 | reading a value succeeds only when the whole value lies inside the data |
| Layouts.RecordAt | src/formats/maplink.rs:51-69 | a derived reader reads one value per field, inside the data, in declaration order |
| Layouts.VecValueAt | src/binutil.rs:76-96 | reading a vector needs its 8-byte pointer and count inside the data |
| Layouts.CountedAt | src/formats/dispos.rs:36-50 | a hand-read pointer and count gives a list and needs 8 bytes inside the data |
| Layouts.UntilDefaultValueAt | src/formats/shop.rs:54-75 | a sentinel-terminated list gives a list and needs its 4-byte pointer inside the data |
| Layouts.BoxedAt | src/binutil.rs:163-172 | a boxed value needs its 4-byte pointer inside the data |
| Layouts.RecordValues | src/formats/maplink.rs:51-69 | every value of a record that reads is the value read at its field's offset |
| Layouts.RecordOk | src/formats/maplink.rs:51-69 | a record reads whenever each of its fields reads |
| Layouts.RecordFields | src/formats/maplink.rs:51-69 | a record reads if and only if each field reads, and then holds exactly those values |
| Layouts.RecordError | src/formats/maplink.rs:51-69 | a record fails with the error of its first field that fails |
| Layouts.Flat | src/formats/maplink.rs:51-69 | a flat struct has one 4-byte field per character of its layout code, of the kind that character names |
| Layouts.WordFieldsOffsets | src/formats/maplink.rs:51-69 | a struct of single-word fields takes 4 bytes per field, and field k starts at byte 4k |
| Layouts.FlatLayout | src/formats/mapid.rs:67-101 | a flat struct is 4 bytes per field, and field k starts at byte 4k |
| Layouts.FlatRead | src/formats/mapid.rs:67-101 | a flat struct reads if and only if the field at each 4k reads, and gives those fields in order |
| Layouts.RecordOfTwo | src/formats/mapid.rs:48-53 | a two-field struct reads if and only if both fields read, and is made of them |
| Layouts.RecordOfFour | src/formats/dispos.rs:52-74 | a four-field struct reads if and only if all four fields read, and is made of them |
| Layouts.PairRead | src/formats/mapid.rs:48-53 | a struct of two parts reads if and only if the first part reads and then the second part right after it, and is made of them |
| Layouts.BoxedIdVecRead | src/formats/lct.rs:47-53 | a boxed `{ id, Vec }` reads, through its pointer, as the string there followed by the vector behind it, failing with the pointer's error when that fails |
| Layouts.CountedItems | src/formats/dispos.rs:36-50 | a hand-read table has a count, exactly count (or count - 1 when the trailing null record is counted) items, each read at its stride, and a zero count with a counted null record panics |
| Layouts.ElemWithin | src/binutil.rs:91-93 | reading one element never goes past its size or the end of the data |
| Layouts.UntilDefaultItems | src/formats/shop.rs:62-71 | a sentinel-terminated list is made of non-default records at each stride, followed by one default record |
| Layouts.UntilDefaultReadsBack | src/formats/shop.rs:62-71 | non-default records followed by a default record read back as exactly those records |
| Layouts.BoxedIsNonNullBox | src/binutil.rs:163-172 | a non-null box reads like read_box_nullable giving Some; a null box is an error |
| LayoutRead.ReadField | src/binutil.rs:181-204 | reading one field through the domain gives the field's value and advances 4 bytes |
| LayoutRead.ReadShape | src/formats/maplink.rs:31-49 | the cursor reader of a layout gives exactly the layout's value and advances by its size |
| LayoutRead.ReadRecord | src/formats/maplink.rs:51-69 | reading a struct field by field gives the record's value and advances by its size |
| LayoutRead.ReadItems | src/formats/maplink.rs:40-42 | reading count items one after the other gives the items at each stride, failing at the first error |
| LayoutRead.ReadVecField | src/binutil.rs:76-96 | read_vec gives the vector's value, advances 8 bytes and restores the position after following the pointer |
| LayoutRead.ReadCounted | src/formats/dispos.rs:36-50 | reading a hand-read pointer and count gives the table's value, advances 8 bytes and restores the position |
| LayoutRead.ReadUntilDefault | src/formats/shop.rs:54-75 | reading a sentinel-terminated list gives its value, advances 4 bytes and restores the position |
| LayoutRead.ReadUntilDefaultItems | src/formats/shop.rs:62-71 | the sentinel loop reads records until the first default one |
| LayoutRead.ReadBoxed | src/binutil.rs:163-172 | reading a box follows its pointer, gives the value there, advances 4 bytes and restores the position |
| Tables.ReadTable | src/formats/maplink.rs:10-23 | a table is read through its count symbol and data symbol, has count (or count - 1) records, and fails on a missing symbol |
| Tables.ReadTableSteps | src/formats/lct.rs:16-29 | seeking and reading step by step gives the same table |
| Tables.TableItems | src/formats/dispos.rs:18-34 | a table that reads has both symbols, a count read at the count symbol, and each record read at its stride from the data symbol |
| Tables.TableErrors | src/formats/lct.rs:16-29 | a missing count symbol, or a missing data symbol after the count, is a missing-symbol error, and a zero count with a counted null record panics |
| Tables.TableOf | src/formats/mapid.rs:18-31 | records found at each stride after a valid count read back as the table |
| IdSlices.IdSliceExtends | src/formats/mapid.rs:55-65 | an `{ id, slice }` record that reads back keeps reading back after any later heap growth |
| IdSlices.WriteId | src/formats/mapid.rs:61 | the id is written as a string that reads back, advancing one field |
| IdSlices.WriteIdSlice | src/formats/mapid.rs:55-65 | the id and then the items are written as a slice named by the given symbol, 12 bytes in all, and the record reads back as the id and the items |
| IdSlices.IdSliceValue | src/formats/mapid.rs:48-53 | an id and a written slice are the 12 bytes a reader of an id followed by a `Vec` of flat records reads as that id and those records |
| IdSlices.IdTerminatedExtends | src/formats/shop.rs:77-96 | an `{ id, null-terminated slice }` record that reads back keeps reading back after any later heap growth |
| IdSlices.WriteIdTerminated | src/formats/shop.rs:77-96 | the id and then a null-terminated slice are written (8 bytes), a symbol sized to include the terminator is declared, and the record reads back when no item is the default one |
| IdSlices.IdTerminatedValue | src/formats/shop.rs:54-75 | an id and a null-terminated slice are the 8 bytes a reader of an id followed by a default-terminated list reads as that id and those records |
| MaplinkFormat.LinkLayout | src/formats/maplink.rs:51-69 | a link is fifteen 4-byte fields (0x3c bytes), none of them an optional string |
| MaplinkFormat.AreaRead | src/formats/maplink.rs:31-49 | an area reads if and only if its name and its link table read; it then holds the name and exactly link_count links, each read at its 0x3c-byte stride from the links pointer |
| MaplinkFormat.ReadMaplink | src/formats/maplink.rs:10-23 | read_maplink reads dataCount areas from the datas symbol, and fails with a missing symbol when either symbol is absent |
| MapIdFormat.MapDefinitionLayout | src/formats/mapid.rs:67-101 | a map definition is thirty-two 4-byte fields (0x80 bytes) |
| MapIdFormat.MapGroupRead | src/formats/mapid.rs:48-53 | a map group reads if and only if its id and its vector of definitions read, and is made of them |
| MapIdFormat.ReadMapId | src/formats/mapid.rs:18-31 | read_mapid reads dataCount groups from the datas symbol, and fails with a missing symbol when either symbol is absent |
| MapIdFormat.MapDefinitionKinds | src/formats/mapid.rs:67-101 | the written layout of a map definition has thirty-two fields |
| MapIdFormat.GroupsNext | src/formats/mapid.rs:38-43 | the groups that read back grow by one as each group's id and slice are written at its 12-byte stride |
| MapIdFormat.WriteGroups | src/formats/mapid.rs:38-43 | writing the groups one after another takes 12 bytes each and every group reads back as its id and its definitions |
| MapIdFormat.GroupsValue | src/formats/mapid.rs:18-31 | written groups are what the reader of `MapGroup` finds count times at the 12-byte stride: each id and its definitions |
| MapIdFormat.WriteMapId | src/formats/mapid.rs:33-46 | write_mapid declares dataCount as a 4-byte symbol holding the group count, then datas over 12 bytes per group, and the groups read back from datas |
| ShopFormat.SoldItemLayout | src/formats/shop.rs:98-103 | a sold item is two optional strings (8 bytes) and the default one is two absent strings |
| ShopFormat.ShopRead | src/formats/shop.rs:54-75 | a shop reads if and only if its id and its item list read; the items are the non-default records at each 8-byte stride, up to the first default one |
| ShopFormat.ReadShops | src/formats/shop.rs:18-31 | read_shops reads shopListLen shops from shopList, and fails with a missing symbol when either symbol is absent |
| ShopFormat.SoldItemKinds | src/formats/shop.rs:98-103 | the written layout of a sold item is two fields that can all be written |
| ShopFormat.WriteShop | src/formats/shop.rs:86-93 | a shop is written as its id and a null-terminated item slice declared as the internal symbol 's' sized to include the terminator, and reads back when no item is the default |
| ShopFormat.ShopsNext | src/formats/shop.rs:34-39 | the shops that read back grow by one as each shop is written at its 8-byte stride |
| ShopFormat.WriteShopList | src/formats/shop.rs:34-39 | writing the shops one after another takes 8 bytes each and every shop reads back |
| ShopFormat.ShopsExtend | src/formats/shop.rs:34-39 | shops that read back keep reading back after any later heap growth |
| ShopFormat.ShopsValue | src/formats/shop.rs:18-31 | written shops are what the reader of `Shop` finds count times at the 8-byte stride: each id and its items up to the default one |
| ShopFormat.WriteShops | src/formats/shop.rs:33-45 | write_shops declares shopList over 8 bytes per shop and then shopListLen as a 4-byte symbol holding the count, and the shops read back from shopList |
| LctFormat.LctLayout | src/formats/lct.rs:102-109 | an lct entry is four 4-byte fields (16 bytes) |
| LctFormat.MapLctRead | src/formats/lct.rs:75-81 | a boxed map lct reads through its pointer as the map id followed by a vector of lct entries, failing with the pointer's error when that fails |
| LctFormat.AreaLctRead | src/formats/lct.rs:47-53 | a boxed area lct reads through its pointer as the area id followed by a vector of map lcts |
| LctFormat.ReadLct | src/formats/lct.rs:16-29 | read_lct reads count - 1 areas, panics on a zero count, and fails with a missing symbol when either symbol is absent |
| LctFormat.WrittenLengthReadsBack | src/formats/lct.rs:24-33 | the stored length, the count plus one, gives back the count when read as count - 1 |
| LctFormat.LctKinds | src/formats/lct.rs:102-109 | the written layout of an lct entry is four fields that can all be written |
| LctFormat.MapLctExtends | src/formats/lct.rs:83-100 | a map lct that reads back keeps reading back after any later heap growth |
| LctFormat.MapLctsExtend | src/formats/lct.rs:83-100 | map lcts that read back keep reading back after any later heap growth |
| LctFormat.MapLctsNext | src/formats/lct.rs:61-64 | the map lcts that read back grow by one as each is written at its 4-byte stride |
| LctFormat.MapLctsAppend | src/formats/lct.rs:61-64 | a map lct that reads back at the next stride extends the list that reads back |
| LctFormat.WriteMapLct | src/formats/lct.rs:90-99 | an empty map lct is a zero word with no symbol; any other is a box declared as the internal symbol 'l' over 12 bytes; either reads back |
| LctFormat.WriteMapLctRecord | src/formats/lct.rs:84-88 | a map lct's id and its entries as a slice take 12 bytes and read back as that id and those entries |
| LctFormat.WriteMapLctBox | src/formats/lct.rs:95-97 | a boxed map lct is a 4-byte pointer to its 12-byte record, declared as the internal symbol 'l', and reads back as its id and entries |
| LctFormat.MapBoxValue | src/formats/lct.rs:75-81 | a boxed map lct as written is what the reader of the boxed `MapLct` shape finds: its id and its entries |
| LctFormat.DefaultMapUnreadable | src/formats/lct.rs:90-93 | the zero word written for an empty map lct is a null pointer to the reader of the boxed shape, which fails |
| LctFormat.LastAppended | src/binutil.rs:444-446 | a declaration pushed onto the symbol list is its new last element |
| LctFormat.WriteMapLcts | src/formats/lct.rs:61-64 | writing map lcts one after another takes 4 bytes each and each reads back |
| LctFormat.WriteMapLctSlice | src/formats/lct.rs:61-64 | with `write_length` the maps go into one new block followed by a default map lct, the box points at that block, and a 32-bit count of the maps, the terminator not counted, follows: 8 bytes in all |
| LctFormat.AreaLctRecordExtends | src/formats/lct.rs:59-66 | an area lct record that reads back keeps reading back after any later heap growth |
| LctFormat.AreaLctExtends | src/formats/lct.rs:68-72 | a boxed area lct that reads back keeps reading back after any later heap growth |
| LctFormat.WriteAreaLctRecord | src/formats/lct.rs:59-66 | an area lct's id, map-list pointer and map count take 12 bytes; the id reads back, the pointer leads to the maps followed by the default map, and the count word is the number of maps |
| LctFormat.MapItemsValue | src/formats/lct.rs:61-64 | the maps written before the terminator read back count times at the 4-byte stride as the maps |
| LctFormat.AreaLctRecordValue | src/formats/lct.rs:47-53 | an area record as written, with no default map, reads as its id and a `Vec` of the maps |
| LctFormat.WriteAreaLct | src/formats/lct.rs:68-72 | an area lct is a 4-byte box declared as the internal symbol 'l' over its 12-byte record and, when no map is the default map, reads back under the reader's `AreaLct` shape as its id and maps |
| LctFormat.AreaLctValue | src/formats/lct.rs:47-53 | a boxed area lct as written, with no default map, reads through its pointer as its id and maps |
| LctFormat.AreaLctsExtend | src/formats/lct.rs:36-42 | area lcts that read back keep reading back after any later heap growth |
| LctFormat.AreaLctsValue | src/formats/lct.rs:16-29 | area lcts written one after another, with no default map, are what read_lct reads at the 4-byte stride |
| LctFormat.WriteAreaLcts | src/formats/lct.rs:37-39 | writing the area lcts one after another takes 4 bytes each; each is laid out at its stride and, when no map is the default map, the whole run reads back under the reader's `AreaLct` shape as the areas |
| LctFormat.WriteLctTable | src/formats/lct.rs:36-42 | the table symbol covers the area boxes and the final zero word, 4 bytes per area plus 4, and ends with that zero word |
| LctFormat.WriteLct | src/formats/lct.rs:31-45 | write_lct panics exactly when count + 1 overflows u32; otherwise it declares the length symbol holding count + 1 and the table symbol over the areas and a final zero word, and the areas read back under the reader's `AreaLct` shape when no map is the default map |
| DisposFormat.NpcLayout | src/formats/dispos.rs:102-184 | an npc is 78 fields (0x138 bytes) whose first two are strings and whose script fields are optional strings |
| DisposFormat.MobjLayout | src/formats/dispos.rs:214-245 | a mobj is 27 fields (0x6c bytes) whose first two are strings and whose field at 0x40 is an optional string |
| DisposFormat.EntriesSized | src/formats/dispos.rs:76-84 | the three kinds of entry and their per-map lists all have a fixed size |
| DisposFormat.ItemLayout | src/formats/dispos.rs:274-293 | an item is 16 fields (0x40 bytes), none of them an optional string |
| DisposFormat.AreaFieldsLayout | src/formats/dispos.rs:60-74 | the body of an area is the id and three pointer-and-count lists, 28 bytes, at offsets 0, 4, 12 and 20 |
| DisposFormat.AreaRecordRead | src/formats/dispos.rs:67-72 | an area body reads if and only if its id and its three lists read, and is made of them |
| DisposFormat.AreaBoxRead | src/formats/dispos.rs:60-66 | an area reads through its pointer as the body there, or fails with the pointer's error |
| DisposFormat.AreaRead | src/formats/dispos.rs:60-74 | an area reads, through its pointer, if and only if its id and its three lists read, each list counting a trailing null record |
| DisposFormat.ItemVecRead | src/formats/dispos.rs:36-50 | read_dispos_item_vec reads count - 1 entries at the pointer's 4-byte stride, and panics on a zero count |
| DisposFormat.ReadDispos | src/formats/dispos.rs:18-34 | read_dispos reads count - 1 areas, panics on a zero count, and fails with a missing symbol when either symbol is absent |
| DisposFormat.ListKind.Code | src/formats/dispos.rs:102-293 | every entry layout has at least one field |
| DisposFormat.ListKind.EntryKinds | src/formats/dispos.rs:102-293 | an entry's written layout has one field per layout character |
| DisposFormat.ListKind.EntrySize | src/formats/dispos.rs:102-293 | an entry takes 4 bytes per field |
| DisposFormat.WriteList | src/formats/dispos.rs:92-97 | a per-map list writes the map id without deduplication and the entries as a slice named after the map id (12 bytes), and reads back as the id and the entries |
| DisposFormat.ListValue | src/formats/dispos.rs:76-83 | a per-map list as written is what the derived reader of the boxed list finds behind its pointer: the map id and the entries |
| ChrFormat.NpcDefLayout | src/formats/chr.rs:72-120 | an npc definition is 43 fields (0xac bytes) whose third is a pointer |
| ChrFormat.MobjDefLayout | src/formats/chr.rs:135-151 | a mobj definition is 11 fields (0x2c bytes) whose third is a pointer and whose field at 0x28 is an optional string |
| ChrFormat.DefPtrRead | src/formats/chr.rs:62-70 | a definition pointer reads as the definition it points at, or fails with the pointer's error |
| ChrFormat.ReadChr | src/formats/chr.rs:10-45 | read_chr succeeds exactly when both tables read, fails with the first table's error, holds count - 1 npcs and mobjs, and sets the other parts to placeholders |
| Sorting.Insert | src/main.rs:147 | inserting one element gives a sequence one longer holding the same elements plus the new one |
| Sorting.SortBy | src/main.rs:147 | a sort keeps the length and is a permutation of its input |
| Sorting.InsertSorted | src/main.rs:178 | under a total preorder, inserting into a sorted sequence keeps it sorted |
| Sorting.SortBySorted | src/main.rs:178 | under a total preorder, the result of the sort is sorted |
| Sorting.Equivalents | src/main.rs:199 | the elements equivalent to a given one are at most all of the sequence |
| Sorting.InsertStable | src/main.rs:283 | insertion keeps the relative order of equivalent elements, with the inserted one first |
| Sorting.SortByStable | src/main.rs:283 | the sort is stable: elements with equal keys keep their input order, as Rust's sort_by and sort_by_key do |
| NameOrder.LexCmpReverse | src/main.rs:230 | comparing in the other order gives the reversed ordering |
| NameOrder.LexCmpEqual | src/main.rs:230 | the byte-wise comparison of str::cmp is Equal exactly for equal strings |
| NameOrder.LexCmpTransitive | src/main.rs:230 | the byte-wise comparison is transitive |
| NameOrder.LexCmpPrefix | src/main.rs:230 | a proper extension of a string compares greater than it |
| NameOrder.WeightedKey | src/main.rs:207-231 | the key that explains the comparator has one entry per byte plus an end marker |
| NameOrder.WeightedCmp | src/main.rs:207-231 | the comparator orders an extension of a name before the name when the first extra byte is below 'P' and after it otherwise, and byte-wise in every other case |
| NameOrder.NameCmpIsWeighted | src/main.rs:207-231 | the comparator built from is_less_special and str::cmp equals the lexicographic comparison of the weighted keys |
| NameOrder.WeightedKeyInjective | src/main.rs:207-231 | different names have different weighted keys |
| NameOrder.NameCmpTotalOrder | src/main.rs:199-232 | the comparator is antisymmetric, Equal only on equal names, and transitive, so it is a total order and sort_by gives a well-defined result |
| NameOrder.TokenLeTotalPreorder | src/main.rs:178 | ordering symbols by their heap token is a total preorder |
| NameOrder.NameLeTotalPreorder | src/main.rs:199-232 | ordering symbols by the comparator is a total preorder |
| RelocationTable.BaseLeTotalPreorder | src/main.rs:147 | ordering relocations by base location is a total preorder |
| RelocationTable.RelocationInfoFields | src/main.rs:155 | the info word `index << 8 \| 1`, cut to 32 bits, carries the symbol index modulo 2^24 and the relocation type 1 |
| RelocationTable.RelocationOf | src/main.rs:151-156 | an entry is made exactly when the base block exists and the target has a symbol index (otherwise the unwrap panics), with the resolved base as offset, the symbol index and type 1 in info, and addend 0 |
| RelocationTable.TableBytes | src/main.rs:149-159 | a table that is built has 12 bytes per relocation, and fails only by panicking |
| RelocationTable.TableBytesOk | src/main.rs:151-157 | the table is built if and only if every relocation gives an entry |
| RelocationTable.TableBytesEntry | src/main.rs:151-157 | the k-th 12 bytes of the table are the encoding of the k-th relocation's entry |
| RelocationTable.WriteRelocations | src/main.rs:142-160 | write_relocations sorts the relocations stably by base location, a sorted permutation, and writes the table of the sorted list |
| RelocationTable.WriteTable | src/main.rs:149-159 | the writing loop produces exactly the table of the relocations |
| RelocationTable.TablePrefixErr | src/main.rs:151-157 | once some relocation fails, the whole write fails |
| RelocationTable.WrittenTableOk | src/main.rs:142-160 | write_relocations succeeds if and only if every relocation's block exists and its target has a symbol index |
| RelocationTable.WrittenTableEntry | src/main.rs:142-160 | entry k of the written table decodes to the k-th relocation in base order: its resolved offset, its target's symbol index, type 1 and addend 0 |
| SymbolRenaming.UnnamedSlots | src/main.rs:171-176 | the collected slots are exactly Internal symbols, in declaration order, each keyed by its token and carrying its initial |
| SymbolRenaming.UnnamedSlotsComplete | src/main.rs:171-176 | every Internal symbol is collected |
| SymbolRenaming.FirstChar | src/main.rs:239 | the first character of a name is a non-empty prefix of it exactly when the name is non-empty, and is the whole first UTF-8 character |
| SymbolRenaming.NamedSlots | src/main.rs:195-197 | the collected slots are exactly InternalNamed symbols, in declaration order, each keyed by its name and carrying its first character |
| SymbolRenaming.NamedSlotsComplete | src/main.rs:195-197 | every InternalNamed symbol is collected |
| SymbolRenaming.SlotOrdersTotal | src/main.rs:178-232 | both sort orders used for renaming are total preorders |
| SymbolRenaming.RenameAll | src/main.rs:180-188 | renaming keeps the number of declarations |
| SymbolRenaming.RenameAllKeeps | src/main.rs:180-188 | a declaration that is not in the renaming order is left as it is |
| SymbolRenaming.RenameAllAt | src/main.rs:180-188 | the k-th declaration in the renaming order gets its initial followed by the generator's k+1-th name |
| SymbolRenaming.PermutedSlots | src/main.rs:178 | sorting the collected slots keeps their indices distinct |
| SymbolRenaming.RenameInOrder | src/main.rs:180-188 | the renaming loop does what RenameAll states |
| SymbolRenaming.UnnamedOrderFacts | src/main.rs:171-178 | the Internal symbols to rename are distinct, really Internal, carry their token and initial, and are sorted by token |
| SymbolRenaming.UnnamedOrderComplete | src/main.rs:171-178 | every Internal symbol is in the renaming order |
| SymbolRenaming.NamedOrderFacts | src/main.rs:195-232 | the InternalNamed symbols to rename are distinct, really InternalNamed, carry their name and first character, and are sorted by the comparator |
| SymbolRenaming.NamedOrderComplete | src/main.rs:195-232 | every InternalNamed symbol is in the renaming order |
| SymbolRenaming.NameInternalSymbols | src/main.rs:167-189 | the first block renames the Internal symbols in token order with fresh generated names |
| SymbolRenaming.NameNamedSymbols | src/main.rs:191-250 | the second block panics exactly when some InternalNamed name is empty (the unwrap of its first character) and otherwise renames them in comparator order |
| SymbolRenaming.NamedEmpty | src/main.rs:239 | some slot has an empty first character exactly when some InternalNamed name is empty |
| SymbolRenaming.UnnamedRank | src/main.rs:180-188 | an Internal symbol at rank k in token order is renamed to its initial followed by the k+1-th generated name |
| SymbolRenaming.UnnamedKeeps | src/main.rs:171-176 | the first block leaves every other symbol unchanged |
| SymbolRenaming.UnnamedRanksFollowTokens | src/main.rs:178 | an Internal symbol with a strictly lower token is renamed earlier |
| SymbolRenaming.UnnamedNamesDistinct | src/main.rs:180-188 | two Internal symbols with the same initial get different names |
| SymbolRenaming.GeneratedNamesDiffer | src/elf/mod.rs:129-182 | different positions of the name generator give different names after the same initial |
| SymbolRenaming.NamedRank | src/main.rs:234-249 | an InternalNamed symbol at rank k in comparator order is renamed to its first character followed by the k+1-th generated name |
| SymbolRenaming.NamedNamesDistinct | src/main.rs:234-249 | two InternalNamed symbols with the same first character get different names |
| SymbolRenaming.NamedRanksFollowNames | src/main.rs:199-232 | a name the comparator puts first is renamed earlier |
| SymbolRenaming.RenamingComplete | src/main.rs:167-250 | after both blocks every internal symbol has a plain generated name, keeping its offset and size, and every other symbol is unchanged |
| SymbolTableWriter.WriteSymbol | src/main.rs:288-312 | writing one symbol succeeds exactly when its block exists (resolve would otherwise panic) and, for a named symbol, the string table position still fits in 32 bits |
| SymbolTableWriter.WriteSymbolsResult | src/main.rs:315-317 | a run of symbols adds one to the count and one 16-byte entry per symbol, appends their names to the string table and keeps what was there |
| SymbolTableWriter.RunConditionsSplit | src/main.rs:315-317 | the conditions for a run to succeed split into those for all but the last symbol and those for the last |
| SymbolTableWriter.BlocksExistLast | src/main.rs:304 | every block of a run exists if and only if those of all but the last exist and the last one's does |
| SymbolTableWriter.NamesFitLast | src/main.rs:290-297 | every name position of a run fits in 32 bits if and only if those of all but the last do and the last one's does |
| SymbolTableWriter.WriteSymbolsOk | src/main.rs:315-317 | a run of symbols succeeds if and only if every block exists and every name position fits, and otherwise panics or overflows |
| SymbolTableWriter.WriteSymbolEntry | src/main.rs:299-309 | the entry written for a symbol has its resolved offset as value, its size, the given info, section 1, and a name pointer to where its name went, or 0 for a nameless symbol |
| SymbolTableWriter.WriteSymbolsPrefix | src/main.rs:315-317 | writing a prefix of a run succeeds too, and its table is a prefix of the whole run's table |
| SymbolTableWriter.WriteSymbolsEntry | src/main.rs:315-317 | the k-th entry of a run is the k-th symbol's entry, naming the position its name went to |
| SymbolTableWriter.WriteSymbolsStep | src/main.rs:315-317 | writing one more symbol of a run is writing the prefix, then that symbol |
| SymbolTableWriter.NameBytesPrefix | src/main.rs:290-297 | the names of a prefix of a run are a prefix of the run's names |
| SymbolTableWriter.NameBytesAt | src/main.rs:290-297 | the k-th symbol's name and terminator sit right after the names of the symbols before it |
| SymbolTableWriter.NameBytesStep | src/main.rs:290-297 | one more symbol appends exactly its name entry |
| SymbolTableWriter.LastWith | src/main.rs:300 | the last position holding a token is the one no later position shares; none means no position holds it |
| SymbolTableWriter.WriteSymbolsIndex | src/main.rs:300-301 | after a run, a token's symbol index is the table position of the last symbol of the run at that token, and tokens the run does not name keep their index |
| SymbolTableWriter.WriteSymbolsPrefixErr | src/main.rs:315-317 | once a symbol fails, the whole run fails with that same error |
| SymbolTableWriter.WriteRun | src/main.rs:315-317 | the writing loop does what WriteSymbols states |
| SymtabSections.Extracted | src/main.rs:279-281 | extract_if takes out exactly the symbols whose names are not internal |
| SymtabSections.Remaining | src/main.rs:279-281 | only internal symbols remain after extract_if |
| SymtabSections.SplitIsPartition | src/main.rs:279-281 | together, the extracted and remaining symbols are exactly the original declarations |
| SymtabSections.SplitAgrees | src/main.rs:279-281 | renaming internal symbols does not change which symbols are extracted, nor how many remain |
| SymtabSections.ResolvedLeTotalPreorder | src/main.rs:283 | ordering by resolved offset is a total preorder |
| SymtabSections.Repeated | src/main.rs:320-329 | n copies of an entry take 16 bytes each |
| SymtabSections.RepeatedStep | src/main.rs:320-329 | one more copy appends one encoded entry |
| SymtabSections.ExtractIf | src/main.rs:279-281 | the extract_if loop splits the declarations into the extracted and remaining lists |
| SymtabSections.ResolveKeys | src/main.rs:283 | computing the sort keys succeeds exactly when every remaining symbol's block exists |
| SymtabSections.WritePlaceholders | src/main.rs:320-329 | the loop appends the twelve placeholder entries |
| SymtabSections.WriteSymtab | src/main.rs:162-338 | write_symtab renames, splits, sorts and writes as WrittenSymtab states |
| SymtabSections.SplitAfterRenaming | src/main.rs:167-283 | after renaming, the global symbols are exactly the extracted originals, and every local has a plain generated name, with as many locals as internal symbols |
| SymtabSections.BlocksExistPermuted | src/main.rs:283 | whether every block exists does not depend on the order of the symbols |
| SymtabSections.BlocksExistSplit | src/main.rs:279-283 | every block exists if and only if it does for both the extracted and the remaining symbols |
| SymtabSections.EmptyNamedKept | src/main.rs:167-189 | the first renaming does not create or remove an empty InternalNamed name |
| SymtabSections.WrittenSymtabOk | src/main.rs:162-338 | write_symtab succeeds if and only if no InternalNamed name is empty, every block exists and every name position fits in 32 bits, and otherwise panics or overflows |
| SymtabSections.RunsSteps | src/main.rs:314-335 | the table is the locals' run, then the placeholders, then the globals' run |
| SymtabSections.WrittenSymtabParts | src/main.rs:253-337 | a written table is made of the locals' run, the placeholders and the globals' run, from the three fixed entries and the strtab prefix |
| SymtabSections.RunsState | src/main.rs:314-335 | each part appends its entries and names and keeps what came before |
| SymtabSections.RunsShape | src/main.rs:253-337 | the table has one entry per fixed entry, placeholder, local and global, starts with the fixed entries, and the string table holds the locals' then the globals' names |
| SymtabSections.EntryIs | src/main.rs:302-309 | the i-th entry decodes as the header encoded at 16i |
| SymtabSections.LocalEntry | src/main.rs:315-317 | entry 3 + k is the k-th local's entry, with local info |
| SymtabSections.RepeatedAt | src/main.rs:320-329 | every copy in the placeholder run is the same encoded entry |
| SymtabSections.FillerEntry | src/main.rs:320-329 | each entry after the locals in the filler is the repeated header |
| SymtabSections.EntryInFiller | src/main.rs:320-329 | an entry inside the filler decodes as the repeated header |
| SymtabSections.GlobalEntry | src/main.rs:332-335 | entry 3 + 12 + locals + j is the j-th global's entry, with global info |
| SymtabSections.RunEntry | src/main.rs:315-317 | entry i of the whole table is the matching symbol's entry |
| SymtabSections.ReadsBackAt | src/util/mod.rs:40-44 | a name stored with its terminator reads back as that name |
| SymtabSections.NameReadsBack | src/main.rs:290-297 | the name of the k-th symbol of a run reads back from the string table at its name pointer |
| SymtabSections.RunsIndex | src/main.rs:300-301 | after both runs, a token's index points at its last global, or otherwise its last local, or keeps its old value |
| SymtabLayout.FixedEntries | src/main.rs:256-276 | the table starts with the null symbol, the file symbol of data_fld_maplink.cpp (info 4, section 0xFFF1) and the section symbol (info 3, section 1) |
| SymtabLayout.StrtabPrefixNames | src/main.rs:285-286 | the string table starts with the empty name and then data_fld_maplink.cpp, 22 bytes |
| SymtabLayout.WrittenSymtabShape | src/main.rs:253-337 | a written symbol table has three fixed, twelve placeholder, one local and one global entry per symbol, and the string table is the prefix, the locals' names and the globals' names |
| SymtabLayout.WrittenLocals | src/main.rs:279-283 | the locals are the renamed internal symbols, sorted stably by resolved offset, each with a plain generated name |
| SymtabLayout.SplitCounts | src/main.rs:279-281 | every declaration ends up either local or global |
| SymtabLayout.WrittenCounts | src/main.rs:279-281 | a written table holds every declaration exactly once, either as a local or as a global |
| SymtabLayout.SymtabLocalEntry | src/main.rs:315-317 | entry 3 + k is the k-th local symbol, with its resolved offset, size, local info and name |
| SymtabLayout.WrittenPlaceholderEntry | src/main.rs:320-329 | the twelve entries after the locals are the placeholder with info 0x10 |
| SymtabLayout.TableFillerEntry | src/main.rs:320-329 | the filler entries of the written table are the repeated header |
| SymtabLayout.SymtabGlobalEntry | src/main.rs:332-335 | entry 15 + locals + j is the j-th global symbol, with its resolved offset, size, global info and name |
| SymtabLayout.IndicesWith | src/main.rs:300-301 | the index recorded for a token depends on how many placeholder entries are counted |
| SymtabLayout.WrittenSymtabIndex | src/main.rs:300-301 | symbol_indices maps a token to 3 + locals + j for its last global, or 3 + k for its last local, and leaves other tokens as they were |
| SymtabLayout.GlobalIndexHitsPlaceholder | src/main.rs:300-329 | as written, the index recorded for one of the first twelve globals points at a placeholder entry, not at the global |
| SymtabLayout.WrittenGlobalIndex | src/main.rs:300-301 | as written, a global's recorded index leaves out the twelve placeholders |
| SymtabLayout.IntendedIndexEntry | src/main.rs:300-335 | with the placeholders counted, the recorded index of every symbol's token is an entry with that token's resolved offset and the right info |
| SymtabLayout.IndexedSymbol | src/main.rs:300-309 | an index that points at a symbol's entry points at that token's offset and info |
| SymtabLayout.WrittenLocalName | src/main.rs:290-297 | a local's name pointer reads back as its name from the string table |
| SymtabLayout.WrittenGlobalName | src/main.rs:290-297 | a global's name pointer reads back as its name from the string table |
| SectionLinking.LinkedWord | src/main.rs:394-400 | a relocated word is written when the symbol index `info >> 8` is in range, as that symbol's offset with 0x70000000 set, in big-endian order; otherwise the index error |
| SectionLinking.LinkedOk | src/main.rs:387-413 | get_section_linked succeeds if and only if the section has no relocations or every relocated word names an existing symbol and holds zero over four full bytes |
| SectionLinking.LinkedContent | src/main.rs:387-413 | the linked section has the content's length; it is the content itself without relocations, and otherwise every relocated word is replaced by its symbol's marked offset and every other word is copied |
| SectionLinking.LinkedFromOk | src/main.rs:393-407 | the loop from a word boundary succeeds if and only if every later word succeeds |
| SectionLinking.LinkedFromShape | src/main.rs:393-407 | the loop keeps what it has written, ends with the content's length, and every word from the start point on is linked |
| SectionLinking.SectionLinked | src/main.rs:387-413 | the imperative loop gives exactly the linked section |
| SymbolNames.HeapToken.Resolve | src/main.rs:152 | a heap token resolves to its block's offset plus its offset inside the block, so never before the block's start |
| Util.Utf8CharLen | src/main.rs:239 | the first character of a name takes one to four bytes, one byte exactly for an ASCII byte |
| Util.FirstNulAt | src/util/mod.rs:40-44 | the terminator found is the first zero byte |
| Reassembly.RelocationTargetsSymbol | src/main.rs:147-157 | with the placeholders counted, the symbol index in every `.rela.rodata` entry whose target is a written symbol names the `.symtab` entry holding that target's resolved offset |
| Reassembly.RelocationTargetsPlaceholder | src/main.rs:300-329 | as written, a relocation against one of the first twelve global symbols carries the index of a placeholder entry |

## Left out

- Command-line handling, the panic hook, file reading and writing, and output path derivation (`main`, `disassemble_elf`, the file I/O of `reassemble_elf`): these are input/output plumbing.
- The driver `reassemble_elf` as a whole: it builds its output with a container API that this snapshot's containers do not have. Its symbol table, relocation and linking steps are modelled one by one.
- YAML conversion and the serde derives: a third-party text engine.
- vivibin's write context: how `to_buffer` lays heap blocks out in the file, and the `Readable`/`Writable` derive macros. Blocks, tokens and field-by-field writers stand in for them. Derived records are a list of 4-byte field kinds in declaration order. `ctx.position()` is modelled as the offset inside the block being written, not a file offset; it is what `write_string` compares with the dedup limit (src/binutil.rs:297), so deduplication depends on where in its heap block a string reference is written.
- The `TypeId`/`transmute` dispatch of `read_unk`/`write_unk`: the typed reader or writer of each field kind is modelled instead.
- The f32 fields of `Link`, `Npc`, `Mobj`, `Item` and `NpcDef`: they are kept as their raw 32-bit words, since nothing computes with them.
- Text of error and diagnostic messages: errors are a small enumeration.
- Top-level writers for the dispos and chr tables: the repository has none. dispos has only its per-map list writers, which are modelled, and chr has no writer at all. `src/formats/lct.rs` and `src/formats/chr.rs` build `FileData` variants that `src/formats/mod.rs` does not declare, so their readers return result types of their own.
- LctFormat.WriteMapLctSlice: `WriteNullTermiantedSliceArgs` in src/binutil.rs:249-251 has only `symbol_name`, while src/formats/lct.rs:61-64 also passes `write_length: true`. The model follows src/formats/lct.rs: after the pointer it writes a 32-bit count of the maps, with the terminator not counted.
- LctFormat.WriteAreaLct, LctFormat.WriteAreaLcts, LctFormat.WriteLct: they state the read-back under the reader's shapes only when no map of an area is the default (empty) map lct. Such a map is written as a bare zero word (src/formats/lct.rs:92-93), and the reader of a boxed map lct takes that as a null pointer and fails (LctFormat.DefaultMapUnreadable). Without that condition, the layout itself is still stated (`AreaLctsAt`).
- Strings are UTF-8 byte sequences: `to_str` is a validity check on bytes, with no decoding into characters.
- Reassembly.RelocationTargetsSymbol: stated only for symbol tables of fewer than 2^24 entries, because larger indices do not fit the 24-bit symbol field of `r_info`, which the model truncates as the source's cast does.

## Findings

| source | as written | input that shows it | evidently intended | confidence | as-written member | corrected member |
|---|---|---|---|---|---|---|
| src/main.rs:300-329 | `symbol_count` goes up for every written symbol but not for the twelve placeholder entries, so the index recorded for a global symbol is twelve less than the position of its entry | any declaration list with a global (non-internal) symbol: with no internal symbols, the first global gets index 3, which is the first placeholder entry, and a relocation against it names that placeholder | the index of the entry written for the symbol, so that each relocation names its target | not executed | SymtabLayout.GlobalIndexHitsPlaceholder, Reassembly.RelocationTargetsPlaceholder | SymtabLayout.IntendedIndexEntry, Reassembly.RelocationTargetsSymbol |
