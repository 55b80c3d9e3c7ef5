// The ELF32 record layouts of the repository (section headers, relocations,
// symbols), all big-endian as in the TIS ELF specification v1.2, book I,
// chapter 1, and the reading of one section's bytes.
module Elf {
  import opened Wrappers
  import opened Bytes
  import opened PointerUtil
  import IndexMaps
  import Stream

  /** Section flag: the section occupies memory during execution. */
  const SHF_ALLOC: u32 := 0x2
  /** Section flag: `sh_info` holds a section header table index. */
  const SHF_INFO_LINK: u32 := 0x40

  /** `sh_type` values the repository knows: SHT_NULL, SHT_PROGBITS,
      SHT_SYMTAB, SHT_STRTAB and SHT_RELA. */
  datatype SectionType = NullSection | Progbits | SymTable | StringTable | Rela

  function SectionTypeCode(t: SectionType): (r: u32)
    ensures r <= 4
  {
    match t
    case NullSection => 0
    case Progbits => 1
    case SymTable => 2
    case StringTable => 3
    case Rela => 4
  }

  /** binrw's `repr = u32` decoding: any other value is an error. */
  function SectionTypeOfCode(c: u32): (r: Result<SectionType>)
    ensures r.Ok? <==> c <= 4
    ensures r.Ok? ==> SectionTypeCode(r.value) == c
    ensures r.Err? ==> r.error == InvalidSectionType
  {
    if c == 0 then Ok(NullSection)
    else if c == 1 then Ok(Progbits)
    else if c == 2 then Ok(SymTable)
    else if c == 3 then Ok(StringTable)
    else if c == 4 then Ok(Rela)
    else Err(InvalidSectionType)
  }

  lemma SectionTypeRoundTrip(t: SectionType)
    ensures SectionTypeOfCode(SectionTypeCode(t)) == Ok(t)
  {
  }

  /** The u32 at word `k` of a record. */
  function Word(b: Bytes, k: nat): u32
    requires 4 * k + 4 <= |b|
  {
    BEToU32(b[4 * k..4 * k + 4])
  }

  /** Every word of a concatenation of encoded u32 words decodes back. */
  lemma WordOfConcat(prefix: Bytes, x: u32, suffix: Bytes)
    requires |prefix| % 4 == 0
    ensures Word(prefix + U32ToBE(x) + suffix, |prefix| / 4) == x
  {
    var b := prefix + U32ToBE(x) + suffix;
    assert b[|prefix|..|prefix| + 4] == U32ToBE(x);
    U32RoundTrip(x);
  }

  /** Words written one after the other, big-endian, as binrw lays out a
      record of u32 fields. */
  function WordsToBE(ws: seq<u32>): (r: Bytes)
    ensures |r| == 4 * |ws|
  {
    if ws == [] then [] else WordsToBE(ws[..|ws| - 1]) + U32ToBE(ws[|ws| - 1])
  }

  /** Word `k` of the layout is the `k`-th word. */
  lemma {:induction false} WordsToBEWord(ws: seq<u32>, k: nat)
    requires k < |ws|
    ensures Word(WordsToBE(ws), k) == ws[k]
  {
    var init := WordsToBE(ws[..|ws| - 1]);
    if k == |ws| - 1 {
      assert WordsToBE(ws) == init + U32ToBE(ws[k]) + [];
      WordOfConcat(init, ws[k], []);
    } else {
      assert WordsToBE(ws)[4 * k..4 * k + 4] == init[4 * k..4 * k + 4];
      WordsToBEWord(ws[..|ws| - 1], k);
    }
  }

  /** Zero words are zero bytes. */
  lemma {:induction false} WordsToBEZeros(ws: seq<u32>)
    requires forall i :: 0 <= i < |ws| ==> ws[i] == 0
    ensures WordsToBE(ws) == Zeros(4 * |ws|)
  {
    if ws != [] {
      WordsToBEZeros(ws[..|ws| - 1]);
      assert U32ToBE(0) == [0, 0, 0, 0];
    }
  }

  /** `Elf32_Shdr`. */
  datatype SectionHeader = SectionHeader(
    shName: u32, shType: SectionType, shFlags: u32, shAddr: u32, shOffset: u32,
    shSize: u32, shLink: u32, shInfo: u32, shAddralign: u32, shEntsize: u32)

  const SECTION_HEADER_SIZE: nat := 40

  /** The all-zero header of `SectionHeader::default()`. */
  const DEFAULT_SECTION_HEADER := SectionHeader(0, NullSection, 0, 0, 0, 0, 0, 0, 0, 0)

  /** The ten words of a header, in field order. */
  function SectionHeaderWords(h: SectionHeader): (ws: seq<u32>)
    ensures |ws| == 10
  {
    [h.shName, SectionTypeCode(h.shType), h.shFlags, h.shAddr, h.shOffset,
      h.shSize, h.shLink, h.shInfo, h.shAddralign, h.shEntsize]
  }

  function EncodeSectionHeader(h: SectionHeader): (r: Bytes)
    ensures |r| == SECTION_HEADER_SIZE
  {
    WordsToBE(SectionHeaderWords(h))
  }

  function DecodeSectionHeader(b: Bytes): (r: Result<SectionHeader>)
    requires |b| == SECTION_HEADER_SIZE
    ensures r.Ok? <==> Word(b, 1) <= 4
    ensures r.Ok? ==> r.value.shOffset == Word(b, 4) && r.value.shSize == Word(b, 5)
  {
    var t :- SectionTypeOfCode(Word(b, 1));
    Ok(SectionHeader(Word(b, 0), t, Word(b, 2), Word(b, 3), Word(b, 4),
      Word(b, 5), Word(b, 6), Word(b, 7), Word(b, 8), Word(b, 9)))
  }

  /** binrw writes what it reads: decoding the encoding gives the header. */
  lemma SectionHeaderRoundTrip(h: SectionHeader)
    ensures DecodeSectionHeader(EncodeSectionHeader(h)) == Ok(h)
  {
    var w := SectionHeaderWords(h);
    forall k | 0 <= k < 10 ensures Word(WordsToBE(w), k) == w[k] {
      WordsToBEWord(w, k);
    }
    SectionTypeRoundTrip(h.shType);
  }

  /** `Elf32_Rela`: where to patch, `ELF32_R_INFO(symbol, type)`, addend. */
  datatype Relocation = Relocation(offset: u32, info: u32, addend: u32)

  const RELOCATION_SIZE: nat := 12

  function EncodeRelocation(r: Relocation): (b: Bytes)
    ensures |b| == RELOCATION_SIZE
  {
    U32ToBE(r.offset) + U32ToBE(r.info) + U32ToBE(r.addend)
  }

  function DecodeRelocation(b: Bytes): (r: Relocation)
    requires |b| == RELOCATION_SIZE
    ensures EncodeRelocation(r) == b
  {
    U32BytesRoundTrip(b[0..4]);
    U32BytesRoundTrip(b[4..8]);
    U32BytesRoundTrip(b[8..12]);
    assert b == b[0..4] + b[4..8] + b[8..12];
    Relocation(Word(b, 0), Word(b, 1), Word(b, 2))
  }

  lemma RelocationRoundTrip(r: Relocation)
    ensures DecodeRelocation(EncodeRelocation(r)) == r
  {
    var b := EncodeRelocation(r);
    assert b[0..4] == U32ToBE(r.offset) && b[4..8] == U32ToBE(r.info) && b[8..12] == U32ToBE(r.addend);
    U32RoundTrip(r.offset);
    U32RoundTrip(r.info);
    U32RoundTrip(r.addend);
  }

  /** `ELF32_R_SYM(info)`: the symbol table index of a relocation. */
  function SymbolIndexOf(info: u32): nat { info / 0x100 }

  /** `Elf32_Sym`. */
  datatype SymbolHeader = SymbolHeader(
    stName: u32, stValue: u32, stSize: u32, stInfo: u8, stOther: u8, stShndx: u16)

  const SYMBOL_HEADER_SIZE: nat := 16

  function EncodeSymbolHeader(s: SymbolHeader): (b: Bytes)
    ensures |b| == SYMBOL_HEADER_SIZE
  {
    U32ToBE(s.stName) + U32ToBE(s.stValue) + U32ToBE(s.stSize) + [s.stInfo, s.stOther] + U16ToBE(s.stShndx)
  }

  function DecodeSymbolHeader(b: Bytes): (s: SymbolHeader)
    requires |b| == SYMBOL_HEADER_SIZE
    ensures EncodeSymbolHeader(s) == b
  {
    U32BytesRoundTrip(b[0..4]);
    U32BytesRoundTrip(b[4..8]);
    U32BytesRoundTrip(b[8..12]);
    U16BytesRoundTrip(b[14..16]);
    assert b == b[0..4] + b[4..8] + b[8..12] + [b[12], b[13]] + b[14..16];
    SymbolHeader(Word(b, 0), Word(b, 1), Word(b, 2), b[12], b[13], BEToU16(b[14..16]))
  }

  lemma SymbolHeaderRoundTrip(s: SymbolHeader)
    ensures DecodeSymbolHeader(EncodeSymbolHeader(s)) == s
  {
    var b := EncodeSymbolHeader(s);
    assert b[0..4] == U32ToBE(s.stName) && b[4..8] == U32ToBE(s.stValue) && b[8..12] == U32ToBE(s.stSize);
    assert b[14..16] == U16ToBE(s.stShndx);
    U32RoundTrip(s.stName);
    U32RoundTrip(s.stValue);
    U32RoundTrip(s.stSize);
    U16RoundTrip(s.stShndx);
  }

  /** A section: its header, its name from `.shstrtab`, the relocations that
      target it (keyed by the offset they patch) and its bytes. */
  datatype Section = Section(
    header: SectionHeader, name: Bytes,
    relocations: Option<IndexMaps.IndexMap<Pointer, Relocation>>, content: Bytes)

  /** `Section::default()`. */
  const DEFAULT_SECTION := Section(DEFAULT_SECTION_HEADER, [], None, [])

  /** What `Section::from_reader` reads: `sh_size` bytes at `sh_offset`. */
  function SectionAt(data: Bytes, header: SectionHeader, name: Bytes): (r: Result<Section>)
    ensures r.Ok? <==> header.shOffset + header.shSize <= |data|
    ensures r.Ok? ==> r.value == Section(header, name, None,
      data[header.shOffset..header.shOffset + header.shSize])
  {
    var content :- Stream.ReadAt(data, header.shOffset, header.shSize);
    Ok(Section(header, name, None, content))
  }

  method SectionFromReader(header: SectionHeader, name: Bytes, reader: Stream.Cursor) returns (r: Result<Section>)
    modifies reader
    ensures r == SectionAt(reader.data, header, name)
    ensures r.Ok? ==> reader.pos == header.shOffset + header.shSize
  {
    reader.Seek(header.shOffset);
    var content := reader.ReadExact(header.shSize);
    match content
    case Err(e) => r := Err(e);
    case Ok(c) => r := Ok(Section(header, name, None, c));
  }

  datatype Symbol = Symbol(header: SymbolHeader, name: Bytes)
  {
    /** `offset()`: where the symbol's data starts. */
    function Offset(): (r: u32)
      ensures r == header.stValue
    {
      header.stValue
    }

    /** `size()`: how many bytes it covers. */
    function Size(): (r: u32)
      ensures r == header.stSize
    {
      header.stSize
    }
  }
}
