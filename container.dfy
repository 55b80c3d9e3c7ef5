// The ELF container of the repository: an ELF32 big-endian relocatable
// object split into content sections (the data tables) and meta sections
// (`.rela*`, `.strtab`, `.symtab`, `.shstrtab`), read from a stream and
// written back with every section re-laid out and the section header table
// rewritten.  The field layout is that of `Elf32_Ehdr` and `Elf32_Shdr` in
// the TIS ELF specification v1.2, book I, chapter 1.
module Container {
  import opened Wrappers
  import opened Bytes
  import opened IndexMaps
  import opened PointerUtil
  import opened Elf
  import Util
  import Stream
  import Folds

  // ---------------------------------------------------------------- header

  /** `ELF_HEADER_IDENT`: the first twelve identification bytes,
      0x7F 'E' 'L' 'F', ELFCLASS32, ELFDATA2MSB, EV_CURRENT, then zeros. */
  const ELF_HEADER_IDENT: Bytes := [0x7F, 0x45, 0x4C, 0x46, 0x01, 0x02, 0x01, 0x00, 0x00, 0x00, 0x00, 0x00]

  const ELF_HEADER_SIZE: nat := 52
  /** Byte offset of `e_shoff` in the header (`offset_of!(ElfHeader, e_shoff)`). */
  const E_SHOFF_OFFSET: nat := 0x20

  type Ident = s: Bytes | |s| == 12 witness [0, 0, 0, 0, 0, 0, 0, 0, 0, 0, 0, 0]

  /** `ElfHeader`: `e_ident` split into twelve bytes and a trailing word. */
  datatype ElfHeader = ElfHeader(
    eIdent: Ident, eIdentPaddingUnk: u32, eType: u16, eMachine: u16,
    eVersion: u32, eEntry: u32, ePhoff: u32, eShoff: u32, eFlags: u32,
    eEhsize: u16, ePhentsize: u16, ePhnum: u16, eShentsize: u16, eShnum: u16, eShstrndx: u16)

  function EncodeHeader(h: ElfHeader): (r: Bytes)
    ensures |r| == ELF_HEADER_SIZE
    ensures r[E_SHOFF_OFFSET..E_SHOFF_OFFSET + 4] == U32ToBE(h.eShoff)
  {
    var r := h.eIdent + U32ToBE(h.eIdentPaddingUnk) + U16ToBE(h.eType) + U16ToBE(h.eMachine)
      + U32ToBE(h.eVersion) + U32ToBE(h.eEntry) + U32ToBE(h.ePhoff) + U32ToBE(h.eShoff) + U32ToBE(h.eFlags)
      + U16ToBE(h.eEhsize) + U16ToBE(h.ePhentsize) + U16ToBE(h.ePhnum) + U16ToBE(h.eShentsize)
      + U16ToBE(h.eShnum) + U16ToBE(h.eShstrndx);
    assert r[E_SHOFF_OFFSET..E_SHOFF_OFFSET + 4] == U32ToBE(h.eShoff);
    r
  }

  function U16At(b: Bytes, pos: nat): u16
    requires pos + 2 <= |b|
  {
    BEToU16(b[pos..pos + 2])
  }

  function U32Of(b: Bytes, pos: nat): u32
    requires pos + 4 <= |b|
  {
    BEToU32(b[pos..pos + 4])
  }

  function DecodeHeader(b: Bytes): (h: ElfHeader)
    requires |b| == ELF_HEADER_SIZE
    ensures h.eShoff == U32Of(b, E_SHOFF_OFFSET)
  {
    ElfHeader(b[..12], U32Of(b, 12), U16At(b, 16), U16At(b, 18),
      U32Of(b, 20), U32Of(b, 24), U32Of(b, 28), U32Of(b, 32), U32Of(b, 36),
      U16At(b, 40), U16At(b, 42), U16At(b, 44), U16At(b, 46), U16At(b, 48), U16At(b, 50))
  }

  /** Where `EncodeHeader` puts each field, in four groups of fields. */
  lemma HeaderBytesIdent(h: ElfHeader)
    ensures var b := EncodeHeader(h);
      && b[..12] == h.eIdent && b[12..16] == U32ToBE(h.eIdentPaddingUnk)
      && b[16..18] == U16ToBE(h.eType) && b[18..20] == U16ToBE(h.eMachine)
  {
  }

  lemma HeaderBytesOffsets(h: ElfHeader)
    ensures var b := EncodeHeader(h);
      && b[20..24] == U32ToBE(h.eVersion) && b[24..28] == U32ToBE(h.eEntry)
      && b[28..32] == U32ToBE(h.ePhoff) && b[32..36] == U32ToBE(h.eShoff)
  {
  }

  lemma HeaderBytesSizes(h: ElfHeader)
    ensures var b := EncodeHeader(h);
      && b[36..40] == U32ToBE(h.eFlags) && b[40..42] == U16ToBE(h.eEhsize)
      && b[42..44] == U16ToBE(h.ePhentsize) && b[44..46] == U16ToBE(h.ePhnum)
  {
  }

  lemma HeaderBytesCounts(h: ElfHeader)
    ensures var b := EncodeHeader(h);
      && b[46..48] == U16ToBE(h.eShentsize) && b[48..50] == U16ToBE(h.eShnum)
      && b[50..52] == U16ToBE(h.eShstrndx)
  {
  }

  lemma HeaderRoundTrip(h: ElfHeader)
    ensures DecodeHeader(EncodeHeader(h)) == h
  {
    HeaderBytesIdent(h); HeaderBytesOffsets(h); HeaderBytesSizes(h); HeaderBytesCounts(h);
    U32RoundTrip(h.eIdentPaddingUnk); U32RoundTrip(h.eVersion); U32RoundTrip(h.eEntry);
    U32RoundTrip(h.ePhoff); U32RoundTrip(h.eShoff); U32RoundTrip(h.eFlags);
    U16RoundTrip(h.eType); U16RoundTrip(h.eMachine); U16RoundTrip(h.eEhsize);
    U16RoundTrip(h.ePhentsize); U16RoundTrip(h.ePhnum); U16RoundTrip(h.eShentsize);
    U16RoundTrip(h.eShnum); U16RoundTrip(h.eShstrndx);
  }

  /** What `ElfHeader::read` reads at `pos`. */
  function HeaderAt(data: Bytes, pos: nat): (r: Result<ElfHeader>)
    ensures r.Ok? <==> pos + ELF_HEADER_SIZE <= |data|
    ensures r.Ok? ==> r.value == DecodeHeader(data[pos..pos + ELF_HEADER_SIZE])
  {
    var b :- Stream.ReadAt(data, pos, ELF_HEADER_SIZE);
    Ok(DecodeHeader(b))
  }

  // ------------------------------------------------------ reading sections

  /** What `SectionHeader::read` reads at `pos`. */
  function SectionHeaderAt(data: Bytes, pos: nat): (r: Result<SectionHeader>)
    ensures r.Ok? ==> pos + SECTION_HEADER_SIZE <= |data|
    ensures r.Ok? ==> DecodeSectionHeader(data[pos..pos + SECTION_HEADER_SIZE]) == r
  {
    var b :- Stream.ReadAt(data, pos, SECTION_HEADER_SIZE);
    DecodeSectionHeader(b)
  }

  /** Where entry `k` of the section header table at `shoff` starts. */
  function HeaderPos(shoff: nat, k: nat): nat
  {
    shoff + SECTION_HEADER_SIZE * k
  }

  /** Reading entry `k` of the section header table at `shoff`. */
  function HeaderReads(data: Bytes, shoff: nat): nat -> Result<SectionHeader>
  {
    (k: nat) => SectionHeaderAt(data, HeaderPos(shoff, k))
  }

  /** The first `n` headers of the table at `shoff`, 40 bytes apart. */
  function SectionHeadersAt(data: Bytes, shoff: nat, n: nat): (r: Result<seq<SectionHeader>>)
    ensures r.Ok? ==> |r.value| == n
  {
    Stream.ReadEach(HeaderReads(data, shoff), n)
  }

  /** Header `k` of the table is the one stored `k` entries after `e_shoff`. */
  lemma SectionHeadersAtEach(data: Bytes, shoff: nat, n: nat, k: nat)
    requires SectionHeadersAt(data, shoff, n).Ok? && k < n
    ensures SectionHeaderAt(data, HeaderPos(shoff, k)) == Ok(SectionHeadersAt(data, shoff, n).value[k])
  {
    Stream.ReadEachAt(HeaderReads(data, shoff), n, k);
  }

  /** ".rela" */
  const RELA_PREFIX: Bytes := [0x2E, 0x72, 0x65, 0x6C, 0x61]
  /** ".strtab" */
  const STRTAB_NAME: Bytes := [0x2E, 0x73, 0x74, 0x72, 0x74, 0x61, 0x62]
  /** ".symtab" */
  const SYMTAB_NAME: Bytes := [0x2E, 0x73, 0x79, 0x6D, 0x74, 0x61, 0x62]
  /** ".shstrtab" */
  const SHSTRTAB_NAME: Bytes := [0x2E, 0x73, 0x68, 0x73, 0x74, 0x72, 0x74, 0x61, 0x62]

  lemma TableNames()
    ensures RELA_PREFIX == Str(".rela") && STRTAB_NAME == Str(".strtab")
    ensures SYMTAB_NAME == Str(".symtab") && SHSTRTAB_NAME == Str(".shstrtab")
  {
  }

  /** Where `from_reader` files a section, by its name. */
  datatype SectionKind = RelaOf(target: Bytes) | StringTableKind | SymbolTableKind | NameTableKind | ContentKind

  function KindOf(name: Bytes): (k: SectionKind)
    ensures k.RelaOf? <==> StartsWith(name, RELA_PREFIX)
    ensures k.RelaOf? ==> RELA_PREFIX + k.target == name
    ensures k == ContentKind <==>
      !StartsWith(name, RELA_PREFIX) && name != STRTAB_NAME && name != SYMTAB_NAME && name != SHSTRTAB_NAME
  {
    if StartsWith(name, RELA_PREFIX) then
      assert name == name[..5] + name[5..];
      RelaOf(name[5..])
    else if name == STRTAB_NAME then StringTableKind
    else if name == SYMTAB_NAME then SymbolTableKind
    else if name == SHSTRTAB_NAME then NameTableKind
    else ContentKind
  }

  /** The three table names are filed as tables, not as relocations. */
  lemma TableKinds()
    ensures KindOf(STRTAB_NAME) == StringTableKind && KindOf(SYMTAB_NAME) == SymbolTableKind
    ensures KindOf(SHSTRTAB_NAME) == NameTableKind
  {
    assert STRTAB_NAME[..5][1] != RELA_PREFIX[1];
    assert SYMTAB_NAME[..5][1] != RELA_PREFIX[1];
    assert SHSTRTAB_NAME[..5][1] != RELA_PREFIX[1];
    assert SYMTAB_NAME[2] != STRTAB_NAME[2];
    assert SHSTRTAB_NAME[2] != STRTAB_NAME[2];
    assert SHSTRTAB_NAME[2] != SYMTAB_NAME[2];
  }

  /** A `.rela` section's bytes as `len / 12` relocation records. */
  function RelocationRecords(content: Bytes): (r: seq<Relocation>)
    ensures |r| == |content| / RELOCATION_SIZE
    ensures forall k :: 0 <= k < |r| ==>
      EncodeRelocation(r[k]) == content[RELOCATION_SIZE * k..RELOCATION_SIZE * k + RELOCATION_SIZE]
  {
    seq(|content| / RELOCATION_SIZE, k requires 0 <= k < |content| / RELOCATION_SIZE =>
      DecodeRelocation(content[RELOCATION_SIZE * k..RELOCATION_SIZE * k + RELOCATION_SIZE]))
  }

  /** Relocation records collected into a map keyed by the offset each one
      patches (a later record with the same offset replaces the value of an
      earlier one, which keeps its place). */
  function CollectRelocations(rs: seq<Relocation>): (m: IndexMap<Pointer, Relocation>)
    ensures m.Len() <= |rs|
  {
    if rs == [] then Empty()
    else
      var r := rs[|rs| - 1];
      CollectRelocations(rs[..|rs| - 1]).Insert(Pointer(r.offset), r)
  }

  /** The relocation map never holds a key twice. */
  lemma {:induction false} CollectRelocationsValid(rs: seq<Relocation>)
    ensures CollectRelocations(rs).Valid()
  {
    if rs != [] {
      CollectRelocationsValid(rs[..|rs| - 1]);
    }
  }

  /** Each relocation is filed under the offset it patches. */
  lemma {:induction false} CollectRelocationsOffsets(rs: seq<Relocation>, p: Pointer)
    requires CollectRelocations(rs).Get(p).Some?
    ensures CollectRelocations(rs).Get(p).value.offset == p.value
  {
    if rs != [] {
      var r := rs[|rs| - 1];
      if p != Pointer(r.offset) {
        CollectRelocationsOffsets(rs[..|rs| - 1], p);
      }
    }
  }

  /** Every record read is in the map under the offset it patches. */
  lemma {:induction false} CollectRelocationsHas(rs: seq<Relocation>, k: nat)
    requires k < |rs|
    ensures CollectRelocations(rs).Get(Pointer(rs[k].offset)).Some?
  {
    var r := rs[|rs| - 1];
    if k < |rs| - 1 && Pointer(rs[k].offset) != Pointer(r.offset) {
      CollectRelocationsHas(rs[..|rs| - 1], k);
    }
  }

  /** A `.rela` section's bytes as a relocation map. */
  function ParseRelocations(content: Bytes): IndexMap<Pointer, Relocation>
  {
    CollectRelocations(RelocationRecords(content))
  }

  /** A `.symtab` section's bytes as `len / 16` symbol headers. */
  function ParseSymbolHeaders(content: Bytes): (r: seq<SymbolHeader>)
    ensures |r| == |content| / SYMBOL_HEADER_SIZE
    ensures forall k :: 0 <= k < |r| ==>
      EncodeSymbolHeader(r[k]) == content[SYMBOL_HEADER_SIZE * k..SYMBOL_HEADER_SIZE * k + SYMBOL_HEADER_SIZE]
  {
    seq(|content| / SYMBOL_HEADER_SIZE, k requires 0 <= k < |content| / SYMBOL_HEADER_SIZE =>
      DecodeSymbolHeader(content[SYMBOL_HEADER_SIZE * k..SYMBOL_HEADER_SIZE * k + SYMBOL_HEADER_SIZE]))
  }

  /** The local state of `from_reader`'s loop over the section headers. */
  datatype ParseState = ParseState(
    allSectionNames: seq<Bytes>,
    contentSections: IndexMap<Bytes, Section>,
    metaSections: IndexMap<Bytes, Section>,
    symbolHeaders: Option<seq<SymbolHeader>>,
    stringTable: Option<Bytes>)

  const START_STATE: ParseState := ParseState([], Empty(), Empty(), None, None)

  /** One iteration of the loop after the section has been read: a `.rela`
      section's relocations replace those of the content section it names
      (which must already have been read), and the section itself, like the
      three tables, is filed as meta; anything else is content. */
  function FileSection(st: ParseState, name: Bytes, section: Section): (r: Result<ParseState>)
    ensures r.Err? <==> KindOf(name).RelaOf? && KindOf(name).target !in st.contentSections.Keys()
    ensures r.Err? ==> r.error == MissingSection
    ensures r.Ok? ==> r.value.allSectionNames == st.allSectionNames + [name]
    ensures r.Ok? && KindOf(name).RelaOf? ==>
      var target := KindOf(name).target;
      r.value.contentSections.Get(target) ==
        Some(st.contentSections.Get(target).value.(relocations := Some(ParseRelocations(section.content))))
    ensures r.Ok? && KindOf(name) == ContentKind ==> r.value.contentSections.Get(name) == Some(section)
    ensures r.Ok? && KindOf(name) != ContentKind ==> r.value.metaSections.Get(name) == Some(section)
  {
    var names := st.allSectionNames + [name];
    match KindOf(name)
    case RelaOf(target) =>
      (match st.contentSections.Get(target)
       case None => Err(MissingSection)
       case Some(original) =>
         var attached := original.(relocations := Some(ParseRelocations(section.content)));
         Ok(st.(allSectionNames := names,
                contentSections := st.contentSections.Insert(target, attached),
                metaSections := st.metaSections.Insert(name, section))))
    case StringTableKind =>
      Ok(st.(allSectionNames := names, stringTable := Some(section.content),
             metaSections := st.metaSections.Insert(name, section)))
    case SymbolTableKind =>
      Ok(st.(allSectionNames := names, symbolHeaders := Some(ParseSymbolHeaders(section.content)),
             metaSections := st.metaSections.Insert(name, section)))
    case NameTableKind =>
      Ok(st.(allSectionNames := names, metaSections := st.metaSections.Insert(name, section)))
    case ContentKind =>
      Ok(st.(allSectionNames := names, contentSections := st.contentSections.Insert(name, section)))
  }

  /** One iteration of the loop: name the section from `.shstrtab`, read its
      bytes, file it. */
  function StepAt(data: Bytes, shstrtab: Bytes, st: ParseState, h: SectionHeader): Result<ParseState>
  {
    var name :- Util.ReadStringChecked(shstrtab, h.shName);
    var section :- SectionAt(data, h, name);
    FileSection(st, name, section)
  }

  /** The loop over the headers `hs`, left to right. */
  function FoldSections(data: Bytes, shstrtab: Bytes, hs: seq<SectionHeader>): Result<ParseState>
  {
    if hs == [] then Ok(START_STATE)
    else
      var st :- FoldSections(data, shstrtab, hs[..|hs| - 1]);
      StepAt(data, shstrtab, st, hs[|hs| - 1])
  }

  /** The name a symbol gets: a section symbol (`st_info == 3`, STB_LOCAL
      with STT_SECTION) takes the name of the section at file index
      `st_shndx`; any other symbol is named from `.strtab` at `st_name`. */
  function SymbolNameOf(h: SymbolHeader, strtab: Bytes, sectionNames: seq<Bytes>): (r: Result<Bytes>)
    ensures h.stInfo == 3 ==> (r.Ok? <==> h.stShndx < |sectionNames|)
    ensures h.stInfo == 3 && r.Ok? ==> r.value == sectionNames[h.stShndx]
    ensures h.stInfo == 3 && r.Err? ==> r.error == SectionIndexOutOfRange
    ensures h.stInfo != 3 ==> r == Util.ReadStringChecked(strtab, h.stName)
  {
    if h.stInfo == 3 then
      if h.stShndx < |sectionNames| then Ok(sectionNames[h.stShndx]) else Err(SectionIndexOutOfRange)
    else Util.ReadStringChecked(strtab, h.stName)
  }

  /** One iteration of the symbol loop: name the symbol, then store it
      under that name. */
  function NameOne(m: IndexMap<Bytes, Symbol>, h: SymbolHeader, strtab: Bytes, sectionNames: seq<Bytes>): Result<IndexMap<Bytes, Symbol>>
  {
    var name :- SymbolNameOf(h, strtab, sectionNames);
    Ok(m.Insert(name, Symbol(h, name)))
  }

  function NameStep(strtab: Bytes, sectionNames: seq<Bytes>): (IndexMap<Bytes, Symbol>, SymbolHeader) -> Result<IndexMap<Bytes, Symbol>>
  {
    (m: IndexMap<Bytes, Symbol>, h: SymbolHeader) => NameOne(m, h, strtab, sectionNames)
  }

  /** The symbol loop over `hs`, left to right, keyed by name. */
  function NameSymbols(hs: seq<SymbolHeader>, strtab: Bytes, sectionNames: seq<Bytes>): Result<IndexMap<Bytes, Symbol>>
  {
    Folds.FoldEach(Empty(), NameStep(strtab, sectionNames), hs)
  }

  /** The symbol map is well formed and holds at most one entry per
      symbol. */
  lemma {:induction false} NameSymbolsValid(hs: seq<SymbolHeader>, strtab: Bytes, sectionNames: seq<Bytes>)
    requires NameSymbols(hs, strtab, sectionNames).Ok?
    ensures NameSymbols(hs, strtab, sectionNames).value.Valid()
    ensures NameSymbols(hs, strtab, sectionNames).value.Len() <= |hs|
  {
    if hs != [] {
      NameSymbolsValid(hs[..|hs| - 1], strtab, sectionNames);
    }
  }

  /** The symbol loop fails only on a symbol that cannot be named (the
      converse direction is `NameSymbolsHas`). */
  lemma {:induction false} NameSymbolsErr(hs: seq<SymbolHeader>, strtab: Bytes, sectionNames: seq<Bytes>)
    requires NameSymbols(hs, strtab, sectionNames).Err?
    ensures exists i :: 0 <= i < |hs| && SymbolNameOf(hs[i], strtab, sectionNames).Err?
  {
    var init := hs[..|hs| - 1];
    if NameSymbols(init, strtab, sectionNames).Err? {
      NameSymbolsErr(init, strtab, sectionNames);
      var i :| 0 <= i < |init| && SymbolNameOf(init[i], strtab, sectionNames).Err?;
      assert init[i] == hs[i];
    } else {
      assert SymbolNameOf(hs[|hs| - 1], strtab, sectionNames).Err?;
    }
  }

  /** Every symbol is stored under its own name. */
  lemma {:induction false} NameSymbolsKeyed(hs: seq<SymbolHeader>, strtab: Bytes, sectionNames: seq<Bytes>, k: Bytes)
    requires NameSymbols(hs, strtab, sectionNames).Ok?
    requires NameSymbols(hs, strtab, sectionNames).value.Get(k).Some?
    ensures NameSymbols(hs, strtab, sectionNames).value.Get(k).value.name == k
  {
    var init := hs[..|hs| - 1];
    var name := SymbolNameOf(hs[|hs| - 1], strtab, sectionNames).value;
    if k != name {
      NameSymbolsKeyed(init, strtab, sectionNames, k);
    }
  }

  /** Every symbol's name is a key of the result (a later symbol of the
      same name replaces an earlier one). */
  lemma {:induction false} NameSymbolsHas(hs: seq<SymbolHeader>, strtab: Bytes, sectionNames: seq<Bytes>, i: nat)
    requires NameSymbols(hs, strtab, sectionNames).Ok? && i < |hs|
    ensures SymbolNameOf(hs[i], strtab, sectionNames).Ok?
    ensures SymbolNameOf(hs[i], strtab, sectionNames).value in NameSymbols(hs, strtab, sectionNames).value.Keys()
  {
    var init := hs[..|hs| - 1];
    var m := NameSymbols(init, strtab, sectionNames).value;
    var name := SymbolNameOf(hs[|hs| - 1], strtab, sectionNames).value;
    if i < |hs| - 1 {
      assert init[i] == hs[i];
      NameSymbolsHas(init, strtab, sectionNames, i);
      var n := SymbolNameOf(hs[i], strtab, sectionNames).value;
      assert m.Get(n).Some?;
      if n != name {
        assert m.Insert(name, Symbol(hs[|hs| - 1], name)).Get(n) == m.Get(n);
      }
    }
  }

  /** Everything `from_reader` builds after the header. */
  datatype Body = Body(
    symbols: IndexMap<Bytes, Symbol>,
    contentSections: IndexMap<Bytes, Section>,
    metaSections: IndexMap<Bytes, Section>)

  /** `from_reader` after the header, given `e_shoff`, `e_shnum` and
      `e_shstrndx`. */
  function ParseBody(data: Bytes, shoff: nat, shnum: nat, shstrndx: nat): Result<Body>
  {
    var headers :- SectionHeadersAt(data, shoff, shnum);
    if shstrndx >= |headers| then Err(Panic)
    else
      var nameTable := headers[shstrndx];
      var shstrtab :- Stream.ReadAt(data, nameTable.shOffset, nameTable.shSize);
      var st :- FoldSections(data, shstrtab, headers);
      if st.stringTable.None? then Err(MissingSection)
      else if st.symbolHeaders.None? then Err(MissingSection)
      else
        var symbols :- NameSymbols(st.symbolHeaders.value, st.stringTable.value, st.allSectionNames);
        Ok(Body(symbols, st.contentSections, st.metaSections))
  }

  /** `from_reader` of this container's header layout at `pos`. */
  function Parse(data: Bytes, pos: nat): Result<(ElfHeader, Body)>
  {
    var header :- HeaderAt(data, pos);
    var body :- ParseBody(data, header.eShoff, header.eShnum, header.eShstrndx);
    Ok((header, body))
  }

  // ----------------------------------------------------- parsing invariants

  /** What the loop keeps true of its state: the two maps split the names
      read so far by kind, and each table is found exactly when its section
      has been read. */
  ghost predicate Filed(st: ParseState) {
    && st.contentSections.Valid() && st.metaSections.Valid()
    && (forall k :: k in st.contentSections.Keys() ==> KindOf(k) == ContentKind)
    && (forall k :: k in st.metaSections.Keys() ==> KindOf(k) != ContentKind)
    && (forall n :: n in st.allSectionNames <==> n in st.contentSections.Keys() || n in st.metaSections.Keys())
    && (st.stringTable.Some? <==> STRTAB_NAME in st.allSectionNames)
    && (st.symbolHeaders.Some? <==> SYMTAB_NAME in st.allSectionNames)
  }

  lemma FileSectionKeepsFiled(st: ParseState, name: Bytes, section: Section)
    requires Filed(st)
    ensures FileSection(st, name, section).Ok? ==> Filed(FileSection(st, name, section).value)
  {
    var r := FileSection(st, name, section);
    if r.Ok? {
      TableKinds();
      var next := r.value;
      match KindOf(name)
      case RelaOf(target) =>
        InsertedKeys(st.contentSections, target, next.contentSections.Get(target).value);
        InsertedKeys(st.metaSections, name, section);
      case ContentKind =>
        InsertedKeys(st.contentSections, name, section);
      case _ =>
        InsertedKeys(st.metaSections, name, section);
    }
  }

  /** The keys after an insertion are the old ones and the new one. */
  lemma InsertedKeys<V>(m: IndexMap<Bytes, V>, k: Bytes, v: V)
    ensures forall n :: n in m.Insert(k, v).Keys() <==> n in m.Keys() || n == k
  {
  }

  lemma {:induction false} FoldKeepsFiled(data: Bytes, shstrtab: Bytes, hs: seq<SectionHeader>)
    ensures FoldSections(data, shstrtab, hs).Ok? ==>
      Filed(FoldSections(data, shstrtab, hs).value) && |FoldSections(data, shstrtab, hs).value.allSectionNames| == |hs|
  {
    if hs != [] {
      var prev := FoldSections(data, shstrtab, hs[..|hs| - 1]);
      FoldKeepsFiled(data, shstrtab, hs[..|hs| - 1]);
      if prev.Ok? {
        var h := hs[|hs| - 1];
        var name := Util.ReadStringChecked(shstrtab, h.shName);
        if name.Ok? {
          var section := SectionAt(data, h, name.value);
          if section.Ok? {
            FileSectionKeepsFiled(prev.value, name.value, section.value);
          }
        }
      }
    }
  }

  /** A successful parse splits the sections by name, and the string and
      symbol tables were both among them. */
  lemma ParseBodySplitsSections(data: Bytes, shoff: nat, shnum: nat, shstrndx: nat)
    requires ParseBody(data, shoff, shnum, shstrndx).Ok?
    ensures var b := ParseBody(data, shoff, shnum, shstrndx).value;
      && (forall k :: k in b.contentSections.Keys() ==> KindOf(k) == ContentKind)
      && (forall k :: k in b.metaSections.Keys() ==> KindOf(k) != ContentKind)
      && STRTAB_NAME in b.metaSections.Keys() && SYMTAB_NAME in b.metaSections.Keys()
  {
    var headers := SectionHeadersAt(data, shoff, shnum).value;
    var nameTable := headers[shstrndx];
    var shstrtab := Stream.ReadAt(data, nameTable.shOffset, nameTable.shSize).value;
    FoldKeepsFiled(data, shstrtab, headers);
    TableKinds();
  }

  /** Parsing fails when the sections read include no `.strtab` or no
      `.symtab`. */
  lemma ParseBodyNeedsTables(data: Bytes, shoff: nat, shnum: nat, shstrndx: nat)
    requires SectionHeadersAt(data, shoff, shnum).Ok?
    requires var headers := SectionHeadersAt(data, shoff, shnum).value;
      && shstrndx < |headers|
      && var nt := headers[shstrndx];
      && Stream.ReadAt(data, nt.shOffset, nt.shSize).Ok?
      && var st := FoldSections(data, Stream.ReadAt(data, nt.shOffset, nt.shSize).value, headers);
      && st.Ok? && (STRTAB_NAME !in st.value.allSectionNames || SYMTAB_NAME !in st.value.allSectionNames)
    ensures ParseBody(data, shoff, shnum, shstrndx) == Err(MissingSection)
  {
    var headers := SectionHeadersAt(data, shoff, shnum).value;
    var nt := headers[shstrndx];
    var shstrtab := Stream.ReadAt(data, nt.shOffset, nt.shSize).value;
    var st := FoldSections(data, shstrtab, headers).value;
    FoldFindsTables(data, shstrtab, headers);
    assert st.stringTable.None? || st.symbolHeaders.None?;
  }

  /** The two tables are found exactly when their sections were read. */
  lemma FoldFindsTables(data: Bytes, shstrtab: Bytes, hs: seq<SectionHeader>)
    requires FoldSections(data, shstrtab, hs).Ok?
    ensures var st := FoldSections(data, shstrtab, hs).value;
      && (st.stringTable.Some? <==> STRTAB_NAME in st.allSectionNames)
      && (st.symbolHeaders.Some? <==> SYMTAB_NAME in st.allSectionNames)
  {
    FoldKeepsFiled(data, shstrtab, hs);
  }

  // ------------------------------------------------------------ serialising

  /** The output so far, where each section was placed (by name, the last
      placement winning, as in the `section_offsets` hash map) and the start
      of every placement in order. */
  datatype Layout = Layout(out: Bytes, offsets: map<Bytes, Pointer>, starts: seq<nat>)

  /** One iteration of a layout loop: pad to the section's alignment, record
      the position (which must fit a `u32`), copy the content. */
  function PlaceSection(l: Layout, s: Section): (r: Result<Layout>)
    ensures r.Err? <==> |l.out| + Padding(|l.out|, s.header.shAddralign) > U32_MAX
    ensures r.Err? ==> r.error == PositionOverflow
  {
    var padded := l.out + Zeros(Padding(|l.out|, s.header.shAddralign));
    var at :- Current(|padded|);
    Ok(Layout(padded + s.content, l.offsets[s.name := at], l.starts + [|padded|]))
  }

  /** A layout loop over `ss`, left to right. */
  function PlaceAll(l: Layout, ss: seq<Section>): (r: Result<Layout>)
    ensures r.Err? ==> r.error == PositionOverflow
    ensures r.Ok? ==> |r.value.starts| == |l.starts| + |ss| && r.value.starts[..|l.starts|] == l.starts
    ensures r.Ok? ==> |l.out| <= |r.value.out| && r.value.out[..|l.out|] == l.out
    ensures r.Ok? ==> forall n :: n in l.offsets ==> n in r.value.offsets
  {
    if ss == [] then Ok(l)
    else
      var prev :- PlaceAll(l, ss[..|ss| - 1]);
      PlaceSection(prev, ss[|ss| - 1])
  }

  /** Every placed section's name gets an offset, and none is lost. */
  lemma {:induction false} PlaceAllNames(l: Layout, ss: seq<Section>)
    requires PlaceAll(l, ss).Ok?
    ensures forall n :: n in l.offsets ==> n in PlaceAll(l, ss).value.offsets
    ensures forall k :: 0 <= k < |ss| ==> ss[k].name in PlaceAll(l, ss).value.offsets
  {
    if ss != [] {
      var init := ss[..|ss| - 1];
      PlaceAllNames(l, init);
      assert forall k :: 0 <= k < |ss| - 1 ==> ss[k] == init[k];
    }
  }

  /** The meta sections the second (`rela == false`) or third (`rela ==
      true`) layout loop writes. */
  function SelectRela(ss: seq<Section>, rela: bool): seq<Section>
  {
    if ss == [] then []
    else
      var last := ss[|ss| - 1];
      SelectRela(ss[..|ss| - 1], rela) + (if StartsWith(last.name, RELA_PREFIX) == rela then [last] else [])
  }

  /** The loop writes exactly the sections of `ss` on its side of the
      `.rela` split. */
  lemma {:induction false} SelectRelaMembers(ss: seq<Section>, rela: bool, s: Section)
    ensures s in SelectRela(ss, rela) <==> s in ss && StartsWith(s.name, RELA_PREFIX) == rela
  {
    if ss != [] {
      SelectRelaMembers(ss[..|ss| - 1], rela, s);
      assert ss == ss[..|ss| - 1] + [ss[|ss| - 1]];
    }
  }

  /** The three layout loops after the header: content sections, then the
      meta sections that are not relocations, then the relocation sections. */
  function LayoutOf(headerBytes: Bytes, content: IndexMap<Bytes, Section>, meta: IndexMap<Bytes, Section>): Result<Layout>
  {
    var l1 :- PlaceAll(Layout(headerBytes, map[], []), content.Values());
    var l2 :- PlaceAll(l1, SelectRela(meta.Values(), false));
    PlaceAll(l2, SelectRela(meta.Values(), true))
  }

  /** Every section of the container is placed after the unchanged header. */
  lemma LayoutPlacesAll(headerBytes: Bytes, content: IndexMap<Bytes, Section>, meta: IndexMap<Bytes, Section>)
    requires LayoutOf(headerBytes, content, meta).Ok?
    ensures var l := LayoutOf(headerBytes, content, meta).value;
      && |headerBytes| <= |l.out| && l.out[..|headerBytes|] == headerBytes
      && (forall s :: s in content.Values() ==> s.name in l.offsets)
      && (forall s :: s in meta.Values() ==> s.name in l.offsets)
  {
    var l1 := PlaceAll(Layout(headerBytes, map[], []), content.Values()).value;
    var l2 := PlaceAll(l1, SelectRela(meta.Values(), false)).value;
    var l3 := PlaceAll(l2, SelectRela(meta.Values(), true)).value;
    PlaceAllNames(Layout(headerBytes, map[], []), content.Values());
    PlaceAllNames(l1, SelectRela(meta.Values(), false));
    PlaceAllNames(l2, SelectRela(meta.Values(), true));
    forall s | s in content.Values() ensures s.name in l3.offsets {
      var k :| 0 <= k < |content.Values()| && content.Values()[k] == s;
    }
    forall s | s in meta.Values() ensures s.name in l3.offsets {
      var sel := SelectRela(meta.Values(), StartsWith(s.name, RELA_PREFIX));
      SelectRelaMembers(meta.Values(), StartsWith(s.name, RELA_PREFIX), s);
      var k :| 0 <= k < |sel| && sel[k] == s;
    }
    assert l3.out[..|headerBytes|] == l2.out[..|l1.out|][..|headerBytes|];
  }

  /** `write_section_header`: pad to the section's alignment, then write its
      header with `sh_name` the first occurrence of its name in `.shstrtab`
      (0 when absent, truncated to 32 bits), `sh_offset` its recorded
      position and `sh_size` its length truncated to 32 bits.  The section
      must have been placed: indexing `section_offsets` with another name
      panics, and `to_bytes` only writes headers of placed sections
      (`LayoutPlacesAll`). */
  function WriteSectionHeader(out: Bytes, offsets: map<Bytes, Pointer>, shstrtab: Bytes, s: Section): (r: Bytes)
    requires s.name in offsets
    ensures var start := |out| + Padding(|out|, s.header.shAddralign);
      && |r| == start + SECTION_HEADER_SIZE
      && r[..|out|] == out
      && (forall i :: |out| <= i < start ==> r[i] == 0)
      && (s.header.shAddralign > 1 ==> start % s.header.shAddralign == 0)
  {
    var r := out + Zeros(Padding(|out|, s.header.shAddralign)) + EncodeSectionHeader(RewrittenHeader(offsets, shstrtab, s));
    assert r[..|out|] == out;
    r
  }

  /** The header `write_section_header` writes for a placed section. */
  function RewrittenHeader(offsets: map<Bytes, Pointer>, shstrtab: Bytes, s: Section): (h: SectionHeader)
    requires s.name in offsets
    ensures h.shOffset == offsets[s.name].value && h.shSize == TruncU32(|s.content|)
    ensures h.shName == (match Find(shstrtab, s.name) case Some(i) => TruncU32(i) case None => 0)
    ensures h.(shName := 0, shOffset := 0, shSize := 0) == s.header.(shName := 0, shOffset := 0, shSize := 0)
  {
    var nameOffset := match Find(shstrtab, s.name) case Some(i) => i case None => 0;
    s.header.(shName := TruncU32(nameOffset), shOffset := offsets[s.name].value, shSize := TruncU32(|s.content|))
  }

  /** What `write_section_header` writes decodes back to the rewritten header. */
  lemma WriteSectionHeaderDecodes(out: Bytes, offsets: map<Bytes, Pointer>, shstrtab: Bytes, s: Section)
    requires s.name in offsets
    ensures var r := WriteSectionHeader(out, offsets, shstrtab, s);
      DecodeSectionHeader(r[|r| - SECTION_HEADER_SIZE..]) == Ok(RewrittenHeader(offsets, shstrtab, s))
  {
    var h := RewrittenHeader(offsets, shstrtab, s);
    var r := WriteSectionHeader(out, offsets, shstrtab, s);
    assert r[|r| - SECTION_HEADER_SIZE..] == EncodeSectionHeader(h);
    SectionHeaderRoundTrip(h);
  }

  /** A header loop over `ss`, left to right. */
  function WriteHeaders(out: Bytes, offsets: map<Bytes, Pointer>, shstrtab: Bytes, ss: seq<Section>): (r: Bytes)
    requires forall s :: s in ss ==> s.name in offsets
    ensures |out| <= |r| && r[..|out|] == out
  {
    if ss == [] then out
    else
      var prev := WriteHeaders(out, offsets, shstrtab, ss[..|ss| - 1]);
      var r := WriteSectionHeader(prev, offsets, shstrtab, ss[|ss| - 1]);
      assert r[..|out|] == prev[..|out|];
      r
  }

  /** The header table entries for one content section: none for the
      unnamed default section, otherwise the section followed by the meta
      section `".rela" + name` when there is one. */
  function EntrySections(s: Section, meta: IndexMap<Bytes, Section>): (r: seq<Section>)
    ensures forall t :: t in r ==> t == s || t in meta.Values()
  {
    if s.name == [] then []
    else
      match meta.Get(RELA_PREFIX + s.name)
      case None => [s]
      case Some(rela) => assert rela in meta.Values(); [s, rela]
  }

  /** The sections of the header table between the null entry and
      `.shstrtab`: the entries of each content section in turn. */
  function TableSections(contents: seq<Section>, meta: IndexMap<Bytes, Section>): (r: seq<Section>)
    ensures forall s :: s in r ==> s in contents || s in meta.Values()
  {
    if contents == [] then []
    else
      var s := contents[|contents| - 1];
      TableSections(contents[..|contents| - 1], meta) + EntrySections(s, meta)
  }

  /** `meta_sections[name]`: a missing key is a panic. */
  function MetaSection(meta: IndexMap<Bytes, Section>, name: Bytes): (r: Result<Section>)
    ensures r.Err? <==> name !in meta.Keys()
    ensures r.Err? ==> r.error == Panic
    ensures r.Ok? ==> meta.Get(name) == Some(r.value) && r.value in meta.Values()
  {
    match meta.Get(name)
    case None => Err(Panic)
    case Some(s) => Ok(s)
  }

  /** The section header table after the layout: the null entry, the
      content sections with their relocations, then `tail` (`.shstrtab`,
      `.symtab`, `.strtab`). */
  function HeaderTable(l: Layout, contents: seq<Section>, meta: IndexMap<Bytes, Section>, nameTable: Bytes, tail: seq<Section>): (r: Bytes)
    requires forall s :: s in contents ==> s.name in l.offsets
    requires forall s :: s in meta.Values() ==> s.name in l.offsets
    requires forall s :: s in tail ==> s.name in l.offsets
    ensures |l.out| + SECTION_HEADER_SIZE <= |r| && r[..|l.out|] == l.out
    ensures r[|l.out|..|l.out| + SECTION_HEADER_SIZE] == Zeros(SECTION_HEADER_SIZE)
  {
    var table := l.out + EncodeSectionHeader(DEFAULT_SECTION_HEADER);
    NullHeaderZeros();
    var t1 := WriteHeaders(table, l.offsets, nameTable, TableSections(contents, meta));
    var r := WriteHeaders(t1, l.offsets, nameTable, tail);
    assert r[..|table|] == t1[..|table|] == table;
    assert r[|l.out|..|l.out| + SECTION_HEADER_SIZE] == table[|l.out|..|l.out| + SECTION_HEADER_SIZE];
    r
  }

  /** The null entry of the header table is forty zero bytes. */
  lemma NullHeaderZeros()
    ensures EncodeSectionHeader(DEFAULT_SECTION_HEADER) == Zeros(SECTION_HEADER_SIZE)
  {
    WordsToBEZeros(SectionHeaderWords(DEFAULT_SECTION_HEADER));
  }

  /** `to_bytes` for a container whose encoded header is `headerBytes`. */
  function Serialize(headerBytes: Bytes, content: IndexMap<Bytes, Section>, meta: IndexMap<Bytes, Section>): Result<Bytes>
  {
    var l :- LayoutOf(headerBytes, content, meta);
    var shOffset :- Current(|l.out|);
    var shstrtab :- MetaSection(meta, SHSTRTAB_NAME);
    var symtab :- MetaSection(meta, SYMTAB_NAME);
    var strtab :- MetaSection(meta, STRTAB_NAME);
    LayoutPlacesAll(headerBytes, content, meta);
    var table := HeaderTable(l, content.Values(), meta, shstrtab.content, [shstrtab, symtab, strtab]);
    Ok(Stream.Overwrite(table, E_SHOFF_OFFSET, U32ToBE(shOffset.value)))
  }

  // ------------------------------------------------ properties of the layout

  /** Placing `a + b` is placing `a`, then `b`. */
  lemma {:induction false} PlaceAllAppend(l: Layout, a: seq<Section>, b: seq<Section>)
    ensures PlaceAll(l, a + b) == (match PlaceAll(l, a) case Err(e) => Err(e) case Ok(la) => PlaceAll(la, b))
  {
    if b == [] {
      assert a + b == a;
    } else {
      assert (a + b)[..|a + b| - 1] == a + b[..|b| - 1];
      assert (a + b)[|a + b| - 1] == b[|b| - 1];
      PlaceAllAppend(l, a, b[..|b| - 1]);
    }
  }

  /** Section `s` sits at `st` in `out`, aligned as it asks. */
  ghost predicate HoldsAt(out: Bytes, st: nat, s: Section) {
    && st + |s.content| <= |out| && out[st..st + |s.content|] == s.content
    && (s.header.shAddralign > 1 ==> st % s.header.shAddralign == 0)
  }

  lemma HoldsAtExtended(out: Bytes, out': Bytes, st: nat, s: Section)
    requires HoldsAt(out, st, s) && |out| <= |out'| && out'[..|out|] == out
    ensures HoldsAt(out', st, s)
  {
    assert out'[st..st + |s.content|] == out'[..|out|][st..st + |s.content|];
  }

  /** The sections `placed`, in order, sit at the recorded starts of `l`,
      none before `floor`. */
  ghost predicate PlacedIn(l: Layout, floor: nat, placed: seq<Section>) {
    && floor <= |l.out| && |l.starts| == |placed|
    && forall k :: 0 <= k < |placed| ==> floor <= l.starts[k] && HoldsAt(l.out, l.starts[k], placed[k])
  }

  lemma PlaceSectionPlaces(l: Layout, floor: nat, placed: seq<Section>, s: Section)
    requires PlacedIn(l, floor, placed) && PlaceSection(l, s).Ok?
    ensures PlacedIn(PlaceSection(l, s).value, floor, placed + [s])
  {
    var padded := l.out + Zeros(Padding(|l.out|, s.header.shAddralign));
    var r := PlaceSection(l, s).value;
    assert r.out == padded + s.content;
    assert r.out[|padded|..|padded| + |s.content|] == s.content;
    assert r.out[..|l.out|] == l.out;
    forall k | 0 <= k < |placed| ensures HoldsAt(r.out, r.starts[k], (placed + [s])[k]) {
      HoldsAtExtended(l.out, r.out, l.starts[k], placed[k]);
    }
  }

  /** Each section placed by a layout loop sits, aligned, at its recorded
      start. */
  lemma {:induction false} PlaceAllPlaces(l: Layout, floor: nat, placed: seq<Section>, ss: seq<Section>)
    requires PlacedIn(l, floor, placed) && PlaceAll(l, ss).Ok?
    ensures PlacedIn(PlaceAll(l, ss).value, floor, placed + ss)
  {
    if ss == [] {
      assert placed + ss == placed;
    } else {
      var init := ss[..|ss| - 1];
      PlaceAllPlaces(l, floor, placed, init);
      PlaceSectionPlaces(PlaceAll(l, init).value, floor, placed + init, ss[|ss| - 1]);
      assert placed + init + [ss[|ss| - 1]] == placed + ss;
    }
  }

  /** The recorded offset of a name is the start of its last placement. */
  lemma {:induction false} PlaceAllOffsets(l: Layout, ss: seq<Section>, k: nat)
    requires PlaceAll(l, ss).Ok? && k < |ss|
    requires forall j :: k < j < |ss| ==> ss[j].name != ss[k].name
    ensures ss[k].name in PlaceAll(l, ss).value.offsets
    ensures PlaceAll(l, ss).value.offsets[ss[k].name].value == PlaceAll(l, ss).value.starts[|l.starts| + k]
  {
    var init := ss[..|ss| - 1];
    var prev := PlaceAll(l, init).value;
    var r := PlaceAll(l, ss).value;
    assert r.starts[..|prev.starts|] == prev.starts;
    if k < |ss| - 1 {
      assert init[k] == ss[k];
      PlaceAllOffsets(l, init, k);
      assert ss[|ss| - 1].name != ss[k].name;
      assert r.starts[|l.starts| + k] == prev.starts[|l.starts| + k];
    }
  }

  /** The order of the three layout loops. */
  function SectionOrder(content: IndexMap<Bytes, Section>, meta: IndexMap<Bytes, Section>): seq<Section>
  {
    content.Values() + SelectRela(meta.Values(), false) + SelectRela(meta.Values(), true)
  }

  lemma LayoutIsOneLoop(headerBytes: Bytes, content: IndexMap<Bytes, Section>, meta: IndexMap<Bytes, Section>)
    ensures LayoutOf(headerBytes, content, meta) == PlaceAll(Layout(headerBytes, map[], []), SectionOrder(content, meta))
  {
    var l0 := Layout(headerBytes, map[], []);
    var a, b, c := content.Values(), SelectRela(meta.Values(), false), SelectRela(meta.Values(), true);
    PlaceAllAppend(l0, a + b, c);
    PlaceAllAppend(l0, a, b);
  }

  /** The header table `to_bytes` writes, before `e_shoff` is patched. */
  function TableOf(headerBytes: Bytes, content: IndexMap<Bytes, Section>, meta: IndexMap<Bytes, Section>): Bytes
    requires Serialize(headerBytes, content, meta).Ok?
  {
    var l := LayoutOf(headerBytes, content, meta).value;
    LayoutPlacesAll(headerBytes, content, meta);
    var shstrtab := MetaSection(meta, SHSTRTAB_NAME).value;
    var symtab := MetaSection(meta, SYMTAB_NAME).value;
    var strtab := MetaSection(meta, STRTAB_NAME).value;
    HeaderTable(l, content.Values(), meta, shstrtab.content, [shstrtab, symtab, strtab])
  }

  /** `to_bytes` is the header table with `e_shoff` patched to the end of
      the layout, which fits in 32 bits. */
  lemma SerializeIsPatchedTable(headerBytes: Bytes, content: IndexMap<Bytes, Section>, meta: IndexMap<Bytes, Section>)
    requires Serialize(headerBytes, content, meta).Ok?
    ensures LayoutOf(headerBytes, content, meta).Ok? && |LayoutOf(headerBytes, content, meta).value.out| <= U32_MAX
    ensures Serialize(headerBytes, content, meta).value ==
      Stream.Overwrite(TableOf(headerBytes, content, meta), E_SHOFF_OFFSET, U32ToBE(|LayoutOf(headerBytes, content, meta).value.out|))
  {
  }

  /** The table starts with the laid-out sections (themselves after the
      header), followed by the all-zero null entry. */
  lemma TableOfShape(headerBytes: Bytes, content: IndexMap<Bytes, Section>, meta: IndexMap<Bytes, Section>)
    requires Serialize(headerBytes, content, meta).Ok?
    ensures LayoutOf(headerBytes, content, meta).Ok?
    ensures var l := LayoutOf(headerBytes, content, meta).value;
      var r := TableOf(headerBytes, content, meta);
      && |l.out| + SECTION_HEADER_SIZE <= |r| && r[..|l.out|] == l.out
      && r[|l.out|..|l.out| + SECTION_HEADER_SIZE] == Zeros(SECTION_HEADER_SIZE)
      && |headerBytes| <= |l.out| && r[..|headerBytes|] == headerBytes
  {
    var l := LayoutOf(headerBytes, content, meta).value;
    var r := TableOf(headerBytes, content, meta);
    LayoutPlacesAll(headerBytes, content, meta);
    assert r[..|headerBytes|] == r[..|l.out|][..|headerBytes|];
  }

  /** Overwriting a word inside a buffer splices it in. */
  lemma OverwriteInside(buf: Bytes, pos: nat, w: Bytes)
    requires pos + |w| <= |buf|
    ensures Stream.Overwrite(buf, pos, w) == buf[..pos] + w + buf[pos + |w|..]
  {
  }

  /** Patching `e_shoff` into a buffer that starts with the header. */
  lemma PatchShoff(table: Bytes, headerBytes: Bytes, t: u32)
    requires E_SHOFF_OFFSET + 4 <= |headerBytes| <= t && t + SECTION_HEADER_SIZE <= |table|
    requires table[..|headerBytes|] == headerBytes
    ensures var out := Stream.Overwrite(table, E_SHOFF_OFFSET, U32ToBE(t));
      && |out| == |table|
      && out[..E_SHOFF_OFFSET] == headerBytes[..E_SHOFF_OFFSET]
      && BEToU32(out[E_SHOFF_OFFSET..E_SHOFF_OFFSET + 4]) == t
      && out[E_SHOFF_OFFSET + 4..|headerBytes|] == headerBytes[E_SHOFF_OFFSET + 4..]
      && out[E_SHOFF_OFFSET..E_SHOFF_OFFSET + 4] == U32ToBE(t)
      && out[E_SHOFF_OFFSET + 4..] == table[E_SHOFF_OFFSET + 4..]
  {
    OverwriteInside(table, E_SHOFF_OFFSET, U32ToBE(t));
    var out := table[..E_SHOFF_OFFSET] + U32ToBE(t) + table[E_SHOFF_OFFSET + 4..];
    assert out[..E_SHOFF_OFFSET] == table[..|headerBytes|][..E_SHOFF_OFFSET];
    assert out[E_SHOFF_OFFSET..E_SHOFF_OFFSET + 4] == U32ToBE(t);
    assert out[E_SHOFF_OFFSET + 4..] == table[E_SHOFF_OFFSET + 4..];
    assert out[E_SHOFF_OFFSET + 4..|headerBytes|] == table[..|headerBytes|][E_SHOFF_OFFSET + 4..];
    U32RoundTrip(t);
  }

  /** What lies past `e_shoff` survives the patch. */
  lemma PatchKeeps(table: Bytes, out: Bytes, from: nat, to: nat)
    requires E_SHOFF_OFFSET + 4 <= from <= to <= |table| == |out|
    requires out[E_SHOFF_OFFSET + 4..] == table[E_SHOFF_OFFSET + 4..]
    ensures out[from..to] == table[from..to]
  {
    forall i | from <= i < to ensures out[i] == table[i] {
      assert out[i] == out[E_SHOFF_OFFSET + 4..][i - (E_SHOFF_OFFSET + 4)];
      assert table[i] == table[E_SHOFF_OFFSET + 4..][i - (E_SHOFF_OFFSET + 4)];
    }
  }

  /** `to_bytes` changes nothing of the header but `e_shoff`, which it sets
      to the start of the section header table, whose first entry is the
      all-zero null header. */
  lemma SerializePatchesOnlyShoff(headerBytes: Bytes, content: IndexMap<Bytes, Section>, meta: IndexMap<Bytes, Section>)
    requires |headerBytes| >= E_SHOFF_OFFSET + 4
    requires Serialize(headerBytes, content, meta).Ok?
    ensures LayoutOf(headerBytes, content, meta).Ok?
    ensures var out := Serialize(headerBytes, content, meta).value;
      var t := |LayoutOf(headerBytes, content, meta).value.out|;
      && |headerBytes| <= t && t + SECTION_HEADER_SIZE <= |out|
      && out[..E_SHOFF_OFFSET] == headerBytes[..E_SHOFF_OFFSET]
      && out[E_SHOFF_OFFSET..E_SHOFF_OFFSET + 4] == U32ToBE(t)
      && out[E_SHOFF_OFFSET + 4..|headerBytes|] == headerBytes[E_SHOFF_OFFSET + 4..]
      && out[t..t + SECTION_HEADER_SIZE] == Zeros(SECTION_HEADER_SIZE)
  {
    var l := LayoutOf(headerBytes, content, meta).value;
    SerializeIsPatchedTable(headerBytes, content, meta);
    TableOfShape(headerBytes, content, meta);
    PatchedTable(TableOf(headerBytes, content, meta), headerBytes, |l.out|);
  }

  /** Patching the table keeps the null entry after the sections. */
  lemma PatchedTable(table: Bytes, headerBytes: Bytes, t: u32)
    requires E_SHOFF_OFFSET + 4 <= |headerBytes| <= t && t + SECTION_HEADER_SIZE <= |table|
    requires table[..|headerBytes|] == headerBytes
    requires table[t..t + SECTION_HEADER_SIZE] == Zeros(SECTION_HEADER_SIZE)
    ensures var out := Stream.Overwrite(table, E_SHOFF_OFFSET, U32ToBE(t));
      && t + SECTION_HEADER_SIZE <= |out|
      && out[..E_SHOFF_OFFSET] == headerBytes[..E_SHOFF_OFFSET]
      && out[E_SHOFF_OFFSET..E_SHOFF_OFFSET + 4] == U32ToBE(t)
      && out[E_SHOFF_OFFSET + 4..|headerBytes|] == headerBytes[E_SHOFF_OFFSET + 4..]
      && out[t..t + SECTION_HEADER_SIZE] == Zeros(SECTION_HEADER_SIZE)
  {
    PatchShoff(table, headerBytes, t);
    PatchKeeps(table, Stream.Overwrite(table, E_SHOFF_OFFSET, U32ToBE(t)), t, t + SECTION_HEADER_SIZE);
  }

  /** Section `k` of a layout loop that starts empty sits at its start,
      after the initial output; a name not placed again later maps to that
      start. */
  lemma PlaceAllAt(l0: Layout, order: seq<Section>, k: nat)
    requires l0.starts == [] && PlaceAll(l0, order).Ok? && k < |order|
    ensures var l := PlaceAll(l0, order).value;
      && |l.starts| == |order|
      && |l0.out| <= l.starts[k] && HoldsAt(l.out, l.starts[k], order[k])
      && ((forall j :: k < j < |order| ==> order[j].name != order[k].name) ==>
            order[k].name in l.offsets && l.offsets[order[k].name].value == l.starts[k])
  {
    var l := PlaceAll(l0, order).value;
    PlaceAllPlaces(l0, |l0.out|, [], order);
    assert [] + order == order;
    assert PlacedIn(l, |l0.out|, order);
    assert |l0.out| <= l.starts[k] && HoldsAt(l.out, l.starts[k], order[k]);
    if forall j :: k < j < |order| ==> order[j].name != order[k].name {
      PlaceAllOffsets(l0, order, k);
    }
  }

  /** Section `k` of the layout order sits at its start, after the header. */
  lemma LayoutPlacesOrder(headerBytes: Bytes, content: IndexMap<Bytes, Section>, meta: IndexMap<Bytes, Section>, order: seq<Section>, k: nat)
    requires LayoutOf(headerBytes, content, meta).Ok?
    requires order == SectionOrder(content, meta) && k < |order|
    ensures var l := LayoutOf(headerBytes, content, meta).value;
      && |l.starts| == |order|
      && |headerBytes| <= l.starts[k] && HoldsAt(l.out, l.starts[k], order[k])
      && ((forall j :: k < j < |order| ==> order[j].name != order[k].name) ==>
            order[k].name in l.offsets && l.offsets[order[k].name].value == l.starts[k])
  {
    LayoutIsOneLoop(headerBytes, content, meta);
    PlaceAllAt(Layout(headerBytes, map[], []), order, k);
  }

  /** A section held in the table past `e_shoff` can be read back after
      the patch. */
  lemma PatchedHolds(table: Bytes, headerBytes: Bytes, t: u32, st: nat, s: Section)
    requires E_SHOFF_OFFSET + 4 <= |headerBytes| <= t && t + SECTION_HEADER_SIZE <= |table|
    requires table[..|headerBytes|] == headerBytes
    requires |headerBytes| <= st && HoldsAt(table, st, s)
    ensures Stream.ReadAt(Stream.Overwrite(table, E_SHOFF_OFFSET, U32ToBE(t)), st, |s.content|) == Ok(s.content)
  {
    PatchShoff(table, headerBytes, t);
    PatchKeeps(table, Stream.Overwrite(table, E_SHOFF_OFFSET, U32ToBE(t)), st, st + |s.content|);
  }

  /** Every section placed by `to_bytes` can be read back at its start in
      the output (`LayoutPlacesOrder` says that start is aligned and is the
      offset recorded for the section's header). */
  lemma SerializePlacesContent(headerBytes: Bytes, content: IndexMap<Bytes, Section>, meta: IndexMap<Bytes, Section>, order: seq<Section>, k: nat)
    requires |headerBytes| >= E_SHOFF_OFFSET + 4
    requires Serialize(headerBytes, content, meta).Ok?
    requires order == SectionOrder(content, meta) && k < |order|
    ensures LayoutOf(headerBytes, content, meta).Ok?
    ensures var out := Serialize(headerBytes, content, meta).value;
      var l := LayoutOf(headerBytes, content, meta).value;
      && |l.starts| == |order|
      && Stream.ReadAt(out, l.starts[k], |order[k].content|) == Ok(order[k].content)
  {
    var l := LayoutOf(headerBytes, content, meta).value;
    LayoutPlacesOrder(headerBytes, content, meta, order, k);
    var table := TableOf(headerBytes, content, meta);
    SerializeIsPatchedTable(headerBytes, content, meta);
    TableOfShape(headerBytes, content, meta);
    HoldsAtExtended(l.out, table, l.starts[k], order[k]);
    PatchedHolds(table, headerBytes, |l.out|, l.starts[k], order[k]);
  }
}
