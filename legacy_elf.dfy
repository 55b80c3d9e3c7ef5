// The oldest reader, `src/elf.rs`: one section map for every section,
// `.rela`, `.strtab` and `.symtab` included, a section header whose
// `sh_type` is a plain u32, and section symbols named through the map's
// insertion order.
module LegacyElf {
  import opened Wrappers
  import opened Bytes
  import opened IndexMaps
  import opened PointerUtil
  import opened Elf
  import opened Container
  import ContainerIo
  import LegacyContainer
  import Util
  import Stream
  import Folds

  // --------------------------------------------------------------- records

  /** `SectionHeader` of this reader: ten u32 words, none of them checked. */
  datatype RawSectionHeader = RawSectionHeader(
    shName: u32, shType: u32, shFlags: u32, shAddr: u32, shOffset: u32,
    shSize: u32, shLink: u32, shInfo: u32, shAddralign: u32, shEntsize: u32)

  function RawWords(h: RawSectionHeader): (ws: seq<u32>)
    ensures |ws| == 10
  {
    [h.shName, h.shType, h.shFlags, h.shAddr, h.shOffset,
      h.shSize, h.shLink, h.shInfo, h.shAddralign, h.shEntsize]
  }

  function EncodeRawSectionHeader(h: RawSectionHeader): (r: Bytes)
    ensures |r| == SECTION_HEADER_SIZE
  {
    WordsToBE(RawWords(h))
  }

  function DecodeRawSectionHeader(b: Bytes): (h: RawSectionHeader)
    requires |b| == SECTION_HEADER_SIZE
    ensures h.shType == Word(b, 1) && h.shOffset == Word(b, 4) && h.shSize == Word(b, 5)
  {
    RawSectionHeader(Word(b, 0), Word(b, 1), Word(b, 2), Word(b, 3), Word(b, 4),
      Word(b, 5), Word(b, 6), Word(b, 7), Word(b, 8), Word(b, 9))
  }

  lemma RawSectionHeaderRoundTrip(h: RawSectionHeader)
    ensures DecodeRawSectionHeader(EncodeRawSectionHeader(h)) == h
  {
    var w := RawWords(h);
    forall k | 0 <= k < 10 ensures Word(WordsToBE(w), k) == w[k] {
      WordsToBEWord(w, k);
    }
  }

  /** The newer reader's header with its type written back as a word. */
  function Untyped(h: SectionHeader): RawSectionHeader {
    RawSectionHeader(h.shName, SectionTypeCode(h.shType), h.shFlags, h.shAddr,
      h.shOffset, h.shSize, h.shLink, h.shInfo, h.shAddralign, h.shEntsize)
  }

  /** Both readers lay out a header the newer one can hold alike. */
  lemma RawLayoutAgrees(h: SectionHeader)
    ensures EncodeRawSectionHeader(Untyped(h)) == EncodeSectionHeader(h)
  {
    assert RawWords(Untyped(h)) == SectionHeaderWords(h);
  }

  /** This reader accepts any `sh_type`; the newer one accepts the same
      bytes exactly when the type is one of the five it knows, and then
      reads the same words. */
  lemma RawDecodeAgrees(b: Bytes)
    requires |b| == SECTION_HEADER_SIZE
    ensures DecodeSectionHeader(b).Ok? <==> DecodeRawSectionHeader(b).shType <= 4
    ensures DecodeSectionHeader(b).Ok? ==> Untyped(DecodeSectionHeader(b).value) == DecodeRawSectionHeader(b)
  {
  }

  /** `Section` of this reader. */
  datatype RawSection = RawSection(
    header: RawSectionHeader, name: Bytes,
    relocations: Option<IndexMap<Pointer, Relocation>>, content: Bytes)

  /** What `Section::from_reader` reads: `sh_size` bytes at `sh_offset`,
      with no relocations yet. */
  function RawSectionAt(data: Bytes, header: RawSectionHeader, name: Bytes): (r: Result<RawSection>)
    ensures r.Ok? <==> header.shOffset + header.shSize <= |data|
    ensures r.Ok? ==> r.value == RawSection(header, name, None,
      data[header.shOffset..header.shOffset + header.shSize])
  {
    var content :- Stream.ReadAt(data, header.shOffset, header.shSize);
    Ok(RawSection(header, name, None, content))
  }

  method RawSectionFromReader(header: RawSectionHeader, name: Bytes, reader: Stream.Cursor) returns (r: Result<RawSection>)
    modifies reader
    ensures r == RawSectionAt(reader.data, header, name)
  {
    reader.Seek(header.shOffset);
    var content := reader.ReadExact(header.shSize);
    match content
    case Err(e) => r := Err(e);
    case Ok(c) => r := Ok(RawSection(header, name, None, c));
  }

  // -------------------------------------------------- the section headers

  /** What `SectionHeader::read` reads at `pos`: it fails only at the end
      of the data. */
  function RawHeaderAt(data: Bytes, pos: nat): (r: Result<RawSectionHeader>)
    ensures r.Ok? <==> pos + SECTION_HEADER_SIZE <= |data|
    ensures r.Ok? ==> r.value == DecodeRawSectionHeader(data[pos..pos + SECTION_HEADER_SIZE])
    ensures r.Err? ==> r.error == UnexpectedEof
  {
    var b :- Stream.ReadAt(data, pos, SECTION_HEADER_SIZE);
    Ok(DecodeRawSectionHeader(b))
  }

  function RawHeaderReads(data: Bytes, shoff: nat): nat -> Result<RawSectionHeader>
  {
    (k: nat) => RawHeaderAt(data, HeaderPos(shoff, k))
  }

  /** The first `n` headers of the table at `shoff`. */
  function RawHeadersAt(data: Bytes, shoff: nat, n: nat): (r: Result<seq<RawSectionHeader>>)
    ensures r.Ok? ==> |r.value| == n
  {
    Stream.ReadEach(RawHeaderReads(data, shoff), n)
  }

  /** Reading the table fails exactly when it runs past the end of the
      data. */
  lemma RawHeadersAtOk(data: Bytes, shoff: nat, n: nat)
    ensures RawHeadersAt(data, shoff, n).Ok? <==> n == 0 || HeaderPos(shoff, n) <= |data|
  {
    var read := RawHeaderReads(data, shoff);
    Stream.ReadEachOk(read, n);
    if n > 0 {
      assert read(n - 1).Ok? <==> HeaderPos(shoff, n) <= |data|;
    }
  }

  /** Header `k` is the one stored `k` entries after `e_shoff`. */
  lemma RawHeadersAtEach(data: Bytes, shoff: nat, n: nat, k: nat)
    requires RawHeadersAt(data, shoff, n).Ok? && k < n
    ensures RawHeaderAt(data, HeaderPos(shoff, k)) == Ok(RawHeadersAt(data, shoff, n).value[k])
  {
    Stream.ReadEachAt(RawHeaderReads(data, shoff), n, k);
  }

  method ReadRawHeader(reader: Stream.Cursor) returns (r: Result<RawSectionHeader>)
    modifies reader
    ensures r == RawHeaderAt(reader.data, old(reader.pos))
    ensures r.Ok? ==> reader.pos == old(reader.pos) + SECTION_HEADER_SIZE
  {
    var b := reader.ReadExact(SECTION_HEADER_SIZE);
    if b.Err? {
      return Err(b.error);
    }
    r := Ok(DecodeRawSectionHeader(b.value));
  }

  // ------------------------------------------------------ the section loop

  /** The loop's local state. */
  datatype RawState = RawState(
    sections: IndexMap<Bytes, RawSection>,
    symbolHeaders: Option<seq<SymbolHeader>>,
    stringTable: Option<Bytes>)

  const RAW_START: RawState := RawState(Empty(), None, None)

  /** A `.rela` section's relocations replace those of the section it
      names, which must already be in the map. */
  function AttachRelocations(st: RawState, name: Bytes, section: RawSection): (r: Result<RawState>)
    ensures r.Err? <==> StartsWith(name, RELA_PREFIX) && name[5..] !in st.sections.Keys()
    ensures r.Err? ==> r.error == MissingSection
    ensures r.Ok? && !StartsWith(name, RELA_PREFIX) ==> r.value == st
    ensures r.Ok? && StartsWith(name, RELA_PREFIX) ==>
      r.value.sections.Keys() == st.sections.Keys()
      && r.value.sections.Get(name[5..]) ==
        Some(st.sections.Get(name[5..]).value.(relocations := Some(ParseRelocations(section.content))))
      && (forall k :: k != name[5..] ==> r.value.sections.Get(k) == st.sections.Get(k))
      && r.value.symbolHeaders == st.symbolHeaders && r.value.stringTable == st.stringTable
  {
    if StartsWith(name, RELA_PREFIX) then
      match st.sections.Get(name[5..])
      case None => Err(MissingSection)
      case Some(original) =>
        var attached := original.(relocations := Some(ParseRelocations(section.content)));
        Ok(st.(sections := st.sections.Insert(name[5..], attached)))
    else Ok(st)
  }

  /** One iteration of the loop after the section has been read: attach
      relocations, take the string or symbol table, then store the section
      itself under its name. */
  function FileRawSection(st: RawState, name: Bytes, section: RawSection): (r: Result<RawState>)
    ensures r.Err? <==> StartsWith(name, RELA_PREFIX) && name[5..] !in st.sections.Keys()
    ensures r.Err? ==> r.error == MissingSection
    ensures r.Ok? ==> r.value.sections.Get(name) == Some(section)
    ensures r.Ok? ==> (r.value.stringTable.Some? <==> st.stringTable.Some? || name == STRTAB_NAME)
    ensures r.Ok? ==> (r.value.symbolHeaders.Some? <==> st.symbolHeaders.Some? || name == SYMTAB_NAME)
  {
    var attached :- AttachRelocations(st, name, section);
    var tables :=
      if name == STRTAB_NAME then attached.(stringTable := Some(section.content))
      else if name == SYMTAB_NAME then attached.(symbolHeaders := Some(ParseSymbolHeaders(section.content)))
      else attached;
    Ok(tables.(sections := tables.sections.Insert(name, section)))
  }

  function RawStepAt(data: Bytes, shstrtab: Bytes, st: RawState, h: RawSectionHeader): Result<RawState>
  {
    var name :- Util.ReadStringChecked(shstrtab, h.shName);
    var section :- RawSectionAt(data, h, name);
    FileRawSection(st, name, section)
  }

  /** The loop over the headers `hs`, left to right. */
  function FoldRaw(data: Bytes, shstrtab: Bytes, hs: seq<RawSectionHeader>): Result<RawState>
  {
    if hs == [] then Ok(RAW_START)
    else
      var st :- FoldRaw(data, shstrtab, hs[..|hs| - 1]);
      RawStepAt(data, shstrtab, st, hs[|hs| - 1])
  }

  /** What the loop keeps true: every section is stored under its own name,
      and each table was found exactly when its section is in the map. */
  ghost predicate RawFiled(st: RawState) {
    && st.sections.Valid()
    && (forall k :: st.sections.Get(k).Some? ==> st.sections.Get(k).value.name == k)
    && (st.stringTable.Some? <==> STRTAB_NAME in st.sections.Keys())
    && (st.symbolHeaders.Some? <==> SYMTAB_NAME in st.sections.Keys())
  }

  lemma AttachKeepsFiled(st: RawState, name: Bytes, section: RawSection)
    requires RawFiled(st)
    ensures AttachRelocations(st, name, section).Ok? ==> RawFiled(AttachRelocations(st, name, section).value)
  {
    var r := AttachRelocations(st, name, section);
    if r.Ok? && StartsWith(name, RELA_PREFIX) {
      forall k | r.value.sections.Get(k).Some? ensures r.value.sections.Get(k).value.name == k {
        if k != name[5..] {
          assert r.value.sections.Get(k) == st.sections.Get(k);
        }
      }
    }
  }

  lemma FileRawKeepsFiled(st: RawState, name: Bytes, section: RawSection)
    requires RawFiled(st) && section.name == name
    ensures FileRawSection(st, name, section).Ok? ==> RawFiled(FileRawSection(st, name, section).value)
  {
    AttachKeepsFiled(st, name, section);
    var attached := AttachRelocations(st, name, section);
    if attached.Ok? {
      InsertedKeys(attached.value.sections, name, section);
    }
  }

  lemma {:induction false} FoldRawKeepsFiled(data: Bytes, shstrtab: Bytes, hs: seq<RawSectionHeader>)
    ensures FoldRaw(data, shstrtab, hs).Ok? ==> RawFiled(FoldRaw(data, shstrtab, hs).value)
  {
    if hs != [] {
      var prev := FoldRaw(data, shstrtab, hs[..|hs| - 1]);
      FoldRawKeepsFiled(data, shstrtab, hs[..|hs| - 1]);
      if prev.Ok? {
        var h := hs[|hs| - 1];
        var name := Util.ReadStringChecked(shstrtab, h.shName);
        if name.Ok? {
          var section := RawSectionAt(data, h, name.value);
          if section.Ok? {
            FileRawKeepsFiled(prev.value, name.value, section.value);
          }
        }
      }
    }
  }

  /** Every section read is in the map, under the name `.shstrtab` gives
      it. */
  lemma {:induction false} FoldRawHas(data: Bytes, shstrtab: Bytes, hs: seq<RawSectionHeader>, i: nat)
    requires FoldRaw(data, shstrtab, hs).Ok? && i < |hs|
    ensures Util.ReadStringChecked(shstrtab, hs[i].shName).Ok?
    ensures Util.ReadStringChecked(shstrtab, hs[i].shName).value in FoldRaw(data, shstrtab, hs).value.sections.Keys()
  {
    var init := hs[..|hs| - 1];
    var prev := FoldRaw(data, shstrtab, init).value;
    var last := Util.ReadStringChecked(shstrtab, hs[|hs| - 1].shName).value;
    var section := RawSectionAt(data, hs[|hs| - 1], last).value;
    var next := FileRawSection(prev, last, section).value;
    if i < |hs| - 1 {
      assert init[i] == hs[i];
      FoldRawHas(data, shstrtab, init, i);
      var n := Util.ReadStringChecked(shstrtab, hs[i].shName).value;
      var attached := AttachRelocations(prev, last, section).value;
      assert n in attached.sections.Keys();
      InsertedKeys(attached.sections, last, section);
    }
  }

  // ------------------------------------------------------- the symbol loop

  /** A section symbol (`st_info == 3`) takes the name of the map entry at
      insertion index `st_shndx`; any other symbol is named from
      `.strtab`. */
  function RawSymbolNameOf(h: SymbolHeader, strtab: Bytes, sections: IndexMap<Bytes, RawSection>): (r: Result<Bytes>)
    ensures h.stInfo == 3 ==> (r.Ok? <==> h.stShndx < sections.Len())
    ensures h.stInfo == 3 && r.Ok? ==> r.value == sections.entries[h.stShndx].1.name
    ensures h.stInfo == 3 && r.Err? ==> r.error == SectionIndexOutOfRange
    ensures h.stInfo != 3 ==> r == Util.ReadStringChecked(strtab, h.stName)
  {
    if h.stInfo == 3 then
      match sections.GetIndex(h.stShndx)
      case None => Err(SectionIndexOutOfRange)
      case Some(entry) => Ok(entry.1.name)
    else Util.ReadStringChecked(strtab, h.stName)
  }

  function NameRawOne(m: IndexMap<Bytes, Symbol>, h: SymbolHeader, strtab: Bytes, sections: IndexMap<Bytes, RawSection>): Result<IndexMap<Bytes, Symbol>>
  {
    var name :- RawSymbolNameOf(h, strtab, sections);
    Ok(m.Insert(name, Symbol(h, name)))
  }

  function NameRawStep(strtab: Bytes, sections: IndexMap<Bytes, RawSection>): (IndexMap<Bytes, Symbol>, SymbolHeader) -> Result<IndexMap<Bytes, Symbol>>
  {
    (m: IndexMap<Bytes, Symbol>, h: SymbolHeader) => NameRawOne(m, h, strtab, sections)
  }

  /** The symbol loop of this reader. */
  function NameRawSymbols(hs: seq<SymbolHeader>, strtab: Bytes, sections: IndexMap<Bytes, RawSection>): Result<IndexMap<Bytes, Symbol>>
  {
    Folds.FoldEach(Empty(), NameRawStep(strtab, sections), hs)
  }

  /** Once every section is stored under its own name, naming a section
      symbol by map index is naming it by the map's key sequence, which is
      the newer container's rule applied to the deduplicated names. */
  lemma RawSymbolNameAgrees(h: SymbolHeader, strtab: Bytes, sections: IndexMap<Bytes, RawSection>)
    requires forall k :: sections.Get(k).Some? ==> sections.Get(k).value.name == k
    requires sections.Valid()
    ensures RawSymbolNameOf(h, strtab, sections) == SymbolNameOf(h, strtab, sections.Keys())
  {
    if h.stInfo == 3 && h.stShndx < sections.Len() {
      var e := sections.entries[h.stShndx];
      var j :| 0 <= j < |sections.entries| && sections.entries[j] == (e.0, sections.Get(e.0).value);
      assert sections.entries[j].0 == sections.entries[h.stShndx].0;
    }
  }

  lemma {:induction false} NameRawSymbolsAgrees(hs: seq<SymbolHeader>, strtab: Bytes, sections: IndexMap<Bytes, RawSection>)
    requires forall k :: sections.Get(k).Some? ==> sections.Get(k).value.name == k
    requires sections.Valid()
    ensures NameRawSymbols(hs, strtab, sections) == NameSymbols(hs, strtab, sections.Keys())
  {
    if hs != [] {
      NameRawSymbolsAgrees(hs[..|hs| - 1], strtab, sections);
      RawSymbolNameAgrees(hs[|hs| - 1], strtab, sections);
    }
  }

  // ----------------------------------------------------------- from_reader

  /** What `ElfContainer::from_reader` builds. */
  datatype OldElf = OldElf(symbols: IndexMap<Bytes, Symbol>, sections: IndexMap<Bytes, RawSection>)

  /** `from_reader` after the header. */
  function ParseOldBody(data: Bytes, shoff: nat, shnum: nat, shstrndx: nat): Result<OldElf>
  {
    var headers :- RawHeadersAt(data, shoff, shnum);
    if shstrndx >= |headers| then Err(Panic)
    else
      var nameTable := headers[shstrndx];
      var shstrtab :- Stream.ReadAt(data, nameTable.shOffset, nameTable.shSize);
      var st :- FoldRaw(data, shstrtab, headers);
      if st.stringTable.None? then Err(MissingSection)
      else if st.symbolHeaders.None? then Err(MissingSection)
      else
        var symbols :- NameRawSymbols(st.symbolHeaders.value, st.stringTable.value, st.sections);
        Ok(OldElf(symbols, st.sections))
  }

  /** `from_reader`: the 52-byte header (as in the older container), then
      the body. */
  function ParseOld(data: Bytes, pos: nat): Result<OldElf>
  {
    var b :- Stream.ReadAt(data, pos, ELF_HEADER_SIZE);
    var header := LegacyContainer.DecodeLegacyHeader(b);
    ParseOldBody(data, header.eShoff, header.eShnum, header.eShstrndx)
  }

  /** Parsing fails when no section is named `.strtab` or none `.symtab`. */
  lemma ParseOldNeedsTables(data: Bytes, shoff: nat, shnum: nat, shstrndx: nat)
    requires RawHeadersAt(data, shoff, shnum).Ok?
    requires var headers := RawHeadersAt(data, shoff, shnum).value;
      && shstrndx < |headers|
      && var nt := headers[shstrndx];
      && Stream.ReadAt(data, nt.shOffset, nt.shSize).Ok?
      && var st := FoldRaw(data, Stream.ReadAt(data, nt.shOffset, nt.shSize).value, headers);
      && st.Ok? && (STRTAB_NAME !in st.value.sections.Keys() || SYMTAB_NAME !in st.value.sections.Keys())
    ensures ParseOldBody(data, shoff, shnum, shstrndx) == Err(MissingSection)
  {
    var headers := RawHeadersAt(data, shoff, shnum).value;
    var nt := headers[shstrndx];
    var shstrtab := Stream.ReadAt(data, nt.shOffset, nt.shSize).value;
    FoldRawKeepsFiled(data, shstrtab, headers);
  }

  /** A successful parse keeps every section under its own name, holds both
      tables, and names the symbols as the newer container would from the
      map's keys. */
  lemma ParseOldShape(data: Bytes, shoff: nat, shnum: nat, shstrndx: nat)
    requires ParseOldBody(data, shoff, shnum, shstrndx).Ok?
    ensures var e := ParseOldBody(data, shoff, shnum, shstrndx).value;
      && e.sections.Valid()
      && (forall k :: e.sections.Get(k).Some? ==> e.sections.Get(k).value.name == k)
      && STRTAB_NAME in e.sections.Keys() && SYMTAB_NAME in e.sections.Keys()
  {
    var headers := RawHeadersAt(data, shoff, shnum).value;
    var nt := headers[shstrndx];
    var shstrtab := Stream.ReadAt(data, nt.shOffset, nt.shSize).value;
    FoldRawKeepsFiled(data, shstrtab, headers);
  }

  // --------------------------------------------------- the loops, imperative

  lemma RawHeadersNext(data: Bytes, shoff: nat, i: nat, prev: seq<RawSectionHeader>, h: RawSectionHeader)
    requires RawHeadersAt(data, shoff, i) == Ok(prev)
    requires RawHeaderAt(data, HeaderPos(shoff, i)) == Ok(h)
    ensures RawHeadersAt(data, shoff, i + 1) == Ok(prev + [h])
  {
    Stream.ReadEachNext(RawHeaderReads(data, shoff), i, prev, h);
  }

  /** Running off the end of the data ends the header loop with that error. */
  lemma RawHeadersStop(data: Bytes, shoff: nat, i: nat, n: nat)
    requires i < n && RawHeadersAt(data, shoff, i).Ok? && RawHeaderAt(data, HeaderPos(shoff, i)).Err?
    ensures RawHeadersAt(data, shoff, n) == Err(UnexpectedEof)
  {
    Stream.ReadEachStop(RawHeaderReads(data, shoff), i, n);
  }

  method ReadRawHeaders(reader: Stream.Cursor, shoff: nat, n: nat) returns (r: Result<seq<RawSectionHeader>>)
    modifies reader
    ensures r == RawHeadersAt(reader.data, shoff, n)
  {
    reader.Seek(shoff);
    var headers: seq<RawSectionHeader> := [];
    var i := 0;
    while i < n
      invariant i <= n && reader.pos == HeaderPos(shoff, i)
      invariant RawHeadersAt(reader.data, shoff, i) == Ok(headers)
    {
      var h := ReadRawHeader(reader);
      assert HeaderPos(shoff, i + 1) == HeaderPos(shoff, i) + SECTION_HEADER_SIZE;
      if h.Err? {
        RawHeadersStop(reader.data, shoff, i, n);
        return Err(h.error);
      }
      RawHeadersNext(reader.data, shoff, i, headers, h.value);
      headers := headers + [h.value];
      i := i + 1;
    }
    r := Ok(headers);
  }

  lemma FoldRawAfterErr(data: Bytes, shstrtab: Bytes, hs: seq<RawSectionHeader>)
    requires hs != [] && FoldRaw(data, shstrtab, hs[..|hs| - 1]).Err?
    ensures FoldRaw(data, shstrtab, hs) == Err(FoldRaw(data, shstrtab, hs[..|hs| - 1]).error)
  {
  }

  lemma {:induction false} FoldRawErrPrefix(data: Bytes, shstrtab: Bytes, hs: seq<RawSectionHeader>, i: nat)
    requires i <= |hs| && FoldRaw(data, shstrtab, hs[..i]).Err?
    ensures FoldRaw(data, shstrtab, hs) == Err(FoldRaw(data, shstrtab, hs[..i]).error)
  {
    if i == |hs| {
      assert hs[..i] == hs;
    } else {
      var init := hs[..|hs| - 1];
      assert init[..i] == hs[..i];
      FoldRawErrPrefix(data, shstrtab, init, i);
      FoldRawAfterErr(data, shstrtab, hs);
    }
  }

  lemma FoldRawNext(data: Bytes, shstrtab: Bytes, hs: seq<RawSectionHeader>, i: nat, st: RawState)
    requires i < |hs| && FoldRaw(data, shstrtab, hs[..i]) == Ok(st)
    ensures FoldRaw(data, shstrtab, hs[..i + 1]) == RawStepAt(data, shstrtab, st, hs[i])
  {
    assert hs[..i + 1][..i] == hs[..i];
  }

  /** One iteration of the section loop. */
  method RawSectionStep(reader: Stream.Cursor, shstrtab: Bytes, st: RawState, h: RawSectionHeader) returns (r: Result<RawState>)
    modifies reader
    ensures r == RawStepAt(reader.data, shstrtab, st, h)
  {
    if h.shName > |shstrtab| {
      return Err(Panic);
    }
    var name := Util.ReadString(shstrtab, h.shName);
    if name.Err? {
      return Err(name.error);
    }
    var section := RawSectionFromReader(h, name.value, reader);
    if section.Err? {
      return Err(section.error);
    }
    var s := section.value;
    var next := st;
    if StartsWith(name.value, RELA_PREFIX) {
      var relocations := ContainerIo.ReadRelocations(s.content);
      var original := st.sections.Get(name.value[5..]);
      if original.None? {
        return Err(MissingSection);
      }
      next := next.(sections := next.sections.Insert(name.value[5..], original.value.(relocations := Some(relocations))));
    }
    if name.value == STRTAB_NAME {
      next := next.(stringTable := Some(s.content));
    } else if name.value == SYMTAB_NAME {
      var hs := ContainerIo.ReadSymbolHeaders(s.content);
      next := next.(symbolHeaders := Some(hs));
    }
    r := Ok(next.(sections := next.sections.Insert(name.value, s)));
  }

  method ReadRawSections(reader: Stream.Cursor, shstrtab: Bytes, headers: seq<RawSectionHeader>) returns (r: Result<RawState>)
    modifies reader
    ensures r == FoldRaw(reader.data, shstrtab, headers)
  {
    var st := RAW_START;
    var i := 0;
    while i < |headers|
      invariant i <= |headers|
      invariant FoldRaw(reader.data, shstrtab, headers[..i]) == Ok(st)
    {
      var step := RawSectionStep(reader, shstrtab, st, headers[i]);
      FoldRawNext(reader.data, shstrtab, headers, i, st);
      if step.Err? {
        FoldRawErrPrefix(reader.data, shstrtab, headers, i + 1);
        return Err(step.error);
      }
      st := step.value;
      i := i + 1;
    }
    assert headers[..i] == headers;
    r := Ok(st);
  }

  lemma NameRawSymbolsNext(hs: seq<SymbolHeader>, strtab: Bytes, sections: IndexMap<Bytes, RawSection>, i: nat,
                           m: IndexMap<Bytes, Symbol>, name: Bytes)
    requires i < |hs| && NameRawSymbols(hs[..i], strtab, sections) == Ok(m)
    requires RawSymbolNameOf(hs[i], strtab, sections) == Ok(name)
    ensures NameRawSymbols(hs[..i + 1], strtab, sections) == Ok(m.Insert(name, Symbol(hs[i], name)))
  {
    Folds.FoldEachNext(Empty(), NameRawStep(strtab, sections), hs, i, m);
  }

  lemma NameRawSymbolsStop(hs: seq<SymbolHeader>, strtab: Bytes, sections: IndexMap<Bytes, RawSection>, i: nat, m: IndexMap<Bytes, Symbol>)
    requires i < |hs| && NameRawSymbols(hs[..i], strtab, sections) == Ok(m)
    requires RawSymbolNameOf(hs[i], strtab, sections).Err?
    ensures NameRawSymbols(hs, strtab, sections) == Err(RawSymbolNameOf(hs[i], strtab, sections).error)
  {
    Folds.FoldEachStop(Empty(), NameRawStep(strtab, sections), hs, i, m);
  }

  method NameRawSymbolsLoop(hs: seq<SymbolHeader>, strtab: Bytes, sections: IndexMap<Bytes, RawSection>)
    returns (r: Result<IndexMap<Bytes, Symbol>>)
    ensures r == NameRawSymbols(hs, strtab, sections)
  {
    var symbols: IndexMap<Bytes, Symbol> := Empty();
    var i := 0;
    while i < |hs|
      invariant i <= |hs|
      invariant NameRawSymbols(hs[..i], strtab, sections) == Ok(symbols)
    {
      var h := hs[i];
      var name: Bytes;
      if h.stInfo == 3 {
        var entry := sections.GetIndex(h.stShndx);
        if entry.None? {
          NameRawSymbolsStop(hs, strtab, sections, i, symbols);
          return Err(SectionIndexOutOfRange);
        }
        name := entry.value.1.name;
      } else {
        var read := Util.ReadStringChecked(strtab, h.stName);
        if read.Err? {
          NameRawSymbolsStop(hs, strtab, sections, i, symbols);
          return Err(read.error);
        }
        name := read.value;
      }
      NameRawSymbolsNext(hs, strtab, sections, i, symbols, name);
      symbols := symbols.Insert(name, Symbol(h, name));
      i := i + 1;
    }
    assert hs[..|hs|] == hs;
    r := Ok(symbols);
  }

  /** `ElfContainer` of `src/elf.rs`. */
  class OldElfContainer {
    var symbols: IndexMap<Bytes, Symbol>
    var sections: IndexMap<Bytes, RawSection>

    constructor (symbols: IndexMap<Bytes, Symbol>, sections: IndexMap<Bytes, RawSection>)
      ensures this.symbols == symbols && this.sections == sections
    {
      this.symbols := symbols;
      this.sections := sections;
    }

    /** `from_reader`. */
    static method FromReader(reader: Stream.Cursor) returns (r: Result<OldElfContainer>)
      modifies reader
      ensures var want := ParseOld(reader.data, old(reader.pos));
        && (r.Err? <==> want.Err?) && (r.Err? ==> r.error == want.error)
        && (r.Ok? ==> fresh(r.value) && r.value.symbols == want.value.symbols && r.value.sections == want.value.sections)
    {
      var b := reader.ReadExact(ELF_HEADER_SIZE);
      if b.Err? {
        return Err(b.error);
      }
      var header := LegacyContainer.DecodeLegacyHeader(b.value);
      var headers := ReadRawHeaders(reader, header.eShoff, header.eShnum);
      if headers.Err? {
        return Err(headers.error);
      }
      if header.eShstrndx >= |headers.value| {
        return Err(Panic);
      }
      var nameTable := headers.value[header.eShstrndx];
      reader.Seek(nameTable.shOffset);
      var table := reader.ReadExact(nameTable.shSize);
      if table.Err? {
        return Err(table.error);
      }
      var st := ReadRawSections(reader, table.value, headers.value);
      if st.Err? {
        return Err(st.error);
      }
      if st.value.stringTable.None? || st.value.symbolHeaders.None? {
        return Err(MissingSection);
      }
      var symbols := NameRawSymbolsLoop(st.value.symbolHeaders.value, st.value.stringTable.value, st.value.sections);
      if symbols.Err? {
        return Err(symbols.error);
      }
      var c := new OldElfContainer(symbols.value, st.value.sections);
      r := Ok(c);
    }
  }
}
