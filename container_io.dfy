// The loops of `ElfContainer::from_reader` and `to_bytes` in
// src/elf/container.rs as imperative code over a reader and a writer, each
// proved to compute the functions of module `Container`, and the container
// object itself with its constructor and section helpers.
module ContainerIo {
  import opened Wrappers
  import opened Bytes
  import opened IndexMaps
  import opened PointerUtil
  import opened Elf
  import opened Container
  import Util
  import Stream
  import Folds

  // ------------------------------------------- the reading loops, imperative

  /** One more header read extends the header loop's result. */
  lemma SectionHeadersNext(data: Bytes, shoff: nat, i: nat, prev: seq<SectionHeader>, h: SectionHeader)
    requires SectionHeadersAt(data, shoff, i) == Ok(prev)
    requires SectionHeaderAt(data, HeaderPos(shoff, i)) == Ok(h)
    ensures SectionHeadersAt(data, shoff, i + 1) == Ok(prev + [h])
  {
    Stream.ReadEachNext(HeaderReads(data, shoff), i, prev, h);
  }

  /** A failing header read ends the header loop with that error. */
  lemma SectionHeadersStop(data: Bytes, shoff: nat, i: nat, n: nat)
    requires i < n && SectionHeadersAt(data, shoff, i).Ok?
    requires SectionHeaderAt(data, HeaderPos(shoff, i)).Err?
    ensures SectionHeadersAt(data, shoff, n) == Err(SectionHeaderAt(data, HeaderPos(shoff, i)).error)
  {
    Stream.ReadEachStop(HeaderReads(data, shoff), i, n);
  }

  /** Once the section loop has failed on a prefix, later sections change
      nothing. */
  lemma {:induction false} FoldSectionsErrPrefix(data: Bytes, shstrtab: Bytes, hs: seq<SectionHeader>, i: nat)
    requires i <= |hs| && FoldSections(data, shstrtab, hs[..i]).Err?
    ensures FoldSections(data, shstrtab, hs) == Err(FoldSections(data, shstrtab, hs[..i]).error)
  {
    if i == |hs| {
      assert hs[..i] == hs;
    } else {
      var init := hs[..|hs| - 1];
      assert init[..i] == hs[..i];
      FoldSectionsErrPrefix(data, shstrtab, init, i);
      FoldSectionsAfterErr(data, shstrtab, hs);
    }
  }

  lemma FoldSectionsAfterErr(data: Bytes, shstrtab: Bytes, hs: seq<SectionHeader>)
    requires hs != [] && FoldSections(data, shstrtab, hs[..|hs| - 1]).Err?
    ensures FoldSections(data, shstrtab, hs).Err?
    ensures FoldSections(data, shstrtab, hs).error == FoldSections(data, shstrtab, hs[..|hs| - 1]).error
  {
  }

  /** The section loop's state after `i + 1` headers is one step from its
      state after `i`. */
  lemma FoldSectionsNext(data: Bytes, shstrtab: Bytes, hs: seq<SectionHeader>, i: nat, st: ParseState)
    requires i < |hs| && FoldSections(data, shstrtab, hs[..i]) == Ok(st)
    ensures FoldSections(data, shstrtab, hs[..i + 1]) == StepAt(data, shstrtab, st, hs[i])
  {
    assert hs[..i + 1][..i] == hs[..i];
  }

  /** A failing step ends the section loop with that error. */
  lemma FoldSectionsStop(data: Bytes, shstrtab: Bytes, hs: seq<SectionHeader>, i: nat, st: ParseState)
    requires i < |hs| && FoldSections(data, shstrtab, hs[..i]) == Ok(st)
    requires StepAt(data, shstrtab, st, hs[i]).Err?
    ensures FoldSections(data, shstrtab, hs) == Err(StepAt(data, shstrtab, st, hs[i]).error)
  {
    FoldSectionsNext(data, shstrtab, hs, i, st);
    FoldSectionsErrPrefix(data, shstrtab, hs, i + 1);
  }

  /** One more symbol named extends the symbol loop's map. */
  lemma NameSymbolsNext(hs: seq<SymbolHeader>, strtab: Bytes, names: seq<Bytes>, i: nat,
                        m: IndexMap<Bytes, Symbol>, name: Bytes)
    requires i < |hs| && NameSymbols(hs[..i], strtab, names) == Ok(m)
    requires SymbolNameOf(hs[i], strtab, names) == Ok(name)
    ensures NameSymbols(hs[..i + 1], strtab, names) == Ok(m.Insert(name, Symbol(hs[i], name)))
  {
    Folds.FoldEachNext(Empty(), NameStep(strtab, names), hs, i, m);
  }

  /** A symbol without a name ends the symbol loop with that error. */
  lemma NameSymbolsStop(hs: seq<SymbolHeader>, strtab: Bytes, names: seq<Bytes>, i: nat, m: IndexMap<Bytes, Symbol>)
    requires i < |hs| && NameSymbols(hs[..i], strtab, names) == Ok(m)
    requires SymbolNameOf(hs[i], strtab, names).Err?
    ensures NameSymbols(hs, strtab, names) == Err(SymbolNameOf(hs[i], strtab, names).error)
  {
    Folds.FoldEachStop(Empty(), NameStep(strtab, names), hs, i, m);
  }

  /** One more record collected extends the relocation map. */
  lemma CollectRelocationsNext(rs: seq<Relocation>, i: nat)
    requires i < |rs|
    ensures CollectRelocations(rs[..i + 1]) ==
      CollectRelocations(rs[..i]).Insert(Pointer(rs[i].offset), rs[i])
  {
    assert rs[..i + 1][..i] == rs[..i];
  }

  /** The relocation loop of a `.rela` section: the records read one by one
      from a reader over the section's bytes, then collected by offset. */
  method ReadRelocations(content: Bytes) returns (m: IndexMap<Pointer, Relocation>)
    ensures m == ParseRelocations(content)
  {
    var reader := new Stream.Cursor(content);
    var n := |content| / RELOCATION_SIZE;
    var rs: seq<Relocation> := [];
    var k := 0;
    while k < n
      invariant k <= n && reader.data == content && reader.pos == RELOCATION_SIZE * k
      invariant rs == RelocationRecords(content)[..k]
    {
      RecordWithin(|content|, RELOCATION_SIZE, k);
      var b := reader.ReadExact(RELOCATION_SIZE);
      assert b == Ok(content[RELOCATION_SIZE * k..RELOCATION_SIZE * k + RELOCATION_SIZE]);
      rs := rs + [DecodeRelocation(b.value)];
      k := k + 1;
    }
    assert rs == RelocationRecords(content);
    m := CollectLoop(rs);
  }

  /** `collect` of the relocation records into an `IndexMap`. */
  method CollectLoop(rs: seq<Relocation>) returns (m: IndexMap<Pointer, Relocation>)
    ensures m == CollectRelocations(rs)
  {
    m := Empty();
    for i := 0 to |rs|
      invariant m == CollectRelocations(rs[..i])
    {
      CollectRelocationsNext(rs, i);
      m := m.Insert(Pointer(rs[i].offset), rs[i]);
    }
    assert rs[..|rs|] == rs;
  }

  /** The symbol header loop of `.symtab`. */
  method ReadSymbolHeaders(content: Bytes) returns (hs: seq<SymbolHeader>)
    ensures hs == ParseSymbolHeaders(content)
  {
    var reader := new Stream.Cursor(content);
    var n := |content| / SYMBOL_HEADER_SIZE;
    hs := [];
    var k := 0;
    while k < n
      invariant k <= n && reader.data == content && reader.pos == SYMBOL_HEADER_SIZE * k
      invariant hs == ParseSymbolHeaders(content)[..k]
    {
      RecordWithin(|content|, SYMBOL_HEADER_SIZE, k);
      var b := reader.ReadExact(SYMBOL_HEADER_SIZE);
      assert b == Ok(content[SYMBOL_HEADER_SIZE * k..SYMBOL_HEADER_SIZE * k + SYMBOL_HEADER_SIZE]);
      hs := hs + [DecodeSymbolHeader(b.value)];
      k := k + 1;
    }
  }

  /** `SectionHeader::read`. */
  method ReadSectionHeader(reader: Stream.Cursor) returns (r: Result<SectionHeader>)
    modifies reader
    ensures r == SectionHeaderAt(reader.data, old(reader.pos))
    ensures r.Ok? ==> reader.pos == old(reader.pos) + SECTION_HEADER_SIZE
  {
    var b := reader.ReadExact(SECTION_HEADER_SIZE);
    if b.Err? {
      return Err(b.error);
    }
    r := DecodeSectionHeader(b.value);
  }

  /** The loop reading `n` section headers from `shoff` on. */
  method ReadSectionHeaders(reader: Stream.Cursor, shoff: nat, n: nat) returns (r: Result<seq<SectionHeader>>)
    modifies reader
    ensures r == SectionHeadersAt(reader.data, shoff, n)
  {
    reader.Seek(shoff);
    var headers: seq<SectionHeader> := [];
    var i := 0;
    while i < n
      invariant i <= n && reader.pos == HeaderPos(shoff, i)
      invariant SectionHeadersAt(reader.data, shoff, i) == Ok(headers)
    {
      var h := ReadSectionHeader(reader);
      assert HeaderPos(shoff, i + 1) == HeaderPos(shoff, i) + SECTION_HEADER_SIZE;
      if h.Err? {
        SectionHeadersStop(reader.data, shoff, i, n);
        return Err(h.error);
      }
      SectionHeadersNext(reader.data, shoff, i, headers, h.value);
      headers := headers + [h.value];
      i := i + 1;
    }
    r := Ok(headers);
  }

  /** One iteration of the section loop: name, read and file one section. */
  method SectionStep(reader: Stream.Cursor, shstrtab: Bytes, st: ParseState, h: SectionHeader) returns (r: Result<ParseState>)
    modifies reader
    ensures r == StepAt(reader.data, shstrtab, st, h)
  {
    if h.shName > |shstrtab| {
      return Err(Panic);
    }
    var name := Util.ReadString(shstrtab, h.shName);
    if name.Err? {
      return Err(name.error);
    }
    var section := SectionFromReader(h, name.value, reader);
    if section.Err? {
      return Err(section.error);
    }
    var s := section.value;
    var names := st.allSectionNames + [name.value];
    match KindOf(name.value)
    case RelaOf(target) =>
      var relocations := ReadRelocations(s.content);
      var original := st.contentSections.Get(target);
      if original.None? {
        return Err(MissingSection);
      }
      r := Ok(st.(allSectionNames := names,
                  contentSections := st.contentSections.Insert(target, original.value.(relocations := Some(relocations))),
                  metaSections := st.metaSections.Insert(name.value, s)));
    case StringTableKind =>
      r := Ok(st.(allSectionNames := names, stringTable := Some(s.content),
                  metaSections := st.metaSections.Insert(name.value, s)));
    case SymbolTableKind =>
      var hs := ReadSymbolHeaders(s.content);
      r := Ok(st.(allSectionNames := names, symbolHeaders := Some(hs),
                  metaSections := st.metaSections.Insert(name.value, s)));
    case NameTableKind =>
      r := Ok(st.(allSectionNames := names, metaSections := st.metaSections.Insert(name.value, s)));
    case ContentKind =>
      r := Ok(st.(allSectionNames := names, contentSections := st.contentSections.Insert(name.value, s)));
  }

  /** The section loop over `headers`. */
  method ReadSections(reader: Stream.Cursor, shstrtab: Bytes, headers: seq<SectionHeader>) returns (r: Result<ParseState>)
    modifies reader
    ensures r == FoldSections(reader.data, shstrtab, headers)
  {
    var st := START_STATE;
    var i := 0;
    while i < |headers|
      invariant i <= |headers|
      invariant FoldSections(reader.data, shstrtab, headers[..i]) == Ok(st)
    {
      var step := SectionStep(reader, shstrtab, st, headers[i]);
      if step.Err? {
        FoldSectionsStop(reader.data, shstrtab, headers, i, st);
        return Err(step.error);
      }
      FoldSectionsNext(reader.data, shstrtab, headers, i, st);
      st := step.value;
      i := i + 1;
    }
    assert headers[..i] == headers;
    r := Ok(st);
  }

  /** The symbol loop over `hs`. */
  method NameSymbolsLoop(hs: seq<SymbolHeader>, strtab: Bytes, names: seq<Bytes>) returns (r: Result<IndexMap<Bytes, Symbol>>)
    ensures r == NameSymbols(hs, strtab, names)
  {
    var symbols: IndexMap<Bytes, Symbol> := Empty();
    var i := 0;
    while i < |hs|
      invariant i <= |hs|
      invariant NameSymbols(hs[..i], strtab, names) == Ok(symbols)
    {
      var h := hs[i];
      var name: Bytes;
      if h.stInfo == 3 {
        if h.stShndx >= |names| {
          NameSymbolsStop(hs, strtab, names, i, symbols);
          return Err(SectionIndexOutOfRange);
        }
        name := names[h.stShndx];
      } else {
        var read := Util.ReadStringChecked(strtab, h.stName);
        if read.Err? {
          NameSymbolsStop(hs, strtab, names, i, symbols);
          return Err(read.error);
        }
        name := read.value;
      }
      NameSymbolsNext(hs, strtab, names, i, symbols, name);
      symbols := symbols.Insert(name, Symbol(h, name));
      i := i + 1;
    }
    assert hs[..|hs|] == hs;
    r := Ok(symbols);
  }

  /** `from_reader` after the header: the header table, `.shstrtab`, the
      section loop, then the symbol loop. */
  method ReadBody(reader: Stream.Cursor, shoff: nat, shnum: nat, shstrndx: nat) returns (r: Result<Body>)
    modifies reader
    ensures r == ParseBody(reader.data, shoff, shnum, shstrndx)
  {
    var headers := ReadSectionHeaders(reader, shoff, shnum);
    if headers.Err? {
      return Err(headers.error);
    }
    if shstrndx >= |headers.value| {
      return Err(Panic);
    }
    var nameTable := headers.value[shstrndx];
    reader.Seek(nameTable.shOffset);
    var table := reader.ReadExact(nameTable.shSize);
    if table.Err? {
      return Err(table.error);
    }
    var st := ReadSections(reader, table.value, headers.value);
    if st.Err? {
      return Err(st.error);
    }
    if st.value.stringTable.None? || st.value.symbolHeaders.None? {
      return Err(MissingSection);
    }
    var symbols := NameSymbolsLoop(st.value.symbolHeaders.value, st.value.stringTable.value, st.value.allSectionNames);
    if symbols.Err? {
      return Err(symbols.error);
    }
    r := Ok(Body(symbols.value, st.value.contentSections, st.value.metaSections));
  }

  // ------------------------------------------- the writing loops, imperative

  /** The sections one layout loop writes: all of them, or only those whose
      name does (`Some(true)`) or does not (`Some(false)`) start with
      ".rela". */
  function Chosen(ss: seq<Section>, rela: Option<bool>): seq<Section>
  {
    if rela.None? then ss else SelectRela(ss, rela.value)
  }

  lemma {:induction false} SelectRelaAppend(a: seq<Section>, b: seq<Section>, rela: bool)
    ensures SelectRela(a + b, rela) == SelectRela(a, rela) + SelectRela(b, rela)
  {
    if b == [] {
      assert a + b == a;
    } else {
      assert (a + b)[..|a + b| - 1] == a + b[..|b| - 1];
      assert (a + b)[|a + b| - 1] == b[|b| - 1];
      SelectRelaAppend(a, b[..|b| - 1], rela);
    }
  }

  /** Whether a layout loop with filter `rela` writes section `s`. */
  predicate Writes(rela: Option<bool>, s: Section)
  {
    rela.None? || StartsWith(s.name, RELA_PREFIX) == rela.value
  }

  /** The sections a loop writes from `ss[..i + 1]` are those from `ss[..i]`
      and, if it writes it, `ss[i]`. */
  lemma ChosenNext(ss: seq<Section>, i: nat, rela: Option<bool>)
    requires i < |ss|
    ensures Chosen(ss[..i + 1], rela) == Chosen(ss[..i], rela) + (if Writes(rela, ss[i]) then [ss[i]] else [])
  {
    assert ss[..i + 1] == ss[..i] + [ss[i]];
    if rela.Some? {
      SelectRelaAppend(ss[..i], [ss[i]], rela.value);
      assert [ss[i]][..0] == [];
    }
  }

  /** A layout loop that fails on the sections of `ss[..i]` fails on all
      of `ss` with the same error. */
  lemma PlaceChosenErr(l0: Layout, ss: seq<Section>, i: nat, rela: Option<bool>)
    requires i <= |ss| && PlaceAll(l0, Chosen(ss[..i], rela)).Err?
    ensures PlaceAll(l0, Chosen(ss, rela)) == PlaceAll(l0, Chosen(ss[..i], rela))
  {
    assert ss == ss[..i] + ss[i..];
    if rela.Some? {
      SelectRelaAppend(ss[..i], ss[i..], rela.value);
    }
    PlaceAllAppend(l0, Chosen(ss[..i], rela), Chosen(ss[i..], rela));
  }

  /** One step of a layout loop on the layout functions. */
  lemma PlaceChosenNext(l0: Layout, ss: seq<Section>, i: nat, rela: Option<bool>, prev: Layout)
    requires i < |ss| && PlaceAll(l0, Chosen(ss[..i], rela)) == Ok(prev)
    ensures PlaceAll(l0, Chosen(ss[..i + 1], rela)) ==
      if Writes(rela, ss[i]) then PlaceSection(prev, ss[i]) else Ok(prev)
  {
    ChosenNext(ss, i, rela);
    if Writes(rela, ss[i]) {
      PlaceAllAppend(l0, Chosen(ss[..i], rela), [ss[i]]);
      assert [ss[i]][..0] == [];
    } else {
      assert Chosen(ss[..i], rela) + [] == Chosen(ss[..i], rela);
    }
  }

  /** One iteration of a layout loop that writes `s`: align, record the
      position, copy the content. */
  method PlaceOne(writer: Stream.ByteWriter, s: Section, offsets: map<Bytes, Pointer>, ghost starts: seq<nat>)
    returns (r: Result<map<Bytes, Pointer>>, ghost starts': seq<nat>)
    modifies writer
    requires writer.pos == |writer.buf|
    ensures writer.pos == |writer.buf|
    ensures var want := PlaceSection(Layout(old(writer.buf), offsets, starts), s);
      && (r.Err? <==> want.Err?) && (r.Err? ==> r.error == want.error)
      && (r.Ok? ==> want.value == Layout(writer.buf, r.value, starts'))
  {
    ghost var out := writer.buf;
    writer.AlignTo(s.header.shAddralign);
    Stream.OverwriteAtEnd(out, Zeros(Padding(|out|, s.header.shAddralign)));
    var at := Current(writer.pos);
    if at.Err? {
      return Err(at.error), starts;
    }
    starts' := starts + [writer.pos];
    Stream.OverwriteAtEnd(writer.buf, s.content);
    writer.Write(s.content);
    r := Ok(offsets[s.name := at.value]);
  }

  /** One layout loop over `ss` into `writer`, skipping the sections
      `rela` rules out: align, record the position, copy the content. */
  method PlaceLoop(writer: Stream.ByteWriter, ss: seq<Section>, rela: Option<bool>,
                   offsets0: map<Bytes, Pointer>, ghost starts0: seq<nat>)
    returns (r: Result<map<Bytes, Pointer>>, ghost starts: seq<nat>)
    modifies writer
    requires writer.pos == |writer.buf|
    ensures writer.pos == |writer.buf|
    ensures var want := PlaceAll(Layout(old(writer.buf), offsets0, starts0), Chosen(ss, rela));
      && (r.Err? <==> want.Err?) && (r.Err? ==> r.error == want.error)
      && (r.Ok? ==> want.value == Layout(writer.buf, r.value, starts))
  {
    ghost var l0 := Layout(writer.buf, offsets0, starts0);
    assert Chosen(ss[..0], rela) == [] by {
      if rela.Some? { assert ss[..0] == []; }
    }
    var offsets := offsets0;
    starts := starts0;
    for i := 0 to |ss|
      invariant writer.pos == |writer.buf|
      invariant PlaceAll(l0, Chosen(ss[..i], rela)) == Ok(Layout(writer.buf, offsets, starts))
    {
      var s := ss[i];
      PlaceChosenNext(l0, ss, i, rela, Layout(writer.buf, offsets, starts));
      if Writes(rela, s) {
        var placed;
        placed, starts := PlaceOne(writer, s, offsets, starts);
        if placed.Err? {
          PlaceChosenErr(l0, ss, i + 1, rela);
          return Err(placed.error), starts;
        }
        offsets := placed.value;
      }
    }
    assert ss[..|ss|] == ss;
    r := Ok(offsets);
  }

  /** `write_section_header`. */
  method WriteSectionHeaderTo(writer: Stream.ByteWriter, offsets: map<Bytes, Pointer>, shstrtab: Bytes, s: Section)
    modifies writer
    requires writer.pos == |writer.buf| && s.name in offsets
    ensures writer.buf == WriteSectionHeader(old(writer.buf), offsets, shstrtab, s)
    ensures writer.pos == |writer.buf|
  {
    var nameOffset := match Find(shstrtab, s.name) case Some(i) => i case None => 0;
    var header := s.header.(shName := TruncU32(nameOffset), shOffset := offsets[s.name].value,
                            shSize := TruncU32(|s.content|));
    Stream.OverwriteAtEnd(writer.buf, Zeros(Padding(writer.pos, s.header.shAddralign)));
    writer.AlignTo(s.header.shAddralign);
    Stream.OverwriteAtEnd(writer.buf, EncodeSectionHeader(header));
    writer.Write(EncodeSectionHeader(header));
  }

  /** Writing the headers of `a + b` is writing those of `a`, then those
      of `b`. */
  lemma {:induction false} WriteHeadersAppend(out: Bytes, offsets: map<Bytes, Pointer>, shstrtab: Bytes, a: seq<Section>, b: seq<Section>)
    requires forall t :: t in a ==> t.name in offsets
    requires forall t :: t in b ==> t.name in offsets
    ensures WriteHeaders(out, offsets, shstrtab, a + b) ==
      WriteHeaders(WriteHeaders(out, offsets, shstrtab, a), offsets, shstrtab, b)
  {
    if b == [] {
      assert a + b == a;
    } else {
      var init := b[..|b| - 1];
      assert (a + b)[..|a + b| - 1] == a + init;
      WriteHeadersAppend(out, offsets, shstrtab, a, init);
    }
  }

  /** The header loop over one section writes that section's header. */
  lemma WriteHeadersOne(out: Bytes, offsets: map<Bytes, Pointer>, shstrtab: Bytes, s: Section)
    requires s.name in offsets
    ensures WriteHeaders(out, offsets, shstrtab, [s]) == WriteSectionHeader(out, offsets, shstrtab, s)
  {
    assert [s][..0] == [];
  }

  /** The header entries of one content section. */
  method WriteEntry(writer: Stream.ByteWriter, s: Section, meta: IndexMap<Bytes, Section>,
                    offsets: map<Bytes, Pointer>, nameTable: Bytes)
    modifies writer
    requires writer.pos == |writer.buf|
    requires s.name in offsets && forall t :: t in meta.Values() ==> t.name in offsets
    ensures writer.pos == |writer.buf|
    ensures writer.buf == WriteHeaders(old(writer.buf), offsets, nameTable, EntrySections(s, meta))
  {
    ghost var out := writer.buf;
    if s.name != [] {
      WriteHeadersOne(out, offsets, nameTable, s);
      WriteSectionHeaderTo(writer, offsets, nameTable, s);
      var relocation := meta.Get(RELA_PREFIX + s.name);
      if relocation.Some? {
        assert relocation.value in meta.Values();
        ghost var mid := writer.buf;
        WriteHeadersOne(mid, offsets, nameTable, relocation.value);
        assert [s, relocation.value] == [s] + [relocation.value];
        WriteHeadersAppend(out, offsets, nameTable, [s], [relocation.value]);
        WriteSectionHeaderTo(writer, offsets, nameTable, relocation.value);
      }
    }
  }

  /** The header loop over the content sections. */
  method WriteTableEntries(writer: Stream.ByteWriter, vals: seq<Section>, meta: IndexMap<Bytes, Section>,
                           offsets: map<Bytes, Pointer>, nameTable: Bytes)
    modifies writer
    requires writer.pos == |writer.buf|
    requires forall s :: s in vals ==> s.name in offsets
    requires forall s :: s in meta.Values() ==> s.name in offsets
    ensures writer.pos == |writer.buf|
    ensures writer.buf == WriteHeaders(old(writer.buf), offsets, nameTable, TableSections(vals, meta))
  {
    ghost var table0 := writer.buf;
    for i := 0 to |vals|
      invariant writer.pos == |writer.buf|
      invariant writer.buf == WriteHeaders(table0, offsets, nameTable, TableSections(vals[..i], meta))
    {
      assert vals[..i + 1][..i] == vals[..i] && vals[i] in vals;
      WriteHeadersAppend(table0, offsets, nameTable, TableSections(vals[..i], meta), EntrySections(vals[i], meta));
      WriteEntry(writer, vals[i], meta, offsets, nameTable);
    }
    assert vals[..|vals|] == vals;
  }

  /** The three layout loops: content sections, then the meta sections
      that are not relocations, then the relocation sections. */
  method WriteLayout(writer: Stream.ByteWriter, content: IndexMap<Bytes, Section>, meta: IndexMap<Bytes, Section>)
    returns (r: Result<map<Bytes, Pointer>>, ghost starts: seq<nat>)
    modifies writer
    requires writer.pos == |writer.buf|
    ensures writer.pos == |writer.buf|
    ensures var want := LayoutOf(old(writer.buf), content, meta);
      && (r.Err? <==> want.Err?) && (r.Err? ==> r.error == want.error)
      && (r.Ok? ==> want.value == Layout(writer.buf, r.value, starts))
  {
    var r1, s1 := PlaceLoop(writer, content.Values(), None, map[], []);
    if r1.Err? {
      return Err(r1.error), s1;
    }
    var r2, s2 := PlaceLoop(writer, meta.Values(), Some(false), r1.value, s1);
    if r2.Err? {
      return Err(r2.error), s2;
    }
    r, starts := PlaceLoop(writer, meta.Values(), Some(true), r2.value, s2);
  }

  /** The last three entries of the header table. */
  method WriteTail(writer: Stream.ByteWriter, offsets: map<Bytes, Pointer>, nameTable: Bytes, tail: seq<Section>)
    modifies writer
    requires writer.pos == |writer.buf| && |tail| == 3
    requires forall s :: s in tail ==> s.name in offsets
    ensures writer.pos == |writer.buf|
    ensures writer.buf == WriteHeaders(old(writer.buf), offsets, nameTable, tail)
  {
    ghost var t0 := writer.buf;
    assert tail == [tail[0]] + [tail[1], tail[2]];
    assert [tail[1], tail[2]] == [tail[1]] + [tail[2]];
    WriteHeadersAppend(t0, offsets, nameTable, [tail[0]], [tail[1], tail[2]]);
    WriteHeadersOne(t0, offsets, nameTable, tail[0]);
    WriteSectionHeaderTo(writer, offsets, nameTable, tail[0]);
    ghost var t1 := writer.buf;
    WriteHeadersAppend(t1, offsets, nameTable, [tail[1]], [tail[2]]);
    WriteHeadersOne(t1, offsets, nameTable, tail[1]);
    WriteSectionHeaderTo(writer, offsets, nameTable, tail[1]);
    WriteHeadersOne(writer.buf, offsets, nameTable, tail[2]);
    WriteSectionHeaderTo(writer, offsets, nameTable, tail[2]);
  }

  /** `to_bytes` after the header has been written to `writer`: the three
      layout loops, the section header table, and the patch of `e_shoff`. */
  method WriteBody(writer: Stream.ByteWriter, content: IndexMap<Bytes, Section>, meta: IndexMap<Bytes, Section>)
    returns (r: Result<Bytes>)
    modifies writer
    requires writer.pos == |writer.buf|
    ensures r == Serialize(old(writer.buf), content, meta)
  {
    ghost var headerBytes := writer.buf;
    var placed, starts := WriteLayout(writer, content, meta);
    if placed.Err? {
      return Err(placed.error);
    }
    var offsets := placed.value;
    ghost var l := Layout(writer.buf, offsets, starts);
    LayoutPlacesAll(headerBytes, content, meta);

    var shOffset := Current(writer.pos);
    if shOffset.Err? {
      return Err(shOffset.error);
    }
    var shstrtab := MetaSection(meta, SHSTRTAB_NAME);
    if shstrtab.Err? {
      return Err(shstrtab.error);
    }
    var nameTable := shstrtab.value.content;
    Stream.OverwriteAtEnd(writer.buf, EncodeSectionHeader(DEFAULT_SECTION_HEADER));
    writer.Write(EncodeSectionHeader(DEFAULT_SECTION_HEADER));
    WriteTableEntries(writer, content.Values(), meta, offsets, nameTable);
    var symtab := MetaSection(meta, SYMTAB_NAME);
    if symtab.Err? {
      return Err(symtab.error);
    }
    var strtab := MetaSection(meta, STRTAB_NAME);
    if strtab.Err? {
      return Err(strtab.error);
    }
    WriteTail(writer, offsets, nameTable, [shstrtab.value, symtab.value, strtab.value]);
    assert writer.buf == HeaderTable(l, content.Values(), meta, nameTable, [shstrtab.value, symtab.value, strtab.value]);
    writer.SetPosition(E_SHOFF_OFFSET);
    PointerUtil.Write(shOffset.value, writer);
    r := Ok(writer.buf);
  }

  // ------------------------------------------------------- the container

  /** A content section as `add_content_section` makes it: PROGBITS,
      allocated, aligned as asked, with an empty relocation map. */
  function ProgbitsSection(name: Bytes, align: u32, content: Bytes): (s: Section)
    ensures s.name == name && s.content == content && s.header.shType == Progbits
    ensures s.header.shFlags == SHF_ALLOC && s.header.shAddralign == align
    ensures s.relocations == Some(Empty())
  {
    Section(SectionHeader(0, Progbits, SHF_ALLOC, 0, 0, 0, 0, 0, align, 0), name, Some(Empty()), content)
  }

  /** The `.rela` section `add_content_section_with_relocations` makes:
      RELA with `sh_link` 4, `sh_info` 1 and 12-byte entries. */
  function RelaSection(name: Bytes, align: u32, relocations: Bytes): (s: Section)
    ensures s.name == RELA_PREFIX + name && s.content == relocations && s.header.shType == Rela
    ensures s.header.shFlags == SHF_INFO_LINK && s.header.shLink == 4 && s.header.shInfo == 1
    ensures s.header.shAddralign == align && s.header.shEntsize == RELOCATION_SIZE
  {
    Section(SectionHeader(0, Rela, SHF_INFO_LINK, 0, 0, 0, 4, 1, align, RELOCATION_SIZE),
      RELA_PREFIX + name, Some(Empty()), relocations)
  }

  /** The `.rela` section made for `name` is the one `from_reader` attaches
      to the content section `name`. */
  lemma RelaSectionTargets(name: Bytes, align: u32, relocations: Bytes)
    ensures KindOf(RelaSection(name, align, relocations).name) == RelaOf(name)
  {
    assert (RELA_PREFIX + name)[..|RELA_PREFIX|] == RELA_PREFIX;
  }

  /** A string table as `add_string_table_raw` makes it. */
  function StringTableSection(name: Bytes, flags: u32, align: u32, content: Bytes): (s: Section)
    ensures s.name == name && s.content == content && s.header.shType == StringTable
    ensures s.header.shFlags == flags && s.header.shAddralign == align && s.relocations.None?
  {
    Section(SectionHeader(0, StringTable, flags, 0, 0, 0, 0, 0, align, 0), name, None, content)
  }

  /** A symbol table as `add_symbol_table_raw` makes it: `sh_link` 5, the
      last local symbol in `sh_info`, 16-byte entries. */
  function SymbolTableSection(name: Bytes, flags: u32, lastLocalSymbol: u32, align: u32, content: Bytes): (s: Section)
    ensures s.name == name && s.content == content && s.header.shType == SymTable
    ensures s.header.shFlags == flags && s.header.shLink == 5 && s.header.shInfo == lastLocalSymbol
    ensures s.header.shAddralign == align && s.header.shEntsize == SYMBOL_HEADER_SIZE && s.relocations.None?
  {
    Section(SectionHeader(0, SymTable, flags, 0, 0, 0, 5, lastLocalSymbol, align, SYMBOL_HEADER_SIZE), name, None, content)
  }

  /** The header `to_bytes` writes for an added section keeps everything
      the add_* helper chose but the name, offset and size. */
  lemma AddedHeaderRewritten(offsets: map<Bytes, Pointer>, shstrtab: Bytes, name: Bytes, align: u32, content: Bytes)
    requires name in offsets
    ensures RewrittenHeader(offsets, shstrtab, ProgbitsSection(name, align, content)) ==
      SectionHeader((match Find(shstrtab, name) case Some(i) => TruncU32(i) case None => 0),
        Progbits, SHF_ALLOC, 0, offsets[name].value, TruncU32(|content|), 0, 0, align, 0)
  {
  }

  /** `ElfContainer`. */
  class ElfContainer {
    var header: ElfHeader
    var symbols: IndexMap<Bytes, Symbol>
    var contentSections: IndexMap<Bytes, Section>
    var metaSections: IndexMap<Bytes, Section>

    /** `new`: no symbols and no meta sections; the only content section is
        the unnamed default one that stands for the null section header. */
    constructor (header: ElfHeader)
      ensures this.header == header && symbols.Len() == 0 && metaSections.Len() == 0
      ensures contentSections.Keys() == [[]] && contentSections.Get([]) == Some(DEFAULT_SECTION)
    {
      this.header := header;
      symbols := Empty();
      contentSections := Empty<Bytes, Section>().Insert([], DEFAULT_SECTION);
      metaSections := Empty();
    }

    /** `get_section`: content sections first, then meta sections. */
    function GetSection(name: Bytes): (r: Option<Section>)
      reads this
      ensures r.Some? <==> name in contentSections.Keys() || name in metaSections.Keys()
      ensures name in contentSections.Keys() ==> r == contentSections.Get(name)
      ensures name !in contentSections.Keys() ==> r == metaSections.Get(name)
    {
      match contentSections.Get(name)
      case Some(s) => Some(s)
      case None => metaSections.Get(name)
    }

    /** Everything but the header. */
    function Parts(): Body
      reads this
    {
      Body(symbols, contentSections, metaSections)
    }

    method AddContentSection(name: Bytes, align: u32, content: Bytes)
      modifies this
      ensures contentSections == old(contentSections).Insert(name, ProgbitsSection(name, align, content))
      ensures header == old(header) && symbols == old(symbols) && metaSections == old(metaSections)
      ensures GetSection(name) == Some(ProgbitsSection(name, align, content))
    {
      contentSections := contentSections.Insert(name, ProgbitsSection(name, align, content));
    }

    method AddContentSectionWithRelocations(name: Bytes, align: u32, content: Bytes, relocations: Bytes)
      modifies this
      ensures contentSections == old(contentSections).Insert(name, ProgbitsSection(name, align, content))
      ensures metaSections == old(metaSections).Insert(RELA_PREFIX + name, RelaSection(name, align, relocations))
      ensures header == old(header) && symbols == old(symbols)
      ensures GetSection(name) == Some(ProgbitsSection(name, align, content))
      ensures RELA_PREFIX + name !in contentSections.Keys() ==>
        GetSection(RELA_PREFIX + name) == Some(RelaSection(name, align, relocations))
    {
      AddContentSection(name, align, content);
      metaSections := metaSections.Insert(RELA_PREFIX + name, RelaSection(name, align, relocations));
    }

    method AddStringTableRaw(name: Bytes, flags: u32, align: u32, content: Bytes)
      modifies this
      ensures metaSections == old(metaSections).Insert(name, StringTableSection(name, flags, align, content))
      ensures header == old(header) && symbols == old(symbols) && contentSections == old(contentSections)
    {
      metaSections := metaSections.Insert(name, StringTableSection(name, flags, align, content));
    }

    method AddSymbolTableRaw(name: Bytes, flags: u32, lastLocalSymbol: u32, align: u32, content: Bytes)
      modifies this
      ensures metaSections == old(metaSections).Insert(name, SymbolTableSection(name, flags, lastLocalSymbol, align, content))
      ensures header == old(header) && symbols == old(symbols) && contentSections == old(contentSections)
    {
      metaSections := metaSections.Insert(name, SymbolTableSection(name, flags, lastLocalSymbol, align, content));
    }

    /** `from_reader`: the header at the reader's position, then the body. */
    static method FromReader(reader: Stream.Cursor) returns (r: Result<ElfContainer>)
      modifies reader
      ensures var want := Parse(reader.data, old(reader.pos));
        && (r.Err? <==> want.Err?) && (r.Err? ==> r.error == want.error)
        && (r.Ok? ==> fresh(r.value) && r.value.header == want.value.0 && r.value.Parts() == want.value.1)
    {
      var b := reader.ReadExact(ELF_HEADER_SIZE);
      if b.Err? {
        return Err(b.error);
      }
      var header := DecodeHeader(b.value);
      var body := ReadBody(reader, header.eShoff, header.eShnum, header.eShstrndx);
      if body.Err? {
        return Err(body.error);
      }
      var c := new ElfContainer(header);
      c.symbols, c.contentSections, c.metaSections := body.value.symbols, body.value.contentSections, body.value.metaSections;
      r := Ok(c);
    }

    /** `to_bytes`. */
    method ToBytes() returns (r: Result<Bytes>)
      ensures r == Serialize(EncodeHeader(header), contentSections, metaSections)
    {
      var writer := new Stream.ByteWriter();
      var headerBytes := EncodeHeader(header);
      Stream.OverwriteAtEnd([], headerBytes);
      assert [] + headerBytes == headerBytes;
      writer.Write(headerBytes);
      r := WriteBody(writer, contentSections, metaSections);
    }
  }
}
