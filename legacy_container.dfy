// The older container of `src/elf_container.rs`, still used by the
// command-line driver.  Its reading and writing are those of the newer
// container; only the header differs: `e_ident` is one 16-byte array whose
// last four bytes the newer header reads as a separate word.
module LegacyContainer {
  import opened Wrappers
  import opened Bytes
  import opened IndexMaps
  import opened Elf
  import opened Container
  import ContainerIo
  import Stream

  /** `ELF_HEADER_IDENT`: 0x7F 'E' 'L' 'F', ELFCLASS32, ELFDATA2MSB,
      EV_CURRENT, eight zero bytes and a final 1. */
  const LEGACY_ELF_HEADER_IDENT: Bytes :=
    [0x7F, 0x45, 0x4C, 0x46, 0x01, 0x02, 0x01, 0x00, 0x00, 0x00, 0x00, 0x00, 0x00, 0x00, 0x00, 0x01]

  type Ident16 = s: Bytes | |s| == 16 witness [0, 0, 0, 0, 0, 0, 0, 0, 0, 0, 0, 0, 0, 0, 0, 0]

  /** `ElfHeader` of the older container. */
  datatype LegacyHeader = LegacyHeader(
    eIdent: Ident16, eType: u16, eMachine: u16,
    eVersion: u32, eEntry: u32, ePhoff: u32, eShoff: u32, eFlags: u32,
    eEhsize: u16, ePhentsize: u16, ePhnum: u16, eShentsize: u16, eShnum: u16, eShstrndx: u16)

  function EncodeLegacyHeader(h: LegacyHeader): (r: Bytes)
    ensures |r| == ELF_HEADER_SIZE
    ensures r[..16] == h.eIdent
  {
    h.eIdent + U16ToBE(h.eType) + U16ToBE(h.eMachine)
      + U32ToBE(h.eVersion) + U32ToBE(h.eEntry) + U32ToBE(h.ePhoff) + U32ToBE(h.eShoff) + U32ToBE(h.eFlags)
      + U16ToBE(h.eEhsize) + U16ToBE(h.ePhentsize) + U16ToBE(h.ePhnum) + U16ToBE(h.eShentsize)
      + U16ToBE(h.eShnum) + U16ToBE(h.eShstrndx)
  }

  function DecodeLegacyHeader(b: Bytes): (h: LegacyHeader)
    requires |b| == ELF_HEADER_SIZE
    ensures h.eIdent == b[..16]
  {
    LegacyHeader(b[..16], U16At(b, 16), U16At(b, 18),
      U32Of(b, 20), U32Of(b, 24), U32Of(b, 28), U32Of(b, 32), U32Of(b, 36),
      U16At(b, 40), U16At(b, 42), U16At(b, 44), U16At(b, 46), U16At(b, 48), U16At(b, 50))
  }

  /** The same header as the newer container sees it. */
  function ToModern(h: LegacyHeader): (m: ElfHeader)
    ensures m.eIdent + U32ToBE(m.eIdentPaddingUnk) == h.eIdent
    ensures m.eShoff == h.eShoff && m.eShnum == h.eShnum && m.eShstrndx == h.eShstrndx
  {
    U32BytesRoundTrip(h.eIdent[12..]);
    assert h.eIdent == h.eIdent[..12] + h.eIdent[12..];
    ElfHeader(h.eIdent[..12], BEToU32(h.eIdent[12..]), h.eType, h.eMachine,
      h.eVersion, h.eEntry, h.ePhoff, h.eShoff, h.eFlags,
      h.eEhsize, h.ePhentsize, h.ePhnum, h.eShentsize, h.eShnum, h.eShstrndx)
  }

  /** The older header as the newer one sees it, and back. */
  function FromModern(m: ElfHeader): (h: LegacyHeader)
    ensures h.eIdent == m.eIdent + U32ToBE(m.eIdentPaddingUnk)
  {
    LegacyHeader(m.eIdent + U32ToBE(m.eIdentPaddingUnk), m.eType, m.eMachine,
      m.eVersion, m.eEntry, m.ePhoff, m.eShoff, m.eFlags,
      m.eEhsize, m.ePhentsize, m.ePhnum, m.eShentsize, m.eShnum, m.eShstrndx)
  }

  /** The two views of the header are inverse to each other. */
  lemma ModernViewInverse(h: LegacyHeader, m: ElfHeader)
    ensures FromModern(ToModern(h)) == h
    ensures ToModern(FromModern(m)) == m
  {
    var i := m.eIdent + U32ToBE(m.eIdentPaddingUnk);
    assert i[..12] == m.eIdent && i[12..] == U32ToBE(m.eIdentPaddingUnk);
    U32RoundTrip(m.eIdentPaddingUnk);
  }

  /** Both containers lay the header out the same way: the older one
      writes the bytes the newer one writes for the same header. */
  lemma EncodeAgrees(h: LegacyHeader)
    ensures EncodeLegacyHeader(h) == EncodeHeader(ToModern(h))
  {
    var m := ToModern(h);
    assert h.eIdent == m.eIdent + U32ToBE(m.eIdentPaddingUnk);
  }

  /** Reading the older header gives the newer header's fields. */
  lemma DecodeAgrees(b: Bytes)
    requires |b| == ELF_HEADER_SIZE
    ensures DecodeLegacyHeader(b) == FromModern(DecodeHeader(b))
  {
    var m := DecodeHeader(b);
    U32BytesRoundTrip(b[12..16]);
    assert b[..16] == b[..12] + b[12..16];
  }

  /** binrw writes what it reads. */
  lemma LegacyHeaderRoundTrip(h: LegacyHeader)
    ensures DecodeLegacyHeader(EncodeLegacyHeader(h)) == h
  {
    EncodeAgrees(h);
    DecodeAgrees(EncodeLegacyHeader(h));
    HeaderRoundTrip(ToModern(h));
    ModernViewInverse(h, ToModern(h));
  }

  /** `e_shoff` sits at byte 0x20 of the older header too. */
  lemma LegacyShoffAt(h: LegacyHeader)
    ensures EncodeLegacyHeader(h)[E_SHOFF_OFFSET..E_SHOFF_OFFSET + 4] == U32ToBE(h.eShoff)
  {
    EncodeAgrees(h);
  }

  /** `from_reader` of the older container. */
  function ParseLegacy(data: Bytes, pos: nat): Result<(LegacyHeader, Body)>
  {
    var b :- Stream.ReadAt(data, pos, ELF_HEADER_SIZE);
    var header := DecodeLegacyHeader(b);
    var body :- ParseBody(data, header.eShoff, header.eShnum, header.eShstrndx);
    Ok((header, body))
  }

  /** The older reader accepts exactly what the newer one accepts, with the
      same sections and symbols. */
  lemma ParseAgrees(data: Bytes, pos: nat)
    ensures ParseLegacy(data, pos).Ok? <==> Parse(data, pos).Ok?
    ensures ParseLegacy(data, pos).Err? ==> ParseLegacy(data, pos).error == Parse(data, pos).error
    ensures ParseLegacy(data, pos).Ok? ==>
      ParseLegacy(data, pos).value.0 == FromModern(Parse(data, pos).value.0)
      && ParseLegacy(data, pos).value.1 == Parse(data, pos).value.1
  {
    if pos + ELF_HEADER_SIZE <= |data| {
      DecodeAgrees(data[pos..pos + ELF_HEADER_SIZE]);
    }
  }

  /** `to_bytes` of the older container. */
  function SerializeLegacy(h: LegacyHeader, content: IndexMap<Bytes, Section>, meta: IndexMap<Bytes, Section>): Result<Bytes>
  {
    Serialize(EncodeLegacyHeader(h), content, meta)
  }

  /** The older writer produces the newer writer's bytes. */
  lemma SerializeAgrees(h: LegacyHeader, content: IndexMap<Bytes, Section>, meta: IndexMap<Bytes, Section>)
    ensures SerializeLegacy(h, content, meta) == Serialize(EncodeHeader(ToModern(h)), content, meta)
  {
    EncodeAgrees(h);
  }

  /** `ElfContainer` of `src/elf_container.rs`. */
  class LegacyElfContainer {
    var header: LegacyHeader
    var symbols: IndexMap<Bytes, Symbol>
    var contentSections: IndexMap<Bytes, Section>
    var metaSections: IndexMap<Bytes, Section>

    /** `new`: only the unnamed default content section. */
    constructor (header: LegacyHeader)
      ensures this.header == header && symbols.Len() == 0 && metaSections.Len() == 0
      ensures contentSections.Keys() == [[]] && contentSections.Get([]) == Some(DEFAULT_SECTION)
    {
      this.header := header;
      symbols := Empty();
      contentSections := Empty<Bytes, Section>().Insert([], DEFAULT_SECTION);
      metaSections := Empty();
    }

    function Parts(): Body
      reads this
    {
      Body(symbols, contentSections, metaSections)
    }

    /** `from_reader`. */
    static method FromReader(reader: Stream.Cursor) returns (r: Result<LegacyElfContainer>)
      modifies reader
      ensures var want := ParseLegacy(reader.data, old(reader.pos));
        && (r.Err? <==> want.Err?) && (r.Err? ==> r.error == want.error)
        && (r.Ok? ==> fresh(r.value) && r.value.header == want.value.0 && r.value.Parts() == want.value.1)
    {
      var b := reader.ReadExact(ELF_HEADER_SIZE);
      if b.Err? {
        return Err(b.error);
      }
      var header := DecodeLegacyHeader(b.value);
      var body := ContainerIo.ReadBody(reader, header.eShoff, header.eShnum, header.eShstrndx);
      if body.Err? {
        return Err(body.error);
      }
      var c := new LegacyElfContainer(header);
      c.symbols, c.contentSections, c.metaSections := body.value.symbols, body.value.contentSections, body.value.metaSections;
      r := Ok(c);
    }

    /** `to_bytes`. */
    method ToBytes() returns (r: Result<Bytes>)
      ensures r == SerializeLegacy(header, contentSections, metaSections)
    {
      var writer := new Stream.ByteWriter();
      var headerBytes := EncodeLegacyHeader(header);
      Stream.OverwriteAtEnd([], headerBytes);
      assert [] + headerBytes == headerBytes;
      writer.Write(headerBytes);
      r := ContainerIo.WriteBody(writer, contentSections, metaSections);
    }
  }
}
