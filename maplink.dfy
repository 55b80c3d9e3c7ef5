// The map link table (`src/formats/maplink.rs`): a count symbol and a
// table of areas, each a map name and a counted list of links.
module MaplinkFormat {
  import opened Wrappers
  import opened Bytes
  import opened ElfRead
  import opened Layouts
  import Tables
  import Stream

  const DataCountName: Bytes := Str("dataCount__Q3_4data3fld7maplink")
  const DatasName: Bytes := Str("datas__Q3_4data3fld7maplink")

  /** `Link`: fifteen strings and words; `field_0x10` is an f32 kept as
      its bits. */
  const LinkCode: string := "SSSSWSSSSSWSSSS"
  const LinkShape: Shape := Flat(LinkCode)

  /** `MaplinkArea`, read by hand: the map name, then the links behind a
      non-null pointer, exactly as many as the u32 after it. */
  const AreaShape: Shape := Record([Field(StringKind), Counted(LinkShape, false)])

  /** A link is 0x3c bytes with `field_0xN` at byte N, and its strings are
      all non-nullable. */
  lemma LinkLayout()
    ensures Sized(LinkShape) && Size(LinkShape) == 0x3c
    ensures forall k :: 0 <= k < 15 ==> FieldOffset(LinkShape.fields, k) == 4 * k
    ensures forall k :: 0 <= k < 15 ==> LinkShape.fields[k] != Field(OptStringKind)
  {
    FlatLayout(LinkCode);
  }

  /** An area is 12 bytes: its name, the pointer to its links and their
      count.  Exactly `count` links are read, 0x3c bytes apart from the
      pointer. */
  lemma AreaRead(d: ElfReadDomain, data: Bytes, pos: nat)
    ensures Sized(AreaShape) && Size(AreaShape) == 12
    ensures var r := ReadValue(d, data, pos, AreaShape);
      && (r.Ok? <==> StringAt(d, data, pos).Ok? && CountedAt(d, data, pos + 4, LinkShape, false).Ok?)
      && (r.Ok? ==>
        && PointerAt(d, data, pos + 4).Ok? && Stream.U32At(data, pos + 8).Ok?
        && var links := CountedAt(d, data, pos + 4, LinkShape, false).value.items;
        && var q := PointerAt(d, data, pos + 4).value;
        && r.value == Fields([Text(StringAt(d, data, pos).value), List(links)])
        && |links| == Stream.U32At(data, pos + 8).value
        && forall k :: 0 <= k < |links| ==> ReadValue(d, data, Stream.RecordPos(q.value, 0x3c, k), LinkShape) == Ok(links[k]))
  {
    LinkLayout();
    PairRead(d, data, pos, Field(StringKind), Counted(LinkShape, false));
    CountedItems(d, data, pos + 4, LinkShape, false);
  }

  /** `read_maplink`: the count at `dataCount`, then exactly that many
      areas back to back from `datas`; a missing symbol is an error. */
  method ReadMaplink(d: ElfReadDomain, reader: Stream.Cursor) returns (r: Result<seq<Value>>)
    modifies reader
    ensures Sized(AreaShape)
    ensures r == Tables.TableAt(d, reader.data, DataCountName, DatasName, false, AreaShape)
    ensures r.Ok? ==> Tables.CountAt(d, reader.data, DataCountName) == Ok(|r.value|)
    ensures DataCountName !in d.symbols.Keys() ==> r == Err(MissingSymbol)
    ensures Tables.CountAt(d, reader.data, DataCountName).Ok? && DatasName !in d.symbols.Keys() ==> r == Err(MissingSymbol)
  {
    LinkLayout();
    r := Tables.ReadTable(d, reader, DataCountName, DatasName, false, AreaShape);
  }
}
