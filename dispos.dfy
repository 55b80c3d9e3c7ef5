// The object placement table (`src/formats/dispos.rs`): a count symbol that
// includes a trailing null entry, and a table of boxed areas, each an id and
// three hand-read lists of boxed per-map lists of NPCs, map objects and
// items.
module DisposFormat {
  import opened Wrappers
  import opened Bytes
  import opened SymbolNames
  import opened ElfRead
  import opened Layouts
  import opened WriteContext
  import opened ElfWrite
  import opened IdSlices
  import opened HeapRead
  import Tables
  import Stream

  const DataTblLenName: Bytes := Str("all_disposDataTblLen__Q2_4data10DisposData")
  const DataTblName: Bytes := Str("all_disposDataTbl__Q2_4data10DisposData")

  /** `Npc`: the id and type strings, words (f32 fields kept as their bits)
      and the optional `init_function`, `main_function` and `talk_function`
      at 0x118, 0x120 and 0x124. */
  const NpcCode: string := "SS" + "WWWWWWWWWWWWWWWWWWWWWWWWWWWWWWWWWWWWWWWWWWWWWWWWWWWWWWWWWWWWWWWWWWWW" + "OWOOWWWW"
  /** `Mobj`: the id and type strings, words, and an optional string at 0x40. */
  const MobjCode: string := "SSWWWWWWWWWWWWWWOWWWWWWWWWW"
  /** `Item`: the id and a second string, then words. */
  const ItemCode: string := "SSWWWWWWWWWWWWWW"

  const NpcShape: Shape := Flat(NpcCode)
  const MobjShape: Shape := Flat(MobjCode)
  const ItemShape: Shape := Flat(ItemCode)

  /** `#[boxed]` `DisposNpc`, `DisposMobj` and `DisposItem`: behind a
      pointer, the map id, then the entries through `read_vec`. */
  function ListShape(e: Shape): Shape
  {
    Boxed(Record([Field(StringKind), VecField(e)]))
  }

  /** `DisposArea`, read by hand: behind a pointer, the id and three lists
      through `read_dispos_item_vec`, each a pointer and a count that
      includes a trailing null entry. */
  const AreaShape: Shape := Boxed(Record(AreaFields(ListShape(NpcShape), ListShape(MobjShape), ListShape(ItemShape))))

  /** An NPC is 0x138 bytes with `field_0xN` at byte N; its three functions
      are the optional strings. */
  lemma NpcLayout()
    ensures Sized(NpcShape) && Size(NpcShape) == 0x138
    ensures forall k :: 0 <= k < 78 ==> FieldOffset(NpcShape.fields, k) == 4 * k
    ensures NpcShape.fields[0] == Field(StringKind) && NpcShape.fields[1] == Field(StringKind)
    ensures && NpcShape.fields[0x118 / 4] == Field(OptStringKind) && NpcShape.fields[0x120 / 4] == Field(OptStringKind)
            && NpcShape.fields[0x124 / 4] == Field(OptStringKind)
  {
    FlatLayout(NpcCode);
    assert NpcCode[0] == 'S' && NpcCode[1] == 'S';
    assert NpcCode[70] == 'O' && NpcCode[72] == 'O' && NpcCode[73] == 'O';
  }

  /** A map object is 0x6c bytes with `field_0xN` at byte N; `field_0x40` is
      the optional string. */
  lemma MobjLayout()
    ensures Sized(MobjShape) && Size(MobjShape) == 0x6c
    ensures forall k :: 0 <= k < 27 ==> FieldOffset(MobjShape.fields, k) == 4 * k
    ensures MobjShape.fields[0] == Field(StringKind) && MobjShape.fields[1] == Field(StringKind)
    ensures MobjShape.fields[0x40 / 4] == Field(OptStringKind)
  {
    FlatLayout(MobjCode);
    assert MobjCode[0] == MobjCode[1] == 'S';
    assert MobjCode[0x40 / 4] == 'O';
  }

  lemma EntriesSized()
    ensures Sized(NpcShape) && Sized(MobjShape) && Sized(ItemShape)
    ensures Sized(ListShape(NpcShape)) && Sized(ListShape(MobjShape)) && Sized(ListShape(ItemShape))
  {
    FlatLayout(NpcCode);
    FlatLayout(MobjCode);
    FlatLayout(ItemCode);
  }

  /** An item is 0x40 bytes with `fieldN_0xM` at byte M; it has no optional
      string. */
  lemma ItemLayout()
    ensures Sized(ItemShape) && Size(ItemShape) == 0x40
    ensures forall k :: 0 <= k < 16 ==> FieldOffset(ItemShape.fields, k) == 4 * k
    ensures forall k :: 0 <= k < 16 ==> ItemShape.fields[k] != Field(OptStringKind)
  {
    FlatLayout(ItemCode);
  }

  /** The fields of the hand-read area record over any three list shapes. */
  function AreaFields(a: Shape, b: Shape, c: Shape): seq<Shape>
  {
    [Field(StringKind), Counted(a, true), Counted(b, true), Counted(c, true)]
  }

  /** The id at byte 0 and the three counted lists at bytes 4, 12 and 20. */
  lemma AreaFieldsLayout(a: Shape, b: Shape, c: Shape)
    requires Sized(a) && Sized(b) && Sized(c)
    ensures var fs := AreaFields(a, b, c);
      && Sized(Record(fs)) && Size(Record(fs)) == 28
      && FieldOffset(fs, 0) == 0 && FieldOffset(fs, 1) == 4 && FieldOffset(fs, 2) == 12 && FieldOffset(fs, 3) == 20
  {
    var fs := AreaFields(a, b, c);
    assert fs[..0] == [];
    FieldOffsetNext(fs, 0);
    FieldOffsetNext(fs, 1);
    FieldOffsetNext(fs, 2);
    FieldOffsetNext(fs, 3);
  }

  /** The area record fails as a whole when any field fails, and otherwise
      holds the four fields read at their offsets. */
  lemma AreaRecordRead(d: ElfReadDomain, data: Bytes, q: nat, a: Shape, b: Shape, c: Shape)
    requires Sized(a) && Sized(b) && Sized(c)
    ensures Sized(Record(AreaFields(a, b, c))) && Size(Record(AreaFields(a, b, c))) == 28
    ensures var r := ReadValue(d, data, q, Record(AreaFields(a, b, c)));
      && (r.Ok? <==> && StringAt(d, data, q).Ok? && CountedAt(d, data, q + 4, a, true).Ok?
                     && CountedAt(d, data, q + 12, b, true).Ok? && CountedAt(d, data, q + 20, c, true).Ok?)
      && (r.Ok? ==> r.value == Fields([Text(StringAt(d, data, q).value), CountedAt(d, data, q + 4, a, true).value,
                                       CountedAt(d, data, q + 12, b, true).value, CountedAt(d, data, q + 20, c, true).value]))
  {
    var fs := AreaFields(a, b, c);
    AreaFieldsLayout(a, b, c);
    assert FieldValue(d, data, q, fs, 0) == ReadValue(d, data, q, Field(StringKind)) by {
      assert q + FieldOffset(fs, 0) == q && fs[0] == Field(StringKind);
    }
    assert FieldValue(d, data, q, fs, 1) == CountedAt(d, data, q + 4, a, true) by {
      assert q + FieldOffset(fs, 1) == q + 4 && fs[1] == Counted(a, true);
    }
    assert FieldValue(d, data, q, fs, 2) == CountedAt(d, data, q + 12, b, true) by {
      assert q + FieldOffset(fs, 2) == q + 12 && fs[2] == Counted(b, true);
    }
    assert FieldValue(d, data, q, fs, 3) == CountedAt(d, data, q + 20, c, true) by {
      assert q + FieldOffset(fs, 3) == q + 20 && fs[3] == Counted(c, true);
    }
    Layouts.RecordOfFour(d, data, q, fs);
    assert ReadValue(d, data, q, Record(fs)) == RecordAt(d, data, q, fs);
  }

  /** The area record behind a non-null pointer. */
  lemma AreaBoxRead(d: ElfReadDomain, data: Bytes, pos: nat, a: Shape, b: Shape, c: Shape)
    requires Sized(a) && Sized(b) && Sized(c)
    ensures Sized(Boxed(Record(AreaFields(a, b, c))))
    ensures var r := ReadValue(d, data, pos, Boxed(Record(AreaFields(a, b, c))));
      var p := PointerAt(d, data, pos);
      && (p.Err? ==> r == Err(p.error))
      && (p.Ok? ==> r == ReadValue(d, data, p.value.value as nat, Record(AreaFields(a, b, c))))
  {
    AreaFieldsLayout(a, b, c);
  }

  /** `DisposArea::from_reader_unboxed`, over any three list shapes (the
      area is `AreaShape` for the NPC, mobj and item lists): a non-null
      pointer, and at its target the id and the three lists, which fail as
      a whole when any of them fails. */
  lemma AreaRead(d: ElfReadDomain, data: Bytes, pos: nat, a: Shape, b: Shape, c: Shape)
    requires Sized(a) && Sized(b) && Sized(c)
    ensures Sized(Boxed(Record(AreaFields(a, b, c)))) && Size(Boxed(Record(AreaFields(a, b, c)))) == 4
    ensures var r := ReadValue(d, data, pos, Boxed(Record(AreaFields(a, b, c))));
      var p := PointerAt(d, data, pos);
      && (p.Err? ==> r == Err(p.error))
      && (p.Ok? ==>
        var q := p.value.value as nat;
        var x, y, z := CountedAt(d, data, q + 4, a, true), CountedAt(d, data, q + 12, b, true), CountedAt(d, data, q + 20, c, true);
        && (r.Ok? <==> StringAt(d, data, q).Ok? && x.Ok? && y.Ok? && z.Ok?)
        && (r.Ok? ==> r.value == Fields([Text(StringAt(d, data, q).value), x.value, y.value, z.value])))
  {
    var p := PointerAt(d, data, pos);
    if p.Ok? {
      var q := p.value.value as nat;
      assert ReadValue(d, data, pos, Boxed(Record(AreaFields(a, b, c)))) == ReadValue(d, data, q, Record(AreaFields(a, b, c))) by {
        AreaBoxRead(d, data, pos, a, b, c);
      }
      AreaRecordRead(d, data, q, a, b, c);
    } else {
      AreaBoxRead(d, data, pos, a, b, c);
    }
  }

  /** `read_dispos_item_vec`: a non-null pointer and a count that includes
      the trailing null entry, so a zero count panics and otherwise
      `count - 1` boxed entries are read 4 bytes apart from the pointer. */
  lemma ItemVecRead(d: ElfReadDomain, data: Bytes, pos: nat, e: Shape)
    requires Sized(e)
    ensures Size(ListShape(e)) == 4
    ensures var r := CountedAt(d, data, pos, ListShape(e), true);
      r.Ok? ==>
        && PointerAt(d, data, pos).Ok? && Stream.U32At(data, pos + 4).Ok?
        && var count := Stream.U32At(data, pos + 4).value;
        && count > 0 && |r.value.items| == count - 1
        && forall k :: 0 <= k < |r.value.items| ==>
             ReadValue(d, data, Stream.RecordPos(PointerAt(d, data, pos).value.value, 4, k), ListShape(e)) == Ok(r.value.items[k])
    ensures PointerAt(d, data, pos).Ok? && Stream.U32At(data, pos + 4) == Ok(0) ==>
      CountedAt(d, data, pos, ListShape(e), true) == Err(Panic)
  {
    BoxedIdVecRead(d, data, 0, e);
    CountedItems(d, data, pos, ListShape(e), true);
  }

  /** `read_dispos`: the count at `all_disposDataTblLen`, then one area
      fewer than the count back to back from `all_disposDataTbl`; a missing
      symbol is an error and a zero count panics. */
  method ReadDispos(d: ElfReadDomain, reader: Stream.Cursor) returns (r: Result<seq<Value>>)
    modifies reader
    ensures Sized(AreaShape)
    ensures r == Tables.TableAt(d, reader.data, DataTblLenName, DataTblName, true, AreaShape)
    ensures r.Ok? ==> Tables.CountAt(d, reader.data, DataTblLenName) == Ok(|r.value| + 1)
    ensures DataTblLenName !in d.symbols.Keys() ==> r == Err(MissingSymbol)
    ensures Tables.CountAt(d, reader.data, DataTblLenName).Ok? && DataTblName !in d.symbols.Keys() ==> r == Err(MissingSymbol)
    ensures Tables.CountAt(d, reader.data, DataTblLenName) == Ok(0) && DataTblName in d.symbols.Keys() ==> r == Err(Panic)
  {
    EntriesSized();
    AreaBoxRead(d, reader.data, 0, ListShape(NpcShape), ListShape(MobjShape), ListShape(ItemShape));
    r := Tables.ReadTable(d, reader, DataTblLenName, DataTblName, true, AreaShape);
    Tables.TableErrors(d, reader.data, DataTblLenName, DataTblName, true, AreaShape);
  }

  // ------------------------------------------------------------ writing

  /** Which of the three per-map lists. */
  datatype ListKind = Npcs | Mobjs | Items
  {
    function Code(): (r: string)
      ensures |r| > 0
    {
      match this
      case Npcs => NpcCode
      case Mobjs => MobjCode
      case Items => ItemCode
    }

    /** The field kinds of one entry. */
    function EntryKinds(): (r: seq<FieldKind>)
      ensures |r| == |Code()|
    {
      Kinds(Code())
    }

    /** The bytes one entry takes up: `size_of` the record. */
    function EntrySize(): (r: nat)
      ensures r == 4 * |EntryKinds()|
    {
      match this
      case Npcs => 0x138
      case Mobjs => 0x6c
      case Items => 0x40
    }
  }

  /** `DisposNpc`, `DisposMobj` and `DisposItem`: the map id and its entries. */
  datatype DisposList = DisposList(mapId: Bytes, entries: seq<seq<Value>>)

  /** `to_writer_unboxed` of the three lists: the map id without
      deduplication, then the entries as a counted slice under the symbol
      `InternalNamed(map_id)`.  The 12 bytes written read back as the map
      id and the entries, as the record behind the pointer of `ListShape`
      reads them, and the symbol spans the entries. */
  method WriteList(dom: ElfWriteDomain, ctx: WriteCtx, kind: ListKind, l: DisposList) returns (out: WriteCtx)
    requires dom.Ready(ctx) && AllConform(l.entries, kind.EntryKinds())
    modifies dom
    ensures dom.Ready(out) && out.open == ctx.open && dom.relocations == old(dom.relocations)
    ensures Extends(ctx.blocks, ctx.refs, out.blocks, out.refs) && Untouched(ctx.blocks, out.blocks, ctx.Current())
    ensures out.Position() == ctx.Position() + 12
    ensures old(dom.symbolDeclarations) < dom.symbolDeclarations
    ensures FieldToken(ctx.Here(), 1) in out.refs
    ensures dom.symbolDeclarations[|dom.symbolDeclarations| - 1]
      == SymbolDeclaration(InternalNamed(l.mapId), out.refs[FieldToken(ctx.Here(), 1)], TruncU32(kind.EntrySize() * |l.entries|))
    ensures Plain(l.mapId) && PlainItems(l.entries) && |l.entries| < 0x1_0000_0000 ==>
      IdSliceAt(out.blocks, out.refs, ctx.Here(), l.mapId, kind.EntryKinds(), l.entries)
    ensures Sized(ListShape(Flat(kind.Code())).inner)
    ensures Plain(l.mapId) && PlainItems(l.entries) && |l.entries| < 0x1_0000_0000 ==>
      HeapValue(out.blocks, out.refs, ctx.Here(), ListShape(Flat(kind.Code())).inner) == Ok(Fields([Text(l.mapId), List(AsFields(l.entries))]))
  {
    var kinds := kind.EntryKinds();
    out := WriteIdSlice(dom, ctx, l.mapId, false, kinds, l.entries, Some(InternalNamed(l.mapId)));
    assert 4 * |kinds| * |l.entries| == kind.EntrySize() * |l.entries|;
    ListValue(out.blocks, out.refs, ctx.Here(), kind, l);
  }

  /** A list written by `WriteList` is what a reader of `ListShape` finds
      behind its pointer. */
  lemma ListValue(blocks: seq<Block>, refs: Refs, at: HeapToken, kind: ListKind, l: DisposList)
    ensures Sized(ListShape(Flat(kind.Code())).inner)
    ensures IdSliceAt(blocks, refs, at, l.mapId, kind.EntryKinds(), l.entries) ==>
      HeapValue(blocks, refs, at, ListShape(Flat(kind.Code())).inner) == Ok(Fields([Text(l.mapId), List(AsFields(l.entries))]))
  {
    FlatLayout(kind.Code());
    if IdSliceAt(blocks, refs, at, l.mapId, kind.EntryKinds(), l.entries) {
      IdSliceValue(blocks, refs, at, l.mapId, kind.Code(), l.entries);
    }
  }
}
