// The map id table (`src/formats/mapid.rs`): a count symbol and a table of
// map groups, each an id and the maps of the group.
module MapIdFormat {
  import opened Wrappers
  import opened Bytes
  import opened SymbolNames
  import opened ElfRead
  import opened Layouts
  import opened WriteContext
  import opened ElfWrite
  import opened IdSlices
  import opened HeapRead
  import Tables
  import Stream

  const DataCountName: Bytes := Str("dataCount__Q3_4data3fld5mapid")
  const DatasName: Bytes := Str("datas__Q3_4data3fld5mapid")

  /** `MapDefinition`: 32 strings and words, `field_0xN` at byte N. */
  const MapDefinitionCode: string := "SSSSSSSSWSSWWWWWWWWWWSSSSSSSSSSS"
  const MapDefinitionShape: Shape := Flat(MapDefinitionCode)

  /** `MapGroup`, derived: the id, then its maps through `read_vec`. */
  const MapGroupShape: Shape := Record([Field(StringKind), VecField(MapDefinitionShape)])

  /** A map definition is 0x80 bytes with `field_0xN` at byte N. */
  lemma MapDefinitionLayout()
    ensures Sized(MapDefinitionShape) && Size(MapDefinitionShape) == 0x80
    ensures forall k :: 0 <= k < 32 ==> FieldOffset(MapDefinitionShape.fields, k) == 4 * k
  {
    FlatLayout(MapDefinitionCode);
  }

  /** A group is 12 bytes: its id, then the pointer and count `read_vec`
      reads its maps from. */
  lemma MapGroupRead(d: ElfReadDomain, data: Bytes, pos: nat)
    ensures Sized(MapGroupShape) && Size(MapGroupShape) == 12
    ensures var r := ReadValue(d, data, pos, MapGroupShape);
      && (r.Ok? <==> StringAt(d, data, pos).Ok? && VecValueAt(d, data, pos + 4, MapDefinitionShape).Ok?)
      && (r.Ok? ==> r.value == Fields([Text(StringAt(d, data, pos).value), VecValueAt(d, data, pos + 4, MapDefinitionShape).value]))
  {
    MapDefinitionLayout();
    PairRead(d, data, pos, Field(StringKind), VecField(MapDefinitionShape));
  }

  /** `read_mapid`: the count at `dataCount`, then exactly that many groups
      back to back from `datas`; a missing symbol is an error. */
  method ReadMapId(d: ElfReadDomain, reader: Stream.Cursor) returns (r: Result<seq<Value>>)
    modifies reader
    ensures Sized(MapGroupShape)
    ensures r == Tables.TableAt(d, reader.data, DataCountName, DatasName, false, MapGroupShape)
    ensures r.Ok? ==> Tables.CountAt(d, reader.data, DataCountName) == Ok(|r.value|)
    ensures DataCountName !in d.symbols.Keys() ==> r == Err(MissingSymbol)
    ensures Tables.CountAt(d, reader.data, DataCountName).Ok? && DatasName !in d.symbols.Keys() ==> r == Err(MissingSymbol)
  {
    MapDefinitionLayout();
    r := Tables.ReadTable(d, reader, DataCountName, DatasName, false, MapGroupShape);
  }

  // ------------------------------------------------------------ writing

  datatype MapGroup = MapGroup(id: Bytes, maps: seq<seq<Value>>)

  function MapDefinitionKinds(): (r: seq<FieldKind>)
    ensures |r| == 32
  {
    Kinds(MapDefinitionCode)
  }

  /** Every group has maps of the definition's field kinds. */
  predicate Conform(groups: seq<MapGroup>)
  {
    forall k :: 0 <= k < |groups| ==> AllConform(groups[k].maps, MapDefinitionKinds())
  }

  /** Every group reads back: UTF-8 strings without NULs and fewer than
      2^32 maps. */
  predicate PlainGroups(groups: seq<MapGroup>)
  {
    forall k :: 0 <= k < |groups| ==>
      Plain(groups[k].id) && PlainItems(groups[k].maps) && |groups[k].maps| < 0x1_0000_0000
  }

  /** The first `n` groups at 12-byte steps from `t` read back. */
  ghost predicate GroupsAt(blocks: seq<Block>, refs: Refs, t: HeapToken, groups: seq<MapGroup>, n: nat)
    requires n <= |groups|
  {
    forall k :: 0 <= k < n ==>
      IdSliceAt(blocks, refs, HeapToken(t.block, Stream.RecordPos(t.offset, 12, k)), groups[k].id, MapDefinitionKinds(), groups[k].maps)
  }

  lemma GroupsNext(b1: seq<Block>, r1: Refs, b2: seq<Block>, r2: Refs, t: HeapToken, groups: seq<MapGroup>, n: nat)
    requires n < |groups| && Extends(b1, r1, b2, r2) && GroupsAt(b1, r1, t, groups, n)
    requires IdSliceAt(b2, r2, HeapToken(t.block, Stream.RecordPos(t.offset, 12, n)), groups[n].id, MapDefinitionKinds(), groups[n].maps)
    ensures GroupsAt(b2, r2, t, groups, n + 1)
  {
    forall k | 0 <= k < n
      ensures IdSliceAt(b2, r2, HeapToken(t.block, Stream.RecordPos(t.offset, 12, k)), groups[k].id, MapDefinitionKinds(), groups[k].maps)
    {
      IdSliceExtends(b1, r1, b2, r2, HeapToken(t.block, Stream.RecordPos(t.offset, 12, k)), groups[k].id, MapDefinitionKinds(), groups[k].maps);
    }
  }

  /** What `read_mapid` reads for a group: its id and its maps. */
  function GroupValue(g: MapGroup): Value
  {
    Fields([Text(g.id), List(AsFields(g.maps))])
  }

  function GroupValues(groups: seq<MapGroup>): (r: seq<Value>)
    ensures |r| == |groups| && forall k :: 0 <= k < |groups| ==> r[k] == GroupValue(groups[k])
  {
    seq(|groups|, k requires 0 <= k < |groups| => GroupValue(groups[k]))
  }

  /** Groups written 12 bytes apart are the records of `MapGroupShape` a
      reader of the table finds there, each the group's id and maps. */
  lemma GroupsValue(blocks: seq<Block>, refs: Refs, t: HeapToken, groups: seq<MapGroup>)
    requires GroupsAt(blocks, refs, t, groups, |groups|)
    ensures Sized(MapGroupShape) && Size(MapGroupShape) == 12
    ensures HeapItems(blocks, refs, t, MapGroupShape, |groups|) == Ok(GroupValues(groups))
  {
    MapDefinitionLayout();
    PairSize(Field(StringKind), VecField(MapDefinitionShape));
    var read := Stream.Strided(HeapElemsIn(blocks, refs, t.block, MapGroupShape), t.offset, 12);
    forall k | 0 <= k < |groups|
      ensures read(k) == Ok(GroupValues(groups)[k])
    {
      IdSliceValue(blocks, refs, HeapToken(t.block, Stream.RecordPos(t.offset, 12, k)), groups[k].id, MapDefinitionCode, groups[k].maps);
    }
    Stream.ReadEachOf(read, |groups|, GroupValues(groups));
  }

  /** The closure of the `datas` symbol: every group written in turn by
      its `to_writer`, 12 bytes each, each reading back where it was
      written. */
  method WriteGroups(dom: ElfWriteDomain, ctx: WriteCtx, groups: seq<MapGroup>) returns (out: WriteCtx)
    requires dom.Ready(ctx) && Conform(groups)
    modifies dom
    ensures dom.Ready(out) && out.open == ctx.open && dom.relocations == old(dom.relocations)
    ensures Extends(ctx.blocks, ctx.refs, out.blocks, out.refs) && Untouched(ctx.blocks, out.blocks, ctx.Current())
    ensures out.Position() == ctx.Position() + 12 * |groups|
    ensures old(dom.symbolDeclarations) <= dom.symbolDeclarations
    ensures PlainGroups(groups) ==> GroupsAt(out.blocks, out.refs, ctx.Here(), groups, |groups|)
  {
    var start := ctx.Here();
    ExtendsRefl(ctx.blocks, ctx.refs);
    out := ctx;
    for k := 0 to |groups|
      invariant dom.Ready(out) && out.open == ctx.open && dom.relocations == old(dom.relocations)
      invariant old(dom.symbolDeclarations) <= dom.symbolDeclarations
      invariant Extends(ctx.blocks, ctx.refs, out.blocks, out.refs) && Untouched(ctx.blocks, out.blocks, ctx.Current())
      invariant out.Here() == HeapToken(start.block, Stream.RecordPos(start.offset, 12, k))
      invariant PlainGroups(groups) ==> GroupsAt(out.blocks, out.refs, start, groups, k)
    {
      var next := WriteIdSlice(dom, out, groups[k].id, false, MapDefinitionKinds(), groups[k].maps, Some(InternalNamed(groups[k].id)));
      ExtendsTrans(ctx.blocks, ctx.refs, out.blocks, out.refs, next.blocks, next.refs);
      UntouchedTrans(ctx.blocks, out.blocks, next.blocks, ctx.Current());
      Stream.RecordPosNext(start.offset, 12, k);
      HereAdvanced(out, next, 12);
      if PlainGroups(groups) {
        GroupsNext(out.blocks, out.refs, next.blocks, next.refs, start, groups, k);
      }
      out := next;
    }
  }

  /** `write_mapid`: the `dataCount` symbol over the number of groups, then
      the `datas` symbol over the groups one after the other.  The count
      reads back as the number of groups and the table, read as
      `MapGroupShape` records, as the groups. */
  method WriteMapId(dom: ElfWriteDomain, ctx: WriteCtx, groups: seq<MapGroup>) returns (out: WriteCtx)
    requires dom.Ready(ctx) && Conform(groups)
    modifies dom
    ensures dom.Ready(out) && out.open == ctx.open && dom.relocations == old(dom.relocations)
    ensures Extends(ctx.blocks, ctx.refs, out.blocks, out.refs) && Untouched(ctx.blocks, out.blocks, ctx.Current())
    ensures out.Position() == ctx.Position() + 4 + 12 * |groups|
    ensures old(dom.symbolDeclarations) < dom.symbolDeclarations
    ensures var syms := dom.symbolDeclarations;
      && |syms| > |old(dom.symbolDeclarations)| + 1
      && syms[|old(dom.symbolDeclarations)|] == SymbolDeclaration(Unmangled(DataCountName), ctx.Here(), 4)
      && syms[|syms| - 1] == SymbolDeclaration(Unmangled(DatasName), FieldToken(ctx.Here(), 1), TruncU32(12 * |groups|))
    ensures HeapWord(out.blocks, ctx.Here()) == Ok(TruncU32(|groups|))
    ensures Sized(MapGroupShape)
    ensures PlainGroups(groups) ==>
      HeapItems(out.blocks, out.refs, FieldToken(ctx.Here(), 1), MapGroupShape, |groups|) == Ok(GroupValues(groups))
  {
    var countAt := ctx.Here();
    var c1 := dom.WriteWord(ctx, TruncU32(|groups|));
    TruncU32Small(4);
    dom.EndSymbol(c1, DataCountName, countAt);
    ghost var s1 := dom.symbolDeclarations;
    assert s1[|old(dom.symbolDeclarations)|] == SymbolDeclaration(Unmangled(DataCountName), countAt, 4);
    var start := c1.Here();
    assert start == FieldToken(countAt, 1);
    out := WriteGroups(dom, c1, groups);
    assert out.Current() == c1.Current() && out.Position() - start.offset == 12 * |groups|;
    WordExtends(c1.blocks, c1.refs, out.blocks, out.refs, countAt);
    ExtendsTrans(ctx.blocks, ctx.refs, c1.blocks, c1.refs, out.blocks, out.refs);
    UntouchedTrans(ctx.blocks, c1.blocks, out.blocks, ctx.Current());
    dom.EndSymbol(out, DatasName, start);
    assert dom.symbolDeclarations[|old(dom.symbolDeclarations)|] == s1[|old(dom.symbolDeclarations)|];
    MapDefinitionLayout();
    if PlainGroups(groups) {
      GroupsValue(out.blocks, out.refs, start, groups);
    }
  }
}
