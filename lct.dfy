// The light animation table (`src/formats/lct.rs`): a length symbol holding
// one more than the number of areas, and a table of boxed areas, each an
// area id and its maps, each map a map id and its `Lct` records.
module LctFormat {
  import opened Wrappers
  import opened Bytes
  import opened SymbolNames
  import opened ElfRead
  import opened Layouts
  import opened WriteContext
  import opened ElfWrite
  import opened IdSlices
  import opened HeapRead
  import Tables
  import Stream

  const DataTblLenName: Bytes := Str("all_lctAnimeDataTblLen__Q2_4data3lct")
  const DataTblName: Bytes := Str("all_lctAnimeDataTbl__Q2_4data3lct")

  /** `Lct`: three strings and a word. */
  const LctCode: string := "SSSW"
  const LctShape: Shape := Flat(LctCode)

  /** `MapLct`, `#[boxed]`: the map id and its `Lct`s through `read_vec`. */
  const MapLctShape: Shape := Boxed(Record([Field(StringKind), VecField(LctShape)]))

  /** `AreaLct`, `#[boxed]`: the area id and its `MapLct`s through
      `read_vec`. */
  const AreaLctShape: Shape := Boxed(Record([Field(StringKind), VecField(MapLctShape)]))

  /** An `Lct` is 16 bytes with `field_0xN` at byte N. */
  lemma LctLayout()
    ensures Sized(LctShape) && Size(LctShape) == 16
    ensures forall k :: 0 <= k < 4 ==> FieldOffset(LctShape.fields, k) == 4 * k
  {
    FlatLayout(LctCode);
  }

  /** A map is a 4-byte pointer to its id and the pointer and count of its
      `Lct`s, which sit 16 bytes apart. */
  lemma MapLctRead(d: ElfReadDomain, data: Bytes, pos: nat)
    ensures Sized(MapLctShape) && Size(MapLctShape) == 4
    ensures var r := ReadValue(d, data, pos, MapLctShape);
      var p := PointerAt(d, data, pos);
      && (p.Err? ==> r == Err(p.error))
      && (p.Ok? ==>
        var q := p.value.value as nat;
        && (r.Ok? <==> StringAt(d, data, q).Ok? && VecValueAt(d, data, q + 4, LctShape).Ok?)
        && (r.Ok? ==> r.value == Fields([Text(StringAt(d, data, q).value), VecValueAt(d, data, q + 4, LctShape).value])))
  {
    LctLayout();
    BoxedIdVecRead(d, data, pos, LctShape);
  }

  /** An area is a 4-byte pointer to its id and the pointer and count of its
      maps, which are 4-byte pointers themselves. */
  lemma AreaLctRead(d: ElfReadDomain, data: Bytes, pos: nat)
    ensures Sized(MapLctShape) && Sized(AreaLctShape) && Size(AreaLctShape) == 4
    ensures var r := ReadValue(d, data, pos, AreaLctShape);
      var p := PointerAt(d, data, pos);
      && (p.Err? ==> r == Err(p.error))
      && (p.Ok? ==>
        var q := p.value.value as nat;
        && (r.Ok? <==> StringAt(d, data, q).Ok? && VecValueAt(d, data, q + 4, MapLctShape).Ok?)
        && (r.Ok? ==> r.value == Fields([Text(StringAt(d, data, q).value), VecValueAt(d, data, q + 4, MapLctShape).value])))
  {
    MapLctRead(d, data, 0);
    BoxedIdVecRead(d, data, pos, MapLctShape);
  }

  /** `read_lct`: the length at `all_lctAnimeDataTblLen`, then one area
      fewer than it announces (the table ends with a null entry) from
      `all_lctAnimeDataTbl`; a missing symbol is an error and a zero length
      panics. */
  method ReadLct(d: ElfReadDomain, reader: Stream.Cursor) returns (r: Result<seq<Value>>)
    modifies reader
    ensures Sized(AreaLctShape)
    ensures r == Tables.TableAt(d, reader.data, DataTblLenName, DataTblName, true, AreaLctShape)
    ensures r.Ok? ==> Tables.CountAt(d, reader.data, DataTblLenName) == Ok(|r.value| + 1)
    ensures DataTblLenName !in d.symbols.Keys() ==> r == Err(MissingSymbol)
    ensures Tables.CountAt(d, reader.data, DataTblLenName).Ok? && DataTblName !in d.symbols.Keys() ==> r == Err(MissingSymbol)
    ensures Tables.CountAt(d, reader.data, DataTblLenName) == Ok(0) && DataTblName in d.symbols.Keys() ==> r == Err(Panic)
  {
    AreaLctRead(d, reader.data, 0);
    r := Tables.ReadTable(d, reader, DataTblLenName, DataTblName, true, AreaLctShape);
    Tables.TableErrors(d, reader.data, DataTblLenName, DataTblName, true, AreaLctShape);
  }

  /** The length `write_lct` stores, one more than the number of areas,
      makes `read_lct` read exactly that many areas back. */
  lemma WrittenLengthReadsBack(n: nat)
    requires n < 0xFFFF_FFFF
    ensures TruncU32(n) + 1 < 0x1_0000_0000
    ensures CountedLength(TruncU32(n) + 1, true) == n
  {
  }

  // ------------------------------------------------------------ writing

  /** A map: its id and its `Lct` records as field values. */
  datatype MapLct = MapLct(mapId: Bytes, lcts: seq<seq<Value>>)

  /** An area: its id and its maps. */
  datatype AreaLct = AreaLct(areaId: Bytes, maps: seq<MapLct>)

  function LctKinds(): (r: seq<FieldKind>)
    ensures |r| == 4 && WritableKinds(r)
  {
    Kinds(LctCode)
  }

  /** `MapLct::default()`: no id and no records. */
  const DefaultMapLct: MapLct := MapLct([], [])

  predicate MapConforms(m: MapLct)
  {
    AllConform(m.lcts, LctKinds())
  }

  predicate AreaConforms(a: AreaLct)
  {
    forall k :: 0 <= k < |a.maps| ==> MapConforms(a.maps[k])
  }

  predicate Conform(areas: seq<AreaLct>)
  {
    forall k :: 0 <= k < |areas| ==> AreaConforms(areas[k])
  }

  /** A map that reads back: UTF-8 strings without NULs and fewer than
      2^32 records. */
  predicate PlainMap(m: MapLct)
  {
    Plain(m.mapId) && PlainItems(m.lcts) && |m.lcts| < 0x1_0000_0000
  }

  predicate PlainMaps(maps: seq<MapLct>)
  {
    forall k :: 0 <= k < |maps| ==> PlainMap(maps[k])
  }

  /** An area that reads back: a plain id, plain maps, and fewer than
      2^32 of them. */
  predicate PlainArea(a: AreaLct)
  {
    Plain(a.areaId) && PlainMaps(a.maps) && |a.maps| < 0x1_0000_0000
  }

  /** An area whose maps are all boxed: none is the default map, which
      `MapLct::to_writer` writes as a bare zero word. */
  predicate BoxedMaps(a: AreaLct)
  {
    forall k :: 0 <= k < |a.maps| ==> a.maps[k] != DefaultMapLct
  }

  predicate PlainAreas(areas: seq<AreaLct>)
  {
    forall k :: 0 <= k < |areas| ==> PlainArea(areas[k])
  }

  /** A map written at `at`: the default map is a plain zero word, any
      other a box holding its id and its records. */
  ghost predicate MapLctAt(blocks: seq<Block>, refs: Refs, at: HeapToken, m: MapLct)
  {
    if m == DefaultMapLct then HeapWord(blocks, at) == Ok(0) && at !in refs
    else MapBoxAt(blocks, refs, at, m)
  }

  /** A box at `at` holding the id and the records of `m`. */
  ghost predicate MapBoxAt(blocks: seq<Block>, refs: Refs, at: HeapToken, m: MapLct)
  {
    HeapBox(blocks, refs, at).Ok? && IdSliceAt(blocks, refs, HeapBox(blocks, refs, at).value, m.mapId, LctKinds(), m.lcts)
  }

  /** The id and records written at `token` before the box was closed are
      still there, and the box at `at` points at them. */
  lemma MapBoxWritten(b1: seq<Block>, r1: Refs, b2: seq<Block>, r2: Refs, at: HeapToken, token: HeapToken, m: MapLct)
    requires Extends(b1, r1, b2, r2) && IdSliceAt(b1, r1, token, m.mapId, LctKinds(), m.lcts)
    requires HeapBox(b2, r2, at) == Ok(token)
    ensures MapBoxAt(b2, r2, at, m)
  {
    IdSliceExtends(b1, r1, b2, r2, token, m.mapId, LctKinds(), m.lcts);
  }

  lemma MapLctExtends(b1: seq<Block>, r1: Refs, b2: seq<Block>, r2: Refs, at: HeapToken, m: MapLct)
    requires Extends(b1, r1, b2, r2) && MapLctAt(b1, r1, at, m)
    ensures MapLctAt(b2, r2, at, m)
  {
    if m == DefaultMapLct {
      WordExtends(b1, r1, b2, r2, at);
    } else {
      BoxExtends(b1, r1, b2, r2, at);
      IdSliceExtends(b1, r1, b2, r2, HeapBox(b1, r1, at).value, m.mapId, LctKinds(), m.lcts);
    }
  }

  /** The first `n` maps at 4-byte steps from `t`. */
  ghost predicate MapLctsAt(blocks: seq<Block>, refs: Refs, t: HeapToken, maps: seq<MapLct>, n: nat)
    requires n <= |maps|
  {
    forall k :: 0 <= k < n ==> MapLctAt(blocks, refs, HeapToken(t.block, Stream.RecordPos(t.offset, 4, k)), maps[k])
  }

  lemma MapLctsExtend(b1: seq<Block>, r1: Refs, b2: seq<Block>, r2: Refs, t: HeapToken, maps: seq<MapLct>, n: nat)
    requires n <= |maps| && Extends(b1, r1, b2, r2) && MapLctsAt(b1, r1, t, maps, n)
    ensures MapLctsAt(b2, r2, t, maps, n)
  {
    forall k | 0 <= k < n
      ensures MapLctAt(b2, r2, HeapToken(t.block, Stream.RecordPos(t.offset, 4, k)), maps[k])
    {
      MapLctExtends(b1, r1, b2, r2, HeapToken(t.block, Stream.RecordPos(t.offset, 4, k)), maps[k]);
    }
  }

  lemma MapLctsNext(b1: seq<Block>, r1: Refs, b2: seq<Block>, r2: Refs, t: HeapToken, maps: seq<MapLct>, n: nat)
    requires n < |maps| && Extends(b1, r1, b2, r2) && MapLctsAt(b1, r1, t, maps, n)
    requires MapLctAt(b2, r2, HeapToken(t.block, Stream.RecordPos(t.offset, 4, n)), maps[n])
    ensures MapLctsAt(b2, r2, t, maps, n + 1)
  {
    MapLctsExtend(b1, r1, b2, r2, t, maps, n);
  }

  /** Maps written one after the other, then one more, are the longer
      list written one after the other. */
  lemma MapLctsAppend(blocks: seq<Block>, refs: Refs, t: HeapToken, maps: seq<MapLct>, m: MapLct)
    requires MapLctsAt(blocks, refs, t, maps, |maps|)
    requires MapLctAt(blocks, refs, HeapToken(t.block, Stream.RecordPos(t.offset, 4, |maps|)), m)
    ensures MapLctsAt(blocks, refs, t, maps + [m], |maps| + 1)
  {
    var all := maps + [m];
    forall k | 0 <= k < |maps| + 1
      ensures MapLctAt(blocks, refs, HeapToken(t.block, Stream.RecordPos(t.offset, 4, k)), all[k])
    {
      if k < |maps| {
        assert all[k] == maps[k];
      }
    }
  }

  /** `MapLct::to_writer`: a single zero word for the default map, and
      otherwise a box under `Internal('l')` holding the id and the records
      as a slice without a symbol. */
  method WriteMapLct(dom: ElfWriteDomain, ctx: WriteCtx, m: MapLct) returns (out: WriteCtx)
    requires dom.Ready(ctx) && MapConforms(m)
    modifies dom
    ensures dom.Ready(out) && out.open == ctx.open && dom.relocations == old(dom.relocations)
    ensures Extends(ctx.blocks, ctx.refs, out.blocks, out.refs) && Untouched(ctx.blocks, out.blocks, ctx.Current())
    ensures out.Position() == ctx.Position() + 4
    ensures old(dom.symbolDeclarations) <= dom.symbolDeclarations
    ensures m == DefaultMapLct ==> dom.symbolDeclarations == old(dom.symbolDeclarations)
    ensures m != DefaultMapLct ==>
      && ctx.Here() in out.refs && old(dom.symbolDeclarations) < dom.symbolDeclarations
      && dom.symbolDeclarations[|dom.symbolDeclarations| - 1] == SymbolDeclaration(Internal('l'), out.refs[ctx.Here()], 12)
    ensures m == DefaultMapLct || PlainMap(m) ==> MapLctAt(out.blocks, out.refs, ctx.Here(), m)
  {
    if m.mapId == [] && m.lcts == [] {
      out := dom.WriteWord(ctx, 0);
    } else {
      out := WriteMapLctBox(dom, ctx, m);
    }
  }

  /** `MapLct::to_writer_unboxed`: the id, then the records as a slice
      without a symbol, 12 bytes that read back as the id and the records. */
  method WriteMapLctRecord(dom: ElfWriteDomain, ctx: WriteCtx, m: MapLct) returns (out: WriteCtx)
    requires dom.Ready(ctx) && MapConforms(m)
    modifies dom
    ensures dom.Ready(out) && out.open == ctx.open && dom.relocations == old(dom.relocations)
    ensures Extends(ctx.blocks, ctx.refs, out.blocks, out.refs) && Untouched(ctx.blocks, out.blocks, ctx.Current())
    ensures out.Position() == ctx.Position() + 12
    ensures old(dom.symbolDeclarations) <= dom.symbolDeclarations
    ensures PlainMap(m) ==> IdSliceAt(out.blocks, out.refs, ctx.Here(), m.mapId, LctKinds(), m.lcts)
  {
    out := WriteIdSlice(dom, ctx, m.mapId, true, LctKinds(), m.lcts, None);
  }

  /** The box of a map other than the default one. */
  method WriteMapLctBox(dom: ElfWriteDomain, ctx: WriteCtx, m: MapLct) returns (out: WriteCtx)
    requires dom.Ready(ctx) && MapConforms(m)
    modifies dom
    ensures dom.Ready(out) && out.open == ctx.open && dom.relocations == old(dom.relocations)
    ensures Extends(ctx.blocks, ctx.refs, out.blocks, out.refs) && Untouched(ctx.blocks, out.blocks, ctx.Current())
    ensures out.Position() == ctx.Position() + 4
    ensures ctx.Here() in out.refs && old(dom.symbolDeclarations) < dom.symbolDeclarations
    ensures dom.symbolDeclarations[|dom.symbolDeclarations| - 1] == SymbolDeclaration(Internal('l'), out.refs[ctx.Here()], 12)
    ensures PlainMap(m) ==> MapBoxAt(out.blocks, out.refs, ctx.Here(), m)
  {
    var token, inner := dom.BeginBox(ctx);
    var c1 := WriteMapLctRecord(dom, inner, m);
    assert c1.Position() == 12;
    TruncU32Small(12);
    ghost var before := dom.symbolDeclarations;
    out := dom.EndBox(c1, token, Some(Internal('l')));
    BoxFrame(ctx, inner, c1, out, token);
    LastAppended(old(dom.symbolDeclarations), before, dom.symbolDeclarations, SymbolDeclaration(Internal('l'), out.refs[ctx.Here()], 12));
    if PlainMap(m) {
      MapBoxWritten(c1.blocks, c1.refs, out.blocks, out.refs, ctx.Here(), token, m);
    }
  }

  /** A list with one more symbol at its end, and everything from before
      `before` still in front. */
  lemma LastAppended(first: seq<SymbolDeclaration>, before: seq<SymbolDeclaration>, after: seq<SymbolDeclaration>, d: SymbolDeclaration)
    requires first <= before && after == before + [d]
    ensures first < after && after[|after| - 1] == d
  {
  }

  /** The maps of an area one after the other from `ctx.Here()`, each as
      `MapLct::to_writer` writes it. */
  method WriteMapLcts(dom: ElfWriteDomain, ctx: WriteCtx, maps: seq<MapLct>) returns (out: WriteCtx)
    requires dom.Ready(ctx) && forall k :: 0 <= k < |maps| ==> MapConforms(maps[k])
    modifies dom
    ensures dom.Ready(out) && out.open == ctx.open && dom.relocations == old(dom.relocations)
    ensures Extends(ctx.blocks, ctx.refs, out.blocks, out.refs) && Untouched(ctx.blocks, out.blocks, ctx.Current())
    ensures out.Position() == ctx.Position() + 4 * |maps|
    ensures old(dom.symbolDeclarations) <= dom.symbolDeclarations
    ensures PlainMaps(maps) ==> MapLctsAt(out.blocks, out.refs, ctx.Here(), maps, |maps|)
  {
    var start := ctx.Here();
    ExtendsRefl(ctx.blocks, ctx.refs);
    out := ctx;
    for k := 0 to |maps|
      invariant dom.Ready(out) && out.open == ctx.open && dom.relocations == old(dom.relocations)
      invariant old(dom.symbolDeclarations) <= dom.symbolDeclarations
      invariant Extends(ctx.blocks, ctx.refs, out.blocks, out.refs) && Untouched(ctx.blocks, out.blocks, ctx.Current())
      invariant out.Here() == HeapToken(start.block, Stream.RecordPos(start.offset, 4, k))
      invariant PlainMaps(maps) ==> MapLctsAt(out.blocks, out.refs, start, maps, k)
    {
      var next := WriteMapLct(dom, out, maps[k]);
      ExtendsTrans(ctx.blocks, ctx.refs, out.blocks, out.refs, next.blocks, next.refs);
      UntouchedTrans(ctx.blocks, out.blocks, next.blocks, ctx.Current());
      Stream.RecordPosNext(start.offset, 4, k);
      HereAdvanced(out, next, 4);
      if PlainMaps(maps) {
        MapLctsNext(out.blocks, out.refs, next.blocks, next.refs, start, maps, k);
      }
      out := next;
    }
  }

  /** `write_null_terminated_slice` of the maps of an area, without a
      symbol and with `write_length`: the token of the list, then the
      number of maps, as `write_slice` writes its count; the default map
      closing the list is not counted. */
  method WriteMapLctSlice(dom: ElfWriteDomain, ctx: WriteCtx, maps: seq<MapLct>) returns (out: WriteCtx)
    requires dom.Ready(ctx) && forall k :: 0 <= k < |maps| ==> MapConforms(maps[k])
    modifies dom
    ensures dom.Ready(out) && out.open == ctx.open && dom.relocations == old(dom.relocations)
    ensures Extends(ctx.blocks, ctx.refs, out.blocks, out.refs) && Untouched(ctx.blocks, out.blocks, ctx.Current())
    ensures out.Position() == ctx.Position() + 8
    ensures old(dom.symbolDeclarations) <= dom.symbolDeclarations
    ensures HeapBox(out.blocks, out.refs, ctx.Here()) == Ok(HeapToken(|ctx.blocks|, 0))
    ensures HeapWord(out.blocks, FieldToken(ctx.Here(), 1)) == Ok(TruncU32(|maps|))
    ensures PlainMaps(maps) ==>
      MapLctsAt(out.blocks, out.refs, HeapToken(|ctx.blocks|, 0), maps + [DefaultMapLct], |maps| + 1)
  {
    var c1 := WriteMapLctList(dom, ctx, maps);
    assert c1.Current() == ctx.Current() && c1.Here() == FieldToken(ctx.Here(), 1);
    out := dom.WriteWord(c1, TruncU32(|maps|));
    ExtendsTrans(ctx.blocks, ctx.refs, c1.blocks, c1.refs, out.blocks, out.refs);
    UntouchedTrans(ctx.blocks, c1.blocks, out.blocks, ctx.Current());
    BoxExtends(c1.blocks, c1.refs, out.blocks, out.refs, ctx.Here());
    if PlainMaps(maps) {
      MapLctsExtend(c1.blocks, c1.refs, out.blocks, out.refs, HeapToken(|ctx.blocks|, 0), maps + [DefaultMapLct], |maps| + 1);
    }
  }

  /** The list part of that slice: a new block holding every map and then
      the default map (a zero word), and the token of that block where the
      list goes. */
  method WriteMapLctList(dom: ElfWriteDomain, ctx: WriteCtx, maps: seq<MapLct>) returns (out: WriteCtx)
    requires dom.Ready(ctx) && forall k :: 0 <= k < |maps| ==> MapConforms(maps[k])
    modifies dom
    ensures dom.Ready(out) && out.open == ctx.open && dom.relocations == old(dom.relocations)
    ensures Extends(ctx.blocks, ctx.refs, out.blocks, out.refs) && Untouched(ctx.blocks, out.blocks, ctx.Current())
    ensures out.Position() == ctx.Position() + 4
    ensures old(dom.symbolDeclarations) <= dom.symbolDeclarations
    ensures HeapBox(out.blocks, out.refs, ctx.Here()) == Ok(HeapToken(|ctx.blocks|, 0))
    ensures PlainMaps(maps) ==>
      MapLctsAt(out.blocks, out.refs, HeapToken(|ctx.blocks|, 0), maps + [DefaultMapLct], |maps| + 1)
  {
    var token, inner := dom.BeginBox(ctx);
    var c1 := WriteMapLcts(dom, inner, maps);
    var c2 := WriteMapLct(dom, c1, DefaultMapLct);
    assert Untouched(ctx.blocks, c2.blocks, ctx.Current()) by {
      UntouchedTrans(ctx.blocks, inner.blocks, c1.blocks, |ctx.blocks|);
      UntouchedTrans(ctx.blocks, c1.blocks, c2.blocks, |ctx.blocks|);
      UntouchedNone(ctx.blocks, c2.blocks, ctx.Current());
    }
    assert c2.EndBlock().Here() == ctx.Here();
    if PlainMaps(maps) {
      Stream.RecordPosNext(0, 4, |maps|);
      MapLctsExtend(c1.blocks, c1.refs, c2.blocks, c2.refs, token, maps, |maps|);
      MapLctsAppend(c2.blocks, c2.refs, token, maps, DefaultMapLct);
    }
    out := dom.EndBox(c2, token, None);
    ExtendsTrans(ctx.blocks, ctx.refs, inner.blocks, inner.refs, c1.blocks, c1.refs);
    ExtendsTrans(ctx.blocks, ctx.refs, c1.blocks, c1.refs, c2.blocks, c2.refs);
    ExtendsTrans(ctx.blocks, ctx.refs, c2.blocks, c2.refs, out.blocks, out.refs);
    UntouchedTrans(ctx.blocks, c2.blocks, out.blocks, ctx.Current());
    if PlainMaps(maps) {
      MapLctsExtend(c2.blocks, c2.refs, out.blocks, out.refs, token, maps + [DefaultMapLct], |maps| + 1);
    }
  }

  /** The record of an area at `t`: its id, then the token of the block
      of its maps, which hold every map and then the default one, then the
      number of maps. */
  ghost predicate AreaLctRecordAt(blocks: seq<Block>, refs: Refs, t: HeapToken, a: AreaLct)
  {
    && HeapField(blocks, refs, t, StringKind) == Ok(Text(a.areaId))
    && HeapBox(blocks, refs, FieldToken(t, 1)).Ok?
    && HeapWord(blocks, FieldToken(t, 2)) == Ok(TruncU32(|a.maps|))
    && MapLctsAt(blocks, refs, HeapBox(blocks, refs, FieldToken(t, 1)).value, a.maps + [DefaultMapLct], |a.maps| + 1)
  }

  /** An area written at `at`: a box holding its record. */
  ghost predicate AreaLctAt(blocks: seq<Block>, refs: Refs, at: HeapToken, a: AreaLct)
  {
    HeapBox(blocks, refs, at).Ok? && AreaLctRecordAt(blocks, refs, HeapBox(blocks, refs, at).value, a)
  }

  lemma AreaLctRecordExtends(b1: seq<Block>, r1: Refs, b2: seq<Block>, r2: Refs, t: HeapToken, a: AreaLct)
    requires Extends(b1, r1, b2, r2) && AreaLctRecordAt(b1, r1, t, a)
    ensures AreaLctRecordAt(b2, r2, t, a)
  {
    FieldExtends(b1, r1, b2, r2, t, StringKind);
    BoxExtends(b1, r1, b2, r2, FieldToken(t, 1));
    WordExtends(b1, r1, b2, r2, FieldToken(t, 2));
    MapLctsExtend(b1, r1, b2, r2, HeapBox(b1, r1, FieldToken(t, 1)).value, a.maps + [DefaultMapLct], |a.maps| + 1);
  }

  lemma AreaLctExtends(b1: seq<Block>, r1: Refs, b2: seq<Block>, r2: Refs, at: HeapToken, a: AreaLct)
    requires Extends(b1, r1, b2, r2) && AreaLctAt(b1, r1, at, a)
    ensures AreaLctAt(b2, r2, at, a)
  {
    BoxExtends(b1, r1, b2, r2, at);
    AreaLctRecordExtends(b1, r1, b2, r2, HeapBox(b1, r1, at).value, a);
  }

  // ------------------------------------------------------------ reading back

  /** A map as the reader of `MapLctShape` gives it: its id and its
      records. */
  function MapValue(m: MapLct): Value
  {
    Fields([Text(m.mapId), List(AsFields(m.lcts))])
  }

  function MapValues(maps: seq<MapLct>): (r: seq<Value>)
    ensures |r| == |maps| && forall k :: 0 <= k < |maps| ==> r[k] == MapValue(maps[k])
  {
    seq(|maps|, k requires 0 <= k < |maps| => MapValue(maps[k]))
  }

  /** An area as the reader of `AreaLctShape` gives it: its id and its
      maps. */
  function AreaValue(a: AreaLct): Value
  {
    Fields([Text(a.areaId), List(MapValues(a.maps))])
  }

  function AreaValues(areas: seq<AreaLct>): (r: seq<Value>)
    ensures |r| == |areas| && forall k :: 0 <= k < |areas| ==> r[k] == AreaValue(areas[k])
  {
    seq(|areas|, k requires 0 <= k < |areas| => AreaValue(areas[k]))
  }

  /** An area that reads back in full: plain, and with every map boxed. */
  predicate ReadableArea(a: AreaLct)
  {
    PlainArea(a) && BoxedMaps(a)
  }

  predicate ReadableAreas(areas: seq<AreaLct>)
  {
    forall k :: 0 <= k < |areas| ==> ReadableArea(areas[k])
  }

  /** A map is a 4-byte pointer, an area record 12 bytes, an area a 4-byte
      pointer. */
  lemma AreaLctSized()
    ensures Sized(MapLctShape) && Size(MapLctShape) == 4
    ensures Sized(AreaLctShape.inner) && Size(AreaLctShape.inner) == 12
    ensures Sized(AreaLctShape) && Size(AreaLctShape) == 4
  {
    LctLayout();
    PairSize(Field(StringKind), VecField(LctShape));
    PairSize(Field(StringKind), VecField(MapLctShape));
  }

  /** A map boxed at `at` reads back under `MapLctShape` as its id and its
      records. */
  lemma MapBoxValue(blocks: seq<Block>, refs: Refs, at: HeapToken, m: MapLct)
    requires MapBoxAt(blocks, refs, at, m)
    ensures Sized(MapLctShape)
    ensures HeapValue(blocks, refs, at, MapLctShape) == Ok(MapValue(m))
  {
    IdSliceValue(blocks, refs, HeapBox(blocks, refs, at).value, m.mapId, LctCode, m.lcts);
  }

  /** The default map, the bare zero word `MapLct::to_writer` writes for
      it, is a null pointer to the reader of `MapLctShape`. */
  lemma DefaultMapUnreadable(blocks: seq<Block>, refs: Refs, at: HeapToken)
    requires MapLctAt(blocks, refs, at, DefaultMapLct)
    ensures Sized(MapLctShape)
    ensures HeapValue(blocks, refs, at, MapLctShape) == Err(NullPointer)
  {
    AreaLctSized();
    assert HeapBox(blocks, refs, at) == Err(NullPointer);
  }

  /** An area record with its maps boxed and its count word reads back
      under the record of `AreaLctShape`: `read_vec` takes the count and
      reads that many maps 4 bytes apart, stopping before the default map
      that closes the block. */
  lemma AreaLctRecordValue(blocks: seq<Block>, refs: Refs, t: HeapToken, a: AreaLct)
    requires AreaLctRecordAt(blocks, refs, t, a) && |a.maps| < 0x1_0000_0000 && BoxedMaps(a)
    ensures Sized(AreaLctShape.inner)
    ensures HeapValue(blocks, refs, t, AreaLctShape.inner) == Ok(AreaValue(a))
  {
    AreaLctSized();
    TruncU32Small(|a.maps|);
    var vec := FieldToken(t, 1);
    MapItemsValue(blocks, refs, HeapBox(blocks, refs, vec).value, a);
    assert HeapVecValue(blocks, refs, vec, MapLctShape) == Ok(List(MapValues(a.maps)));
    PairValueOf(blocks, refs, t, Field(StringKind), VecField(MapLctShape), Text(a.areaId), List(MapValues(a.maps)));
  }

  /** The maps of an area, boxed 4 bytes apart, are the entries a reader
      of the area's list finds there. */
  lemma MapItemsValue(blocks: seq<Block>, refs: Refs, target: HeapToken, a: AreaLct)
    requires MapLctsAt(blocks, refs, target, a.maps + [DefaultMapLct], |a.maps| + 1) && BoxedMaps(a)
    ensures Sized(MapLctShape)
    ensures HeapItems(blocks, refs, target, MapLctShape, |a.maps|) == Ok(MapValues(a.maps))
  {
    AreaLctSized();
    var read := Stream.Strided(HeapElemsIn(blocks, refs, target.block, MapLctShape), target.offset, 4);
    forall k | 0 <= k < |a.maps|
      ensures read(k) == Ok(MapValues(a.maps)[k])
    {
      assert (a.maps + [DefaultMapLct])[k] == a.maps[k];
      MapBoxValue(blocks, refs, HeapToken(target.block, Stream.RecordPos(target.offset, 4, k)), a.maps[k]);
    }
    Stream.ReadEachOf(read, |a.maps|, MapValues(a.maps));
  }

  /** An area boxed at `at` reads back under `AreaLctShape`. */
  lemma AreaLctValue(blocks: seq<Block>, refs: Refs, at: HeapToken, a: AreaLct)
    requires AreaLctAt(blocks, refs, at, a) && |a.maps| < 0x1_0000_0000 && BoxedMaps(a)
    ensures Sized(AreaLctShape)
    ensures HeapValue(blocks, refs, at, AreaLctShape) == Ok(AreaValue(a))
  {
    AreaLctRecordValue(blocks, refs, HeapBox(blocks, refs, at).value, a);
  }

  /** Areas written 4 bytes apart are the entries of `AreaLctShape` a
      reader of the table finds there. */
  lemma AreaLctsValue(blocks: seq<Block>, refs: Refs, t: HeapToken, areas: seq<AreaLct>)
    requires AreaLctsAt(blocks, refs, t, areas, |areas|) && ReadableAreas(areas)
    ensures Sized(AreaLctShape)
    ensures HeapItems(blocks, refs, t, AreaLctShape, |areas|) == Ok(AreaValues(areas))
  {
    AreaLctSized();
    var read := Stream.Strided(HeapElemsIn(blocks, refs, t.block, AreaLctShape), t.offset, 4);
    forall k | 0 <= k < |areas|
      ensures read(k) == Ok(AreaValues(areas)[k])
    {
      AreaLctValue(blocks, refs, HeapToken(t.block, Stream.RecordPos(t.offset, 4, k)), areas[k]);
    }
    Stream.ReadEachOf(read, |areas|, AreaValues(areas));
  }

  /** `AreaLct::to_writer_unboxed`: the id, then the null-terminated list
      of maps without a symbol and with its length: 12 bytes. */
  method WriteAreaLctRecord(dom: ElfWriteDomain, ctx: WriteCtx, a: AreaLct) returns (out: WriteCtx)
    requires dom.Ready(ctx) && AreaConforms(a)
    modifies dom
    ensures dom.Ready(out) && out.open == ctx.open && dom.relocations == old(dom.relocations)
    ensures Extends(ctx.blocks, ctx.refs, out.blocks, out.refs) && Untouched(ctx.blocks, out.blocks, ctx.Current())
    ensures out.Position() == ctx.Position() + 12
    ensures old(dom.symbolDeclarations) <= dom.symbolDeclarations
    ensures PlainArea(a) ==> AreaLctRecordAt(out.blocks, out.refs, ctx.Here(), a)
  {
    var c1 := WriteId(dom, ctx, a.areaId, true);
    out := WriteMapLctSlice(dom, c1, a.maps);
    ExtendsTrans(ctx.blocks, ctx.refs, c1.blocks, c1.refs, out.blocks, out.refs);
    UntouchedTrans(ctx.blocks, c1.blocks, out.blocks, ctx.Current());
    if Plain(a.areaId) {
      FieldExtends(c1.blocks, c1.refs, out.blocks, out.refs, ctx.Here(), StringKind);
    }
  }

  /** `AreaLct::to_writer`: a box under `Internal('l')` holding the
      record. */
  method WriteAreaLct(dom: ElfWriteDomain, ctx: WriteCtx, a: AreaLct) returns (out: WriteCtx)
    requires dom.Ready(ctx) && AreaConforms(a)
    modifies dom
    ensures dom.Ready(out) && out.open == ctx.open && dom.relocations == old(dom.relocations)
    ensures Extends(ctx.blocks, ctx.refs, out.blocks, out.refs) && Untouched(ctx.blocks, out.blocks, ctx.Current())
    ensures out.Position() == ctx.Position() + 4
    ensures ctx.Here() in out.refs && old(dom.symbolDeclarations) < dom.symbolDeclarations
    ensures dom.symbolDeclarations[|dom.symbolDeclarations| - 1] == SymbolDeclaration(Internal('l'), out.refs[ctx.Here()], 12)
    ensures PlainArea(a) ==> AreaLctAt(out.blocks, out.refs, ctx.Here(), a)
    ensures Sized(AreaLctShape)
    ensures PlainArea(a) && BoxedMaps(a) ==> HeapValue(out.blocks, out.refs, ctx.Here(), AreaLctShape) == Ok(AreaValue(a))
  {
    var token, inner := dom.BeginBox(ctx);
    var c1 := WriteAreaLctRecord(dom, inner, a);
    assert c1.Position() == 12;
    out := dom.EndBox(c1, token, Some(Internal('l')));
    BoxFrame(ctx, inner, c1, out, token);
    assert out.refs[ctx.Here()] == token;
    TruncU32Small(12);
    AreaLctSized();
    if PlainArea(a) {
      AreaLctRecordExtends(c1.blocks, c1.refs, out.blocks, out.refs, token, a);
      if BoxedMaps(a) {
        AreaLctValue(out.blocks, out.refs, ctx.Here(), a);
      }
    }
  }

  /** The first `n` areas at 4-byte steps from `t`. */
  ghost predicate AreaLctsAt(blocks: seq<Block>, refs: Refs, t: HeapToken, areas: seq<AreaLct>, n: nat)
    requires n <= |areas|
  {
    forall k :: 0 <= k < n ==> AreaLctAt(blocks, refs, HeapToken(t.block, Stream.RecordPos(t.offset, 4, k)), areas[k])
  }

  lemma AreaLctsExtend(b1: seq<Block>, r1: Refs, b2: seq<Block>, r2: Refs, t: HeapToken, areas: seq<AreaLct>, n: nat)
    requires n <= |areas| && Extends(b1, r1, b2, r2) && AreaLctsAt(b1, r1, t, areas, n)
    ensures AreaLctsAt(b2, r2, t, areas, n)
  {
    forall k | 0 <= k < n
      ensures AreaLctAt(b2, r2, HeapToken(t.block, Stream.RecordPos(t.offset, 4, k)), areas[k])
    {
      AreaLctExtends(b1, r1, b2, r2, HeapToken(t.block, Stream.RecordPos(t.offset, 4, k)), areas[k]);
    }
  }

  lemma AreaLctsNext(b1: seq<Block>, r1: Refs, b2: seq<Block>, r2: Refs, t: HeapToken, areas: seq<AreaLct>, n: nat)
    requires n < |areas| && Extends(b1, r1, b2, r2) && AreaLctsAt(b1, r1, t, areas, n)
    requires AreaLctAt(b2, r2, HeapToken(t.block, Stream.RecordPos(t.offset, 4, n)), areas[n])
    ensures AreaLctsAt(b2, r2, t, areas, n + 1)
  {
    AreaLctsExtend(b1, r1, b2, r2, t, areas, n);
  }

  /** The closure of the `all_lctAnimeDataTbl` symbol before its
      terminator: every area boxed in turn. */
  method WriteAreaLcts(dom: ElfWriteDomain, ctx: WriteCtx, areas: seq<AreaLct>) returns (out: WriteCtx)
    requires dom.Ready(ctx) && Conform(areas)
    modifies dom
    ensures dom.Ready(out) && out.open == ctx.open && dom.relocations == old(dom.relocations)
    ensures Extends(ctx.blocks, ctx.refs, out.blocks, out.refs) && Untouched(ctx.blocks, out.blocks, ctx.Current())
    ensures out.Position() == ctx.Position() + 4 * |areas|
    ensures old(dom.symbolDeclarations) <= dom.symbolDeclarations
    ensures PlainAreas(areas) ==> AreaLctsAt(out.blocks, out.refs, ctx.Here(), areas, |areas|)
    ensures ReadableAreas(areas) ==> (AreaLctSized(); HeapItems(out.blocks, out.refs, ctx.Here(), AreaLctShape, |areas|) == Ok(AreaValues(areas)))
  {
    var start := ctx.Here();
    ExtendsRefl(ctx.blocks, ctx.refs);
    out := ctx;
    for k := 0 to |areas|
      invariant dom.Ready(out) && out.open == ctx.open && dom.relocations == old(dom.relocations)
      invariant old(dom.symbolDeclarations) <= dom.symbolDeclarations
      invariant Extends(ctx.blocks, ctx.refs, out.blocks, out.refs) && Untouched(ctx.blocks, out.blocks, ctx.Current())
      invariant out.Here() == HeapToken(start.block, Stream.RecordPos(start.offset, 4, k))
      invariant PlainAreas(areas) ==> AreaLctsAt(out.blocks, out.refs, start, areas, k)
    {
      var next := WriteAreaLct(dom, out, areas[k]);
      ExtendsTrans(ctx.blocks, ctx.refs, out.blocks, out.refs, next.blocks, next.refs);
      UntouchedTrans(ctx.blocks, out.blocks, next.blocks, ctx.Current());
      Stream.RecordPosNext(start.offset, 4, k);
      HereAdvanced(out, next, 4);
      if PlainAreas(areas) {
        AreaLctsNext(out.blocks, out.refs, next.blocks, next.refs, start, areas, k);
      }
      out := next;
    }
    if ReadableAreas(areas) {
      AreaLctsValue(out.blocks, out.refs, start, areas);
    }
  }

  /** A symbol appended, then more, the last of them `last`. */
  lemma FirstAndLast(s0: seq<SymbolDeclaration>, s1: seq<SymbolDeclaration>, s2: seq<SymbolDeclaration>,
                     first: SymbolDeclaration, last: SymbolDeclaration)
    requires s1 == s0 + [first] && s1 < s2 && s2[|s2| - 1] == last
    ensures |s2| > |s0| + 1 && s0 <= s2 && s2[|s0|] == first && s2[|s2| - 1] == last
  {
    assert s2[|s0|] == s1[|s0|];
  }

  /** The table part of `write_lct`: the boxed areas and a zero word, with
      the `all_lctAnimeDataTbl` symbol over them. */
  method WriteLctTable(dom: ElfWriteDomain, ctx: WriteCtx, lcts: seq<AreaLct>) returns (out: WriteCtx)
    requires dom.Ready(ctx) && Conform(lcts)
    modifies dom
    ensures dom.Ready(out) && out.open == ctx.open && dom.relocations == old(dom.relocations)
    ensures Extends(ctx.blocks, ctx.refs, out.blocks, out.refs) && Untouched(ctx.blocks, out.blocks, ctx.Current())
    ensures out.Position() == ctx.Position() + 4 * |lcts| + 4
    ensures old(dom.symbolDeclarations) < dom.symbolDeclarations
    ensures dom.symbolDeclarations[|dom.symbolDeclarations| - 1]
      == SymbolDeclaration(Unmangled(DataTblName), ctx.Here(), TruncU32(4 * |lcts| + 4))
    ensures HeapWord(out.blocks, FieldToken(ctx.Here(), |lcts|)) == Ok(0)
    ensures PlainAreas(lcts) ==> AreaLctsAt(out.blocks, out.refs, ctx.Here(), lcts, |lcts|)
  {
    var start := ctx.Here();
    var c2 := WriteAreaLcts(dom, ctx, lcts);
    var endAt := c2.Here();
    assert endAt == FieldToken(start, |lcts|);
    out := dom.WriteWord(c2, 0);
    assert out.Position() - start.offset == 4 * |lcts| + 4;
    dom.EndSymbol(out, DataTblName, start);
    ExtendsTrans(ctx.blocks, ctx.refs, c2.blocks, c2.refs, out.blocks, out.refs);
    UntouchedTrans(ctx.blocks, c2.blocks, out.blocks, ctx.Current());
    if PlainAreas(lcts) {
      AreaLctsExtend(c2.blocks, c2.refs, out.blocks, out.refs, start, lcts, |lcts|);
    }
  }

  /** `write_lct`: the `all_lctAnimeDataTblLen` symbol over one more than
      the number of areas, which panics when that overflows a u32, then the
      `all_lctAnimeDataTbl` symbol over the boxed areas and a zero word.
      The length makes `read_lct` read as many areas as were written, and
      the areas read back under `AreaLctShape` as they were given when
      every map of every area is boxed. */
  method WriteLct(dom: ElfWriteDomain, ctx: WriteCtx, lcts: seq<AreaLct>) returns (r: Result<WriteCtx>)
    requires dom.Ready(ctx) && Conform(lcts)
    modifies dom
    ensures r.Err? <==> TruncU32(|lcts|) == 0xFFFF_FFFF
    ensures r.Err? ==> r.error == Panic && dom.symbolDeclarations == old(dom.symbolDeclarations)
    ensures r.Ok? ==>
      var out := r.value;
      && dom.Ready(out) && out.open == ctx.open && dom.relocations == old(dom.relocations)
      && Extends(ctx.blocks, ctx.refs, out.blocks, out.refs) && Untouched(ctx.blocks, out.blocks, ctx.Current())
      && out.Position() == ctx.Position() + 4 * |lcts| + 8
    ensures r.Ok? ==>
      var syms := dom.symbolDeclarations;
      && |syms| > |old(dom.symbolDeclarations)| + 1 && old(dom.symbolDeclarations) <= syms
      && syms[|old(dom.symbolDeclarations)|] == SymbolDeclaration(Unmangled(DataTblLenName), ctx.Here(), 4)
      && syms[|syms| - 1] == SymbolDeclaration(Unmangled(DataTblName), FieldToken(ctx.Here(), 1), TruncU32(4 * |lcts| + 4))
    ensures r.Ok? ==>
      && HeapWord(r.value.blocks, ctx.Here()) == Ok(TruncU32(|lcts|) + 1)
      && HeapWord(r.value.blocks, FieldToken(ctx.Here(), |lcts| + 1)) == Ok(0)
    ensures r.Ok? && PlainAreas(lcts) ==> AreaLctsAt(r.value.blocks, r.value.refs, FieldToken(ctx.Here(), 1), lcts, |lcts|)
    ensures Sized(AreaLctShape)
    ensures r.Ok? && ReadableAreas(lcts) ==>
      HeapItems(r.value.blocks, r.value.refs, FieldToken(ctx.Here(), 1), AreaLctShape, |lcts|) == Ok(AreaValues(lcts))
  {
    AreaLctSized();
    if TruncU32(|lcts|) == 0xFFFF_FFFF {
      return Err(Panic);
    }
    var countAt := ctx.Here();
    var c1 := dom.WriteWord(ctx, TruncU32(|lcts|) + 1);
    TruncU32Small(4);
    dom.EndSymbol(c1, DataTblLenName, countAt);
    ghost var s1 := dom.symbolDeclarations;
    var start := c1.Here();
    assert start == FieldToken(countAt, 1);
    var out := WriteLctTable(dom, c1, lcts);
    FirstAndLast(old(dom.symbolDeclarations), s1, dom.symbolDeclarations,
      SymbolDeclaration(Unmangled(DataTblLenName), countAt, 4),
      SymbolDeclaration(Unmangled(DataTblName), start, TruncU32(4 * |lcts| + 4)));
    WordExtends(c1.blocks, c1.refs, out.blocks, out.refs, countAt);
    ExtendsTrans(ctx.blocks, ctx.refs, c1.blocks, c1.refs, out.blocks, out.refs);
    UntouchedTrans(ctx.blocks, c1.blocks, out.blocks, ctx.Current());
    if ReadableAreas(lcts) {
      AreaLctsValue(out.blocks, out.refs, start, lcts);
    }
    r := Ok(out);
  }
}
