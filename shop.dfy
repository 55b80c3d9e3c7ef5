// The shop table (`src/formats/shop.rs`): a table of shops, each an id and
// the items it sells up to a default item, and a symbol holding their
// number.
module ShopFormat {
  import opened Wrappers
  import opened Bytes
  import opened SymbolNames
  import opened ElfRead
  import opened Layouts
  import opened WriteContext
  import opened ElfWrite
  import opened IdSlices
  import opened HeapRead
  import Tables
  import Stream

  const ShopListLenName: Bytes := Str("shopListLen__Q2_4data4shop")
  const ShopListName: Bytes := Str("shopList__Q2_4data4shop")

  /** `SoldItem`: two nullable strings. */
  const SoldItemShape: Shape := Flat("OO")

  /** `Shop`, read by hand: the id, then the items behind a non-null
      pointer up to the first one equal to `SoldItem::default()`. */
  const ShopShape: Shape := Record([Field(StringKind), UntilDefault(SoldItemShape)])

  /** A sold item is 8 bytes, and its default has both strings absent. */
  lemma SoldItemLayout()
    ensures Sized(SoldItemShape) && Size(SoldItemShape) == 8
    ensures DefaultOf(SoldItemShape) == Fields([OptText(None), OptText(None)])
  {
    FlatLayout("OO");
    var fs := SoldItemShape.fields;
    assert fs == [Field(OptStringKind), Field(OptStringKind)];
    var dv := DefaultOf(SoldItemShape).values;
    assert dv == [dv[0], dv[1]];
  }

  /** A shop is 8 bytes: its id and the pointer to its items.  The items
      are the records 8 bytes apart from the pointer up to the first
      default one, which is not among them. */
  lemma ShopRead(d: ElfReadDomain, data: Bytes, pos: nat)
    ensures Sized(ShopShape) && Size(ShopShape) == 8
    ensures var r := ReadValue(d, data, pos, ShopShape);
      && (r.Ok? <==> StringAt(d, data, pos).Ok? && UntilDefaultValueAt(d, data, pos + 4, SoldItemShape).Ok?)
      && (r.Ok? ==>
        && PointerAt(d, data, pos + 4).Ok?
        && var items := UntilDefaultValueAt(d, data, pos + 4, SoldItemShape).value.items;
        && var q := PointerAt(d, data, pos + 4).value;
        && r.value == Fields([Text(StringAt(d, data, pos).value), List(items)])
        && (forall k :: 0 <= k < |items| ==>
              ReadValue(d, data, Stream.RecordPos(q.value, 8, k), SoldItemShape) == Ok(items[k])
              && items[k] != Fields([OptText(None), OptText(None)]))
        && ReadValue(d, data, Stream.RecordPos(q.value, 8, |items|), SoldItemShape) == Ok(Fields([OptText(None), OptText(None)])))
  {
    SoldItemLayout();
    PairRead(d, data, pos, Field(StringKind), UntilDefault(SoldItemShape));
    var r := ReadValue(d, data, pos, ShopShape);
    if r.Ok? {
      var q := PointerAt(d, data, pos + 4).value;
      UntilDefaultItems(d, data, q.value, SoldItemShape);
    }
  }

  /** `read_shops`: the count at `shopListLen`, then exactly that many
      shops back to back from `shopList`; a missing symbol is an error. */
  method ReadShops(d: ElfReadDomain, reader: Stream.Cursor) returns (r: Result<seq<Value>>)
    modifies reader
    ensures Sized(ShopShape)
    ensures r == Tables.TableAt(d, reader.data, ShopListLenName, ShopListName, false, ShopShape)
    ensures r.Ok? ==> Tables.CountAt(d, reader.data, ShopListLenName) == Ok(|r.value|)
    ensures ShopListLenName !in d.symbols.Keys() ==> r == Err(MissingSymbol)
    ensures Tables.CountAt(d, reader.data, ShopListLenName).Ok? && ShopListName !in d.symbols.Keys() ==> r == Err(MissingSymbol)
  {
    SoldItemLayout();
    r := Tables.ReadTable(d, reader, ShopListLenName, ShopListName, false, ShopShape);
  }

  // ------------------------------------------------------------ writing

  datatype Shop = Shop(id: Bytes, items: seq<seq<Value>>)

  function SoldItemKinds(): (r: seq<FieldKind>)
    ensures |r| == 2 && WritableKinds(r)
  {
    Kinds("OO")
  }

  /** Every shop sells items of the sold item's field kinds. */
  predicate Conform(shops: seq<Shop>)
  {
    forall k :: 0 <= k < |shops| ==> AllConform(shops[k].items, SoldItemKinds())
  }

  /** A shop that reads back: its strings are UTF-8 without NULs and none
      of its items is the default one, which would end the list early. */
  predicate PlainShop(s: Shop)
  {
    && Plain(s.id) && PlainItems(s.items)
    && forall k :: 0 <= k < |s.items| ==> s.items[k] != DefaultRecord(SoldItemKinds())
  }

  /** `Shop::to_writer_unboxed`: the id, deduplicated, then the items as a
      null-terminated slice under `Internal('s')`, without a count.  What
      was written reads back as the shop. */
  method WriteShop(dom: ElfWriteDomain, ctx: WriteCtx, s: Shop) returns (out: WriteCtx)
    requires dom.Ready(ctx) && AllConform(s.items, SoldItemKinds())
    modifies dom
    ensures dom.Ready(out) && out.open == ctx.open && dom.relocations == old(dom.relocations)
    ensures Extends(ctx.blocks, ctx.refs, out.blocks, out.refs) && Untouched(ctx.blocks, out.blocks, ctx.Current())
    ensures out.Position() == ctx.Position() + 8
    ensures old(dom.symbolDeclarations) < dom.symbolDeclarations
    ensures FieldToken(ctx.Here(), 1) in out.refs
    ensures dom.symbolDeclarations[|dom.symbolDeclarations| - 1]
      == SymbolDeclaration(Internal('s'), out.refs[FieldToken(ctx.Here(), 1)], TruncU32(4 * |SoldItemKinds()| * (|s.items| + 1)))
    ensures PlainShop(s) ==> IdTerminatedAt(out.blocks, out.refs, ctx.Here(), s.id, SoldItemKinds(), s.items)
  {
    out := WriteIdTerminated(dom, ctx, s.id, true, SoldItemKinds(), s.items, Internal('s'));
  }

  predicate PlainShops(shops: seq<Shop>)
  {
    forall k :: 0 <= k < |shops| ==> PlainShop(shops[k])
  }

  /** The first `n` shops at 8-byte steps from `t` read back. */
  ghost predicate ShopsAt(blocks: seq<Block>, refs: Refs, t: HeapToken, shops: seq<Shop>, n: nat)
    requires n <= |shops|
  {
    forall k :: 0 <= k < n ==>
      IdTerminatedAt(blocks, refs, HeapToken(t.block, Stream.RecordPos(t.offset, 8, k)), shops[k].id, SoldItemKinds(), shops[k].items)
  }

  lemma ShopsNext(b1: seq<Block>, r1: Refs, b2: seq<Block>, r2: Refs, t: HeapToken, shops: seq<Shop>, n: nat)
    requires n < |shops| && Extends(b1, r1, b2, r2) && ShopsAt(b1, r1, t, shops, n)
    requires IdTerminatedAt(b2, r2, HeapToken(t.block, Stream.RecordPos(t.offset, 8, n)), shops[n].id, SoldItemKinds(), shops[n].items)
    ensures ShopsAt(b2, r2, t, shops, n + 1)
  {
    forall k | 0 <= k < n
      ensures IdTerminatedAt(b2, r2, HeapToken(t.block, Stream.RecordPos(t.offset, 8, k)), shops[k].id, SoldItemKinds(), shops[k].items)
    {
      IdTerminatedExtends(b1, r1, b2, r2, HeapToken(t.block, Stream.RecordPos(t.offset, 8, k)), shops[k].id, SoldItemKinds(), shops[k].items);
    }
  }

  lemma ShopsExtend(b1: seq<Block>, r1: Refs, b2: seq<Block>, r2: Refs, t: HeapToken, shops: seq<Shop>)
    requires Extends(b1, r1, b2, r2) && ShopsAt(b1, r1, t, shops, |shops|)
    ensures ShopsAt(b2, r2, t, shops, |shops|)
  {
    forall k | 0 <= k < |shops|
      ensures IdTerminatedAt(b2, r2, HeapToken(t.block, Stream.RecordPos(t.offset, 8, k)), shops[k].id, SoldItemKinds(), shops[k].items)
    {
      IdTerminatedExtends(b1, r1, b2, r2, HeapToken(t.block, Stream.RecordPos(t.offset, 8, k)), shops[k].id, SoldItemKinds(), shops[k].items);
    }
  }

  /** What `read_shops` reads for a shop: its id and its items. */
  function ShopValue(s: Shop): Value
  {
    Fields([Text(s.id), List(AsFields(s.items))])
  }

  function ShopValues(shops: seq<Shop>): (r: seq<Value>)
    ensures |r| == |shops| && forall k :: 0 <= k < |shops| ==> r[k] == ShopValue(shops[k])
  {
    seq(|shops|, k requires 0 <= k < |shops| => ShopValue(shops[k]))
  }

  /** Shops written 8 bytes apart are the records of `ShopShape` a reader
      of the table finds there, each the shop's id and items. */
  lemma ShopsValue(blocks: seq<Block>, refs: Refs, t: HeapToken, shops: seq<Shop>)
    requires ShopsAt(blocks, refs, t, shops, |shops|)
    ensures Sized(ShopShape) && Size(ShopShape) == 8
    ensures HeapItems(blocks, refs, t, ShopShape, |shops|) == Ok(ShopValues(shops))
  {
    SoldItemLayout();
    PairSize(Field(StringKind), UntilDefault(SoldItemShape));
    var read := Stream.Strided(HeapElemsIn(blocks, refs, t.block, ShopShape), t.offset, 8);
    forall k | 0 <= k < |shops|
      ensures read(k) == Ok(ShopValues(shops)[k])
    {
      IdTerminatedValue(blocks, refs, HeapToken(t.block, Stream.RecordPos(t.offset, 8, k)), shops[k].id, "OO", shops[k].items);
    }
    Stream.ReadEachOf(read, |shops|, ShopValues(shops));
  }

  /** The closure of the `shopList` symbol: every shop in turn. */
  method WriteShopList(dom: ElfWriteDomain, ctx: WriteCtx, shops: seq<Shop>) returns (out: WriteCtx)
    requires dom.Ready(ctx) && Conform(shops)
    modifies dom
    ensures dom.Ready(out) && out.open == ctx.open && dom.relocations == old(dom.relocations)
    ensures Extends(ctx.blocks, ctx.refs, out.blocks, out.refs) && Untouched(ctx.blocks, out.blocks, ctx.Current())
    ensures out.Position() == ctx.Position() + 8 * |shops|
    ensures old(dom.symbolDeclarations) <= dom.symbolDeclarations
    ensures PlainShops(shops) ==> ShopsAt(out.blocks, out.refs, ctx.Here(), shops, |shops|)
  {
    var start := ctx.Here();
    ExtendsRefl(ctx.blocks, ctx.refs);
    out := ctx;
    for k := 0 to |shops|
      invariant dom.Ready(out) && out.open == ctx.open && dom.relocations == old(dom.relocations)
      invariant old(dom.symbolDeclarations) <= dom.symbolDeclarations
      invariant Extends(ctx.blocks, ctx.refs, out.blocks, out.refs) && Untouched(ctx.blocks, out.blocks, ctx.Current())
      invariant out.Here() == HeapToken(start.block, Stream.RecordPos(start.offset, 8, k))
      invariant PlainShops(shops) ==> ShopsAt(out.blocks, out.refs, start, shops, k)
    {
      var here := out.Here();
      var next := WriteShop(dom, out, shops[k]);
      ExtendsTrans(ctx.blocks, ctx.refs, out.blocks, out.refs, next.blocks, next.refs);
      UntouchedTrans(ctx.blocks, out.blocks, next.blocks, ctx.Current());
      Stream.RecordPosNext(start.offset, 8, k);
      if PlainShops(shops) {
        assert PlainShop(shops[k]);
        assert IdTerminatedAt(next.blocks, next.refs, here, shops[k].id, SoldItemKinds(), shops[k].items);
        ShopsNext(out.blocks, out.refs, next.blocks, next.refs, start, shops, k);
      }
      HereAdvanced(out, next, 8);
      out := next;
    }
  }

  /** `write_shops`: the `shopList` symbol over the shops, then the
      `shopListLen` symbol over their number.  The number reads back as
      the count of shops and the list, read as `ShopShape` records, as the
      shops. */
  method WriteShops(dom: ElfWriteDomain, ctx: WriteCtx, shops: seq<Shop>) returns (out: WriteCtx)
    requires dom.Ready(ctx) && Conform(shops)
    modifies dom
    ensures dom.Ready(out) && out.open == ctx.open && dom.relocations == old(dom.relocations)
    ensures Extends(ctx.blocks, ctx.refs, out.blocks, out.refs) && Untouched(ctx.blocks, out.blocks, ctx.Current())
    ensures out.Position() == ctx.Position() + 8 * |shops| + 4
    ensures old(dom.symbolDeclarations) < dom.symbolDeclarations
    ensures var syms := dom.symbolDeclarations;
      var lenAt := HeapToken(ctx.Current(), ctx.Position() + 8 * |shops|);
      && |syms| >= |old(dom.symbolDeclarations)| + 2
      && syms[|syms| - 2] == SymbolDeclaration(Unmangled(ShopListName), ctx.Here(), TruncU32(8 * |shops|))
      && syms[|syms| - 1] == SymbolDeclaration(Unmangled(ShopListLenName), lenAt, 4)
      && HeapWord(out.blocks, lenAt) == Ok(TruncU32(|shops|))
    ensures Sized(ShopShape)
    ensures PlainShops(shops) ==> HeapItems(out.blocks, out.refs, ctx.Here(), ShopShape, |shops|) == Ok(ShopValues(shops))
  {
    var start := ctx.Here();
    var c1 := WriteShopList(dom, ctx, shops);
    assert c1.Current() == ctx.Current() && c1.Position() - start.offset == 8 * |shops|;
    dom.EndSymbol(c1, ShopListName, start);
    ghost var s1 := dom.symbolDeclarations;
    var lenAt := c1.Here();
    assert lenAt == HeapToken(ctx.Current(), ctx.Position() + 8 * |shops|);
    out := dom.WriteWord(c1, TruncU32(|shops|));
    TruncU32Small(4);
    dom.EndSymbol(out, ShopListLenName, lenAt);
    assert dom.symbolDeclarations == s1 + [SymbolDeclaration(Unmangled(ShopListLenName), lenAt, 4)];
    ExtendsTrans(ctx.blocks, ctx.refs, c1.blocks, c1.refs, out.blocks, out.refs);
    UntouchedTrans(ctx.blocks, c1.blocks, out.blocks, ctx.Current());
    if PlainShops(shops) {
      ShopsExtend(c1.blocks, c1.refs, out.blocks, out.refs, start, shops);
      ShopsValue(out.blocks, out.refs, start, shops);
    }
    SoldItemLayout();
  }
}
