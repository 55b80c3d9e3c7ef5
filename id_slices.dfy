// The `{ id, Vec<T> }` records whose `to_writer_unboxed` writes the id and
// then the items as a slice: `MapGroup` and the three dispos lists (a
// counted slice named after the id), `MapLct` (a counted slice without a
// symbol) and `Shop` (a null-terminated slice).
module IdSlices {
  import opened Wrappers
  import opened Bytes
  import opened SymbolNames
  import opened Layouts
  import opened WriteContext
  import opened ElfWrite
  import opened HeapRead

  /** Such a record at `at` reads back as its id, then its items behind a
      pointer and a count. */
  ghost predicate IdSliceAt(blocks: seq<Block>, refs: Refs, at: HeapToken, id: Bytes, kinds: seq<FieldKind>, items: seq<seq<Value>>)
  {
    && HeapField(blocks, refs, at, StringKind) == Ok(Text(id))
    && HeapSlice(blocks, refs, FieldToken(at, 1), kinds) == Ok(items)
  }

  /** What such a record reads back as does not change as the heap grows. */
  lemma IdSliceExtends(b1: seq<Block>, r1: Refs, b2: seq<Block>, r2: Refs, at: HeapToken,
                       id: Bytes, kinds: seq<FieldKind>, items: seq<seq<Value>>)
    requires Extends(b1, r1, b2, r2) && IdSliceAt(b1, r1, at, id, kinds, items)
    ensures IdSliceAt(b2, r2, at, id, kinds, items)
  {
    FieldExtends(b1, r1, b2, r2, at, StringKind);
    SliceExtends(b1, r1, b2, r2, FieldToken(at, 1), kinds);
  }

  /** Such a record is what a reader of an id followed by a `Vec` of flat
      records finds: `MapGroupShape`, and the record behind the pointer of
      `MapLctShape` and of each dispos list. */
  lemma IdSliceValue(blocks: seq<Block>, refs: Refs, at: HeapToken, id: Bytes, code: string, items: seq<seq<Value>>)
    requires |code| > 0 && IdSliceAt(blocks, refs, at, id, Kinds(code), items)
    ensures Sized(Record([Field(StringKind), VecField(Flat(code))])) && Size(Record([Field(StringKind), VecField(Flat(code))])) == 12
    ensures HeapValue(blocks, refs, at, Record([Field(StringKind), VecField(Flat(code))]))
      == Ok(Fields([Text(id), List(AsFields(items))]))
  {
    SliceValue(blocks, refs, FieldToken(at, 1), code, items);
    PairValueOf(blocks, refs, at, Field(StringKind), VecField(Flat(code)), Text(id), List(AsFields(items)));
  }

  /** `write_string` for the id, with only what the records below need:
      the symbols written before stay, and a plain id reads back. */
  method WriteId(dom: ElfWriteDomain, ctx: WriteCtx, id: Bytes, deduplicate: bool) returns (out: WriteCtx)
    requires dom.Ready(ctx)
    modifies dom
    ensures dom.Ready(out) && out.open == ctx.open && dom.relocations == old(dom.relocations)
    ensures old(dom.symbolDeclarations) <= dom.symbolDeclarations
    ensures Extends(ctx.blocks, ctx.refs, out.blocks, out.refs) && Untouched(ctx.blocks, out.blocks, ctx.Current())
    ensures out.Here() == FieldToken(ctx.Here(), 1)
    ensures Plain(id) ==> HeapField(out.blocks, out.refs, ctx.Here(), StringKind) == Ok(Text(id))
  {
    out := dom.WriteString(ctx, id, deduplicate);
  }

  /** `to_writer_unboxed`: the id (looked up among the strings already
      written when `deduplicate`), then the slice, with the symbol `name`
      over the block the slice's pointer refers to when one is given.  The
      12 bytes written read back as the id and the items. */
  method WriteIdSlice(dom: ElfWriteDomain, ctx: WriteCtx, id: Bytes, deduplicate: bool, kinds: seq<FieldKind>, items: seq<seq<Value>>,
                      name: Option<SymbolName>)
    returns (out: WriteCtx)
    requires dom.Ready(ctx) && AllConform(items, kinds)
    modifies dom
    ensures dom.Ready(out) && out.open == ctx.open && dom.relocations == old(dom.relocations)
    ensures Extends(ctx.blocks, ctx.refs, out.blocks, out.refs) && Untouched(ctx.blocks, out.blocks, ctx.Current())
    ensures out.Position() == ctx.Position() + 12
    ensures old(dom.symbolDeclarations) <= dom.symbolDeclarations
    ensures FieldToken(ctx.Here(), 1) in out.refs
    ensures name.Some? ==>
      && old(dom.symbolDeclarations) < dom.symbolDeclarations
      && dom.symbolDeclarations[|dom.symbolDeclarations| - 1]
         == SymbolDeclaration(name.value, out.refs[FieldToken(ctx.Here(), 1)], TruncU32(4 * |kinds| * |items|))
    ensures Plain(id) && PlainItems(items) && |items| < 0x1_0000_0000 ==>
      IdSliceAt(out.blocks, out.refs, ctx.Here(), id, kinds, items)
  {
    var c1 := WriteId(dom, ctx, id, deduplicate);
    out := dom.WriteSlice(c1, kinds, items, name);
    assert out.refs[FieldToken(ctx.Here(), 1)] == HeapToken(|c1.blocks|, 0);
    ExtendsTrans(ctx.blocks, ctx.refs, c1.blocks, c1.refs, out.blocks, out.refs);
    UntouchedTrans(ctx.blocks, c1.blocks, out.blocks, ctx.Current());
    if Plain(id) {
      FieldExtends(c1.blocks, c1.refs, out.blocks, out.refs, ctx.Here(), StringKind);
    }
  }

  /** Such a record at `at` reads back as its id, then its items behind a
      pointer up to the first default record. */
  ghost predicate IdTerminatedAt(blocks: seq<Block>, refs: Refs, at: HeapToken, id: Bytes, kinds: seq<FieldKind>, items: seq<seq<Value>>)
  {
    && |kinds| > 0
    && HeapField(blocks, refs, at, StringKind) == Ok(Text(id))
    && HeapUntilDefault(blocks, refs, FieldToken(at, 1), kinds) == Ok(items)
  }

  lemma IdTerminatedExtends(b1: seq<Block>, r1: Refs, b2: seq<Block>, r2: Refs, at: HeapToken,
                            id: Bytes, kinds: seq<FieldKind>, items: seq<seq<Value>>)
    requires |kinds| > 0
    requires Extends(b1, r1, b2, r2) && IdTerminatedAt(b1, r1, at, id, kinds, items)
    ensures IdTerminatedAt(b2, r2, at, id, kinds, items)
  {
    FieldExtends(b1, r1, b2, r2, at, StringKind);
    UntilDefaultExtends(b1, r1, b2, r2, FieldToken(at, 1), kinds);
  }

  /** Such a record is what a reader of an id followed by a null-terminated
      list of flat records finds: `ShopShape`. */
  lemma IdTerminatedValue(blocks: seq<Block>, refs: Refs, at: HeapToken, id: Bytes, code: string, items: seq<seq<Value>>)
    requires |code| > 0 && IdTerminatedAt(blocks, refs, at, id, Kinds(code), items)
    ensures Sized(Record([Field(StringKind), UntilDefault(Flat(code))])) && Size(Record([Field(StringKind), UntilDefault(Flat(code))])) == 8
    ensures HeapValue(blocks, refs, at, Record([Field(StringKind), UntilDefault(Flat(code))]))
      == Ok(Fields([Text(id), List(AsFields(items))]))
  {
    UntilDefaultValue(blocks, refs, FieldToken(at, 1), code, items);
    PairValueOf(blocks, refs, at, Field(StringKind), UntilDefault(Flat(code)), Text(id), List(AsFields(items)));
  }

  /** The id (looked up among the strings already written when
      `deduplicate`), then the items as a null-terminated slice
      under the symbol `name`, without a count.  The 8 bytes written read
      back as the id and the items when no item is the default record,
      which would end the list early. */
  method WriteIdTerminated(dom: ElfWriteDomain, ctx: WriteCtx, id: Bytes, deduplicate: bool, kinds: seq<FieldKind>, items: seq<seq<Value>>, name: SymbolName)
    returns (out: WriteCtx)
    requires dom.Ready(ctx) && AllConform(items, kinds) && WritableKinds(kinds)
    modifies dom
    ensures dom.Ready(out) && out.open == ctx.open && dom.relocations == old(dom.relocations)
    ensures Extends(ctx.blocks, ctx.refs, out.blocks, out.refs) && Untouched(ctx.blocks, out.blocks, ctx.Current())
    ensures out.Position() == ctx.Position() + 8
    ensures old(dom.symbolDeclarations) < dom.symbolDeclarations
    ensures FieldToken(ctx.Here(), 1) in out.refs
    ensures dom.symbolDeclarations[|dom.symbolDeclarations| - 1]
      == SymbolDeclaration(name, out.refs[FieldToken(ctx.Here(), 1)], TruncU32(4 * |kinds| * (|items| + 1)))
    ensures && Plain(id) && PlainItems(items) && |kinds| > 0
            && (forall k :: 0 <= k < |items| ==> items[k] != DefaultRecord(kinds)) ==>
      IdTerminatedAt(out.blocks, out.refs, ctx.Here(), id, kinds, items)
  {
    var c1 := WriteId(dom, ctx, id, deduplicate);
    out := dom.WriteNullTerminatedSlice(c1, kinds, items, Some(name));
    ExtendsTrans(ctx.blocks, ctx.refs, c1.blocks, c1.refs, out.blocks, out.refs);
    UntouchedTrans(ctx.blocks, c1.blocks, out.blocks, ctx.Current());
    if Plain(id) {
      FieldExtends(c1.blocks, c1.refs, out.blocks, out.refs, ctx.Here(), StringKind);
    }
  }
}
