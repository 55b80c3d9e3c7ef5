// `ElfWriteDomain`: the writer side of the relocation scheme.  Every string
// goes into a heap block of its own (or reuses an earlier one), every
// pointer field is a token the layout step turns into a zero word plus a
// relocation, and the domain collects the symbols to declare for the
// blocks it allocates.  The closure-taking writers (`write_box`,
// `write_slice`, `write_null_terminated_slice`, `write_symbol`) are split
// into the part before and the part after their closure.
module ElfWrite {
  import opened Wrappers
  import opened Bytes
  import opened SymbolNames
  import opened PointerUtil
  import opened Layouts
  import opened WriteContext
  import opened WriteState
  import Stream
  import Util

  /** A string that reads back as itself: valid UTF-8 (every Rust `String`
      is) and free of NUL bytes, which would cut it short. */
  predicate Plain(s: Bytes)
  {
    Util.ValidUtf8(s) && forall j :: 0 <= j < |s| ==> s[j] != 0
  }

  /** The field value has the Rust type the field kind stands for. */
  predicate Conforms(v: Value, kind: FieldKind)
  {
    match kind
    case WordKind => v.Word?
    case StringKind => v.Text?
    case OptStringKind => v.OptText?
    case PointerKind => false
  }

  predicate PlainValue(v: Value)
  {
    match v
    case Text(s) => Plain(s)
    case OptText(o) => o.Some? ==> Plain(o.value)
    case _ => true
  }

  predicate ConformsAll(values: seq<Value>, kinds: seq<FieldKind>)
  {
    |values| == |kinds| && forall k :: 0 <= k < |kinds| ==> Conforms(values[k], kinds[k])
  }

  predicate PlainAll(values: seq<Value>)
  {
    forall k :: 0 <= k < |values| ==> PlainValue(values[k])
  }

  /** The field kinds of a flat record code (see `Layouts.Flat`). */
  function Kinds(code: string): (r: seq<FieldKind>)
    ensures |r| == |code| && forall k :: 0 <= k < |code| ==> Flat(code).fields[k] == Field(r[k])
  {
    seq(|code|, k requires 0 <= k < |code| => KindOf(code[k]))
  }

  // ------------------------------------------------------------ strings

  /** The alignment of a new string block: none for a string of at most one
      byte after a string of at most two, 4 otherwise. */
  function StringAlignment(prevLen: nat, len: nat): nat
  {
    if prevLen <= 2 && len <= 1 then 0 else 4
  }

  /** The earlier token `write_string` reuses, if any: only when asked to
      deduplicate, only below the deduplication offset, and only for a
      string written before. */
  function Reused(deduplicate: bool, pos: nat, dedupSize: nat, stringMap: map<Bytes, HeapToken>, value: Bytes): Option<HeapToken>
  {
    if deduplicate && pos < dedupSize && value in stringMap then Some(stringMap[value]) else None
  }

  /** A string block reads back as its string. */
  lemma StringBlockReadsBack(blocks: seq<Block>, t: HeapToken, s: Bytes)
    requires Plain(s) && t.offset == 0 && t.block < |blocks|
    requires StartsWith(blocks[t.block].bytes, StringBlock(s))
    ensures HeapString(blocks, t) == Ok(s)
  {
    var b := blocks[t.block].bytes;
    assert b[0..|s|] == b[..|StringBlock(s)|][..|s|] == s;
    Util.ReadStringAt(b, 0, s);
  }

  /** `write_string` of `value` while block `cur` is written: the reused
      token, or a new block with an `Internal('.')` symbol over it; then the
      token written in `cur`. */
  function WriteStringSpec(dedupSize: nat, stringMap: map<Bytes, HeapToken>, symbols: seq<SymbolDeclaration>,
                           prevLen: nat, blocks: seq<Block>, refs: Refs, cur: nat, value: Bytes, deduplicate: bool): StringWrite
    requires cur < |blocks|
  {
    var here := HeapToken(cur, |blocks[cur].bytes|);
    match Reused(deduplicate, |blocks[cur].bytes|, dedupSize, stringMap, value)
    case Some(t) => StringWrite(stringMap, symbols, prevLen, Appended(blocks, cur, Zeros(4)), refs[here := t])
    case None =>
      var t := HeapToken(|blocks|, 0);
      StringWrite(
        if deduplicate then stringMap[value := t] else stringMap,
        symbols + [SymbolDeclaration(Internal('.'), t, TruncU32(|StringBlock(value)|))],
        if deduplicate then |value| else prevLen,
        Appended(blocks + [Block(StringAlignment(prevLen, |value|), StringBlock(value))], cur, Zeros(4)),
        refs[here := t])
  }

  /** The blocks as they are just before the token is written. */
  function StringBlocks(dedupSize: nat, stringMap: map<Bytes, HeapToken>, prevLen: nat, blocks: seq<Block>, cur: nat,
                        value: Bytes, deduplicate: bool): seq<Block>
    requires cur < |blocks|
  {
    match Reused(deduplicate, |blocks[cur].bytes|, dedupSize, stringMap, value)
    case Some(_) => blocks
    case None => blocks + [Block(StringAlignment(prevLen, |value|), StringBlock(value))]
  }

  /** A string write only adds to the heap. */
  lemma WriteStringExtends(dedupSize: nat, stringMap: map<Bytes, HeapToken>, symbols: seq<SymbolDeclaration>,
                           prevLen: nat, blocks: seq<Block>, refs: Refs, cur: nat, value: Bytes, deduplicate: bool)
    requires cur < |blocks|
    requires forall t :: t in refs ==> !Unwritten(blocks, t)
    ensures var w := WriteStringSpec(dedupSize, stringMap, symbols, prevLen, blocks, refs, cur, value, deduplicate);
      Extends(blocks, refs, w.blocks, w.refs) && Untouched(blocks, w.blocks, cur)
  {
    var w := WriteStringSpec(dedupSize, stringMap, symbols, prevLen, blocks, refs, cur, value, deduplicate);
    var mid := StringBlocks(dedupSize, stringMap, prevLen, blocks, cur, value, deduplicate);
    assert w.blocks == Appended(mid, cur, Zeros(4));
    assert Extends(blocks, refs, mid, refs) by {
      forall i | 0 <= i < |blocks|
        ensures StartsWith(mid[i].bytes, blocks[i].bytes)
      {
        assert mid[i].bytes[..|blocks[i].bytes|] == blocks[i].bytes;
      }
    }
    AppendedExtends(mid, refs, cur, Zeros(4));
    ExtendsTrans(blocks, refs, mid, refs, w.blocks, refs);
  }

  /** A string write keeps every remembered string in place, the new one
      included. */
  lemma WriteStringKeeps(dedupSize: nat, stringMap: map<Bytes, HeapToken>, symbols: seq<SymbolDeclaration>,
                         prevLen: nat, blocks: seq<Block>, refs: Refs, cur: nat, value: Bytes, deduplicate: bool)
    requires cur < |blocks| && StringsIn(stringMap, blocks)
    requires forall t :: t in refs ==> !Unwritten(blocks, t)
    ensures var w := WriteStringSpec(dedupSize, stringMap, symbols, prevLen, blocks, refs, cur, value, deduplicate);
      StringsIn(w.stringMap, w.blocks)
  {
    var w := WriteStringSpec(dedupSize, stringMap, symbols, prevLen, blocks, refs, cur, value, deduplicate);
    WriteStringExtends(dedupSize, stringMap, symbols, prevLen, blocks, refs, cur, value, deduplicate);
    StringsInExtends(stringMap, blocks, refs, w.blocks, w.refs);
    if Reused(deduplicate, |blocks[cur].bytes|, dedupSize, stringMap, value).None? && deduplicate {
      var t := HeapToken(|blocks|, 0);
      assert w.blocks[t.block].bytes == StringBlock(value);
      assert StringBlock(value)[..|StringBlock(value)|] == StringBlock(value);
    }
  }

  /** The zero word a string write leaves behind carries a token that reads
      back as the string. */
  lemma WriteStringReadsBack(dedupSize: nat, stringMap: map<Bytes, HeapToken>, symbols: seq<SymbolDeclaration>,
                             prevLen: nat, blocks: seq<Block>, refs: Refs, cur: nat, value: Bytes, deduplicate: bool)
    requires cur < |blocks| && StringsIn(stringMap, blocks) && Plain(value)
    requires forall t :: t in refs ==> !Unwritten(blocks, t)
    ensures var w := WriteStringSpec(dedupSize, stringMap, symbols, prevLen, blocks, refs, cur, value, deduplicate);
      HeapField(w.blocks, w.refs, HeapToken(cur, |blocks[cur].bytes|), StringKind) == Ok(Text(value))
  {
    var w := WriteStringSpec(dedupSize, stringMap, symbols, prevLen, blocks, refs, cur, value, deduplicate);
    var here := HeapToken(cur, |blocks[cur].bytes|);
    var mid := StringBlocks(dedupSize, stringMap, prevLen, blocks, cur, value, deduplicate);
    assert w.blocks == Appended(mid, cur, Zeros(4));
    ZeroWord();
    WordWritten(mid, cur, 0);
    assert mid[cur] == blocks[cur];
    var t := w.refs[here];
    match Reused(deduplicate, |blocks[cur].bytes|, dedupSize, stringMap, value)
    case Some(_) =>
      WriteStringExtends(dedupSize, stringMap, symbols, prevLen, blocks, refs, cur, value, deduplicate);
      StringsInExtends(stringMap, blocks, refs, w.blocks, w.refs);
      StringBlockReadsBack(w.blocks, t, value);
    case None =>
      assert w.blocks[t.block].bytes == StringBlock(value);
      assert StringBlock(value)[..|StringBlock(value)|] == StringBlock(value);
      StringBlockReadsBack(w.blocks, t, value);
  }

  /** With deduplication and below the deduplication offset, the string
      just written is remembered under the token written for it, so the
      next write of it below that offset reuses the same block. */
  lemma WriteStringRemembers(dedupSize: nat, stringMap: map<Bytes, HeapToken>, symbols: seq<SymbolDeclaration>,
                             prevLen: nat, blocks: seq<Block>, refs: Refs, cur: nat, value: Bytes, nextPos: nat)
    requires cur < |blocks| && |blocks[cur].bytes| < dedupSize && nextPos < dedupSize
    ensures var w := WriteStringSpec(dedupSize, stringMap, symbols, prevLen, blocks, refs, cur, value, true);
      Reused(true, nextPos, dedupSize, w.stringMap, value) == Some(w.refs[HeapToken(cur, |blocks[cur].bytes|)])
  {
  }

  /** No field of the record is a pointer: the writers only write words and
      strings. */
  predicate WritableKinds(kinds: seq<FieldKind>)
  {
    forall k :: 0 <= k < |kinds| ==> kinds[k] != PointerKind
  }

  /** The default record is what the null-terminated writers close a list
      with; it has the right kinds and reads back. */
  lemma DefaultRecordConforms(kinds: seq<FieldKind>)
    requires WritableKinds(kinds)
    ensures ConformsAll(DefaultRecord(kinds), kinds) && PlainAll(DefaultRecord(kinds))
  {
    assert Plain([]) by { assert Util.ValidUtf8([]); }
  }

  // ------------------------------------------------------------ slices

  predicate AllConform(items: seq<seq<Value>>, kinds: seq<FieldKind>)
  {
    forall k :: 0 <= k < |items| ==> ConformsAll(items[k], kinds)
  }

  predicate PlainItems(items: seq<seq<Value>>)
  {
    forall k :: 0 <= k < |items| ==> PlainAll(items[k])
  }

  /** What `write_slice` leaves after its block: the token of the block as a
      zero word, then the count.  Records that read in the block read back
      through that header as the slice. */
  lemma SliceWritten(c: WriteCtx, token: HeapToken, kinds: seq<FieldKind>, items: seq<seq<Value>>)
    requires c.Valid()
    ensures var out := c.WriteToken(token).WriteU32(TruncU32(|items|));
      && out.Valid() && out.open == c.open && out.Position() == c.Position() + 8
      && Extends(c.blocks, c.refs, out.blocks, out.refs) && Untouched(c.blocks, out.blocks, c.Current())
      && (RecordsAt(c.blocks, c.refs, token, kinds, items, |items|) && |items| < 0x1_0000_0000 ==>
            HeapSlice(out.blocks, out.refs, c.Here(), kinds) == Ok(items))
  {
    var cur := c.Current();
    var c1 := c.WriteToken(token);
    var out := c1.WriteU32(TruncU32(|items|));
    TokenExtends(c.blocks, c.refs, cur, token);
    AppendedExtends(c1.blocks, c1.refs, cur, U32ToBE(TruncU32(|items|)));
    ExtendsTrans(c.blocks, c.refs, c1.blocks, c1.refs, out.blocks, out.refs);
    AppendedUntouched(c.blocks, cur, Zeros(4));
    AppendedUntouched(c1.blocks, cur, U32ToBE(TruncU32(|items|)));
    UntouchedTrans(c.blocks, c1.blocks, out.blocks, cur);
    if RecordsAt(c.blocks, c.refs, token, kinds, items, |items|) && |items| < 0x1_0000_0000 {
      SliceHeaderReadsBack(c.blocks, c.refs, cur, token, kinds, items);
    }
  }

  lemma SliceHeaderReadsBack(blocks: seq<Block>, refs: Refs, cur: nat, token: HeapToken, kinds: seq<FieldKind>, items: seq<seq<Value>>)
    requires cur < |blocks| && HeapToken(cur, |blocks[cur].bytes|) !in refs && |items| < 0x1_0000_0000
    requires RecordsAt(blocks, refs, token, kinds, items, |items|)
    ensures var here := HeapToken(cur, |blocks[cur].bytes|);
      var b2 := Appended(Appended(blocks, cur, Zeros(4)), cur, U32ToBE(TruncU32(|items|)));
      HeapSlice(b2, refs[here := token], here, kinds) == Ok(items)
  {
    var n := TruncU32(|items|);
    assert n as nat == |items|;
    var here := HeapToken(cur, |blocks[cur].bytes|);
    var b1 := Appended(blocks, cur, Zeros(4));
    var b2 := Appended(b1, cur, U32ToBE(n));
    var r2 := refs[here := token];
    TokenExtends(blocks, refs, cur, token);
    AppendedExtends(b1, r2, cur, U32ToBE(n));
    ExtendsTrans(blocks, refs, b1, r2, b2, r2);
    ZeroWord();
    WordWritten(blocks, cur, 0);
    WordExtends(b1, r2, b2, r2, here);
    WordWritten(b1, cur, n);
    assert FieldToken(here, 1) == HeapToken(cur, |b1[cur].bytes|);
    RecordsExtend(blocks, refs, b2, r2, token, kinds, items, |items|);
    RecordsOf(b2, r2, token, kinds, items);
  }

  /** What `write_null_terminated_slice` leaves: the token of a block that
      holds the records and then the default record.  When no record is the
      default, they read back through the token up to the default. */
  lemma UntilDefaultWritten(c: WriteCtx, token: HeapToken, kinds: seq<FieldKind>, items: seq<seq<Value>>)
    requires c.Valid()
    ensures var out := c.WriteToken(token);
      && Extends(c.blocks, c.refs, out.blocks, out.refs) && Untouched(c.blocks, out.blocks, c.Current())
      && (&& |kinds| > 0 && token.block < |c.blocks| && token.offset == 0
          && RecordsAt(c.blocks, c.refs, token, kinds, items + [DefaultRecord(kinds)], |items| + 1)
          && (forall k :: 0 <= k < |items| ==> items[k] != DefaultRecord(kinds))
          ==> HeapUntilDefault(out.blocks, out.refs, c.Here(), kinds) == Ok(items))
  {
    TokenExtends(c.blocks, c.refs, c.Current(), token);
    AppendedUntouched(c.blocks, c.Current(), Zeros(4));
    if && |kinds| > 0 && token.block < |c.blocks| && token.offset == 0
       && RecordsAt(c.blocks, c.refs, token, kinds, items + [DefaultRecord(kinds)], |items| + 1)
       && (forall k :: 0 <= k < |items| ==> items[k] != DefaultRecord(kinds))
    {
      UntilDefaultReadsBack(c.blocks, c.refs, c.Current(), token, kinds, items);
    }
  }

  lemma UntilDefaultReadsBack(blocks: seq<Block>, refs: Refs, cur: nat, token: HeapToken, kinds: seq<FieldKind>, items: seq<seq<Value>>)
    requires cur < |blocks| && HeapToken(cur, |blocks[cur].bytes|) !in refs && |kinds| > 0
    requires token.block < |blocks| && token.offset == 0
    requires RecordsAt(blocks, refs, token, kinds, items + [DefaultRecord(kinds)], |items| + 1)
    requires forall k :: 0 <= k < |items| ==> items[k] != DefaultRecord(kinds)
    ensures var here := HeapToken(cur, |blocks[cur].bytes|);
      HeapUntilDefault(Appended(blocks, cur, Zeros(4)), refs[here := token], here, kinds) == Ok(items)
  {
    var here := HeapToken(cur, |blocks[cur].bytes|);
    var b2 := Appended(blocks, cur, Zeros(4));
    var r2 := refs[here := token];
    var all := items + [DefaultRecord(kinds)];
    TokenExtends(blocks, refs, cur, token);
    ZeroWord();
    WordWritten(blocks, cur, 0);
    RecordsExtend(blocks, refs, b2, r2, token, kinds, all, |all|);
    var read := RecordIn(b2, r2, token.block, kinds);
    var stride := 4 * |kinds|;
    RecordInWithin(b2, r2, token.block, kinds);
    forall k | 0 <= k <= |items|
      ensures read(Stream.RecordPos(0, stride, k)) == Ok(all[k])
    {
      assert read(Stream.RecordPos(0, stride, k)) == HeapRecord(b2, r2, RecordToken(token, kinds, k), kinds);
    }
    assert all[|items|] == DefaultRecord(kinds);
    Stream.ReadUntilOf(read, DefaultRecord(kinds), stride, |b2[token.block].bytes|, 0, items);
  }

  // ------------------------------------------------------------ write states

  /** The state one field of a derived `to_writer` leaves while block `cur`
      is written: a word appended as it is, a string or a present optional
      string through `write_string` with deduplication, an absent one as a
      zero word. */
  function FieldSpec(dedupSize: nat, w: StringWrite, cur: nat, kind: FieldKind, v: Value): (r: StringWrite)
    requires cur < |w.blocks| && Conforms(v, kind)
    ensures |r.blocks| >= |w.blocks|
  {
    match kind
    case WordKind => w.(blocks := Appended(w.blocks, cur, U32ToBE(v.word)))
    case StringKind => WriteStringSpec(dedupSize, w.stringMap, w.symbols, w.prevLen, w.blocks, w.refs, cur, v.text, true)
    case OptStringKind =>
      if v.optText.None? then w.(blocks := Appended(w.blocks, cur, U32ToBE(0)))
      else WriteStringSpec(dedupSize, w.stringMap, w.symbols, w.prevLen, w.blocks, w.refs, cur, v.optText.value, true)
  }

  /** The state after the first `n` fields of a record, in field order. */
  function RecordSpec(dedupSize: nat, w: StringWrite, cur: nat, kinds: seq<FieldKind>, values: seq<Value>, n: nat): (r: StringWrite)
    requires cur < |w.blocks| && ConformsAll(values, kinds) && n <= |kinds|
    ensures |r.blocks| >= |w.blocks|
    decreases n
  {
    if n == 0 then w
    else FieldSpec(dedupSize, RecordSpec(dedupSize, w, cur, kinds, values, n - 1), cur, kinds[n - 1], values[n - 1])
  }

  /** The state after the first `n` records, each written in full, in
      order. */
  function RecordsSpec(dedupSize: nat, w: StringWrite, cur: nat, kinds: seq<FieldKind>, items: seq<seq<Value>>, n: nat): (r: StringWrite)
    requires cur < |w.blocks| && AllConform(items, kinds) && n <= |items|
    ensures |r.blocks| >= |w.blocks|
    decreases n
  {
    if n == 0 then w
    else
      var prev := RecordsSpec(dedupSize, w, cur, kinds, items, n - 1);
      RecordSpec(dedupSize, prev, cur, kinds, items[n - 1], |kinds|)
  }

  lemma RecordSpecNext(dedupSize: nat, w: StringWrite, cur: nat, kinds: seq<FieldKind>, values: seq<Value>, n: nat,
                       before: StringWrite, after: StringWrite)
    requires cur < |w.blocks| && ConformsAll(values, kinds) && n < |kinds|
    requires before == RecordSpec(dedupSize, w, cur, kinds, values, n)
    requires after == FieldSpec(dedupSize, before, cur, kinds[n], values[n])
    ensures after == RecordSpec(dedupSize, w, cur, kinds, values, n + 1)
  {
  }

  lemma RecordsSpecNext(dedupSize: nat, w: StringWrite, cur: nat, kinds: seq<FieldKind>, items: seq<seq<Value>>, n: nat,
                        before: StringWrite, after: StringWrite)
    requires cur < |w.blocks| && AllConform(items, kinds) && n < |items|
    requires before == RecordsSpec(dedupSize, w, cur, kinds, items, n)
    requires after == RecordSpec(dedupSize, before, cur, kinds, items[n], |kinds|)
    ensures after == RecordsSpec(dedupSize, w, cur, kinds, items, n + 1)
  {
  }

  /** A well-formed context holding every remembered string can be
      written on. */
  lemma ReadyWritable(ctx: WriteCtx, w: StringWrite)
    requires ctx.Valid() && w.blocks == ctx.blocks && w.refs == ctx.refs && StringsIn(w.stringMap, w.blocks)
    ensures Writable(w, ctx.Current())
  {
  }

  /** A word appended to block `cur` grows the state and reads back. */
  lemma WordGrows(w: StringWrite, cur: nat, x: u32)
    requires Writable(w, cur)
    ensures var r := w.(blocks := Appended(w.blocks, cur, U32ToBE(x)));
      && Grown(w, r, cur) && |r.blocks[cur].bytes| == |w.blocks[cur].bytes| + 4
      && HeapWord(r.blocks, HeapToken(cur, |w.blocks[cur].bytes|)) == Ok(x)
  {
    var r := w.(blocks := Appended(w.blocks, cur, U32ToBE(x)));
    AppendedExtends(w.blocks, w.refs, cur, U32ToBE(x));
    StringsInExtends(w.stringMap, w.blocks, w.refs, r.blocks, r.refs);
    WordWritten(w.blocks, cur, x);
  }

  /** A string write grows the state by the four bytes of its token. */
  lemma StringGrows(dedupSize: nat, w: StringWrite, cur: nat, value: Bytes)
    requires Writable(w, cur)
    ensures var r := WriteStringSpec(dedupSize, w.stringMap, w.symbols, w.prevLen, w.blocks, w.refs, cur, value, true);
      Grown(w, r, cur) && |r.blocks[cur].bytes| == |w.blocks[cur].bytes| + 4
  {
    var r := WriteStringSpec(dedupSize, w.stringMap, w.symbols, w.prevLen, w.blocks, w.refs, cur, value, true);
    var mid := StringBlocks(dedupSize, w.stringMap, w.prevLen, w.blocks, cur, value, true);
    assert r.blocks == Appended(mid, cur, Zeros(4)) && mid[cur] == w.blocks[cur];
    WriteStringExtends(dedupSize, w.stringMap, w.symbols, w.prevLen, w.blocks, w.refs, cur, value, true);
    WriteStringKeeps(dedupSize, w.stringMap, w.symbols, w.prevLen, w.blocks, w.refs, cur, value, true);
  }

  /** The token a string write leaves is a zero word pointing at the
      string. */
  lemma StringPointsBack(dedupSize: nat, w: StringWrite, cur: nat, value: Bytes)
    requires Writable(w, cur) && Plain(value)
    ensures var r := WriteStringSpec(dedupSize, w.stringMap, w.symbols, w.prevLen, w.blocks, w.refs, cur, value, true);
      var t := HeapToken(cur, |w.blocks[cur].bytes|);
      HeapWord(r.blocks, t) == Ok(0) && t in r.refs && HeapString(r.blocks, r.refs[t]) == Ok(value)
  {
    WriteStringReadsBack(dedupSize, w.stringMap, w.symbols, w.prevLen, w.blocks, w.refs, cur, value, true);
  }

  /** One field grows the state by four bytes of block `cur`. */
  lemma FieldGrows(dedupSize: nat, w: StringWrite, cur: nat, kind: FieldKind, v: Value)
    requires Writable(w, cur) && Conforms(v, kind)
    ensures var r := FieldSpec(dedupSize, w, cur, kind, v);
      Grown(w, r, cur) && |r.blocks[cur].bytes| == |w.blocks[cur].bytes| + 4
  {
    match kind
    case WordKind => WordGrows(w, cur, v.word);
    case StringKind => StringGrows(dedupSize, w, cur, v.text);
    case OptStringKind =>
      if v.optText.None? {
        WordGrows(w, cur, 0);
      } else {
        StringGrows(dedupSize, w, cur, v.optText.value);
      }
  }

  /** A plain field value reads back where it was written. */
  lemma FieldReadsBack(dedupSize: nat, w: StringWrite, cur: nat, kind: FieldKind, v: Value)
    requires Writable(w, cur) && Conforms(v, kind) && PlainValue(v)
    ensures var r := FieldSpec(dedupSize, w, cur, kind, v);
      HeapField(r.blocks, r.refs, HeapToken(cur, |w.blocks[cur].bytes|), kind) == Ok(v)
  {
    match kind
    case WordKind => WordGrows(w, cur, v.word);
    case StringKind => StringPointsBack(dedupSize, w, cur, v.text);
    case OptStringKind =>
      if v.optText.None? {
        WordGrows(w, cur, 0);
        assert HeapToken(cur, |w.blocks[cur].bytes|) !in w.refs;
      } else {
        StringPointsBack(dedupSize, w, cur, v.optText.value);
      }
  }

  /** `r` is `w` with `n` fields written in block `cur`: grown by `4 * n`
      bytes there, and with plain values the fields read back from where
      the first one starts. */
  ghost predicate FieldsWritten(w: StringWrite, r: StringWrite, cur: nat, kinds: seq<FieldKind>, values: seq<Value>, n: nat)
  {
    && cur < |w.blocks| && Grown(w, r, cur)
    && |r.blocks[cur].bytes| == |w.blocks[cur].bytes| + 4 * n
    && (PlainAll(values) ==> FieldsAt(r.blocks, r.refs, HeapToken(cur, |w.blocks[cur].bytes|), kinds, values, n))
  }

  /** The first `n` fields grow the state by `4 * n` bytes of block `cur`,
      and with plain values they read back one after the other from where
      the record starts. */
  lemma {:induction false} RecordGrows(dedupSize: nat, w: StringWrite, cur: nat, kinds: seq<FieldKind>, values: seq<Value>, n: nat, r: StringWrite)
    requires Writable(w, cur) && ConformsAll(values, kinds) && n <= |kinds|
    requires r == RecordSpec(dedupSize, w, cur, kinds, values, n)
    ensures FieldsWritten(w, r, cur, kinds, values, n)
    decreases n, 1
  {
    if n == 0 {
      ExtendsRefl(w.blocks, w.refs);
    } else {
      RecordGrowsLast(dedupSize, w, cur, kinds, values, n, r);
    }
  }

  /** The induction step of `RecordGrows`. */
  lemma {:induction false} RecordGrowsLast(dedupSize: nat, w: StringWrite, cur: nat, kinds: seq<FieldKind>, values: seq<Value>, n: nat, r: StringWrite)
    requires Writable(w, cur) && ConformsAll(values, kinds) && 0 < n <= |kinds|
    requires r == RecordSpec(dedupSize, w, cur, kinds, values, n)
    ensures FieldsWritten(w, r, cur, kinds, values, n)
    decreases n, 0
  {
    var p := RecordSpec(dedupSize, w, cur, kinds, values, n - 1);
    RecordGrows(dedupSize, w, cur, kinds, values, n - 1, p);
    RecordGrowStep(dedupSize, w, p, r, cur, kinds, values, n);
  }

  /** Field `n - 1` on top of the fields before it. */
  lemma RecordGrowStep(dedupSize: nat, w: StringWrite, p: StringWrite, r: StringWrite, cur: nat,
                       kinds: seq<FieldKind>, values: seq<Value>, n: nat)
    requires ConformsAll(values, kinds) && 0 < n <= |kinds|
    requires FieldsWritten(w, p, cur, kinds, values, n - 1)
    requires p == RecordSpec(dedupSize, w, cur, kinds, values, n - 1) && r == RecordSpec(dedupSize, w, cur, kinds, values, n)
    ensures FieldsWritten(w, r, cur, kinds, values, n)
  {
    assert r == FieldSpec(dedupSize, p, cur, kinds[n - 1], values[n - 1]);
    FieldGrows(dedupSize, p, cur, kinds[n - 1], values[n - 1]);
    GrownTrans(w, p, r, cur);
    if PlainAll(values) {
      FieldReadStep(dedupSize, p, r, cur, HeapToken(cur, |w.blocks[cur].bytes|), kinds, values, n);
    }
  }

  /** With plain values, field `n - 1` reads back after the fields before
      it. */
  lemma FieldReadStep(dedupSize: nat, p: StringWrite, r: StringWrite, cur: nat, start: HeapToken,
                      kinds: seq<FieldKind>, values: seq<Value>, n: nat)
    requires ConformsAll(values, kinds) && PlainAll(values) && 0 < n <= |kinds|
    requires Writable(p, cur) && Grown(p, r, cur) && FieldsAt(p.blocks, p.refs, start, kinds, values, n - 1)
    requires start.block == cur && |p.blocks[cur].bytes| == start.offset + 4 * (n - 1)
    requires r == FieldSpec(dedupSize, p, cur, kinds[n - 1], values[n - 1])
    ensures FieldsAt(r.blocks, r.refs, start, kinds, values, n)
  {
    assert PlainValue(values[n - 1]);
    FieldReadsBack(dedupSize, p, cur, kinds[n - 1], values[n - 1]);
    assert FieldToken(start, n - 1) == HeapToken(cur, |p.blocks[cur].bytes|);
    FieldsNext(p.blocks, p.refs, r.blocks, r.refs, start, kinds, values, n - 1);
  }

  /** A whole record grows the state by its size, and with plain values
      reads back as a record where it starts. */
  lemma RecordWritten(dedupSize: nat, w: StringWrite, cur: nat, kinds: seq<FieldKind>, values: seq<Value>, r: StringWrite)
    requires Writable(w, cur) && ConformsAll(values, kinds)
    requires r == RecordSpec(dedupSize, w, cur, kinds, values, |kinds|)
    ensures Grown(w, r, cur) && |r.blocks[cur].bytes| == |w.blocks[cur].bytes| + 4 * |kinds|
    ensures PlainAll(values) ==> HeapRecord(r.blocks, r.refs, HeapToken(cur, |w.blocks[cur].bytes|), kinds) == Ok(values)
  {
    RecordGrows(dedupSize, w, cur, kinds, values, |kinds|, r);
    if PlainAll(values) {
      RecordOf(r.blocks, r.refs, HeapToken(cur, |w.blocks[cur].bytes|), kinds, values);
    }
  }

  /** `r` is `w` with `n` records written in block `cur`: grown by `n`
      record sizes there, and with plain values the records read back one
      after the other. */
  ghost predicate RecordsWritten(w: StringWrite, r: StringWrite, cur: nat, kinds: seq<FieldKind>, items: seq<seq<Value>>, n: nat)
  {
    && cur < |w.blocks| && Grown(w, r, cur)
    && |r.blocks[cur].bytes| == Stream.RecordPos(|w.blocks[cur].bytes|, 4 * |kinds|, n)
    && (PlainItems(items) ==> RecordsAt(r.blocks, r.refs, HeapToken(cur, |w.blocks[cur].bytes|), kinds, items, n))
  }

  /** The first `n` records grow the state by `n` record sizes of block
      `cur`, and with plain values they read back one after the other. */
  lemma {:induction false} RecordsGrow(dedupSize: nat, w: StringWrite, cur: nat, kinds: seq<FieldKind>, items: seq<seq<Value>>, n: nat, r: StringWrite)
    requires Writable(w, cur) && AllConform(items, kinds) && n <= |items|
    requires r == RecordsSpec(dedupSize, w, cur, kinds, items, n)
    ensures RecordsWritten(w, r, cur, kinds, items, n)
  {
    if n == 0 {
      ExtendsRefl(w.blocks, w.refs);
    } else {
      var p := RecordsSpec(dedupSize, w, cur, kinds, items, n - 1);
      RecordsGrow(dedupSize, w, cur, kinds, items, n - 1, p);
      RecordsGrowStep(dedupSize, w, p, r, cur, kinds, items, n);
    }
  }

  /** Record `n - 1` on top of the records before it. */
  lemma RecordsGrowStep(dedupSize: nat, w: StringWrite, p: StringWrite, r: StringWrite, cur: nat,
                        kinds: seq<FieldKind>, items: seq<seq<Value>>, n: nat)
    requires AllConform(items, kinds) && 0 < n <= |items|
    requires RecordsWritten(w, p, cur, kinds, items, n - 1)
    requires r == RecordSpec(dedupSize, p, cur, kinds, items[n - 1], |kinds|)
    ensures RecordsWritten(w, r, cur, kinds, items, n)
  {
    var start := HeapToken(cur, |w.blocks[cur].bytes|);
    RecordWritten(dedupSize, p, cur, kinds, items[n - 1], r);
    GrownTrans(w, p, r, cur);
    Stream.RecordPosNext(start.offset, 4 * |kinds|, n - 1);
    if PlainItems(items) {
      assert PlainAll(items[n - 1]);
      RecordsNext(p.blocks, p.refs, r.blocks, r.refs, start, kinds, items, n - 1);
    }
  }

  /** The state after the block of a slice: a new block with alignment 4
      at the end of the heap, every record written in it, and for the
      null-terminated kind the default record after them. */
  function SliceBlockSpec(dedupSize: nat, w: StringWrite, kinds: seq<FieldKind>, items: seq<seq<Value>>, terminated: bool): (r: StringWrite)
    requires AllConform(items, kinds) && (terminated ==> WritableKinds(kinds))
    ensures |r.blocks| > |w.blocks|
  {
    var cur := |w.blocks|;
    var w0 := w.(blocks := w.blocks + [Block(4, [])]);
    var w1 := RecordsSpec(dedupSize, w0, cur, kinds, items, |items|);
    if terminated then
      DefaultRecordConforms(kinds);
      RecordSpec(dedupSize, w1, cur, kinds, DefaultRecord(kinds), |kinds|)
    else w1
  }

  /** The symbol a slice writer declares over its block, when one is
      named. */
  function SliceSymbol(name: Option<SymbolName>, token: HeapToken, size: nat): seq<SymbolDeclaration>
  {
    if name.Some? then [SymbolDeclaration(name.value, token, TruncU32(size))] else []
  }

  /** The state after `write_slice` while block `cur` is written: the
      block, then its token and the record count in `cur`. */
  function SliceSpec(dedupSize: nat, w: StringWrite, cur: nat, kinds: seq<FieldKind>, items: seq<seq<Value>>,
                     name: Option<SymbolName>): (r: StringWrite)
    requires cur < |w.blocks| && AllConform(items, kinds)
  {
    var token := HeapToken(|w.blocks|, 0);
    var b := SliceBlockSpec(dedupSize, w, kinds, items, false);
    StringWrite(
      b.stringMap,
      b.symbols + SliceSymbol(name, token, Stream.RecordPos(0, 4 * |kinds|, |items|)),
      b.prevLen,
      Appended(Appended(b.blocks, cur, Zeros(4)), cur, U32ToBE(TruncU32(|items|))),
      b.refs[HeapToken(cur, |w.blocks[cur].bytes|) := token])
  }

  /** The state after `write_null_terminated_slice` while block `cur` is
      written: the block with the default record last, then its token in
      `cur`. */
  function NullTerminatedSliceSpec(dedupSize: nat, w: StringWrite, cur: nat, kinds: seq<FieldKind>, items: seq<seq<Value>>,
                                   name: Option<SymbolName>): (r: StringWrite)
    requires cur < |w.blocks| && AllConform(items, kinds) && WritableKinds(kinds)
  {
    var token := HeapToken(|w.blocks|, 0);
    var b := SliceBlockSpec(dedupSize, w, kinds, items, true);
    StringWrite(
      b.stringMap,
      b.symbols + SliceSymbol(name, token, Stream.RecordPos(0, 4 * |kinds|, |items| + 1)),
      b.prevLen,
      Appended(b.blocks, cur, Zeros(4)),
      b.refs[HeapToken(cur, |w.blocks[cur].bytes|) := token])
  }

  // ------------------------------------------------------------ the domain

  /** The string's own block: the bytes, the NUL and, for strings longer
      than two bytes, zeros up to a multiple of 4; the context is back in
      the block it was writing to. */
  method WriteStringBlock(ctx: WriteCtx, alignment: nat, value: Bytes) returns (token: HeapToken, out: WriteCtx)
    requires ctx.Valid()
    ensures out.Valid() && out.open == ctx.open && out.refs == ctx.refs
    ensures token == HeapToken(|ctx.blocks|, 0)
    ensures out.blocks == ctx.blocks + [Block(alignment, StringBlock(value))]
  {
    token := HeapToken(|ctx.blocks|, 0);
    var c1 := ctx.BeginBlock(alignment);
    var c2 := c1.WriteCStr(value);
    assert c2.blocks[token.block].bytes == value + [0];
    if |value| > 2 {
      c2 := c2.AlignTo(4);
      assert c2.blocks[token.block].bytes == value + [0] + Zeros(Padding(|value| + 1, 4));
    }
    assert c2.blocks[token.block].bytes == StringBlock(value);
    out := c2.EndBlock();
    assert out.blocks == ctx.blocks + [Block(alignment, StringBlock(value))];
  }

  /** `ElfWriteDomain`: the string pool, and the symbols and relocations
      collected while writing. */
  class ElfWriteDomain {
    var stringMap: map<Bytes, HeapToken>
    var symbolDeclarations: seq<SymbolDeclaration>
    var relocations: seq<RelDeclaration>
    const stringDedupSize: nat
    const applyDebugRelocations: bool
    var prevStringLen: nat

    constructor (stringDedupSize: nat, applyDebugRelocations: bool)
      ensures this.stringDedupSize == stringDedupSize && this.applyDebugRelocations == applyDebugRelocations
      ensures stringMap == map[] && symbolDeclarations == [] && relocations == [] && prevStringLen == 0
    {
      this.stringDedupSize := stringDedupSize;
      this.applyDebugRelocations := applyDebugRelocations;
      stringMap := map[];
      symbolDeclarations := [];
      relocations := [];
      prevStringLen := 0;
    }

    /** The string pool, the symbols and the heap, as the write-state
        functions describe them. */
    ghost function Snapshot(ctx: WriteCtx): StringWrite
      reads this
    {
      StringWrite(stringMap, symbolDeclarations, prevStringLen, ctx.blocks, ctx.refs)
    }

    /** The context is well formed and holds every remembered string. */
    ghost predicate Ready(ctx: WriteCtx)
      reads this
    {
      ctx.Valid() && StringsIn(stringMap, ctx.blocks)
    }

    method PutSymbol(symbol: SymbolDeclaration)
      modifies this
      ensures symbolDeclarations == old(symbolDeclarations) + [symbol]
      ensures stringMap == old(stringMap) && relocations == old(relocations) && prevStringLen == old(prevStringLen)
    {
      symbolDeclarations := symbolDeclarations + [symbol];
    }

    method PutRelocation(relocation: RelDeclaration)
      modifies this
      ensures relocations == old(relocations) + [relocation]
      ensures stringMap == old(stringMap) && symbolDeclarations == old(symbolDeclarations) && prevStringLen == old(prevStringLen)
    {
      relocations := relocations + [relocation];
    }

    /** The fresh block of `write_string`: `allocate_next_block_aligned`
        with the string's alignment, the string with its NUL and padding in
        it, and an `Internal('.')` symbol over it. */
    method AllocateString(ctx: WriteCtx, value: Bytes, deduplicate: bool) returns (token: HeapToken, out: WriteCtx)
      requires ctx.Valid()
      modifies this
      ensures out.Valid() && out.open == ctx.open && out.refs == ctx.refs && relocations == old(relocations)
      ensures token == HeapToken(|ctx.blocks|, 0)
      ensures out.blocks == ctx.blocks + [Block(StringAlignment(old(prevStringLen), |value|), StringBlock(value))]
      ensures symbolDeclarations == old(symbolDeclarations) + [SymbolDeclaration(Internal('.'), token, TruncU32(|StringBlock(value)|))]
      ensures stringMap == if deduplicate then old(stringMap)[value := token] else old(stringMap)
      ensures prevStringLen == if deduplicate then |value| else old(prevStringLen)
    {
      var alignment := StringAlignment(prevStringLen, |value|);
      if deduplicate {
        prevStringLen := |value|;
      }
      token, out := WriteStringBlock(ctx, alignment, value);
      PutSymbol(SymbolDeclaration(Internal('.'), token, TruncU32(|StringBlock(value)|)));
      if deduplicate {
        stringMap := stringMap[value := token];
      }
    }

    /** `write_string`. */
    method WriteString(ctx: WriteCtx, value: Bytes, deduplicate: bool) returns (out: WriteCtx)
      requires Ready(ctx)
      modifies this
      ensures Ready(out) && out.open == ctx.open && relocations == old(relocations)
      ensures old(symbolDeclarations) <= symbolDeclarations
      ensures var w := WriteStringSpec(stringDedupSize, old(stringMap), old(symbolDeclarations), old(prevStringLen),
                                      ctx.blocks, ctx.refs, ctx.Current(), value, deduplicate);
        && stringMap == w.stringMap && symbolDeclarations == w.symbols && prevStringLen == w.prevLen
        && out.blocks == w.blocks && out.refs == w.refs
      ensures Extends(ctx.blocks, ctx.refs, out.blocks, out.refs) && Untouched(ctx.blocks, out.blocks, ctx.Current())
      ensures out.Position() == ctx.Position() + 4
      ensures Plain(value) ==> HeapField(out.blocks, out.refs, ctx.Here(), StringKind) == Ok(Text(value))
    {
      ghost var m0, s0, p0 := stringMap, symbolDeclarations, prevStringLen;
      var existing := Reused(deduplicate, ctx.Position(), stringDedupSize, stringMap, value);
      var token: HeapToken;
      var c1 := ctx;
      if existing.Some? {
        token := existing.value;
      } else {
        token, c1 := AllocateString(ctx, value, deduplicate);
      }
      assert c1.blocks == StringBlocks(stringDedupSize, m0, p0, ctx.blocks, ctx.Current(), value, deduplicate);
      out := c1.WriteToken(token);
      ghost var w := WriteStringSpec(stringDedupSize, m0, s0, p0, ctx.blocks, ctx.refs, ctx.Current(), value, deduplicate);
      assert out.blocks == w.blocks && out.refs == w.refs;
      assert stringMap == w.stringMap && symbolDeclarations == w.symbols && prevStringLen == w.prevLen;
      WriteStringExtends(stringDedupSize, m0, s0, p0, ctx.blocks, ctx.refs, ctx.Current(), value, deduplicate);
      WriteStringKeeps(stringDedupSize, m0, s0, p0, ctx.blocks, ctx.refs, ctx.Current(), value, deduplicate);
      if Plain(value) {
        WriteStringReadsBack(stringDedupSize, m0, s0, p0, ctx.blocks, ctx.refs, ctx.Current(), value, deduplicate);
      }
    }

    /** `write_fallback::<u32>`: the word in big-endian order. */
    method WriteWord(ctx: WriteCtx, x: u32) returns (out: WriteCtx)
      requires Ready(ctx)
      ensures Ready(out) && out.open == ctx.open && out.refs == ctx.refs
      ensures out.blocks == Appended(ctx.blocks, ctx.Current(), U32ToBE(x))
      ensures Extends(ctx.blocks, ctx.refs, out.blocks, out.refs) && Untouched(ctx.blocks, out.blocks, ctx.Current())
      ensures out.Position() == ctx.Position() + 4
      ensures HeapWord(out.blocks, ctx.Here()) == Ok(x)
    {
      out := ctx.WriteU32(x);
      AppendedExtends(ctx.blocks, ctx.refs, ctx.Current(), U32ToBE(x));
      WordWritten(ctx.blocks, ctx.Current(), x);
      StringsInExtends(stringMap, ctx.blocks, ctx.refs, out.blocks, out.refs);
    }

    /** `write_string_optional`: a zero word for `None`, `write_string`
        otherwise. */
    method WriteStringOptional(ctx: WriteCtx, value: Option<Bytes>, deduplicate: bool) returns (out: WriteCtx)
      requires Ready(ctx)
      modifies this
      ensures Ready(out) && out.open == ctx.open && relocations == old(relocations)
      ensures old(symbolDeclarations) <= symbolDeclarations
      ensures value.None? ==>
        && out.blocks == Appended(ctx.blocks, ctx.Current(), U32ToBE(0)) && out.refs == ctx.refs
        && stringMap == old(stringMap) && symbolDeclarations == old(symbolDeclarations) && prevStringLen == old(prevStringLen)
      ensures value.Some? ==>
        var w := WriteStringSpec(stringDedupSize, old(stringMap), old(symbolDeclarations), old(prevStringLen),
                                 ctx.blocks, ctx.refs, ctx.Current(), value.value, deduplicate);
        && stringMap == w.stringMap && symbolDeclarations == w.symbols && prevStringLen == w.prevLen
        && out.blocks == w.blocks && out.refs == w.refs
      ensures Extends(ctx.blocks, ctx.refs, out.blocks, out.refs) && Untouched(ctx.blocks, out.blocks, ctx.Current())
      ensures out.Position() == ctx.Position() + 4
      ensures (value.Some? ==> Plain(value.value)) ==>
        HeapField(out.blocks, out.refs, ctx.Here(), OptStringKind) == Ok(OptText(value))
    {
      if value.None? {
        out := WriteWord(ctx, 0);
      } else {
        out := WriteString(ctx, value.value, deduplicate);
      }
    }

    /** One field of a derived `to_writer`: a u32 as it is, a string or an
        optional string through `write_unk`, which deduplicates. */
    method WriteField(ctx: WriteCtx, kind: FieldKind, v: Value) returns (out: WriteCtx)
      requires Ready(ctx) && Conforms(v, kind)
      modifies this
      ensures Ready(out) && out.open == ctx.open && relocations == old(relocations)
      ensures old(symbolDeclarations) <= symbolDeclarations
      ensures Extends(ctx.blocks, ctx.refs, out.blocks, out.refs) && Untouched(ctx.blocks, out.blocks, ctx.Current())
      ensures out.Position() == ctx.Position() + 4
      ensures out.Valid() && Snapshot(out) == FieldSpec(stringDedupSize, old(Snapshot(ctx)), ctx.Current(), kind, v)
      ensures PlainValue(v) ==> HeapField(out.blocks, out.refs, ctx.Here(), kind) == Ok(v)
    {
      if kind == WordKind {
        out := WriteWord(ctx, v.word);
      } else if kind == StringKind {
        out := WriteString(ctx, v.text, true);
      } else {
        out := WriteStringOptional(ctx, v.optText, true);
      }
    }

    /** A derived `to_writer` of a flat struct: its fields in declaration
        order, four bytes each. */
    method WriteRecord(ctx: WriteCtx, kinds: seq<FieldKind>, values: seq<Value>) returns (out: WriteCtx)
      requires Ready(ctx) && ConformsAll(values, kinds)
      modifies this
      ensures Ready(out) && out.open == ctx.open && relocations == old(relocations)
      ensures old(symbolDeclarations) <= symbolDeclarations
      ensures Extends(ctx.blocks, ctx.refs, out.blocks, out.refs) && Untouched(ctx.blocks, out.blocks, ctx.Current())
      ensures out.Position() == ctx.Position() + 4 * |kinds|
      ensures Snapshot(out) == RecordSpec(stringDedupSize, old(Snapshot(ctx)), ctx.Current(), kinds, values, |kinds|)
      ensures PlainAll(values) ==> HeapRecord(out.blocks, out.refs, ctx.Here(), kinds) == Ok(values)
    {
      ghost var w := Snapshot(ctx);
      out := WriteEachField(ctx, kinds, values);
      ReadyWritable(ctx, w);
      RecordWritten(stringDedupSize, w, ctx.Current(), kinds, values, Snapshot(out));
    }

    /** The loop of `WriteRecord`, which writes every field in turn. */
    method WriteEachField(ctx: WriteCtx, kinds: seq<FieldKind>, values: seq<Value>) returns (out: WriteCtx)
      requires Ready(ctx) && ConformsAll(values, kinds)
      modifies this
      ensures out.Valid() && out.open == ctx.open && relocations == old(relocations)
      ensures Snapshot(out) == RecordSpec(stringDedupSize, old(Snapshot(ctx)), ctx.Current(), kinds, values, |kinds|)
    {
      ghost var w := Snapshot(ctx);
      ghost var cur := ctx.Current();
      ReadyWritable(ctx, w);
      out := ctx;
      var k := 0;
      while k < |kinds|
        invariant k <= |kinds|
        invariant out.Valid() && out.open == ctx.open && relocations == old(relocations)
        invariant Snapshot(out) == RecordSpec(stringDedupSize, w, cur, kinds, values, k)
      {
        out := WriteNextField(out, w, cur, kinds, values, k);
        k := k + 1;
      }
    }

    /** Field `k` of a record: one turn of the loop of `WriteRecord`. */
    method WriteNextField(ctx: WriteCtx, ghost w: StringWrite, ghost cur: nat, kinds: seq<FieldKind>, values: seq<Value>, k: nat)
      returns (out: WriteCtx)
      requires ctx.Valid() && Writable(w, cur) && ConformsAll(values, kinds) && k < |kinds| && cur == ctx.Current()
      requires Snapshot(ctx) == RecordSpec(stringDedupSize, w, cur, kinds, values, k)
      modifies this
      ensures out.Valid() && out.open == ctx.open && relocations == old(relocations)
      ensures Snapshot(out) == RecordSpec(stringDedupSize, w, cur, kinds, values, k + 1)
    {
      ghost var before := Snapshot(ctx);
      RecordGrows(stringDedupSize, w, cur, kinds, values, k, before);
      out := WriteField(ctx, kinds[k], values[k]);
      RecordSpecNext(stringDedupSize, w, cur, kinds, values, k, before, Snapshot(out));
    }

    /** Flat records back to back: the loop of `write_slice` and
        `write_null_terminated_slice` over the derived `to_writer`. */
    method WriteRecords(ctx: WriteCtx, kinds: seq<FieldKind>, items: seq<seq<Value>>) returns (out: WriteCtx)
      requires Ready(ctx) && AllConform(items, kinds)
      modifies this
      ensures Ready(out) && out.open == ctx.open && relocations == old(relocations)
      ensures old(symbolDeclarations) <= symbolDeclarations
      ensures Extends(ctx.blocks, ctx.refs, out.blocks, out.refs) && Untouched(ctx.blocks, out.blocks, ctx.Current())
      ensures out.Here() == RecordToken(ctx.Here(), kinds, |items|)
      ensures Snapshot(out) == RecordsSpec(stringDedupSize, old(Snapshot(ctx)), ctx.Current(), kinds, items, |items|)
      ensures PlainItems(items) ==> RecordsAt(out.blocks, out.refs, ctx.Here(), kinds, items, |items|)
    {
      ghost var w := Snapshot(ctx);
      out := WriteEachRecord(ctx, kinds, items);
      ReadyWritable(ctx, w);
      RecordsGrow(stringDedupSize, w, ctx.Current(), kinds, items, |items|, Snapshot(out));
    }

    /** The loop of `WriteRecords`, which writes every record in turn. */
    method WriteEachRecord(ctx: WriteCtx, kinds: seq<FieldKind>, items: seq<seq<Value>>) returns (out: WriteCtx)
      requires Ready(ctx) && AllConform(items, kinds)
      modifies this
      ensures out.Valid() && out.open == ctx.open && relocations == old(relocations)
      ensures Snapshot(out) == RecordsSpec(stringDedupSize, old(Snapshot(ctx)), ctx.Current(), kinds, items, |items|)
    {
      ghost var w := Snapshot(ctx);
      ghost var cur := ctx.Current();
      ReadyWritable(ctx, w);
      out := ctx;
      var k := 0;
      while k < |items|
        invariant k <= |items|
        invariant out.Valid() && out.open == ctx.open && relocations == old(relocations)
        invariant Snapshot(out) == RecordsSpec(stringDedupSize, w, cur, kinds, items, k)
      {
        out := WriteNextRecord(out, w, cur, kinds, items, k);
        k := k + 1;
      }
    }

    /** Record `k`: one turn of the loop of `WriteRecords`. */
    method WriteNextRecord(ctx: WriteCtx, ghost w: StringWrite, ghost cur: nat, kinds: seq<FieldKind>, items: seq<seq<Value>>, k: nat)
      returns (out: WriteCtx)
      requires ctx.Valid() && Writable(w, cur) && AllConform(items, kinds) && k < |items| && cur == ctx.Current()
      requires Snapshot(ctx) == RecordsSpec(stringDedupSize, w, cur, kinds, items, k)
      modifies this
      ensures out.Valid() && out.open == ctx.open && relocations == old(relocations)
      ensures Snapshot(out) == RecordsSpec(stringDedupSize, w, cur, kinds, items, k + 1)
    {
      ghost var before := Snapshot(ctx);
      RecordsGrow(stringDedupSize, w, cur, kinds, items, k, before);
      out := WriteRecord(ctx, kinds, items[k]);
      RecordsSpecNext(stringDedupSize, w, cur, kinds, items, k, before, Snapshot(out));
    }

    /** The block of `write_slice` and `write_null_terminated_slice`:
        `allocate_next_block_aligned` with alignment 4, the records in it,
        and for the null-terminated kind the default record after them.
        The context is back in the block it was in, which is untouched. */
    method WriteSliceBlock(ctx: WriteCtx, kinds: seq<FieldKind>, items: seq<seq<Value>>, terminated: bool)
      returns (token: HeapToken, size: nat, out: WriteCtx)
      requires Ready(ctx) && AllConform(items, kinds) && (terminated ==> WritableKinds(kinds))
      modifies this
      ensures Ready(out) && out.open == ctx.open && relocations == old(relocations)
      ensures old(symbolDeclarations) <= symbolDeclarations
      ensures Extends(ctx.blocks, ctx.refs, out.blocks, out.refs) && Untouched(ctx.blocks, out.blocks, |ctx.blocks|)
      ensures token == HeapToken(|ctx.blocks|, 0) && token.block < |out.blocks|
      ensures size == Stream.RecordPos(0, 4 * |kinds|, if terminated then |items| + 1 else |items|)
      ensures Snapshot(out) == SliceBlockSpec(stringDedupSize, old(Snapshot(ctx)), kinds, items, terminated)
      ensures PlainItems(items) ==>
        var all := if terminated then items + [DefaultRecord(kinds)] else items;
        RecordsAt(out.blocks, out.refs, token, kinds, all, |all|)
    {
      ghost var w := Snapshot(ctx);
      token := HeapToken(|ctx.blocks|, 0);
      var c1 := ctx.BeginBlock(4);
      NewBlockExtends(ctx.blocks, ctx.refs, 4);
      StringsInExtends(stringMap, ctx.blocks, ctx.refs, c1.blocks, c1.refs);
      assert Snapshot(c1) == w.(blocks := w.blocks + [Block(4, [])]);
      var c2 := WriteRecords(c1, kinds, items);
      ExtendsTrans(ctx.blocks, ctx.refs, c1.blocks, c1.refs, c2.blocks, c2.refs);
      if terminated {
        c2 := WriteTerminator(ctx, c2, token, kinds, items);
      }
      size := c2.Position();
      out := c2.EndBlock();
    }

    /** The default record that closes a null-terminated slice. */
    method WriteTerminator(ctx: WriteCtx, c: WriteCtx, ghost token: HeapToken, kinds: seq<FieldKind>, items: seq<seq<Value>>)
      returns (out: WriteCtx)
      requires Ready(c) && WritableKinds(kinds) && token == HeapToken(|ctx.blocks|, 0) && c.Here() == RecordToken(token, kinds, |items|)
      requires Extends(ctx.blocks, ctx.refs, c.blocks, c.refs) && Untouched(ctx.blocks, c.blocks, |ctx.blocks|)
      requires PlainItems(items) ==> RecordsAt(c.blocks, c.refs, token, kinds, items, |items|)
      modifies this
      ensures Ready(out) && out.open == c.open && relocations == old(relocations)
      ensures old(symbolDeclarations) <= symbolDeclarations
      ensures Extends(ctx.blocks, ctx.refs, out.blocks, out.refs) && Untouched(ctx.blocks, out.blocks, |ctx.blocks|)
      ensures out.Position() == Stream.RecordPos(0, 4 * |kinds|, |items| + 1)
      ensures (DefaultRecordConforms(kinds); Snapshot(out) == RecordSpec(stringDedupSize, old(Snapshot(c)), c.Current(), kinds, DefaultRecord(kinds), |kinds|))
      ensures PlainItems(items) ==>
        var all := items + [DefaultRecord(kinds)];
        RecordsAt(out.blocks, out.refs, token, kinds, all, |all|)
    {
      DefaultRecordConforms(kinds);
      out := WriteRecord(c, kinds, DefaultRecord(kinds));
      ExtendsTrans(ctx.blocks, ctx.refs, c.blocks, c.refs, out.blocks, out.refs);
      UntouchedTrans(ctx.blocks, c.blocks, out.blocks, |ctx.blocks|);
      Stream.RecordPosNext(0, 4 * |kinds|, |items|);
      if PlainItems(items) {
        ghost var all := items + [DefaultRecord(kinds)];
        assert RecordsAt(c.blocks, c.refs, token, kinds, all, |items|);
        RecordsNext(c.blocks, c.refs, out.blocks, out.refs, token, kinds, all, |items|);
      }
    }

    /** `write_slice` of flat records: the block, its token, the count, and
        a symbol over the block when one is named. */
    method WriteSlice(ctx: WriteCtx, kinds: seq<FieldKind>, items: seq<seq<Value>>, name: Option<SymbolName>)
      returns (out: WriteCtx)
      requires Ready(ctx) && AllConform(items, kinds)
      modifies this
      ensures Ready(out) && out.open == ctx.open && relocations == old(relocations)
      ensures old(symbolDeclarations) <= symbolDeclarations
      ensures Extends(ctx.blocks, ctx.refs, out.blocks, out.refs) && Untouched(ctx.blocks, out.blocks, ctx.Current())
      ensures out.Position() == ctx.Position() + 8
      ensures ctx.Here() in out.refs && out.refs[ctx.Here()] == HeapToken(|ctx.blocks|, 0)
      ensures name.Some? ==>
        && |symbolDeclarations| > |old(symbolDeclarations)|
        && symbolDeclarations[|symbolDeclarations| - 1]
           == SymbolDeclaration(name.value, HeapToken(|ctx.blocks|, 0), TruncU32(4 * |kinds| * |items|))
      ensures Snapshot(out) == SliceSpec(stringDedupSize, old(Snapshot(ctx)), ctx.Current(), kinds, items, name)
      ensures PlainItems(items) && |items| < 0x1_0000_0000 ==> HeapSlice(out.blocks, out.refs, ctx.Here(), kinds) == Ok(items)
    {
      var token, size, c1 := WriteSliceBlock(ctx, kinds, items, false);
      assert c1.Here() == ctx.Here() by {
        assert c1.blocks[ctx.Current()] == ctx.blocks[ctx.Current()];
      }
      SliceWritten(c1, token, kinds, items);
      out := c1.WriteToken(token).WriteU32(TruncU32(|items|));
      StringsInExtends(stringMap, c1.blocks, c1.refs, out.blocks, out.refs);
      ExtendsTrans(ctx.blocks, ctx.refs, c1.blocks, c1.refs, out.blocks, out.refs);
      UntouchedNone(ctx.blocks, c1.blocks, ctx.Current());
      UntouchedTrans(ctx.blocks, c1.blocks, out.blocks, ctx.Current());
      if name.Some? {
        PutSymbol(SymbolDeclaration(name.value, token, TruncU32(size)));
      }
    }

    /** `write_null_terminated_slice` of flat records: the block with the
        records and a default record after them, its token, and a symbol
        over the block when one is named.  No count is written. */
    method WriteNullTerminatedSlice(ctx: WriteCtx, kinds: seq<FieldKind>, items: seq<seq<Value>>, name: Option<SymbolName>)
      returns (out: WriteCtx)
      requires Ready(ctx) && AllConform(items, kinds) && WritableKinds(kinds)
      modifies this
      ensures Ready(out) && out.open == ctx.open && relocations == old(relocations)
      ensures old(symbolDeclarations) <= symbolDeclarations
      ensures Extends(ctx.blocks, ctx.refs, out.blocks, out.refs) && Untouched(ctx.blocks, out.blocks, ctx.Current())
      ensures out.Position() == ctx.Position() + 4
      ensures ctx.Here() in out.refs && out.refs[ctx.Here()] == HeapToken(|ctx.blocks|, 0)
      ensures name.Some? ==>
        && |symbolDeclarations| > |old(symbolDeclarations)|
        && symbolDeclarations[|symbolDeclarations| - 1]
           == SymbolDeclaration(name.value, HeapToken(|ctx.blocks|, 0), TruncU32(4 * |kinds| * (|items| + 1)))
      ensures Snapshot(out) == NullTerminatedSliceSpec(stringDedupSize, old(Snapshot(ctx)), ctx.Current(), kinds, items, name)
      ensures && PlainItems(items) && |kinds| > 0
              && (forall k :: 0 <= k < |items| ==> items[k] != DefaultRecord(kinds)) ==>
        HeapUntilDefault(out.blocks, out.refs, ctx.Here(), kinds) == Ok(items)
    {
      var token, size, c1 := WriteSliceBlock(ctx, kinds, items, true);
      assert c1.Here() == ctx.Here() by {
        assert c1.blocks[ctx.Current()] == ctx.blocks[ctx.Current()];
      }
      UntilDefaultWritten(c1, token, kinds, items);
      out := c1.WriteToken(token);
      StringsInExtends(stringMap, c1.blocks, c1.refs, out.blocks, out.refs);
      ExtendsTrans(ctx.blocks, ctx.refs, c1.blocks, c1.refs, out.blocks, out.refs);
      UntouchedNone(ctx.blocks, c1.blocks, ctx.Current());
      UntouchedTrans(ctx.blocks, c1.blocks, out.blocks, ctx.Current());
      if name.Some? {
        PutSymbol(SymbolDeclaration(name.value, token, TruncU32(size)));
      }
    }

    /** `write_box` and `write_symbol` before their closures: a new block
        with alignment 4 becomes the one being written. */
    method BeginBox(ctx: WriteCtx) returns (token: HeapToken, inner: WriteCtx)
      requires Ready(ctx)
      ensures Ready(inner) && inner == ctx.BeginBlock(4)
      ensures token == HeapToken(|ctx.blocks|, 0) && token == inner.Here()
      ensures Extends(ctx.blocks, ctx.refs, inner.blocks, inner.refs) && Untouched(ctx.blocks, inner.blocks, |ctx.blocks|)
    {
      token := HeapToken(|ctx.blocks|, 0);
      inner := ctx.BeginBlock(4);
      NewBlockExtends(ctx.blocks, ctx.refs, 4);
      StringsInExtends(stringMap, ctx.blocks, ctx.refs, inner.blocks, inner.refs);
    }

    /** `write_box` after its closure: back in the enclosing block, the
        token of the box written there, and a symbol over everything the
        closure wrote when one is named. */
    method EndBox(inner: WriteCtx, token: HeapToken, name: Option<SymbolName>) returns (out: WriteCtx)
      requires Ready(inner) && |inner.open| > 1
      modifies this
      ensures Ready(out) && out == inner.EndBlock().WriteToken(token)
      ensures Extends(inner.blocks, inner.refs, out.blocks, out.refs) && Untouched(inner.blocks, out.blocks, inner.EndBlock().Current())
      ensures out.Position() == inner.EndBlock().Position() + 4
      ensures HeapBox(out.blocks, out.refs, inner.EndBlock().Here()) == Ok(token)
      ensures stringMap == old(stringMap) && relocations == old(relocations) && prevStringLen == old(prevStringLen)
      ensures symbolDeclarations == old(symbolDeclarations)
        + (if name.Some? then [SymbolDeclaration(name.value, token, TruncU32(inner.Position()))] else [])
    {
      var size := inner.Position();
      var c1 := inner.EndBlock();
      out := c1.WriteToken(token);
      TokenExtends(c1.blocks, c1.refs, c1.Current(), token);
      AppendedUntouched(c1.blocks, c1.Current(), Zeros(4));
      StringsInExtends(stringMap, c1.blocks, c1.refs, out.blocks, out.refs);
      ZeroWord();
      WordWritten(c1.blocks, c1.Current(), 0);
      if name.Some? {
        PutSymbol(SymbolDeclaration(name.value, token, TruncU32(size)));
      }
    }

    /** `write_symbol` after its closure: an unmangled symbol from the
        token taken where the closure started over everything it wrote. */
    method EndSymbol(ctx: WriteCtx, name: Bytes, token: HeapToken)
      requires ctx.Valid() && token.block == ctx.Current() && token.offset <= ctx.Position()
      modifies this
      ensures symbolDeclarations == old(symbolDeclarations)
        + [SymbolDeclaration(Unmangled(name), token, TruncU32(ctx.Position() - token.offset))]
      ensures stringMap == old(stringMap) && relocations == old(relocations) && prevStringLen == old(prevStringLen)
    {
      PutSymbol(SymbolDeclaration(Unmangled(name), token, TruncU32(ctx.Position() - token.offset)));
    }

    /** `write_pointer_debug`: the pointer with the debug mark, in place of
        the zero word. */
    method WritePointerDebug(writer: Stream.ByteWriter, value: Pointer)
      modifies writer
      ensures writer.buf == Stream.Overwrite(old(writer.buf), old(writer.pos), U32ToBE(OrDebugMark(value.value)))
      ensures writer.pos == old(writer.pos) + 4
    {
      writer.WriteU32(OrDebugMark(value.value));
    }

    /** `apply_reference`: a relocation from the writer's position to the
        heap offset, and with debug relocations the marked offset (cut to 32
        bits) written there. */
    method ApplyReference(writer: Stream.ByteWriter, heapOffset: nat)
      modifies this, writer
      ensures relocations == old(relocations) + [RelDeclaration(old(writer.pos), heapOffset)]
      ensures stringMap == old(stringMap) && symbolDeclarations == old(symbolDeclarations) && prevStringLen == old(prevStringLen)
      ensures applyDebugRelocations ==>
        && writer.buf == Stream.Overwrite(old(writer.buf), old(writer.pos), U32ToBE(OrDebugMark(TruncU32(heapOffset))))
        && writer.pos == old(writer.pos) + 4
      ensures !applyDebugRelocations ==> writer.buf == old(writer.buf) && writer.pos == old(writer.pos)
    {
      PutRelocation(RelDeclaration(writer.pos, heapOffset));
      if applyDebugRelocations {
        WritePointerDebug(writer, Pointer(TruncU32(heapOffset)));
      }
    }
  }
}
