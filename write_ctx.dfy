// vivibin's write context as the ELF writers use it: heap blocks written
// one at a time and only ever appended to, and 4-byte tokens that refer to
// a place in some block.  How `to_buffer` lays the blocks out in the file
// is not part of this model; what a reader would find in what was written
// is stated on the blocks and the references themselves (`HeapField`,
// `HeapRecord`, `HeapSlice`, `HeapUntilDefault`), each following the
// `ElfReadDomain` reader of the same field once every token has become a
// relocated zero word.
module WriteContext {
  import opened Wrappers
  import opened Bytes
  import opened SymbolNames
  import opened Layouts
  import Stream
  import Util

  /** A heap block: the alignment it was allocated with and its bytes. */
  datatype Block = Block(align: nat, bytes: Bytes)

  /** The tokens written so far: where each one sits and where it points. */
  type Refs = map<HeapToken, HeapToken>

  /** `at` lies at or past the end of everything written so far. */
  predicate Unwritten(blocks: seq<Block>, at: HeapToken)
  {
    at.block >= |blocks| || at.offset >= |blocks[at.block].bytes|
  }

  /** Block `i` with `b` appended. */
  function Appended(blocks: seq<Block>, i: nat, b: Bytes): (r: seq<Block>)
    requires i < |blocks|
    ensures |r| == |blocks| && r[i].bytes == blocks[i].bytes + b
  {
    blocks[i := Block(blocks[i].align, blocks[i].bytes + b)]
  }

  /** Writing only adds: every block keeps its alignment and its bytes as a
      prefix, every token stays, and new tokens sit past the old bytes. */
  ghost predicate Extends(b1: seq<Block>, r1: Refs, b2: seq<Block>, r2: Refs)
  {
    && |b1| <= |b2|
    && (forall i :: 0 <= i < |b1| ==> b2[i].align == b1[i].align && StartsWith(b2[i].bytes, b1[i].bytes))
    && (forall t :: t in r1 ==> t in r2 && r2[t] == r1[t])
    && (forall t :: t in r2 && t !in r1 ==> Unwritten(b1, t))
  }

  lemma ExtendsRefl(b: seq<Block>, r: Refs)
    ensures Extends(b, r, b, r)
  {
    forall i | 0 <= i < |b|
      ensures StartsWith(b[i].bytes, b[i].bytes)
    {
      assert b[i].bytes[..|b[i].bytes|] == b[i].bytes;
    }
  }

  lemma ExtendsTrans(b1: seq<Block>, r1: Refs, b2: seq<Block>, r2: Refs, b3: seq<Block>, r3: Refs)
    requires Extends(b1, r1, b2, r2) && Extends(b2, r2, b3, r3)
    ensures Extends(b1, r1, b3, r3)
  {
    forall i | 0 <= i < |b1|
      ensures StartsWith(b3[i].bytes, b1[i].bytes)
    {
      var n := |b1[i].bytes|;
      assert b3[i].bytes[..n] == b3[i].bytes[..|b2[i].bytes|][..n];
    }
  }

  /** Appending to a block extends the heap. */
  lemma AppendedExtends(blocks: seq<Block>, refs: Refs, i: nat, b: Bytes)
    requires i < |blocks|
    ensures Extends(blocks, refs, Appended(blocks, i, b), refs)
  {
    var r := Appended(blocks, i, b);
    forall j | 0 <= j < |blocks|
      ensures StartsWith(r[j].bytes, blocks[j].bytes)
    {
      assert r[j].bytes[..|blocks[j].bytes|] == blocks[j].bytes;
    }
  }

  /** A token written where block `cur` ends extends the heap. */
  lemma TokenExtends(blocks: seq<Block>, refs: Refs, cur: nat, t: HeapToken)
    requires cur < |blocks| && HeapToken(cur, |blocks[cur].bytes|) !in refs
    ensures Extends(blocks, refs, Appended(blocks, cur, Zeros(4)), refs[HeapToken(cur, |blocks[cur].bytes|) := t])
  {
    AppendedExtends(blocks, refs, cur, Zeros(4));
  }

  /** Of the blocks in `b1`, only block `cur` may differ in `b2`. */
  ghost predicate Untouched(b1: seq<Block>, b2: seq<Block>, cur: nat)
  {
    |b1| <= |b2| && forall i :: 0 <= i < |b1| && i != cur ==> b2[i] == b1[i]
  }

  /** Appending to block `i` touches only block `i`. */
  lemma AppendedUntouched(blocks: seq<Block>, i: nat, b: Bytes)
    requires i < |blocks|
    ensures Untouched(blocks, Appended(blocks, i, b), i)
  {
  }

  /** Nothing old touched means nothing but `cur` touched. */
  lemma UntouchedNone(b1: seq<Block>, b2: seq<Block>, cur: nat)
    requires Untouched(b1, b2, |b1|)
    ensures Untouched(b1, b2, cur)
  {
  }

  lemma UntouchedTrans(b1: seq<Block>, b2: seq<Block>, b3: seq<Block>, cur: nat)
    requires Untouched(b1, b2, cur) && Untouched(b2, b3, cur)
    ensures Untouched(b1, b3, cur)
  {
  }

  /** The write context: the blocks, the stack of blocks being written
      (innermost last) and the tokens.  It is a value here: every operation
      returns the context it leaves behind. */
  datatype WriteCtx = WriteCtx(blocks: seq<Block>, open: seq<nat>, refs: Refs)
  {
    /** Open blocks exist, and every token sits on four written bytes. */
    ghost predicate Valid()
    {
      && |open| > 0
      && (forall i :: 0 <= i < |open| ==> open[i] < |blocks|)
      && (forall t :: t in refs ==> t.block < |blocks| && t.offset + 4 <= |blocks[t.block].bytes|)
    }

    /** The block being written. */
    function Current(): (b: nat)
      requires Valid()
      ensures b < |blocks|
    {
      open[|open| - 1]
    }

    /** `ctx.position()`: the offset reached in the block being written. */
    function Position(): nat
      requires Valid()
    {
      |blocks[Current()].bytes|
    }

    /** `heap_token_at_current_pos`: nothing has been written there yet. */
    function Here(): (t: HeapToken)
      requires Valid()
      ensures Unwritten(blocks, t) && t !in refs
    {
      HeapToken(Current(), Position())
    }

    /** Bytes at the end of the block being written. */
    function Write(b: Bytes): (r: WriteCtx)
      requires Valid()
      ensures r.Valid() && r.open == open && r.refs == refs
      ensures r.blocks == Appended(blocks, Current(), b)
      ensures r.Position() == Position() + |b|
    {
      WriteCtx(Appended(blocks, Current(), b), open, refs)
    }

    function WriteU32(x: u32): (r: WriteCtx)
      requires Valid()
      ensures r.Valid() && r.open == open && r.refs == refs
      ensures r.blocks == Appended(blocks, Current(), U32ToBE(x))
      ensures r.Position() == Position() + 4
    {
      Write(U32ToBE(x))
    }

    /** `write_c_str`: the bytes and a NUL. */
    function WriteCStr(s: Bytes): (r: WriteCtx)
      requires Valid()
      ensures r.Valid() && r.open == open && r.refs == refs
      ensures r.blocks == Appended(blocks, Current(), s + [0])
      ensures r.Position() == Position() + |s| + 1
    {
      Write(s + [0])
    }

    /** `align_to(n)`: zeros up to the next multiple of `n`. */
    function AlignTo(n: nat): (r: WriteCtx)
      requires Valid()
      ensures r.Valid() && r.open == open && r.refs == refs
      ensures r.blocks == Appended(blocks, Current(), Zeros(Padding(Position(), n)))
      ensures n > 1 ==> r.Position() % n == 0
    {
      Write(Zeros(Padding(Position(), n)))
    }

    /** `write_token::<4>`: a zero word to be relocated to `t`. */
    function WriteToken(t: HeapToken): (r: WriteCtx)
      requires Valid()
      ensures r.Valid() && r.open == open
      ensures r.refs == refs[Here() := t]
      ensures r.blocks == Appended(blocks, Current(), Zeros(4))
      ensures r.Position() == Position() + 4
    {
      WriteCtx(Appended(blocks, Current(), Zeros(4)), open, refs[Here() := t])
    }

    /** The first half of `allocate_next_block_aligned`: a new empty block
        becomes the one being written; its token is `NewBlock()`. */
    function BeginBlock(align: nat): (r: WriteCtx)
      requires Valid()
      ensures r.Valid() && r.refs == refs
      ensures r.blocks == blocks + [Block(align, [])]
      ensures r.open == open + [|blocks|]
      ensures r.Current() == |blocks| && r.Position() == 0
    {
      WriteCtx(blocks + [Block(align, [])], open + [|blocks|], refs)
    }

    /** The second half: writing goes back to the enclosing block. */
    function EndBlock(): (r: WriteCtx)
      requires Valid() && |open| > 1
      ensures r.Valid() && r.blocks == blocks && r.refs == refs
      ensures r.open == open[..|open| - 1]
    {
      WriteCtx(blocks, open[..|open| - 1], refs)
    }
  }

  /** A fresh context: one empty block being written. */
  const EmptyCtx := WriteCtx([Block(0, [])], [0], map[])

  /** Two contexts over the same open blocks, the second `n` bytes
      further on: its write position is `n` bytes after the first's. */
  lemma HereAdvanced(a: WriteCtx, b: WriteCtx, n: nat)
    requires a.Valid() && b.Valid() && a.open == b.open && b.Position() == a.Position() + n
    ensures b.Here() == HeapToken(a.Here().block, a.Here().offset + n)
  {
  }

  /** A box written from `ctx`: a new block opened (`inner`), written up
      to `body` without touching any other block, closed, and its token
      written where `ctx` stood.  The heap only grows, only the block of
      `ctx` changes, and the token is the box's pointer field. */
  lemma BoxFrame(ctx: WriteCtx, inner: WriteCtx, body: WriteCtx, out: WriteCtx, token: HeapToken)
    requires ctx.Valid() && inner == ctx.BeginBlock(4) && token == HeapToken(|ctx.blocks|, 0)
    requires body.Valid() && body.open == inner.open
    requires Extends(inner.blocks, inner.refs, body.blocks, body.refs) && Untouched(inner.blocks, body.blocks, |ctx.blocks|)
    requires out == body.EndBlock().WriteToken(token)
    ensures body.EndBlock().Here() == ctx.Here()
    ensures out.Valid() && out.open == ctx.open && out.Position() == ctx.Position() + 4
    ensures Extends(ctx.blocks, ctx.refs, body.blocks, body.refs) && Untouched(ctx.blocks, body.blocks, ctx.Current())
    ensures Extends(ctx.blocks, ctx.refs, out.blocks, out.refs) && Untouched(ctx.blocks, out.blocks, ctx.Current())
    ensures ctx.Here() in out.refs && out.refs[ctx.Here()] == token
  {
    NewBlockExtends(ctx.blocks, ctx.refs, 4);
    ExtendsTrans(ctx.blocks, ctx.refs, inner.blocks, inner.refs, body.blocks, body.refs);
    var closed := body.EndBlock();
    assert closed.open == ctx.open;
    TokenExtends(closed.blocks, closed.refs, closed.Current(), token);
    ExtendsTrans(ctx.blocks, ctx.refs, closed.blocks, closed.refs, out.blocks, out.refs);
    AppendedUntouched(closed.blocks, closed.Current(), Zeros(4));
  }

  /** A new block extends the heap. */
  lemma NewBlockExtends(blocks: seq<Block>, refs: Refs, align: nat)
    ensures Extends(blocks, refs, blocks + [Block(align, [])], refs)
  {
    forall i | 0 <= i < |blocks|
      ensures StartsWith((blocks + [Block(align, [])])[i].bytes, blocks[i].bytes)
    {
      assert blocks[i].bytes[..|blocks[i].bytes|] == blocks[i].bytes;
    }
  }

  // ------------------------------------------------------------ reading back

  /** The u32 stored at `at`. */
  function HeapWord(blocks: seq<Block>, at: HeapToken): (r: Result<u32>)
    ensures r.Ok? <==> at.block < |blocks| && at.offset + 4 <= |blocks[at.block].bytes|
  {
    if at.block < |blocks| then Stream.U32At(blocks[at.block].bytes, at.offset) else Err(UnexpectedEof)
  }

  /** The NUL-terminated UTF-8 string stored at `t`. */
  function HeapString(blocks: seq<Block>, t: HeapToken): Result<Bytes>
  {
    if t.block < |blocks| then Util.ReadStringChecked(blocks[t.block].bytes, t.offset) else Err(UnexpectedEof)
  }

  /** What the domain reader of a `kind` field finds at `at`: a word; a
      string, which needs a zero word with a token; an optional string,
      `None` for a zero word without one.  No writer writes pointer fields. */
  function HeapField(blocks: seq<Block>, refs: Refs, at: HeapToken, kind: FieldKind): (r: Result<Value>)
    ensures r.Ok? ==> HeapWord(blocks, at).Ok?
  {
    match kind
    case WordKind =>
      var w :- HeapWord(blocks, at);
      Ok(Word(w))
    case StringKind =>
      var w :- HeapWord(blocks, at);
      if w != 0 then Err(NonZeroPointerWord)
      else if at !in refs then Err(NullPointer)
      else
        var s :- HeapString(blocks, refs[at]);
        Ok(Text(s))
    case OptStringKind =>
      var w :- HeapWord(blocks, at);
      if w != 0 then Err(NonZeroPointerWord)
      else if at !in refs then Ok(OptText(None))
      else
        var s :- HeapString(blocks, refs[at]);
        Ok(OptText(Some(s)))
    case PointerKind => Err(Panic)
  }

  /** Field `k` of a record at `at`: four bytes per field. */
  function FieldToken(at: HeapToken, k: nat): HeapToken
  {
    HeapToken(at.block, at.offset + 4 * k)
  }

  function HeapFields(blocks: seq<Block>, refs: Refs, at: HeapToken, kinds: seq<FieldKind>): nat -> Result<Value>
  {
    (k: nat) => if k < |kinds| then HeapField(blocks, refs, FieldToken(at, k), kinds[k]) else Err(Panic)
  }

  /** A flat record at `at`, its fields in declaration order. */
  function HeapRecord(blocks: seq<Block>, refs: Refs, at: HeapToken, kinds: seq<FieldKind>): Result<seq<Value>>
  {
    Stream.ReadEach(HeapFields(blocks, refs, at, kinds), |kinds|)
  }

  /** Record `k` of records laid back to back from `t`. */
  function RecordToken(t: HeapToken, kinds: seq<FieldKind>, k: nat): HeapToken
  {
    HeapToken(t.block, Stream.RecordPos(t.offset, 4 * |kinds|, k))
  }

  function HeapRecords(blocks: seq<Block>, refs: Refs, t: HeapToken, kinds: seq<FieldKind>): nat -> Result<seq<Value>>
  {
    (k: nat) => HeapRecord(blocks, refs, RecordToken(t, kinds, k), kinds)
  }

  /** `read_vec` on a slice header at `at`: a zero word whose token (if
      any) gives the records, then their count. */
  function HeapSlice(blocks: seq<Block>, refs: Refs, at: HeapToken, kinds: seq<FieldKind>): Result<seq<seq<Value>>>
  {
    var w :- HeapWord(blocks, at);
    if w != 0 then Err(NonZeroPointerWord)
    else
      var count :- HeapWord(blocks, FieldToken(at, 1));
      if at !in refs || count == 0 then Ok([])
      else Stream.ReadEach(HeapRecords(blocks, refs, refs[at], kinds), count)
  }

  /** The default record: zero words, empty strings and `None`s. */
  function DefaultRecord(kinds: seq<FieldKind>): (r: seq<Value>)
    ensures |r| == |kinds|
  {
    seq(|kinds|, k requires 0 <= k < |kinds| => DefaultOf(Field(kinds[k])))
  }

  /** A flat record at any offset of block `b`. */
  function RecordIn(blocks: seq<Block>, refs: Refs, b: nat, kinds: seq<FieldKind>): nat -> Result<seq<Value>>
  {
    (p: nat) => HeapRecord(blocks, refs, HeapToken(b, p), kinds)
  }

  /** A record that reads lies inside its block. */
  lemma RecordInWithin(blocks: seq<Block>, refs: Refs, b: nat, kinds: seq<FieldKind>)
    requires |kinds| > 0 && b < |blocks|
    ensures Stream.ReadsWithin(RecordIn(blocks, refs, b, kinds), 4 * |kinds|, |blocks[b].bytes|)
  {
    forall p: nat | RecordIn(blocks, refs, b, kinds)(p).Ok?
      ensures p + 4 * |kinds| <= |blocks[b].bytes|
    {
      var last := |kinds| - 1;
      var read := HeapFields(blocks, refs, HeapToken(b, p), kinds);
      Stream.ReadEachAt(read, |kinds|, last);
      assert read(last) == HeapField(blocks, refs, FieldToken(HeapToken(b, p), last), kinds[last]);
    }
  }

  /** `read_pointer` on a box: a zero word with a token, which gives the
      place of the boxed record. */
  function HeapBox(blocks: seq<Block>, refs: Refs, at: HeapToken): (r: Result<HeapToken>)
    ensures r.Ok? <==> HeapWord(blocks, at) == Ok(0) && at in refs
    ensures r.Ok? ==> r.value == refs[at]
  {
    var w :- HeapWord(blocks, at);
    if w != 0 then Err(NonZeroPointerWord)
    else if at !in refs then Err(NullPointer)
    else Ok(refs[at])
  }

  /** The records behind the zero word at `at`, up to the first default
      record: `Shop::items` on what `write_null_terminated_slice` wrote. */
  function HeapUntilDefault(blocks: seq<Block>, refs: Refs, at: HeapToken, kinds: seq<FieldKind>): Result<seq<seq<Value>>>
    requires |kinds| > 0
  {
    var w :- HeapWord(blocks, at);
    if w != 0 then Err(NonZeroPointerWord)
    else if at !in refs then Err(NullPointer)
    else
      var t := refs[at];
      if t.block < |blocks| then
        RecordInWithin(blocks, refs, t.block, kinds);
        Stream.ReadUntil(RecordIn(blocks, refs, t.block, kinds), DefaultRecord(kinds), 4 * |kinds|, |blocks[t.block].bytes|, t.offset)
      else Err(UnexpectedEof)
  }

  /** A u32 appended to block `i` reads back where the block ended. */
  lemma WordWritten(blocks: seq<Block>, i: nat, x: u32)
    requires i < |blocks|
    ensures HeapWord(Appended(blocks, i, U32ToBE(x)), HeapToken(i, |blocks[i].bytes|)) == Ok(x)
  {
    var b := Appended(blocks, i, U32ToBE(x))[i].bytes;
    var n := |blocks[i].bytes|;
    assert b[n..n + 4] == U32ToBE(x);
    Stream.U32AtEncoding(b, n, x);
  }

  /** The placeholder of a token is the zero word. */
  lemma ZeroWord()
    ensures Zeros(4) == U32ToBE(0)
  {
    assert U32ToBE(0) == [0, 0, 0, 0];
  }

  // ------------------------------------------------------------ stability

  /** Bytes read inside a block do not change as the heap grows. */
  lemma WordExtends(b1: seq<Block>, r1: Refs, b2: seq<Block>, r2: Refs, at: HeapToken)
    requires Extends(b1, r1, b2, r2) && HeapWord(b1, at).Ok?
    ensures HeapWord(b2, at) == HeapWord(b1, at)
  {
    var x, y := b1[at.block].bytes, b2[at.block].bytes;
    assert y[..|x|] == x;
    assert y[at.offset..at.offset + 4] == x[at.offset..at.offset + 4];
  }

  lemma StringExtends(b1: seq<Block>, r1: Refs, b2: seq<Block>, r2: Refs, t: HeapToken)
    requires Extends(b1, r1, b2, r2) && HeapString(b1, t).Ok?
    ensures HeapString(b2, t) == HeapString(b1, t)
  {
    var x, y := b1[t.block].bytes, b2[t.block].bytes;
    assert y[..|x|] == x;
    assert y == x + y[|x|..];
    Util.ReadStringExtends(x, y[|x|..], t.offset);
  }

  /** A field that reads keeps reading the same as the heap grows. */
  lemma FieldExtends(b1: seq<Block>, r1: Refs, b2: seq<Block>, r2: Refs, at: HeapToken, kind: FieldKind)
    requires Extends(b1, r1, b2, r2) && HeapField(b1, r1, at, kind).Ok?
    ensures HeapField(b2, r2, at, kind) == HeapField(b1, r1, at, kind)
  {
    WordExtends(b1, r1, b2, r2, at);
    if at in r1 {
      if HeapString(b1, r1[at]).Ok? {
        StringExtends(b1, r1, b2, r2, r1[at]);
      }
    } else {
      assert at !in r2;
    }
  }

  /** A record reads field `k` at `4 * k`. */
  lemma RecordFields(blocks: seq<Block>, refs: Refs, at: HeapToken, kinds: seq<FieldKind>)
    requires HeapRecord(blocks, refs, at, kinds).Ok?
    ensures var vs := HeapRecord(blocks, refs, at, kinds).value;
      forall k :: 0 <= k < |kinds| ==> HeapField(blocks, refs, FieldToken(at, k), kinds[k]) == Ok(vs[k])
  {
    var read := HeapFields(blocks, refs, at, kinds);
    forall k | 0 <= k < |kinds|
      ensures HeapField(blocks, refs, FieldToken(at, k), kinds[k]) == Ok(HeapRecord(blocks, refs, at, kinds).value[k])
    {
      Stream.ReadEachAt(read, |kinds|, k);
    }
  }

  /** Fields that read one after the other make the record. */
  lemma RecordOf(blocks: seq<Block>, refs: Refs, at: HeapToken, kinds: seq<FieldKind>, vs: seq<Value>)
    requires |vs| == |kinds|
    requires forall k :: 0 <= k < |kinds| ==> HeapField(blocks, refs, FieldToken(at, k), kinds[k]) == Ok(vs[k])
    ensures HeapRecord(blocks, refs, at, kinds) == Ok(vs)
  {
    var read := HeapFields(blocks, refs, at, kinds);
    forall k: nat | k < |kinds|
      ensures read(k).Ok?
    {
      assert read(k) == HeapField(blocks, refs, FieldToken(at, k), kinds[k]);
    }
    Stream.ReadEachOk(read, |kinds|);
    var got := Stream.ReadEach(read, |kinds|).value;
    forall k | 0 <= k < |kinds|
      ensures got[k] == vs[k]
    {
      Stream.ReadEachAt(read, |kinds|, k);
    }
    assert got == vs;
  }

  lemma RecordExtends(b1: seq<Block>, r1: Refs, b2: seq<Block>, r2: Refs, at: HeapToken, kinds: seq<FieldKind>)
    requires Extends(b1, r1, b2, r2) && HeapRecord(b1, r1, at, kinds).Ok?
    ensures HeapRecord(b2, r2, at, kinds) == HeapRecord(b1, r1, at, kinds)
  {
    var vs := HeapRecord(b1, r1, at, kinds).value;
    RecordFields(b1, r1, at, kinds);
    forall k | 0 <= k < |kinds|
      ensures HeapField(b2, r2, FieldToken(at, k), kinds[k]) == Ok(vs[k])
    {
      FieldExtends(b1, r1, b2, r2, FieldToken(at, k), kinds[k]);
    }
    RecordOf(b2, r2, at, kinds, vs);
  }

  /** The first `n` fields of a record at `at` read as `vs`. */
  ghost predicate FieldsAt(blocks: seq<Block>, refs: Refs, at: HeapToken, kinds: seq<FieldKind>, vs: seq<Value>, n: nat)
  {
    n <= |kinds| && n <= |vs|
    && forall j :: 0 <= j < n ==> HeapField(blocks, refs, FieldToken(at, j), kinds[j]) == Ok(vs[j])
  }

  /** The fields read so far stay as the heap grows, and one more field
      that reads after the growth joins them. */
  lemma FieldsNext(b1: seq<Block>, r1: Refs, b2: seq<Block>, r2: Refs, at: HeapToken, kinds: seq<FieldKind>, vs: seq<Value>, n: nat)
    requires Extends(b1, r1, b2, r2) && FieldsAt(b1, r1, at, kinds, vs, n) && n < |kinds| && n < |vs|
    requires HeapField(b2, r2, FieldToken(at, n), kinds[n]) == Ok(vs[n])
    ensures FieldsAt(b2, r2, at, kinds, vs, n + 1)
  {
    forall j | 0 <= j < n
      ensures HeapField(b2, r2, FieldToken(at, j), kinds[j]) == Ok(vs[j])
    {
      FieldExtends(b1, r1, b2, r2, FieldToken(at, j), kinds[j]);
    }
  }

  /** The first `n` records laid back to back from `t` read as `items`. */
  ghost predicate RecordsAt(blocks: seq<Block>, refs: Refs, t: HeapToken, kinds: seq<FieldKind>, items: seq<seq<Value>>, n: nat)
  {
    n <= |items| && forall j :: 0 <= j < n ==> HeapRecord(blocks, refs, RecordToken(t, kinds, j), kinds) == Ok(items[j])
  }

  /** The records read so far stay as the heap grows, and one more record
      that reads after the growth joins them. */
  lemma RecordsNext(b1: seq<Block>, r1: Refs, b2: seq<Block>, r2: Refs, t: HeapToken, kinds: seq<FieldKind>, items: seq<seq<Value>>, n: nat)
    requires Extends(b1, r1, b2, r2) && RecordsAt(b1, r1, t, kinds, items, n) && n < |items|
    requires HeapRecord(b2, r2, RecordToken(t, kinds, n), kinds) == Ok(items[n])
    ensures RecordsAt(b2, r2, t, kinds, items, n + 1)
  {
    forall j | 0 <= j < n
      ensures HeapRecord(b2, r2, RecordToken(t, kinds, j), kinds) == Ok(items[j])
    {
      RecordExtends(b1, r1, b2, r2, RecordToken(t, kinds, j), kinds);
    }
  }

  lemma RecordsExtend(b1: seq<Block>, r1: Refs, b2: seq<Block>, r2: Refs, t: HeapToken, kinds: seq<FieldKind>, items: seq<seq<Value>>, n: nat)
    requires Extends(b1, r1, b2, r2) && RecordsAt(b1, r1, t, kinds, items, n)
    ensures RecordsAt(b2, r2, t, kinds, items, n)
  {
    forall j | 0 <= j < n
      ensures HeapRecord(b2, r2, RecordToken(t, kinds, j), kinds) == Ok(items[j])
    {
      RecordExtends(b1, r1, b2, r2, RecordToken(t, kinds, j), kinds);
    }
  }

  /** Records one after the other from `t`, as many as `items`, read
      back as `items`. */
  lemma RecordsOf(blocks: seq<Block>, refs: Refs, t: HeapToken, kinds: seq<FieldKind>, items: seq<seq<Value>>)
    requires forall k :: 0 <= k < |items| ==> HeapRecord(blocks, refs, RecordToken(t, kinds, k), kinds) == Ok(items[k])
    ensures Stream.ReadEach(HeapRecords(blocks, refs, t, kinds), |items|) == Ok(items)
  {
    var read := HeapRecords(blocks, refs, t, kinds);
    forall k: nat | k < |items|
      ensures read(k).Ok?
    {
      assert read(k) == HeapRecord(blocks, refs, RecordToken(t, kinds, k), kinds);
    }
    Stream.ReadEachOk(read, |items|);
    var got := Stream.ReadEach(read, |items|).value;
    forall k | 0 <= k < |items|
      ensures got[k] == items[k]
    {
      Stream.ReadEachAt(read, |items|, k);
      assert read(k) == HeapRecord(blocks, refs, RecordToken(t, kinds, k), kinds);
    }
    assert got == items;
  }

  lemma BoxExtends(b1: seq<Block>, r1: Refs, b2: seq<Block>, r2: Refs, at: HeapToken)
    requires Extends(b1, r1, b2, r2) && HeapBox(b1, r1, at).Ok?
    ensures HeapBox(b2, r2, at) == HeapBox(b1, r1, at)
  {
    WordExtends(b1, r1, b2, r2, at);
  }

  lemma SliceExtends(b1: seq<Block>, r1: Refs, b2: seq<Block>, r2: Refs, at: HeapToken, kinds: seq<FieldKind>)
    requires Extends(b1, r1, b2, r2) && HeapSlice(b1, r1, at, kinds).Ok?
    ensures HeapSlice(b2, r2, at, kinds) == HeapSlice(b1, r1, at, kinds)
  {
    WordExtends(b1, r1, b2, r2, at);
    WordExtends(b1, r1, b2, r2, FieldToken(at, 1));
    if at in r1 && HeapWord(b1, FieldToken(at, 1)).value != 0 {
      var t := r1[at];
      var count := HeapWord(b1, FieldToken(at, 1)).value;
      var read := HeapRecords(b1, r1, t, kinds);
      var items := HeapSlice(b1, r1, at, kinds).value;
      forall k | 0 <= k < count
        ensures HeapRecord(b2, r2, RecordToken(t, kinds, k), kinds) == Ok(items[k])
      {
        Stream.ReadEachAt(read, count, k);
        RecordExtends(b1, r1, b2, r2, RecordToken(t, kinds, k), kinds);
      }
      RecordsOf(b2, r2, t, kinds, items);
    } else if at !in r1 {
      assert at !in r2;
    }
  }

  lemma UntilDefaultExtends(b1: seq<Block>, r1: Refs, b2: seq<Block>, r2: Refs, at: HeapToken, kinds: seq<FieldKind>)
    requires |kinds| > 0
    requires Extends(b1, r1, b2, r2) && HeapUntilDefault(b1, r1, at, kinds).Ok?
    ensures HeapUntilDefault(b2, r2, at, kinds) == HeapUntilDefault(b1, r1, at, kinds)
  {
    WordExtends(b1, r1, b2, r2, at);
    var t := r1[at];
    var stride := 4 * |kinds|;
    var stop := DefaultRecord(kinds);
    var read1, read2 := RecordIn(b1, r1, t.block, kinds), RecordIn(b2, r2, t.block, kinds);
    var limit1, limit2 := |b1[t.block].bytes|, |b2[t.block].bytes|;
    RecordInWithin(b1, r1, t.block, kinds);
    RecordInWithin(b2, r2, t.block, kinds);
    var items := HeapUntilDefault(b1, r1, at, kinds).value;
    assert Stream.ReadUntil(read1, stop, stride, limit1, t.offset) == Ok(items);
    Stream.ReadUntilItems(read1, stop, stride, limit1, t.offset);
    forall k | 0 <= k <= |items|
      ensures read2(Stream.RecordPos(t.offset, stride, k)) == read1(Stream.RecordPos(t.offset, stride, k))
    {
      var p := Stream.RecordPos(t.offset, stride, k);
      RecordExtends(b1, r1, b2, r2, HeapToken(t.block, p), kinds);
    }
    Stream.ReadUntilOf(read2, stop, stride, limit2, t.offset, items);
  }
}
