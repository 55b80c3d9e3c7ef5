// What a reader of a `Shape` finds in the heap blocks once the layout step
// has turned every token into a zero word with a relocation.  `HeapValue`
// follows `Layouts.ReadValue` case by case: a pointer is a zero word, its
// relocation the token written there and its target the token's place; a
// record's fields sit at their `FieldOffset`s; lists are read through
// `Stream.ReadEach` and `Stream.ReadUntil` as the reader reads them.  The
// lemmas carry what the writers guarantee field by field over to it.
module HeapRead {
  import opened Wrappers
  import opened Bytes
  import opened SymbolNames
  import opened Layouts
  import opened WriteContext
  import opened ElfWrite
  import Stream

  /** `n` bytes past `at` in the same block. */
  function Shifted(at: HeapToken, n: nat): HeapToken
  {
    HeapToken(at.block, at.offset + n)
  }

  /** The value of shape `s` at `at`. */
  function HeapValue(blocks: seq<Block>, refs: Refs, at: HeapToken, s: Shape): (r: Result<Value>)
    requires Sized(s)
    ensures r.Ok? ==> at.block < |blocks| && at.offset + Size(s) <= |blocks[at.block].bytes|
    decreases s, 0
  {
    match s
    case Field(kind) => HeapField(blocks, refs, at, kind)
    case Record(fs) => HeapRecordValue(blocks, refs, at, fs)
    case VecField(e) => HeapVecValue(blocks, refs, at, e)
    case Counted(e, nullCounted) => HeapCountedValue(blocks, refs, at, e, nullCounted)
    case UntilDefault(e) => HeapUntilDefaultValue(blocks, refs, at, e)
    case Boxed(i) => HeapBoxedValue(blocks, refs, at, i)
  }

  /** A record: its fields at their offsets, in declaration order. */
  function HeapRecordValue(blocks: seq<Block>, refs: Refs, at: HeapToken, fs: seq<Shape>): (r: Result<Value>)
    requires Sized(Record(fs))
    ensures r.Ok? ==> at.block < |blocks| && at.offset + FieldsSize(fs) <= |blocks[at.block].bytes|
    ensures r.Ok? ==> r.value.Fields? && |r.value.values| == |fs|
    decreases fs, 2
  {
    var read := HeapFieldReads(blocks, refs, at, fs);
    var vs :- Stream.ReadEach(read, |fs|);
    var last := |fs| - 1;
    assert HeapValue(blocks, refs, Shifted(at, FieldOffset(fs, last)), fs[last]).Ok? by {
      Stream.ReadEachAt(read, |fs|, last);
      assert read(last) == HeapFieldValue(blocks, refs, at, fs, last);
    }
    Ok(Fields(vs))
  }

  function HeapFieldReads(blocks: seq<Block>, refs: Refs, at: HeapToken, fs: seq<Shape>): nat -> Result<Value>
    requires forall i :: 0 <= i < |fs| ==> Sized(fs[i])
    decreases fs, 1
  {
    (k: nat) => if k < |fs| then HeapFieldValue(blocks, refs, at, fs, k) else Err(Panic)
  }

  /** Field `k` of a record at `at`, read at its offset. */
  function HeapFieldValue(blocks: seq<Block>, refs: Refs, at: HeapToken, fs: seq<Shape>, k: nat): Result<Value>
    requires k < |fs| && Sized(fs[k])
    decreases fs, 0
  {
    HeapValue(blocks, refs, Shifted(at, FieldOffset(fs, k)), fs[k])
  }

  /** `read_vec`: a zero word whose token (if any) gives the records, then
      their count; no token or a zero count is the empty list. */
  function HeapVecValue(blocks: seq<Block>, refs: Refs, at: HeapToken, e: Shape): (r: Result<Value>)
    requires Sized(e)
    ensures r.Ok? ==> at.block < |blocks| && at.offset + 8 <= |blocks[at.block].bytes|
    decreases e, 3
  {
    var w :- HeapWord(blocks, at);
    if w != 0 then Err(NonZeroPointerWord)
    else
      var count :- HeapWord(blocks, FieldToken(at, 1));
      if at !in refs || count == 0 then Ok(List([]))
      else
        var items :- HeapItems(blocks, refs, refs[at], e, count);
        Ok(List(items))
  }

  /** The hand-written counted lists: a zero word with a token, a count,
      and `count - 1` records when the count includes a null entry (a zero
      count panics). */
  function HeapCountedValue(blocks: seq<Block>, refs: Refs, at: HeapToken, e: Shape, nullCounted: bool): (r: Result<Value>)
    requires Sized(e)
    ensures r.Ok? ==> at.block < |blocks| && at.offset + 8 <= |blocks[at.block].bytes|
    decreases e, 3
  {
    var t :- HeapBox(blocks, refs, at);
    var count :- HeapWord(blocks, FieldToken(at, 1));
    if nullCounted && count == 0 then Err(Panic)
    else
      var items :- HeapItems(blocks, refs, t, e, CountedLength(count, nullCounted));
      Ok(List(items))
  }

  /** A zero word with a token, and the records there up to the default. */
  function HeapUntilDefaultValue(blocks: seq<Block>, refs: Refs, at: HeapToken, e: Shape): (r: Result<Value>)
    requires Sized(e)
    ensures r.Ok? ==> at.block < |blocks| && at.offset + 4 <= |blocks[at.block].bytes|
    decreases e, 4
  {
    var t :- HeapBox(blocks, refs, at);
    var items :- HeapUntilDefaultItems(blocks, refs, t, e);
    Ok(List(items))
  }

  /** A zero word with a token, and the value of shape `i` there. */
  function HeapBoxedValue(blocks: seq<Block>, refs: Refs, at: HeapToken, i: Shape): (r: Result<Value>)
    requires Sized(i)
    ensures r.Ok? ==> at.block < |blocks| && at.offset + 4 <= |blocks[at.block].bytes|
    decreases i, 1
  {
    var t :- HeapBox(blocks, refs, at);
    HeapValue(blocks, refs, t, i)
  }

  /** A value of shape `e` at any offset of block `b`. */
  function HeapElemsIn(blocks: seq<Block>, refs: Refs, b: nat, e: Shape): nat -> Result<Value>
    requires Sized(e)
    decreases e, 1
  {
    (p: nat) => HeapValue(blocks, refs, HeapToken(b, p), e)
  }

  /** `n` values of shape `e` back to back from `t`, as `Tables.RecordsAt`
      reads a table. */
  function HeapItems(blocks: seq<Block>, refs: Refs, t: HeapToken, e: Shape, n: nat): Result<seq<Value>>
    requires Sized(e)
    decreases e, 2
  {
    Stream.ReadEach(Stream.Strided(HeapElemsIn(blocks, refs, t.block, e), t.offset, Size(e)), n)
  }

  lemma ElemsWithin(blocks: seq<Block>, refs: Refs, b: nat, e: Shape)
    requires Sized(e) && b < |blocks|
    ensures Stream.ReadsWithin(HeapElemsIn(blocks, refs, b, e), Size(e), |blocks[b].bytes|)
  {
    forall p: nat | HeapElemsIn(blocks, refs, b, e)(p).Ok?
      ensures p + Size(e) <= |blocks[b].bytes|
    {
      assert HeapElemsIn(blocks, refs, b, e)(p) == HeapValue(blocks, refs, HeapToken(b, p), e);
    }
  }

  /** The values of shape `e` from `t` on, up to the first default one. */
  function HeapUntilDefaultItems(blocks: seq<Block>, refs: Refs, t: HeapToken, e: Shape): Result<seq<Value>>
    requires Sized(e)
    decreases e, 3
  {
    if t.block < |blocks| then
      assert Stream.ReadsWithin(HeapElemsIn(blocks, refs, t.block, e), Size(e), |blocks[t.block].bytes|) by {
        forall p: nat | HeapElemsIn(blocks, refs, t.block, e)(p).Ok?
          ensures p + Size(e) <= |blocks[t.block].bytes|
        {
          assert HeapElemsIn(blocks, refs, t.block, e)(p) == HeapValue(blocks, refs, HeapToken(t.block, p), e);
        }
      }
      Stream.ReadUntil(HeapElemsIn(blocks, refs, t.block, e), DefaultOf(e), Size(e), |blocks[t.block].bytes|, t.offset)
    else Err(UnexpectedEof)
  }

  // ------------------------------------------------------------ bridges

  /** Flat records as the values a reader of their shape gives. */
  function AsFields(items: seq<seq<Value>>): (r: seq<Value>)
    ensures |r| == |items| && forall k :: 0 <= k < |items| ==> r[k] == Fields(items[k])
  {
    seq(|items|, k requires 0 <= k < |items| => Fields(items[k]))
  }

  /** A record whose fields read as `vs` reads as `Fields(vs)`. */
  lemma RecordValueOf(blocks: seq<Block>, refs: Refs, at: HeapToken, fs: seq<Shape>, vs: seq<Value>)
    requires Sized(Record(fs)) && |vs| == |fs|
    requires forall k :: 0 <= k < |fs| ==> HeapFieldValue(blocks, refs, at, fs, k) == Ok(vs[k])
    ensures HeapValue(blocks, refs, at, Record(fs)) == Ok(Fields(vs))
  {
    var read := HeapFieldReads(blocks, refs, at, fs);
    forall k | 0 <= k < |fs|
      ensures read(k) == Ok(vs[k])
    {
    }
    Stream.ReadEachOf(read, |fs|, vs);
  }

  /** A flat record that reads field by field as `vs` (`HeapRecord`) is
      the value `Fields(vs)` of its `Flat` shape. */
  lemma FlatValue(blocks: seq<Block>, refs: Refs, at: HeapToken, code: string, vs: seq<Value>)
    requires |code| > 0 && HeapRecord(blocks, refs, at, Kinds(code)) == Ok(vs)
    ensures Sized(Flat(code)) && Size(Flat(code)) == 4 * |code|
    ensures HeapValue(blocks, refs, at, Flat(code)) == Ok(Fields(vs))
  {
    FlatLayout(code);
    var fs := Flat(code).fields;
    var kinds := Kinds(code);
    forall k | 0 <= k < |fs|
      ensures HeapFieldValue(blocks, refs, at, fs, k) == Ok(vs[k])
    {
      Stream.ReadEachAt(HeapFields(blocks, refs, at, kinds), |kinds|, k);
      assert HeapFields(blocks, refs, at, kinds)(k) == HeapField(blocks, refs, FieldToken(at, k), kinds[k]);
      assert Shifted(at, FieldOffset(fs, k)) == FieldToken(at, k);
    }
    RecordValueOf(blocks, refs, at, fs, vs);
  }

  /** Flat records back to back from `t` that read as `items` are the
      list of their values. */
  lemma FlatItemsValue(blocks: seq<Block>, refs: Refs, t: HeapToken, code: string, items: seq<seq<Value>>)
    requires |code| > 0
    requires forall k :: 0 <= k < |items| ==> HeapRecord(blocks, refs, RecordToken(t, Kinds(code), k), Kinds(code)) == Ok(items[k])
    ensures Sized(Flat(code))
    ensures HeapItems(blocks, refs, t, Flat(code), |items|) == Ok(AsFields(items))
  {
    FlatLayout(code);
    var read := Stream.Strided(HeapElemsIn(blocks, refs, t.block, Flat(code)), t.offset, Size(Flat(code)));
    forall k | 0 <= k < |items|
      ensures read(k) == Ok(AsFields(items)[k])
    {
      FlatValue(blocks, refs, RecordToken(t, Kinds(code), k), code, items[k]);
    }
    Stream.ReadEachOf(read, |items|, AsFields(items));
  }

  /** A slice header that reads as `items` (`HeapSlice`) is a `VecField`
      of the flat shape holding those records. */
  lemma SliceValue(blocks: seq<Block>, refs: Refs, at: HeapToken, code: string, items: seq<seq<Value>>)
    requires |code| > 0 && HeapSlice(blocks, refs, at, Kinds(code)) == Ok(items)
    ensures Sized(Flat(code))
    ensures HeapValue(blocks, refs, at, VecField(Flat(code))) == Ok(List(AsFields(items)))
  {
    FlatLayout(code);
    var kinds := Kinds(code);
    var count := HeapWord(blocks, FieldToken(at, 1)).value;
    if at in refs && count != 0 {
      var t := refs[at];
      forall k | 0 <= k < |items|
        ensures HeapRecord(blocks, refs, RecordToken(t, kinds, k), kinds) == Ok(items[k])
      {
        Stream.ReadEachAt(HeapRecords(blocks, refs, t, kinds), count as nat, k);
      }
      FlatItemsValue(blocks, refs, t, code, items);
    }
  }

  /** The default of a flat shape is its default record. */
  lemma DefaultOfFlat(code: string)
    ensures DefaultOf(Flat(code)) == Fields(DefaultRecord(Kinds(code)))
  {
    var fs := Flat(code).fields;
    assert DefaultOf(Flat(code)).values == DefaultRecord(Kinds(code));
  }

  /** A null-terminated list that reads as `items` (`HeapUntilDefault`)
      is an `UntilDefault` of the flat shape holding those records. */
  lemma UntilDefaultValue(blocks: seq<Block>, refs: Refs, at: HeapToken, code: string, items: seq<seq<Value>>)
    requires |code| > 0 && HeapUntilDefault(blocks, refs, at, Kinds(code)) == Ok(items)
    ensures Sized(Flat(code))
    ensures HeapValue(blocks, refs, at, UntilDefault(Flat(code))) == Ok(List(AsFields(items)))
  {
    FlatLayout(code);
    DefaultOfFlat(code);
    var kinds := Kinds(code);
    var e := Flat(code);
    var t := refs[at];
    var stride := 4 * |code|;
    var limit := |blocks[t.block].bytes|;
    RecordInWithin(blocks, refs, t.block, kinds);
    Stream.ReadUntilItems(RecordIn(blocks, refs, t.block, kinds), DefaultRecord(kinds), stride, limit, t.offset);
    var read := HeapElemsIn(blocks, refs, t.block, e);
    ElemsWithin(blocks, refs, t.block, e);
    var all := AsFields(items);
    forall k | 0 <= k <= |items|
      ensures read(Stream.RecordPos(t.offset, stride, k)) == if k < |items| then Ok(all[k]) else Ok(DefaultOf(e))
    {
      var p := Stream.RecordPos(t.offset, stride, k);
      assert RecordIn(blocks, refs, t.block, kinds)(p) == HeapRecord(blocks, refs, HeapToken(t.block, p), kinds);
      FlatValue(blocks, refs, HeapToken(t.block, p), code, if k < |items| then items[k] else DefaultRecord(kinds));
    }
    Stream.ReadUntilOf(read, DefaultOf(e), stride, limit, t.offset, all);
    assert HeapBox(blocks, refs, at) == Ok(t);
    assert HeapUntilDefaultItems(blocks, refs, t, e) == Ok(all);
  }

  /** A record of two fields takes up the room of both. */
  lemma PairSize(a: Shape, b: Shape)
    requires Sized(a) && Sized(b)
    ensures Sized(Record([a, b])) && Size(Record([a, b])) == Size(a) + Size(b)
    ensures FieldOffset([a, b], 0) == 0 && FieldOffset([a, b], 1) == Size(a)
  {
    var fs := [a, b];
    assert fs[..0] == [] && fs[..1] == [a] && fs[..2] == fs;
    assert FieldsSize([a]) == Size(a) by {
      assert [a][..|[a]| - 1] == [];
    }
    assert FieldsSize(fs) == Size(a) + Size(b) by {
      assert fs[..|fs| - 1] == [a];
    }
  }

  /** A record of two fields, such as an id and a list, reads as the value
      at its start and the value right after the first field. */
  lemma PairValueOf(blocks: seq<Block>, refs: Refs, at: HeapToken, a: Shape, b: Shape, x: Value, y: Value)
    requires Sized(a) && Sized(b)
    requires HeapValue(blocks, refs, at, a) == Ok(x) && HeapValue(blocks, refs, Shifted(at, Size(a)), b) == Ok(y)
    ensures Sized(Record([a, b])) && Size(Record([a, b])) == Size(a) + Size(b)
    ensures HeapValue(blocks, refs, at, Record([a, b])) == Ok(Fields([x, y]))
  {
    PairSize(a, b);
    assert Shifted(at, 0) == at;
    RecordValueOf(blocks, refs, at, [a, b], [x, y]);
  }
}
