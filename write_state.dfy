// The state a run of writes goes through: the string pool and the heap.
module WriteState {
  import opened Bytes
  import opened SymbolNames
  import opened Layouts
  import opened WriteContext

  /** The block `write_string` fills: the string, its NUL, and for a string
      longer than 2 bytes zeros up to a multiple of 4. */
  function StringBlock(value: Bytes): (r: Bytes)
    ensures |value| < |r| && r[..|value|] == value && r[|value|] == 0
    ensures |value| > 2 ==> |r| % 4 == 0 && |r| <= |value| + 4
    ensures |value| <= 2 ==> |r| == |value| + 1
  {
    if |value| > 2 then value + [0] + Zeros(Padding(|value| + 1, 4)) else value + [0]
  }

  /** Every remembered string starts the block its token names. */
  ghost predicate StringsIn(stringMap: map<Bytes, HeapToken>, blocks: seq<Block>)
  {
    forall s :: s in stringMap ==>
      stringMap[s].offset == 0 && stringMap[s].block < |blocks|
      && StartsWith(blocks[stringMap[s].block].bytes, StringBlock(s))
  }

  lemma StringsInExtends(stringMap: map<Bytes, HeapToken>, b1: seq<Block>, r1: Refs, b2: seq<Block>, r2: Refs)
    requires StringsIn(stringMap, b1) && Extends(b1, r1, b2, r2)
    ensures StringsIn(stringMap, b2)
  {
    forall s | s in stringMap
      ensures StartsWith(b2[stringMap[s].block].bytes, StringBlock(s))
    {
      var i := stringMap[s].block;
      StartsWithTrans(b2[i].bytes, b1[i].bytes, StringBlock(s));
    }
  }

  /** What the domain and the context hold after a `write_string`. */
  datatype StringWrite = StringWrite(
    stringMap: map<Bytes, HeapToken>,
    symbols: seq<SymbolDeclaration>,
    prevLen: nat,
    blocks: seq<Block>,
    refs: Refs)

  /** A state writes can go on from while block `cur` is written: the
      block exists, every token sits on written bytes and every remembered
      string is in place. */
  ghost predicate Writable(w: StringWrite, cur: nat)
  {
    && cur < |w.blocks|
    && (forall t :: t in w.refs ==> !Unwritten(w.blocks, t))
    && StringsIn(w.stringMap, w.blocks)
  }

  /** What a write from `w` to `r` keeps: `r` can be written on, the heap
      only grew, blocks other than `cur` are as they were, and symbols were
      only added. */
  ghost predicate Grown(w: StringWrite, r: StringWrite, cur: nat)
  {
    && Writable(r, cur)
    && Extends(w.blocks, w.refs, r.blocks, r.refs) && Untouched(w.blocks, r.blocks, cur)
    && w.symbols <= r.symbols
  }

  lemma GrownTrans(w1: StringWrite, w2: StringWrite, w3: StringWrite, cur: nat)
    requires Grown(w1, w2, cur) && Grown(w2, w3, cur)
    ensures Grown(w1, w3, cur)
  {
    ExtendsTrans(w1.blocks, w1.refs, w2.blocks, w2.refs, w3.blocks, w3.refs);
  }

}
