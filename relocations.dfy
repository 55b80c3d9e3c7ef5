// `write_relocations` of the reassembler (`src/main.rs`): the collected
// relocations, sorted by the place they patch, become the `.rela.rodata`
// table of `Elf32_Rela` entries against the symbol table indices that
// `write_symtab` handed out.
module RelocationTable {
  import opened Wrappers
  import opened Bytes
  import opened SymbolNames
  import opened Elf
  import opened NameOrder
  import Sorting

  /** A relocation as the reassembler handles it: both ends are heap tokens
      that `block_offsets` resolves to file offsets. */
  datatype TokenRelocation = TokenRelocation(baseLocation: HeapToken, targetLocation: HeapToken)

  /** The order of `sort_by_key(|rel| rel.base_location)`. */
  predicate BaseLe(a: TokenRelocation, b: TokenRelocation)
  {
    TokenLe(a.baseLocation, b.baseLocation)
  }

  lemma BaseLeTotalPreorder()
    ensures Sorting.TotalPreorder(BaseLe)
  {
  }

  /** The `r_info` of `(symbol_idx << 8 | 1) as u32`: symbol index and
      relocation type 1, cut to 32 bits. */
  function RelocationInfo(symbolIndex: nat): u32
  {
    TruncU32(symbolIndex * 0x100 + 1)
  }

  /** `ELF32_R_SYM` gives back the index (modulo the 24 bits it has room
      for), and the type is 1. */
  lemma RelocationInfoFields(symbolIndex: nat)
    ensures SymbolIndexOf(RelocationInfo(symbolIndex)) == symbolIndex % 0x100_0000
    ensures RelocationInfo(symbolIndex) % 0x100 == 1
  {
    var q, m := symbolIndex / 0x100_0000, symbolIndex % 0x100_0000;
    assert symbolIndex * 0x100 + 1 == q * 0x1_0000_0000 + (m * 0x100 + 1);
    ModOfMultiplePlus(q, m * 0x100 + 1, 0x1_0000_0000);
  }

  lemma ModOfMultiplePlus(q: nat, x: nat, n: nat)
    requires x < n
    ensures (q * n + x) % n == x
  {
    var y := q * n + x;
    var a, b := y / n, y % n;
    assert y == a * n + b;
    assert (q - a) * n == b - x;
    if q - a >= 1 { MulAtLeast(q - a, n); }
    else if q - a <= -1 { MulAtMost(q - a, n); }
  }

  /** One entry of the loop: `base.resolve(block_offsets)` indexes the
      block offsets and the `unwrap` of the symbol index lookup panics when
      the target was never written as a symbol. */
  function RelocationOf(blockOffsets: seq<nat>, symbolIndices: map<HeapToken, nat>, rel: TokenRelocation): (r: Result<Relocation>)
    ensures r.Ok? <==> rel.baseLocation.block < |blockOffsets| && rel.targetLocation in symbolIndices
    ensures r.Err? ==> r.error == Panic
    ensures r.Ok? ==>
      && r.value.offset == TruncU32(rel.baseLocation.Resolve(blockOffsets))
      && SymbolIndexOf(r.value.info) == symbolIndices[rel.targetLocation] % 0x100_0000
      && r.value.info % 0x100 == 1
      && r.value.addend == 0
  {
    if rel.baseLocation.block >= |blockOffsets| || rel.targetLocation !in symbolIndices then Err(Panic)
    else
      RelocationInfoFields(symbolIndices[rel.targetLocation]);
      Ok(Relocation(TruncU32(rel.baseLocation.Resolve(blockOffsets)), RelocationInfo(symbolIndices[rel.targetLocation]), 0))
  }

  /** The table the loop writes for `rels` in the order given: each entry
      encoded after the previous ones, or the panic of the first bad one. */
  function TableBytes(blockOffsets: seq<nat>, symbolIndices: map<HeapToken, nat>, rels: seq<TokenRelocation>): (r: Result<Bytes>)
    ensures r.Ok? ==> |r.value| == RELOCATION_SIZE * |rels|
    ensures r.Err? ==> r.error == Panic
  {
    if rels == [] then Ok([])
    else
      var prefix :- TableBytes(blockOffsets, symbolIndices, rels[..|rels| - 1]);
      var rel :- RelocationOf(blockOffsets, symbolIndices, rels[|rels| - 1]);
      Ok(prefix + EncodeRelocation(rel))
  }

  /** The table is written exactly when every relocation resolves. */
  lemma {:induction false} TableBytesOk(blockOffsets: seq<nat>, symbolIndices: map<HeapToken, nat>, rels: seq<TokenRelocation>)
    ensures TableBytes(blockOffsets, symbolIndices, rels).Ok? <==>
      forall i :: 0 <= i < |rels| ==> RelocationOf(blockOffsets, symbolIndices, rels[i]).Ok?
  {
    if rels != [] {
      var init := rels[..|rels| - 1];
      TableBytesOk(blockOffsets, symbolIndices, init);
      assert forall i :: 0 <= i < |init| ==> init[i] == rels[i];
    }
  }

  /** Entry `k` of the table is the encoding of relocation `k`. */
  lemma {:induction false} TableBytesEntry(blockOffsets: seq<nat>, symbolIndices: map<HeapToken, nat>, rels: seq<TokenRelocation>, k: nat)
    requires k < |rels| && TableBytes(blockOffsets, symbolIndices, rels).Ok?
    ensures var table := TableBytes(blockOffsets, symbolIndices, rels).value;
      && RelocationOf(blockOffsets, symbolIndices, rels[k]).Ok?
      && table[RELOCATION_SIZE * k..RELOCATION_SIZE * k + RELOCATION_SIZE] ==
         EncodeRelocation(RelocationOf(blockOffsets, symbolIndices, rels[k]).value)
  {
    var init := rels[..|rels| - 1];
    var prefix := TableBytes(blockOffsets, symbolIndices, init).value;
    var last := RelocationOf(blockOffsets, symbolIndices, rels[|rels| - 1]).value;
    assert TableBytes(blockOffsets, symbolIndices, rels).value == prefix + EncodeRelocation(last);
    if k < |init| {
      TableBytesEntry(blockOffsets, symbolIndices, init, k);
      assert init[k] == rels[k];
      SliceOfPrefix(prefix, EncodeRelocation(last), RELOCATION_SIZE * k, RELOCATION_SIZE * k + RELOCATION_SIZE);
    }
  }

  lemma SliceOfPrefix(a: Bytes, b: Bytes, i: nat, j: nat)
    requires i <= j <= |a|
    ensures (a + b)[i..j] == a[i..j]
  {
  }

  /** What `write_relocations` writes: the table for the relocations in
      the stable order of their base locations. */
  function WrittenTable(blockOffsets: seq<nat>, symbolIndices: map<HeapToken, nat>, rels: seq<TokenRelocation>): Result<Bytes>
  {
    TableBytes(blockOffsets, symbolIndices, Sorting.SortBy(rels, BaseLe))
  }

  /** `write_relocations`.  The slice it sorts in place comes back as
      `sorted`. */
  method WriteRelocations(blockOffsets: seq<nat>, symbolIndices: map<HeapToken, nat>, relocations: seq<TokenRelocation>)
    returns (sorted: seq<TokenRelocation>, r: Result<Bytes>)
    ensures sorted == Sorting.SortBy(relocations, BaseLe)
    ensures Sorting.SortedBy(sorted, BaseLe) && multiset(sorted) == multiset(relocations)
    ensures r == WrittenTable(blockOffsets, symbolIndices, relocations)
  {
    sorted := Sorting.SortBy(relocations, BaseLe);
    BaseLeTotalPreorder();
    Sorting.SortBySorted(relocations, BaseLe);
    r := WriteTable(blockOffsets, symbolIndices, sorted);
  }

  /** The loop of `write_relocations`, over relocations already sorted. */
  method WriteTable(blockOffsets: seq<nat>, symbolIndices: map<HeapToken, nat>, rels: seq<TokenRelocation>)
    returns (r: Result<Bytes>)
    ensures r == TableBytes(blockOffsets, symbolIndices, rels)
  {
    var out: Bytes := [];
    for i := 0 to |rels|
      invariant TableBytes(blockOffsets, symbolIndices, rels[..i]) == Ok(out)
    {
      assert rels[..i + 1][..i] == rels[..i];
      var entry := RelocationOf(blockOffsets, symbolIndices, rels[i]);
      if entry.Err? {
        TablePrefixErr(blockOffsets, symbolIndices, rels, i + 1);
        return Err(Panic);
      }
      out := out + EncodeRelocation(entry.value);
    }
    assert rels[..|rels|] == rels;
    r := Ok(out);
  }

  /** Once a prefix fails, the whole table fails. */
  lemma {:induction false} TablePrefixErr(blockOffsets: seq<nat>, symbolIndices: map<HeapToken, nat>, rels: seq<TokenRelocation>, n: nat)
    requires n <= |rels| && TableBytes(blockOffsets, symbolIndices, rels[..n]).Err?
    ensures TableBytes(blockOffsets, symbolIndices, rels).Err?
    decreases |rels| - n
  {
    if n < |rels| {
      assert rels[..n + 1][..n] == rels[..n];
      TablePrefixErr(blockOffsets, symbolIndices, rels, n + 1);
    } else {
      assert rels[..n] == rels;
    }
  }

  /** `write_relocations` succeeds exactly when every relocation's base
      block exists and its target was given a symbol index; sorting does
      not change which relocations there are. */
  lemma WrittenTableOk(blockOffsets: seq<nat>, symbolIndices: map<HeapToken, nat>, rels: seq<TokenRelocation>)
    ensures WrittenTable(blockOffsets, symbolIndices, rels).Ok? <==>
      forall i :: 0 <= i < |rels| ==>
        rels[i].baseLocation.block < |blockOffsets| && rels[i].targetLocation in symbolIndices
  {
    var sorted := Sorting.SortBy(rels, BaseLe);
    TableBytesOk(blockOffsets, symbolIndices, sorted);
    if forall i :: 0 <= i < |rels| ==> RelocationOf(blockOffsets, symbolIndices, rels[i]).Ok? {
      forall j | 0 <= j < |sorted|
        ensures RelocationOf(blockOffsets, symbolIndices, sorted[j]).Ok?
      {
        assert sorted[j] in multiset(rels);
      }
    }
    if forall j :: 0 <= j < |sorted| ==> RelocationOf(blockOffsets, symbolIndices, sorted[j]).Ok? {
      forall i | 0 <= i < |rels|
        ensures RelocationOf(blockOffsets, symbolIndices, rels[i]).Ok?
      {
        assert rels[i] in multiset(sorted);
      }
    }
  }

  /** Entry `k` of the written table decodes to the `k`-th relocation in
      base order: its resolved offset, its target's symbol index, type 1,
      addend 0. */
  lemma WrittenTableEntry(blockOffsets: seq<nat>, symbolIndices: map<HeapToken, nat>, rels: seq<TokenRelocation>, k: nat)
    requires k < |rels| && WrittenTable(blockOffsets, symbolIndices, rels).Ok?
    ensures var sorted := Sorting.SortBy(rels, BaseLe);
      var table := WrittenTable(blockOffsets, symbolIndices, rels).value;
      var entry := DecodeRelocation(table[RELOCATION_SIZE * k..RELOCATION_SIZE * k + RELOCATION_SIZE]);
      && sorted[k].baseLocation.block < |blockOffsets| && sorted[k].targetLocation in symbolIndices
      && entry.offset == TruncU32(sorted[k].baseLocation.Resolve(blockOffsets))
      && SymbolIndexOf(entry.info) == symbolIndices[sorted[k].targetLocation] % 0x100_0000
      && entry.info % 0x100 == 1
      && entry.addend == 0
  {
    var sorted := Sorting.SortBy(rels, BaseLe);
    TableBytesEntry(blockOffsets, symbolIndices, sorted, k);
    RelocationRoundTrip(RelocationOf(blockOffsets, symbolIndices, sorted[k]).value);
  }
}
