// The symbol table and the relocation table of the reassembler
// (`src/main.rs`) taken together: `write_relocations` is handed the
// symbol indices `write_symtab` produced, so each `.rela.rodata` entry
// names a `.symtab` entry by its index.
module Reassembly {
  import opened Wrappers
  import opened Bytes
  import opened Elf
  import opened SymbolNames
  import opened SymbolTableWriter
  import opened SymtabSections
  import opened SymtabLayout
  import opened RelocationTable
  import Sorting

  /** The symbol index stored in entry `k` of a relocation table. */
  function TableSymbolIndex(table: Bytes, k: nat): nat
    requires RELOCATION_SIZE * k + RELOCATION_SIZE <= |table|
  {
    SymbolIndexOf(DecodeRelocation(table[RELOCATION_SIZE * k..RELOCATION_SIZE * k + RELOCATION_SIZE]).info)
  }

  /** The target of the `k`-th relocation in the order they are written. */
  function TargetAt(rels: seq<TokenRelocation>, k: nat): HeapToken
    requires k < |rels|
  {
    Sorting.SortBy(rels, BaseLe)[k].targetLocation
  }

  /** A symbol index that names an entry of a table smaller than 2^24
      entries survives the 24-bit `ELF32_R_SYM` field unchanged. */
  lemma SmallIndex(i: nat, size: nat)
    requires SYMBOL_HEADER_SIZE * i + SYMBOL_HEADER_SIZE <= size <= SYMBOL_HEADER_SIZE * 0x100_0000
    ensures i % 0x100_0000 == i
  {
  }

  /** With the placeholders counted, each relocation against a written
      symbol carries the index of an entry whose value is the relocation
      target's resolved offset: the relocation points at its target. */
  lemma RelocationTargetsSymbol(blockOffsets: seq<nat>, indices: map<HeapToken, nat>, decls: seq<SymbolDeclaration>,
                                out: Symtab, rels: seq<TokenRelocation>, table: Bytes, k: nat)
    requires IntendedSymtab(blockOffsets, indices, decls) == Ok(out)
    requires |out.symtab| <= SYMBOL_HEADER_SIZE * 0x100_0000
    requires WrittenTable(blockOffsets, out.indices, rels) == Ok(table) && k < |rels|
    requires LastWith(Extracted(decls), TargetAt(rels, k)).Some? || LastWith(out.locals, TargetAt(rels, k)).Some?
    ensures |table| == RELOCATION_SIZE * |rels| && TargetAt(rels, k).block < |blockOffsets|
    ensures var i := TableSymbolIndex(table, k);
      && SYMBOL_HEADER_SIZE * i + SYMBOL_HEADER_SIZE <= |out.symtab|
      && Entry(out.symtab, i).stValue == TruncU32(TargetAt(rels, k).Resolve(blockOffsets))
  {
    var x := TargetAt(rels, k);
    IntendedIndexEntry(blockOffsets, indices, decls, out, x);
    WrittenTableEntry(blockOffsets, out.indices, rels, k);
    SmallIndex(out.indices[x], |out.symtab|);
  }

  /** As written, a relocation against one of the first twelve global
      symbols carries the index of a placeholder entry instead. */
  lemma RelocationTargetsPlaceholder(blockOffsets: seq<nat>, indices: map<HeapToken, nat>, decls: seq<SymbolDeclaration>,
                                     out: Symtab, rels: seq<TokenRelocation>, table: Bytes, k: nat, j: nat)
    requires WrittenSymtab(blockOffsets, indices, decls) == Ok(out)
    requires |out.symtab| <= SYMBOL_HEADER_SIZE * 0x100_0000
    requires WrittenTable(blockOffsets, out.indices, rels) == Ok(table) && k < |rels|
    requires LastWith(Extracted(decls), TargetAt(rels, k)) == Some(j) && j < PLACEHOLDER_COUNT
    ensures |table| == RELOCATION_SIZE * |rels|
    ensures var i := TableSymbolIndex(table, k);
      SYMBOL_HEADER_SIZE * i + SYMBOL_HEADER_SIZE <= |out.symtab| && Entry(out.symtab, i) == PLACEHOLDER_SYMBOL
  {
    var x := TargetAt(rels, k);
    GlobalIndexHitsPlaceholder(blockOffsets, indices, decls, out, x, j);
    WrittenTableEntry(blockOffsets, out.indices, rels, k);
    SmallIndex(out.indices[x], |out.symtab|);
  }
}
