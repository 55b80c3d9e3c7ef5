// The `.symtab` and `.strtab` sections `write_symtab` (`src/main.rs`)
// produces, entry by entry: the three fixed entries, one local object per
// internal symbol in resolved-offset order, twelve placeholders, one global
// object per other symbol in declaration order; and the symbol indices it
// hands out for the relocations.
module SymtabLayout {
  import opened Wrappers
  import opened Bytes
  import opened SymbolNames
  import opened Elf
  import opened SymbolTableWriter
  import opened SymtabSections
  import SymbolRenaming
  import Sorting
  import Util

  /** The table starts with the null symbol, the file symbol and the
      section symbol of `.rodata`. */
  lemma FixedEntries()
    ensures |FIXED_ENTRIES| == SYMBOL_HEADER_SIZE * 3
    ensures Entry(FIXED_ENTRIES, 0) == NULL_SYMBOL
    ensures Entry(FIXED_ENTRIES, 1) == FILE_SYMBOL
    ensures Entry(FIXED_ENTRIES, 2) == SECTION_SYMBOL
  {
    var a, b, c := EncodeSymbolHeader(NULL_SYMBOL), EncodeSymbolHeader(FILE_SYMBOL), EncodeSymbolHeader(SECTION_SYMBOL);
    assert FIXED_ENTRIES[0..16] == a && FIXED_ENTRIES[16..32] == b && FIXED_ENTRIES[32..48] == c;
    SymbolHeaderRoundTrip(NULL_SYMBOL);
    SymbolHeaderRoundTrip(FILE_SYMBOL);
    SymbolHeaderRoundTrip(SECTION_SYMBOL);
  }

  /** The string table starts with the empty name (what name offset 0
      reads as) and the file name at offset 1, which the file symbol
      points at. */
  lemma StrtabPrefixNames()
    ensures |STRTAB_PREFIX| == 22
    ensures Util.ReadString(STRTAB_PREFIX, 0) == Ok([])
    ensures Util.ReadString(STRTAB_PREFIX, FILE_SYMBOL.stName) == Ok(Str("data_fld_maplink.cpp"))
  {
    var name := Str("data_fld_maplink.cpp");
    assert STRTAB_PREFIX == [] + [0] + (name + [0]);
    Util.ReadStringOfTerminated([], name + [0]);
    assert forall j :: 0 <= j < |name| ==> name[j] < 0x80 && name[j] != 0;
    Util.AsciiIsUtf8(name);
    Util.ReadStringAt(STRTAB_PREFIX, 1, name);
  }

  /** A written table holds the three fixed entries, one entry per
      declared symbol and the twelve placeholders; the string table holds
      the prefix, then the local names in table order, then the global
      names in declaration order. */
  lemma WrittenSymtabShape(blockOffsets: seq<nat>, indices: map<HeapToken, nat>, decls: seq<SymbolDeclaration>, out: Symtab)
    requires WrittenSymtab(blockOffsets, indices, decls) == Ok(out)
    ensures |out.locals| + |Extracted(decls)| == |decls|
    ensures |out.symtab| == SYMBOL_HEADER_SIZE * (3 + PLACEHOLDER_COUNT + |out.locals| + |Extracted(decls)|)
    ensures out.symtab[..|FIXED_ENTRIES|] == FIXED_ENTRIES
    ensures out.strtab == STRTAB_PREFIX + NameBytes(out.locals) + NameBytes(Extracted(decls))
  {
    WrittenCounts(blockOffsets, indices, decls, out);
    FixedLength();
    var st1, st, last := WrittenSymtabParts(blockOffsets, indices, decls, 0, out);
    RunsShape(blockOffsets, Start(indices), out.locals, Extracted(decls), Placeholders(), 0, st1, st, last, PLACEHOLDER_COUNT);
  }

  /** The local symbols are the internal ones after renaming, each now
      `InternalUnmangled`, sorted by resolved offset, with symbols of equal
      offset in declaration order; there are as many as there were
      internal declarations. */
  lemma WrittenLocals(blockOffsets: seq<nat>, indices: map<HeapToken, nat>, decls: seq<SymbolDeclaration>, out: Symtab, z: SymbolDeclaration)
    requires WrittenSymtab(blockOffsets, indices, decls) == Ok(out)
    ensures multiset(out.locals) == multiset(Remaining(SymbolRenaming.AfterRenaming(decls)))
    ensures Sorting.SortedBy(out.locals, ResolvedLe(blockOffsets))
    ensures Sorting.Equivalents(out.locals, z, ResolvedLe(blockOffsets)) ==
      Sorting.Equivalents(Remaining(SymbolRenaming.AfterRenaming(decls)), z, ResolvedLe(blockOffsets))
    ensures |out.locals| == |Remaining(decls)|
    ensures forall k :: 0 <= k < |out.locals| ==> out.locals[k].name.InternalUnmangled?
  {
    var st1, st, last := WrittenSymtabParts(blockOffsets, indices, decls, 0, out);
    var rest := Remaining(SymbolRenaming.AfterRenaming(decls));
    SplitAfterRenaming(blockOffsets, decls);
    ResolvedLeTotalPreorder(blockOffsets);
    Sorting.SortBySorted(rest, ResolvedLe(blockOffsets));
    Sorting.SortByStable(rest, z, ResolvedLe(blockOffsets));
  }

  lemma SplitCounts(blockOffsets: seq<nat>, decls: seq<SymbolDeclaration>)
    ensures |Locals(blockOffsets, decls)| + |Extracted(decls)| == |decls|
  {
    SplitAfterRenaming(blockOffsets, decls);
  }

  lemma WrittenCounts(blockOffsets: seq<nat>, indices: map<HeapToken, nat>, decls: seq<SymbolDeclaration>, out: Symtab)
    requires WrittenSymtab(blockOffsets, indices, decls) == Ok(out)
    ensures |out.locals| + |Extracted(decls)| == |decls|
  {
    var st1, st, last := WrittenSymtabParts(blockOffsets, indices, decls, 0, out);
    assert out.locals == Locals(blockOffsets, decls);
    SplitCounts(blockOffsets, decls);
  }

  lemma FixedLength()
    ensures |FIXED_ENTRIES| == SYMBOL_HEADER_SIZE * 3
  {
  }

  /** Entry `3 + k` is local symbol `k`: a local object at its resolved
      offset, named at the offset its name has in the string table.  This
      holds whatever the placeholders add to `symbol_count`. */
  lemma SymtabLocalEntry(blockOffsets: seq<nat>, indices: map<HeapToken, nat>, decls: seq<SymbolDeclaration>, counted: nat, out: Symtab, k: nat)
    requires SymtabWith(blockOffsets, indices, decls, counted) == Ok(out) && k < |out.locals|
    ensures SYMBOL_HEADER_SIZE * (3 + k) + SYMBOL_HEADER_SIZE <= |out.symtab|
    ensures out.locals[k].offset.block < |blockOffsets|
    ensures Entry(out.symtab, 3 + k) == EntryHeader(blockOffsets, Entry(out.symtab, 3 + k).stName, out.locals[k], LOCAL_OBJECT)
    ensures NamedAt(Entry(out.symtab, 3 + k), out.locals[k], |STRTAB_PREFIX| + |NameBytes(out.locals[..k])|)
  {
    FixedLength();
    var st1, st, last := WrittenSymtabParts(blockOffsets, indices, decls, counted, out);
    LocalEntry(blockOffsets, Start(indices), out.locals, Extracted(decls), Placeholders(), counted, st1, st, last, k);
  }

  /** The twelve entries after the local symbols are placeholders. */
  lemma WrittenPlaceholderEntry(blockOffsets: seq<nat>, indices: map<HeapToken, nat>, decls: seq<SymbolDeclaration>, out: Symtab, p: nat)
    requires WrittenSymtab(blockOffsets, indices, decls) == Ok(out) && p < PLACEHOLDER_COUNT
    ensures SYMBOL_HEADER_SIZE * (3 + |out.locals| + p) + SYMBOL_HEADER_SIZE <= |out.symtab|
    ensures Entry(out.symtab, 3 + |out.locals| + p) == PLACEHOLDER_SYMBOL
  {
    var st1, st, last := WrittenSymtabParts(blockOffsets, indices, decls, 0, out);
    FixedLength();
    TableFillerEntry(blockOffsets, Start(indices), out.locals, Extracted(decls), Placeholders(), 0, st1, st, last, PLACEHOLDER_SYMBOL, PLACEHOLDER_COUNT, p, out);
  }

  /** The filler entry of the runs, read from the table they produce. */
  lemma TableFillerEntry(blockOffsets: seq<nat>, start: TableState, locals: seq<SymbolDeclaration>, globals: seq<SymbolDeclaration>, filler: Bytes,
                         counted: nat, st1: TableState, st: TableState, last: TableState, h: SymbolHeader, n: nat, p: nat, out: Symtab)
    requires Runs(blockOffsets, start, locals, globals, filler, counted, st1, st, last)
    requires |start.symtab| == SYMBOL_HEADER_SIZE * 3 && filler == Repeated(h, n) && p < n
    requires out == Symtab(last.symtab, last.strtab, last.indices, locals)
    ensures SYMBOL_HEADER_SIZE * (3 + |out.locals| + p) + SYMBOL_HEADER_SIZE <= |out.symtab|
    ensures Entry(out.symtab, 3 + |out.locals| + p) == h
  {
    var i := 3 + |locals| + p;
    FillerEntry(blockOffsets, start, locals, globals, filler, counted, st1, st, last, h, n, p, i);
    OutEntry(out, last.symtab, locals, p, i, h);
  }

  lemma OutEntry(out: Symtab, t: Bytes, locals: seq<SymbolDeclaration>, p: nat, i: nat, h: SymbolHeader)
    requires out.symtab == t && out.locals == locals && i == 3 + |locals| + p
    requires SYMBOL_HEADER_SIZE * i + SYMBOL_HEADER_SIZE <= |t| && Entry(t, i) == h
    ensures SYMBOL_HEADER_SIZE * (3 + |out.locals| + p) + SYMBOL_HEADER_SIZE <= |out.symtab|
    ensures Entry(out.symtab, 3 + |out.locals| + p) == h
  {
  }

  /** Entry `i = 15 + |locals| + j` is the `j`-th declared global symbol:
      a global object at its resolved offset, named at the offset its name
      has in the string table, after all the local names.  This holds
      whatever the placeholders add to `symbol_count`. */
  lemma SymtabGlobalEntry(blockOffsets: seq<nat>, indices: map<HeapToken, nat>, decls: seq<SymbolDeclaration>, counted: nat, out: Symtab, j: nat, i: nat)
    requires SymtabWith(blockOffsets, indices, decls, counted) == Ok(out) && j < |Extracted(decls)|
    requires i == 3 + PLACEHOLDER_COUNT + |out.locals| + j
    ensures SYMBOL_HEADER_SIZE * i + SYMBOL_HEADER_SIZE <= |out.symtab|
    ensures Extracted(decls)[j].offset.block < |blockOffsets|
    ensures Entry(out.symtab, i) == EntryHeader(blockOffsets, Entry(out.symtab, i).stName, Extracted(decls)[j], GLOBAL_OBJECT)
    ensures NamedAt(Entry(out.symtab, i), Extracted(decls)[j], |STRTAB_PREFIX| + |NameBytes(out.locals)| + |NameBytes(Extracted(decls)[..j])|)
  {
    var st1, st, last := WrittenSymtabParts(blockOffsets, indices, decls, counted, out);
    assert SYMBOL_HEADER_SIZE * i + SYMBOL_HEADER_SIZE <= |last.symtab| &&
      Extracted(decls)[j].offset.block < |blockOffsets| &&
      Entry(last.symtab, i) == EntryHeader(blockOffsets, Entry(last.symtab, i).stName, Extracted(decls)[j], GLOBAL_OBJECT) &&
      NamedAt(Entry(last.symtab, i), Extracted(decls)[j], |STRTAB_PREFIX| + |NameBytes(out.locals)| + |NameBytes(Extracted(decls)[..j])|) by {
      FixedLength();
      GlobalEntry(blockOffsets, Start(indices), out.locals, Extracted(decls), Placeholders(), counted, st1, st, last, j, i);
    }
    assert out.symtab == last.symtab;
  }

  /** The index map after a run whose placeholders add `counted` to
      `symbol_count`: a token maps to the index of the last global symbol
      with it, else of the last local symbol with it, else to what the
      caller's map had. */
  lemma IndicesWith(blockOffsets: seq<nat>, indices: map<HeapToken, nat>, decls: seq<SymbolDeclaration>, counted: nat, out: Symtab, x: HeapToken)
    requires SymtabWith(blockOffsets, indices, decls, counted) == Ok(out)
    ensures match LastWith(Extracted(decls), x)
      case Some(j) => x in out.indices && out.indices[x] == 3 + |out.locals| + counted + j
      case None =>
        match LastWith(out.locals, x)
        case Some(k) => x in out.indices && out.indices[x] == 3 + k
        case None => (x in out.indices <==> x in indices) && (x in indices ==> out.indices[x] == indices[x])
  {
    var st1, st, last := WrittenSymtabParts(blockOffsets, indices, decls, counted, out);
    RunsIndex(blockOffsets, Start(indices), out.locals, Extracted(decls), Placeholders(), counted, st1, st, last, x);
  }

  /** The indices `write_symtab` hands out for the relocations: global
      symbol `j` gets `3 + |locals| + j`, local symbol `k` gets `3 + k`,
      other tokens keep what the caller's map gave them. */
  lemma WrittenSymtabIndex(blockOffsets: seq<nat>, indices: map<HeapToken, nat>, decls: seq<SymbolDeclaration>, out: Symtab, x: HeapToken)
    requires WrittenSymtab(blockOffsets, indices, decls) == Ok(out)
    ensures match LastWith(Extracted(decls), x)
      case Some(j) => x in out.indices && out.indices[x] == 3 + |out.locals| + j
      case None =>
        match LastWith(out.locals, x)
        case Some(k) => x in out.indices && out.indices[x] == 3 + k
        case None => (x in out.indices <==> x in indices) && (x in indices ==> out.indices[x] == indices[x])
  {
    IndicesWith(blockOffsets, indices, decls, 0, out, x);
  }

  /** As written, the index of one of the first twelve global symbols is
      the position of a placeholder entry, not of the symbol's own entry:
      a relocation against it points at the placeholder. */
  lemma GlobalIndexHitsPlaceholder(blockOffsets: seq<nat>, indices: map<HeapToken, nat>, decls: seq<SymbolDeclaration>, out: Symtab, x: HeapToken, j: nat)
    requires WrittenSymtab(blockOffsets, indices, decls) == Ok(out)
    requires LastWith(Extracted(decls), x) == Some(j) && j < PLACEHOLDER_COUNT
    ensures x in out.indices && SYMBOL_HEADER_SIZE * out.indices[x] + SYMBOL_HEADER_SIZE <= |out.symtab|
    ensures Entry(out.symtab, out.indices[x]) == PLACEHOLDER_SYMBOL
  {
    WrittenGlobalIndex(blockOffsets, indices, decls, out, x, j);
    WrittenPlaceholderEntry(blockOffsets, indices, decls, out, j);
    IndexedEntry(out, x, j, PLACEHOLDER_SYMBOL);
  }

  /** The `j`-th global symbol, when it is the last one with its token,
      gets index `3 + |locals| + j`. */
  lemma WrittenGlobalIndex(blockOffsets: seq<nat>, indices: map<HeapToken, nat>, decls: seq<SymbolDeclaration>, out: Symtab, x: HeapToken, j: nat)
    requires WrittenSymtab(blockOffsets, indices, decls) == Ok(out) && LastWith(Extracted(decls), x) == Some(j)
    ensures x in out.indices && out.indices[x] == 3 + |out.locals| + j
  {
    WrittenSymtabIndex(blockOffsets, indices, decls, out, x);
  }

  lemma IndexedEntry(out: Symtab, x: HeapToken, j: nat, h: SymbolHeader)
    requires x in out.indices && out.indices[x] == 3 + |out.locals| + j
    requires SYMBOL_HEADER_SIZE * (3 + |out.locals| + j) + SYMBOL_HEADER_SIZE <= |out.symtab|
    requires Entry(out.symtab, 3 + |out.locals| + j) == h
    ensures SYMBOL_HEADER_SIZE * out.indices[x] + SYMBOL_HEADER_SIZE <= |out.symtab| && Entry(out.symtab, out.indices[x]) == h
  {
  }

  /** With the placeholders counted, every index handed out for a written
      symbol is the position of that symbol's entry: the entry holds the
      token's resolved offset and the run's `st_info`. */
  lemma IntendedIndexEntry(blockOffsets: seq<nat>, indices: map<HeapToken, nat>, decls: seq<SymbolDeclaration>, out: Symtab, x: HeapToken)
    requires IntendedSymtab(blockOffsets, indices, decls) == Ok(out)
    requires LastWith(Extracted(decls), x).Some? || LastWith(out.locals, x).Some?
    ensures x in out.indices && SYMBOL_HEADER_SIZE * out.indices[x] + SYMBOL_HEADER_SIZE <= |out.symtab|
    ensures x.block < |blockOffsets|
    ensures Entry(out.symtab, out.indices[x]).stValue == TruncU32(x.Resolve(blockOffsets))
    ensures Entry(out.symtab, out.indices[x]).stInfo == if LastWith(Extracted(decls), x).Some? then GLOBAL_OBJECT else LOCAL_OBJECT
  {
    IndicesWith(blockOffsets, indices, decls, PLACEHOLDER_COUNT, out, x);
    match LastWith(Extracted(decls), x)
    case Some(j) =>
      var i := 3 + PLACEHOLDER_COUNT + |out.locals| + j;
      SymtabGlobalEntry(blockOffsets, indices, decls, PLACEHOLDER_COUNT, out, j, i);
      IndexedSymbol(blockOffsets, out, x, i, Extracted(decls)[j], GLOBAL_OBJECT);
    case None =>
      var k := LastWith(out.locals, x).value;
      SymtabLocalEntry(blockOffsets, indices, decls, PLACEHOLDER_COUNT, out, k);
      IndexedSymbol(blockOffsets, out, x, 3 + k, out.locals[k], LOCAL_OBJECT);
  }

  /** The entry at the index of `x` is that of a symbol `d` at `x`. */
  lemma IndexedSymbol(blockOffsets: seq<nat>, out: Symtab, x: HeapToken, i: nat, d: SymbolDeclaration, info: u8)
    requires x in out.indices && out.indices[x] == i && SYMBOL_HEADER_SIZE * i + SYMBOL_HEADER_SIZE <= |out.symtab|
    requires d.offset == x && d.offset.block < |blockOffsets|
    requires Entry(out.symtab, i) == EntryHeader(blockOffsets, Entry(out.symtab, i).stName, d, info)
    ensures SYMBOL_HEADER_SIZE * out.indices[x] + SYMBOL_HEADER_SIZE <= |out.symtab| && x.block < |blockOffsets|
    ensures Entry(out.symtab, out.indices[x]).stValue == TruncU32(x.Resolve(blockOffsets))
    ensures Entry(out.symtab, out.indices[x]).stInfo == info
  {
  }

  /** The name of local symbol `k` reads back from the string table at the
      name offset of its entry. */
  lemma WrittenLocalName(blockOffsets: seq<nat>, indices: map<HeapToken, nat>, decls: seq<SymbolDeclaration>, out: Symtab, k: nat)
    requires WrittenSymtab(blockOffsets, indices, decls) == Ok(out) && k < |out.locals| && Readable(out.locals[k])
    ensures SYMBOL_HEADER_SIZE * (3 + k) + SYMBOL_HEADER_SIZE <= |out.symtab|
    ensures Entry(out.symtab, 3 + k).stName as nat <= |out.strtab|
    ensures Util.ReadString(out.strtab, Entry(out.symtab, 3 + k).stName as nat) == Ok(out.locals[k].name.AsStr().value)
  {
    var pos := |STRTAB_PREFIX| + |NameBytes(out.locals[..k])|;
    assert SYMBOL_HEADER_SIZE * (3 + k) + SYMBOL_HEADER_SIZE <= |out.symtab| && Entry(out.symtab, 3 + k).stName as nat == pos by {
      SymtabLocalEntry(blockOffsets, indices, decls, 0, out, k);
    }
    assert out.strtab == STRTAB_PREFIX + NameBytes(out.locals) + NameBytes(Extracted(decls)) by {
      WrittenSymtabShape(blockOffsets, indices, decls, out);
    }
    NameReadsBack(out.strtab, STRTAB_PREFIX, out.locals, NameBytes(Extracted(decls)), k, pos);
  }

  /** The name of global symbol `j`, at entry `i = 15 + |locals| + j`,
      reads back from the string table at the name offset of its entry. */
  lemma WrittenGlobalName(blockOffsets: seq<nat>, indices: map<HeapToken, nat>, decls: seq<SymbolDeclaration>, out: Symtab, j: nat, i: nat)
    requires WrittenSymtab(blockOffsets, indices, decls) == Ok(out) && j < |Extracted(decls)| && Readable(Extracted(decls)[j])
    requires i == 3 + PLACEHOLDER_COUNT + |out.locals| + j
    ensures SYMBOL_HEADER_SIZE * i + SYMBOL_HEADER_SIZE <= |out.symtab|
    ensures Entry(out.symtab, i).stName as nat <= |out.strtab|
    ensures Util.ReadString(out.strtab, Entry(out.symtab, i).stName as nat) == Ok(Extracted(decls)[j].name.AsStr().value)
  {
    var pos := |STRTAB_PREFIX| + |NameBytes(out.locals)| + |NameBytes(Extracted(decls)[..j])|;
    assert SYMBOL_HEADER_SIZE * i + SYMBOL_HEADER_SIZE <= |out.symtab| && Entry(out.symtab, i).stName as nat == pos by {
      SymtabGlobalEntry(blockOffsets, indices, decls, 0, out, j, i);
    }
    var before := STRTAB_PREFIX + NameBytes(out.locals);
    assert out.strtab == before + NameBytes(Extracted(decls)) + [] by {
      WrittenSymtabShape(blockOffsets, indices, decls, out);
    }
    NameReadsBack(out.strtab, before, Extracted(decls), [], j, pos);
  }
}
