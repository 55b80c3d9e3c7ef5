// The second half of `write_symtab` (`src/main.rs`): the `.symtab` and
// `.strtab` sections of the reassembled file.  Three fixed entries come
// first, then the internal symbols in the order of their resolved offsets
// (local objects), twelve placeholder entries, and the other symbols in
// declaration order (global objects); every written symbol's heap token is
// mapped to the symbol table index the relocations refer to.
module SymbolTableWriter {
  import opened Wrappers
  import opened Bytes
  import opened SymbolNames
  import opened Elf
  import PointerUtil
  import Sorting
  import Util
  import SymbolRenaming

  /** The null symbol every ELF symbol table starts with. */
  const NULL_SYMBOL := SymbolHeader(0, 0, 0, 0, 0, 0)
  /** The `STT_FILE` symbol naming `data_fld_maplink.cpp`, absolute. */
  const FILE_SYMBOL := SymbolHeader(1, 0, 0, 4, 0, 0xFFF1)
  /** The `STT_SECTION` symbol of `.rodata`. */
  const SECTION_SYMBOL := SymbolHeader(0, 0, 0, 3, 0, 1)
  /** The entries between the local and the global symbols: `st_info`
      0x10 (global, no type), everything else zero. */
  const PLACEHOLDER_SYMBOL := SymbolHeader(0, 0, 0, 0x10, 0, 0)
  const PLACEHOLDER_COUNT: nat := 12
  /** `st_info` of the internal symbols (local object) and of the others
      (global object). */
  const LOCAL_OBJECT: u8 := 1
  const GLOBAL_OBJECT: u8 := 0x11

  /** The string table starts with the empty name and the file name. */
  const STRTAB_PREFIX: Bytes := [0] + Str("data_fld_maplink.cpp") + [0]

  /** Where the writer is: the symbol table and string table so far, the
      map from heap tokens to symbol indices, and `symbol_count`. */
  datatype TableState = TableState(symtab: Bytes, strtab: Bytes, indices: map<HeapToken, nat>, count: nat)

  /** The string table bytes of one symbol: its name and a NUL, or nothing
      when `as_str` gives none. */
  function NameEntry(d: SymbolDeclaration): Bytes
  {
    match d.name.AsStr()
    case None => []
    case Some(name) => name + [0]
  }

  /** The string table bytes of a run of symbols. */
  function NameBytes(ds: seq<SymbolDeclaration>): Bytes
  {
    if ds == [] then [] else NameBytes(ds[..|ds| - 1]) + NameEntry(ds[|ds| - 1])
  }

  /** The `write_symbol` closure: the name goes to the string table (its
      offset must fit a pointer), the token gets the next index, and the
      entry with the resolved offset goes to the symbol table. */
  function WriteSymbol(blockOffsets: seq<nat>, st: TableState, d: SymbolDeclaration, info: u8): (r: Result<TableState>)
    ensures r.Ok? <==> d.offset.block < |blockOffsets| && (d.name.AsStr().Some? ==> |st.strtab| <= U32_MAX)
    ensures r.Err? ==> r.error == Panic || r.error == PositionOverflow
  {
    var namePtr :- if d.name.AsStr().Some? then PointerUtil.Current(|st.strtab|) else Ok(PointerUtil.Pointer(0));
    if d.offset.block >= |blockOffsets| then Err(Panic)
    else
      Ok(TableState(st.symtab + EncodeSymbolHeader(EntryHeader(blockOffsets, namePtr.value, d, info)), st.strtab + NameEntry(d), st.indices[d.offset := st.count], st.count + 1))
  }

  /** `write_symbol` over a run of symbols, in order. */
  function WriteSymbols(blockOffsets: seq<nat>, st: TableState, ds: seq<SymbolDeclaration>, info: u8): Result<TableState>
  {
    if ds == [] then Ok(st)
    else
      var prev :- WriteSymbols(blockOffsets, st, ds[..|ds| - 1], info);
      WriteSymbol(blockOffsets, prev, ds[|ds| - 1], info)
  }

  /** Writing a run appends one 16-byte entry per symbol, appends the names
      to the string table and counts the symbols. */
  lemma {:induction false} WriteSymbolsResult(blockOffsets: seq<nat>, st: TableState, ds: seq<SymbolDeclaration>, info: u8)
    requires WriteSymbols(blockOffsets, st, ds, info).Ok?
    ensures var t := WriteSymbols(blockOffsets, st, ds, info).value;
      && t.count == st.count + |ds|
      && t.strtab == st.strtab + NameBytes(ds)
      && |t.symtab| == |st.symtab| + SYMBOL_HEADER_SIZE * |ds|
      && t.symtab[..|st.symtab|] == st.symtab
  {
    if ds != [] {
      var init := ds[..|ds| - 1];
      WriteSymbolsResult(blockOffsets, st, init, info);
      var prev := WriteSymbols(blockOffsets, st, init, info).value;
      var t := WriteSymbols(blockOffsets, st, ds, info).value;
      assert t.symtab[..|prev.symtab|] == prev.symtab;
      assert t.symtab[..|st.symtab|] == prev.symtab[..|st.symtab|];
    }
  }

  /** Every symbol's heap token lies in a block that was laid out. */
  predicate BlocksExist(blockOffsets: seq<nat>, ds: seq<SymbolDeclaration>)
  {
    forall k :: 0 <= k < |ds| ==> ds[k].offset.block < |blockOffsets|
  }

  /** Every name starts at a string table offset that fits a pointer. */
  predicate NamesFit(strtabLen: nat, ds: seq<SymbolDeclaration>)
  {
    forall k :: 0 <= k < |ds| && ds[k].name.AsStr().Some? ==> strtabLen + |NameBytes(ds[..k])| <= U32_MAX
  }

  lemma RunConditionsSplit(blockOffsets: seq<nat>, strtabLen: nat, ds: seq<SymbolDeclaration>)
    requires ds != []
    ensures var init, last := ds[..|ds| - 1], ds[|ds| - 1];
      && (BlocksExist(blockOffsets, ds) <==> BlocksExist(blockOffsets, init) && last.offset.block < |blockOffsets|)
      && (NamesFit(strtabLen, ds) <==>
           NamesFit(strtabLen, init) && (last.name.AsStr().Some? ==> strtabLen + |NameBytes(init)| <= U32_MAX))
  {
    BlocksExistLast(blockOffsets, ds);
    NamesFitLast(strtabLen, ds);
  }

  lemma BlocksExistLast(blockOffsets: seq<nat>, ds: seq<SymbolDeclaration>)
    requires ds != []
    ensures BlocksExist(blockOffsets, ds) <==>
      BlocksExist(blockOffsets, ds[..|ds| - 1]) && ds[|ds| - 1].offset.block < |blockOffsets|
  {
    var init := ds[..|ds| - 1];
    assert forall k :: 0 <= k < |init| ==> init[k] == ds[k];
  }

  lemma NamesFitLast(strtabLen: nat, ds: seq<SymbolDeclaration>)
    requires ds != []
    ensures var init, last := ds[..|ds| - 1], ds[|ds| - 1];
      NamesFit(strtabLen, ds) <==>
        NamesFit(strtabLen, init) && (last.name.AsStr().Some? ==> strtabLen + |NameBytes(init)| <= U32_MAX)
  {
    var init, last := ds[..|ds| - 1], ds[|ds| - 1];
    if NamesFit(strtabLen, ds) {
      NamesFitInit(strtabLen, ds, init);
    }
    if NamesFit(strtabLen, init) && (last.name.AsStr().Some? ==> strtabLen + |NameBytes(init)| <= U32_MAX) {
      NamesFitExtend(strtabLen, init, last);
      assert init + [last] == ds;
    }
  }

  lemma NamesFitInit(strtabLen: nat, ds: seq<SymbolDeclaration>, init: seq<SymbolDeclaration>)
    requires ds != [] && init == ds[..|ds| - 1] && NamesFit(strtabLen, ds)
    ensures NamesFit(strtabLen, init)
    ensures ds[|ds| - 1].name.AsStr().Some? ==> strtabLen + |NameBytes(init)| <= U32_MAX
  {
    forall k | 0 <= k < |init| && init[k].name.AsStr().Some?
      ensures strtabLen + |NameBytes(init[..k])| <= U32_MAX
    {
      assert init[k] == ds[k] && init[..k] == ds[..k];
    }
  }

  lemma NamesFitExtend(strtabLen: nat, init: seq<SymbolDeclaration>, last: SymbolDeclaration)
    requires NamesFit(strtabLen, init) && (last.name.AsStr().Some? ==> strtabLen + |NameBytes(init)| <= U32_MAX)
    ensures NamesFit(strtabLen, init + [last])
  {
    var ds := init + [last];
    forall k | 0 <= k < |ds| && ds[k].name.AsStr().Some?
      ensures strtabLen + |NameBytes(ds[..k])| <= U32_MAX
    {
      if k < |init| {
        assert init[k] == ds[k] && init[..k] == ds[..k];
      } else {
        assert ds[..k] == init;
      }
    }
  }

  /** A run is written exactly when every token's block exists and every
      name starts at a string table offset that fits a pointer; otherwise
      the error is the panic or the overflow. */
  lemma {:induction false} WriteSymbolsOk(blockOffsets: seq<nat>, st: TableState, ds: seq<SymbolDeclaration>, info: u8)
    ensures WriteSymbols(blockOffsets, st, ds, info).Ok? <==>
      BlocksExist(blockOffsets, ds) && NamesFit(|st.strtab|, ds)
    ensures WriteSymbols(blockOffsets, st, ds, info).Err? ==>
      WriteSymbols(blockOffsets, st, ds, info).error in {Panic, PositionOverflow}
  {
    if ds != [] {
      var init := ds[..|ds| - 1];
      WriteSymbolsOk(blockOffsets, st, init, info);
      RunConditionsSplit(blockOffsets, |st.strtab|, ds);
      if WriteSymbols(blockOffsets, st, init, info).Ok? {
        WriteSymbolsResult(blockOffsets, st, init, info);
      }
    }
  }

  /** The entry `write_symbol` builds for `d`, given where its name went:
      the resolved offset of its token, its size, the run's `st_info`,
      section 1 (`.rodata`). */
  function EntryHeader(blockOffsets: seq<nat>, namePtr: u32, d: SymbolDeclaration, info: u8): SymbolHeader
    requires d.offset.block < |blockOffsets|
  {
    SymbolHeader(namePtr, TruncU32(d.offset.Resolve(blockOffsets)), d.size, info, 0, 1)
  }

  /** The name offset of an entry whose name (if any) went to `namePos`. */
  predicate NamedAt(h: SymbolHeader, d: SymbolDeclaration, namePos: nat)
  {
    h.stName == if d.name.AsStr().Some? then namePos else 0
  }

  /** `write_symbol` appends one entry: the symbol's, with its name at the
      end of the string table so far. */
  lemma WriteSymbolEntry(blockOffsets: seq<nat>, st: TableState, d: SymbolDeclaration, info: u8)
    requires WriteSymbol(blockOffsets, st, d, info).Ok?
    ensures var t := WriteSymbol(blockOffsets, st, d, info).value;
      && d.offset.block < |blockOffsets|
      && |t.symtab| == |st.symtab| + SYMBOL_HEADER_SIZE && t.symtab[..|st.symtab|] == st.symtab
      && var h := DecodeSymbolHeader(t.symtab[|st.symtab|..]);
         h == EntryHeader(blockOffsets, h.stName, d, info) && NamedAt(h, d, |st.strtab|)
  {
    var namePtr := if d.name.AsStr().Some? then |st.strtab| else 0;
    var h := EntryHeader(blockOffsets, namePtr, d, info);
    var t := WriteSymbol(blockOffsets, st, d, info).value;
    assert t.symtab == st.symtab + EncodeSymbolHeader(h);
    assert t.symtab[|st.symtab|..] == EncodeSymbolHeader(h);
    SymbolHeaderRoundTrip(h);
  }

  /** A slice inside a prefix is the prefix's slice. */
  lemma PrefixSlice(a: Bytes, p: Bytes, i: nat, j: nat)
    requires |p| <= |a| && a[..|p|] == p && i <= j <= |p|
    ensures a[i..j] == p[i..j]
  {
    forall x | 0 <= x < j - i
      ensures a[i..j][x] == p[i..j][x]
    {
      assert a[..|p|][i + x] == p[i + x];
    }
  }

  /** Writing a prefix of the run succeeds and leaves a prefix of the
      symbol table. */
  lemma {:induction false} WriteSymbolsPrefix(blockOffsets: seq<nat>, st: TableState, ds: seq<SymbolDeclaration>, info: u8, j: nat)
    requires j <= |ds| && WriteSymbols(blockOffsets, st, ds, info).Ok?
    ensures WriteSymbols(blockOffsets, st, ds[..j], info).Ok?
    ensures var t, p := WriteSymbols(blockOffsets, st, ds, info).value, WriteSymbols(blockOffsets, st, ds[..j], info).value;
      |p.symtab| <= |t.symtab| && t.symtab[..|p.symtab|] == p.symtab
    decreases |ds|
  {
    if j == |ds| {
      assert ds[..j] == ds;
    } else {
      var init := ds[..|ds| - 1];
      var prev := WriteSymbols(blockOffsets, st, init, info).value;
      var t := WriteSymbols(blockOffsets, st, ds, info).value;
      WriteSymbolsPrefix(blockOffsets, st, init, info, j);
      assert init[..j] == ds[..j];
      var p := WriteSymbols(blockOffsets, st, ds[..j], info).value;
      WriteSymbolEntry(blockOffsets, prev, ds[|ds| - 1], info);
      PrefixSlice(t.symtab, prev.symtab, 0, |p.symtab|);
      assert prev.symtab[0..|p.symtab|] == p.symtab;
    }
  }

  /** Entry `k` of a written run decodes to symbol `k` with the resolved
      offset of its token, its size, the run's `st_info`, section 1, and the
      string table offset where its name was put; it stays there in any
      symbol table `big` that extends the run's. */
  lemma WriteSymbolsEntry(blockOffsets: seq<nat>, st: TableState, ds: seq<SymbolDeclaration>, info: u8, k: nat, t: TableState, big: Bytes,
                          at: nat, namePos: nat)
    requires k < |ds| && WriteSymbols(blockOffsets, st, ds, info) == Ok(t)
    requires |t.symtab| <= |big| && big[..|t.symtab|] == t.symtab
    requires at == |st.symtab| + SYMBOL_HEADER_SIZE * k && namePos == |st.strtab| + |NameBytes(ds[..k])|
    ensures at + SYMBOL_HEADER_SIZE <= |big| && ds[k].offset.block < |blockOffsets|
    ensures var h := DecodeSymbolHeader(big[at..at + SYMBOL_HEADER_SIZE]);
      h == EntryHeader(blockOffsets, h.stName, ds[k], info) && NamedAt(h, ds[k], namePos)
  {
    WriteSymbolsPrefix(blockOffsets, st, ds, info, k + 1);
    WriteSymbolsStep(blockOffsets, st, ds, info, k);
    var before := WriteSymbols(blockOffsets, st, ds[..k], info).value;
    var upto := WriteSymbols(blockOffsets, st, ds[..k + 1], info).value;
    assert |before.strtab| == namePos && |before.symtab| == at by {
      WriteSymbolsResult(blockOffsets, st, ds[..k], info);
    }
    PrefixTrans(big, t.symtab, upto.symtab);
    EntryOfStep(blockOffsets, before, upto, big, ds[k], info, at, namePos);
  }

  lemma PrefixTrans(a: Bytes, b: Bytes, c: Bytes)
    requires |b| <= |a| && a[..|b|] == b && |c| <= |b| && b[..|c|] == c
    ensures |c| <= |a| && a[..|c|] == c
  {
    PrefixSlice(a, b, 0, |c|);
  }

  /** The entry one `write_symbol` appends stays where it was put in any
      symbol table that extends the one it produced. */
  lemma EntryOfStep(blockOffsets: seq<nat>, before: TableState, upto: TableState, t: Bytes,
                    d: SymbolDeclaration, info: u8, at: nat, namePos: nat)
    requires WriteSymbol(blockOffsets, before, d, info) == Ok(upto)
    requires |before.symtab| == at && |before.strtab| == namePos
    requires |upto.symtab| <= |t| && t[..|upto.symtab|] == upto.symtab
    ensures at + SYMBOL_HEADER_SIZE <= |t| && d.offset.block < |blockOffsets|
    ensures var h := DecodeSymbolHeader(t[at..at + SYMBOL_HEADER_SIZE]);
      h == EntryHeader(blockOffsets, h.stName, d, info) && NamedAt(h, d, namePos)
  {
    WriteSymbolEntry(blockOffsets, before, d, info);
    LastPiece(t, upto.symtab, at, SYMBOL_HEADER_SIZE);
  }

  /** The run up to symbol `k` is the run before it and then symbol `k`. */
  lemma WriteSymbolsStep(blockOffsets: seq<nat>, st: TableState, ds: seq<SymbolDeclaration>, info: u8, k: nat)
    requires k < |ds| && WriteSymbols(blockOffsets, st, ds[..k + 1], info).Ok?
    ensures WriteSymbols(blockOffsets, st, ds[..k], info).Ok?
    ensures WriteSymbols(blockOffsets, st, ds[..k + 1], info) ==
      WriteSymbol(blockOffsets, WriteSymbols(blockOffsets, st, ds[..k], info).value, ds[k], info)
  {
    assert ds[..k + 1][..k] == ds[..k];
  }

  /** The last `n` bytes of a prefix `u` of `t` are the same bytes of `t`. */
  lemma LastPiece(t: Bytes, u: Bytes, at: nat, n: nat)
    requires |u| <= |t| && t[..|u|] == u && at + n == |u|
    ensures t[at..at + n] == u[at..]
  {
    PrefixSlice(t, u, at, at + n);
  }

  /** The string table of a prefix of the run is a prefix of the run's. */
  lemma {:induction false} NameBytesPrefix(ds: seq<SymbolDeclaration>, j: nat)
    requires j <= |ds|
    ensures |NameBytes(ds[..j])| <= |NameBytes(ds)| && NameBytes(ds)[..|NameBytes(ds[..j])|] == NameBytes(ds[..j])
    decreases |ds|
  {
    if j < |ds| {
      var init := ds[..|ds| - 1];
      NameBytesPrefix(init, j);
      assert init[..j] == ds[..j];
    } else {
      assert ds[..j] == ds;
    }
  }

  /** Symbol `k`'s string table bytes (its name and a NUL, if it has a
      name) sit in the run's string table at the offset its entry gives. */
  lemma NameBytesAt(ds: seq<SymbolDeclaration>, k: nat)
    requires k < |ds|
    ensures var p, e := |NameBytes(ds[..k])|, NameEntry(ds[k]);
      p + |e| <= |NameBytes(ds)| && NameBytes(ds)[p..p + |e|] == e
  {
    NameBytesStep(ds, k);
    NameBytesPrefix(ds, k + 1);
    var e := NameEntry(ds[k]);
    var p := |NameBytes(ds[..k])|;
    LastPiece(NameBytes(ds), NameBytes(ds[..k + 1]), p, |e|);
  }

  /** The names up to symbol `k` are the names before it and then its own. */
  lemma NameBytesStep(ds: seq<SymbolDeclaration>, k: nat)
    requires k < |ds|
    ensures NameBytes(ds[..k + 1]) == NameBytes(ds[..k]) + NameEntry(ds[k])
  {
    assert ds[..k + 1][..k] == ds[..k];
  }

  /** The last symbol of `ds` whose heap token is `x`, if any. */
  function LastWith(ds: seq<SymbolDeclaration>, x: HeapToken): (r: Option<nat>)
    ensures r.Some? ==> r.value < |ds| && ds[r.value].offset == x
    ensures r.Some? ==> forall j :: r.value < j < |ds| ==> ds[j].offset != x
    ensures r.None? ==> forall j :: 0 <= j < |ds| ==> ds[j].offset != x
  {
    if ds == [] then None
    else if ds[|ds| - 1].offset == x then Some(|ds| - 1)
    else LastWith(ds[..|ds| - 1], x)
  }

  /** After a run, a token maps to the index of the last symbol of the run
      with that token (`insert` overwrites); a token no symbol of the run
      has keeps what it had. */
  lemma {:induction false} WriteSymbolsIndex(blockOffsets: seq<nat>, st: TableState, ds: seq<SymbolDeclaration>, info: u8, x: HeapToken)
    requires WriteSymbols(blockOffsets, st, ds, info).Ok?
    ensures var t := WriteSymbols(blockOffsets, st, ds, info).value;
      match LastWith(ds, x)
      case Some(k) => x in t.indices && t.indices[x] == st.count + k
      case None => (x in t.indices <==> x in st.indices) && (x in st.indices ==> t.indices[x] == st.indices[x])
  {
    if ds != [] {
      var init := ds[..|ds| - 1];
      var prev := WriteSymbols(blockOffsets, st, init, info).value;
      WriteSymbolsIndex(blockOffsets, st, init, info, x);
      assert prev.count == st.count + |init| by {
        WriteSymbolsResult(blockOffsets, st, init, info);
      }
    }
  }

  /** Once a prefix of the run fails, the run fails with that error. */
  lemma {:induction false} WriteSymbolsPrefixErr(blockOffsets: seq<nat>, st: TableState, ds: seq<SymbolDeclaration>, info: u8, n: nat)
    requires n <= |ds| && WriteSymbols(blockOffsets, st, ds[..n], info).Err?
    ensures WriteSymbols(blockOffsets, st, ds, info) == WriteSymbols(blockOffsets, st, ds[..n], info)
    decreases |ds| - n
  {
    if n < |ds| {
      assert ds[..n + 1][..n] == ds[..n];
      WriteSymbolsPrefixErr(blockOffsets, st, ds, info, n + 1);
    } else {
      assert ds[..n] == ds;
    }
  }

  /** The loop `for symbol in ... { write_symbol(&mut writer, symbol, st_info)? }`. */
  method WriteRun(blockOffsets: seq<nat>, st: TableState, ds: seq<SymbolDeclaration>, info: u8) returns (r: Result<TableState>)
    ensures r == WriteSymbols(blockOffsets, st, ds, info)
  {
    var cur := st;
    for k := 0 to |ds|
      invariant WriteSymbols(blockOffsets, st, ds[..k], info) == Ok(cur)
    {
      assert ds[..k + 1][..k] == ds[..k];
      var next := WriteSymbol(blockOffsets, cur, ds[k], info);
      if next.Err? {
        WriteSymbolsPrefixErr(blockOffsets, st, ds, info, k + 1);
        return next;
      }
      cur := next.value;
    }
    assert ds[..|ds|] == ds;
    r := Ok(cur);
  }
}
