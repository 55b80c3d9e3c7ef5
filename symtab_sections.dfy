// `write_symtab` (`src/main.rs`) as a whole: the two renaming blocks, the
// split of the declarations into the internally linked symbols (kept,
// sorted by resolved offset, written as local objects) and the others
// (taken out by `extract_if`, written as global objects in declaration
// order), and the `.symtab` / `.strtab` sections that come out.
module SymtabSections {
  import opened Wrappers
  import opened Bytes
  import opened SymbolNames
  import opened Elf
  import opened SymbolTableWriter
  import SymbolRenaming
  import Sorting
  import Util

  /** The symbols `extract_if(.., |s| !s.name.is_internal())` takes out,
      in declaration order. */
  function Extracted(ds: seq<SymbolDeclaration>): (r: seq<SymbolDeclaration>)
    ensures forall k :: 0 <= k < |r| ==> !r[k].name.IsInternal()
  {
    if ds == [] then []
    else Extracted(ds[..|ds| - 1]) + (if ds[|ds| - 1].name.IsInternal() then [] else [ds[|ds| - 1]])
  }

  /** The symbols `extract_if` leaves in the vector. */
  function Remaining(ds: seq<SymbolDeclaration>): (r: seq<SymbolDeclaration>)
    ensures forall k :: 0 <= k < |r| ==> r[k].name.IsInternal()
  {
    if ds == [] then []
    else Remaining(ds[..|ds| - 1]) + (if ds[|ds| - 1].name.IsInternal() then [ds[|ds| - 1]] else [])
  }

  /** The split loses and invents nothing. */
  lemma {:induction false} SplitIsPartition(ds: seq<SymbolDeclaration>)
    ensures multiset(Extracted(ds)) + multiset(Remaining(ds)) == multiset(ds)
  {
    if ds != [] {
      var init := ds[..|ds| - 1];
      SplitIsPartition(init);
      assert ds == init + [ds[|ds| - 1]];
    }
  }

  /** Two declaration lists that agree on which symbols are internal and
      on every symbol that is not give the same extracted symbols and the
      same number of remaining ones. */
  lemma {:induction false} SplitAgrees(a: seq<SymbolDeclaration>, b: seq<SymbolDeclaration>)
    requires |a| == |b|
    requires forall i :: 0 <= i < |a| ==>
      a[i].name.IsInternal() == b[i].name.IsInternal() && (!a[i].name.IsInternal() ==> a[i] == b[i])
    ensures Extracted(a) == Extracted(b) && |Remaining(a)| == |Remaining(b)|
  {
    if a != [] {
      var ia, ib := a[..|a| - 1], b[..|b| - 1];
      assert forall i :: 0 <= i < |ia| ==> ia[i] == a[i] && ib[i] == b[i];
      SplitAgrees(ia, ib);
    }
  }

  /** `symbol.offset.resolve(block_offsets)`, the key of the sort; only
      looked at once every block is known to exist. */
  function ResolvedKey(blockOffsets: seq<nat>, d: SymbolDeclaration): nat
  {
    if d.offset.block < |blockOffsets| then d.offset.Resolve(blockOffsets) else 0
  }

  /** The order of `sort_by_key(|symbol| symbol.offset.resolve(block_offsets))`. */
  function ResolvedLe(blockOffsets: seq<nat>): (SymbolDeclaration, SymbolDeclaration) -> bool
  {
    (a: SymbolDeclaration, b: SymbolDeclaration) => ResolvedKey(blockOffsets, a) <= ResolvedKey(blockOffsets, b)
  }

  lemma ResolvedLeTotalPreorder(blockOffsets: seq<nat>)
    ensures Sorting.TotalPreorder(ResolvedLe(blockOffsets))
  {
  }

  /** The null, file and section symbols every table starts with. */
  const FIXED_ENTRIES: Bytes :=
    EncodeSymbolHeader(NULL_SYMBOL) + EncodeSymbolHeader(FILE_SYMBOL) + EncodeSymbolHeader(SECTION_SYMBOL)

  /** `n` copies of the entry `h`. */
  function Repeated(h: SymbolHeader, n: nat): (r: Bytes)
    ensures |r| == SYMBOL_HEADER_SIZE * n
  {
    var e := EncodeSymbolHeader(h);
    seq(SYMBOL_HEADER_SIZE * n, i requires 0 <= i < SYMBOL_HEADER_SIZE * n => e[i % SYMBOL_HEADER_SIZE])
  }

  /** One more copy is one more entry at the end. */
  lemma RepeatedStep(h: SymbolHeader, n: nat)
    ensures Repeated(h, n + 1) == Repeated(h, n) + EncodeSymbolHeader(h)
  {
    var e, a, b := EncodeSymbolHeader(h), Repeated(h, n), Repeated(h, n + 1);
    forall i | 0 <= i < |b|
      ensures b[i] == (a + e)[i]
    {
      if i >= SYMBOL_HEADER_SIZE * n {
        assert i % SYMBOL_HEADER_SIZE == i - SYMBOL_HEADER_SIZE * n;
      }
    }
  }

  /** The placeholder entries. */
  function Placeholders(): Bytes
  {
    Repeated(PLACEHOLDER_SYMBOL, PLACEHOLDER_COUNT)
  }

  /** The writer before the first declared symbol: the three fixed entries,
      the string table prefix, the caller's index map, `symbol_count` 3. */
  function Start(indices: map<HeapToken, nat>): TableState
  {
    TableState(FIXED_ENTRIES, STRTAB_PREFIX, indices, 3)
  }

  /** What `write_symtab` gives back: the two sections, the index map and
      what is left of the declarations (the local symbols, sorted). */
  datatype Symtab = Symtab(symtab: Bytes, strtab: Bytes, indices: map<HeapToken, nat>, locals: seq<SymbolDeclaration>)

  /** Some `InternalNamed` name is empty once the first block has run: the
      second block's `chars().next().unwrap()` panics. */
  predicate EmptyNamed(ds: seq<SymbolDeclaration>)
  {
    exists i :: 0 <= i < |ds| && ds[i].name == InternalNamed([])
  }

  /** The global symbols: the declarations that are not internal. */
  function Globals(decls: seq<SymbolDeclaration>): seq<SymbolDeclaration>
  {
    Extracted(SymbolRenaming.AfterRenaming(decls))
  }

  /** The local symbols, in the order they are written. */
  function Locals(blockOffsets: seq<nat>, decls: seq<SymbolDeclaration>): seq<SymbolDeclaration>
  {
    Sorting.SortBy(Remaining(SymbolRenaming.AfterRenaming(decls)), ResolvedLe(blockOffsets))
  }

  /** The three writer states of `write_symtab`: after the local run,
      after the filler entries, after the global run. */
  datatype RunStates = RunStates(st1: TableState, st: TableState, last: TableState)

  /** The local run from `start`, the filler entries (which add `counted`
      to `symbol_count`), then the global run. */
  function RunBoth(blockOffsets: seq<nat>, start: TableState, locals: seq<SymbolDeclaration>, globals: seq<SymbolDeclaration>,
                   filler: Bytes, counted: nat): Result<RunStates>
  {
    var st1 :- WriteSymbols(blockOffsets, start, locals, LOCAL_OBJECT);
    var st := TableState(st1.symtab + filler, st1.strtab, st1.indices, st1.count + counted);
    var last :- WriteSymbols(blockOffsets, st, globals, GLOBAL_OBJECT);
    Ok(RunStates(st1, st, last))
  }

  /** `write_symtab`: both renamings, then the split, the sort (whose key
      panics on a missing block as soon as there are two symbols to
      compare), the local run, the placeholders and the global run.  The
      placeholders add `counted` to `symbol_count`. */
  function SymtabWith(blockOffsets: seq<nat>, indices: map<HeapToken, nat>, decls: seq<SymbolDeclaration>, counted: nat): Result<Symtab>
  {
    if EmptyNamed(SymbolRenaming.AfterInternal(decls)) then Err(Panic)
    else
      var rest := Remaining(SymbolRenaming.AfterRenaming(decls));
      if |rest| >= 2 && !BlocksExist(blockOffsets, rest) then Err(Panic)
      else
        var runs :- RunBoth(blockOffsets, Start(indices), Locals(blockOffsets, decls), Globals(decls), Placeholders(), counted);
        Ok(Symtab(runs.last.symtab, runs.last.strtab, runs.last.indices, Locals(blockOffsets, decls)))
  }

  /** `write_symtab` as written: `symbol_count` is not bumped for the
      placeholders. */
  function WrittenSymtab(blockOffsets: seq<nat>, indices: map<HeapToken, nat>, decls: seq<SymbolDeclaration>): Result<Symtab>
  {
    SymtabWith(blockOffsets, indices, decls, 0)
  }

  /** `write_symtab` with `symbol_count` bumped once per placeholder, so
      that every index handed out is the position of its entry. */
  function IntendedSymtab(blockOffsets: seq<nat>, indices: map<HeapToken, nat>, decls: seq<SymbolDeclaration>): Result<Symtab>
  {
    SymtabWith(blockOffsets, indices, decls, PLACEHOLDER_COUNT)
  }

  /** `extract_if`: one pass that takes the non-internal symbols out and
      leaves the others in order. */
  method ExtractIf(all: seq<SymbolDeclaration>) returns (named: seq<SymbolDeclaration>, rest: seq<SymbolDeclaration>)
    ensures named == Extracted(all) && rest == Remaining(all)
  {
    named, rest := [], [];
    for i := 0 to |all|
      invariant named == Extracted(all[..i]) && rest == Remaining(all[..i])
    {
      assert all[..i + 1][..i] == all[..i];
      if all[i].name.IsInternal() {
        rest := rest + [all[i]];
      } else {
        named := named + [all[i]];
      }
    }
    assert all[..|all|] == all;
  }

  /** The key closure of the sort, applied to every symbol: `resolve`
      indexes `block_offsets` and panics past its end. */
  method ResolveKeys(blockOffsets: seq<nat>, rest: seq<SymbolDeclaration>) returns (ok: bool)
    ensures ok <==> BlocksExist(blockOffsets, rest)
  {
    for i := 0 to |rest|
      invariant BlocksExist(blockOffsets, rest[..i])
    {
      if rest[i].offset.block >= |blockOffsets| {
        return false;
      }
      assert BlocksExist(blockOffsets, rest[..i + 1]) by {
        assert forall k :: 0 <= k < i ==> rest[..i + 1][k] == rest[..i][k];
      }
    }
    assert rest[..|rest|] == rest;
    ok := true;
  }

  /** `for _ in 0..12`: the placeholder entries. */
  method WritePlaceholders(symtab: Bytes) returns (out: Bytes)
    ensures out == symtab + Placeholders()
  {
    out := symtab;
    for p := 0 to PLACEHOLDER_COUNT
      invariant out == symtab + Repeated(PLACEHOLDER_SYMBOL, p)
    {
      RepeatedStep(PLACEHOLDER_SYMBOL, p);
      out := out + EncodeSymbolHeader(PLACEHOLDER_SYMBOL);
    }
  }

  /** `write_symtab`, step by step. */
  method WriteSymtab(blockOffsets: seq<nat>, indices: map<HeapToken, nat>, decls: seq<SymbolDeclaration>)
    returns (r: Result<Symtab>)
    ensures r == WrittenSymtab(blockOffsets, indices, decls)
  {
    var unnamed := SymbolRenaming.NameInternalSymbols(decls);
    var renamed := SymbolRenaming.NameNamedSymbols(unnamed);
    if renamed.Err? {
      return Err(renamed.error);
    }
    var named, rest := ExtractIf(renamed.value);
    if |rest| >= 2 {
      var ok := ResolveKeys(blockOffsets, rest);
      if !ok {
        return Err(Panic);
      }
    }
    var locals := Sorting.SortBy(rest, ResolvedLe(blockOffsets));
    var st := WriteRun(blockOffsets, Start(indices), locals, LOCAL_OBJECT);
    if st.Err? {
      return Err(st.error);
    }
    var symtab := WritePlaceholders(st.value.symtab);
    var out := WriteRun(blockOffsets, st.value.(symtab := symtab), named, GLOBAL_OBJECT);
    if out.Err? {
      return Err(out.error);
    }
    r := Ok(Symtab(out.value.symtab, out.value.strtab, out.value.indices, locals));
  }

  /** The renamings touch only internal symbols, keep them internal (as
      `InternalUnmangled`), and keep every token: the global symbols are
      the declared non-internal ones, unchanged and in declaration order,
      the local ones are as many as the declared internal ones, and all of
      them carry their final names. */
  lemma SplitAfterRenaming(blockOffsets: seq<nat>, decls: seq<SymbolDeclaration>)
    ensures Globals(decls) == Extracted(decls)
    ensures |Locals(blockOffsets, decls)| == |Remaining(decls)|
    ensures |Locals(blockOffsets, decls)| + |Globals(decls)| == |decls|
    ensures forall k :: 0 <= k < |Locals(blockOffsets, decls)| ==> Locals(blockOffsets, decls)[k].name.InternalUnmangled?
    ensures BlocksExist(blockOffsets, SymbolRenaming.AfterRenaming(decls)) <==> BlocksExist(blockOffsets, decls)
  {
    var d2 := SymbolRenaming.AfterRenaming(decls);
    forall i | 0 <= i < |decls|
      ensures d2[i].name.IsInternal() == decls[i].name.IsInternal()
      ensures !decls[i].name.IsInternal() ==> d2[i] == decls[i]
      ensures d2[i].offset == decls[i].offset
      ensures d2[i].name.IsInternal() ==> d2[i].name.InternalUnmangled?
    {
      SymbolRenaming.RenamingComplete(decls, i);
    }
    SplitAgrees(d2, decls);
    SplitIsPartition(decls);
    var rest, locals := Remaining(d2), Locals(blockOffsets, decls);
    assert |multiset(Extracted(decls))| + |multiset(Remaining(decls))| == |multiset(decls)|;
    forall k | 0 <= k < |locals|
      ensures locals[k].name.InternalUnmangled?
    {
      var p := SymbolRenaming.PlaceIn(rest, locals, k);
      var q := ElementOfRemaining(d2, p);
    }
  }

  /** Each remaining symbol is one of the declarations. */
  lemma {:induction false} ElementOfRemaining(ds: seq<SymbolDeclaration>, k: nat) returns (i: nat)
    requires k < |Remaining(ds)|
    ensures i < |ds| && ds[i] == Remaining(ds)[k]
  {
    var init := ds[..|ds| - 1];
    if k < |Remaining(init)| {
      i := ElementOfRemaining(init, k);
    } else {
      i := |ds| - 1;
    }
  }

  /** Reordering a run does not change whether its blocks exist. */
  lemma BlocksExistPermuted(blockOffsets: seq<nat>, a: seq<SymbolDeclaration>, b: seq<SymbolDeclaration>)
    requires multiset(a) == multiset(b) && BlocksExist(blockOffsets, a)
    ensures BlocksExist(blockOffsets, b)
  {
    forall k | 0 <= k < |b|
      ensures b[k].offset.block < |blockOffsets|
    {
      var p := SymbolRenaming.PlaceIn(a, b, k);
    }
  }

  /** Every block exists for a list exactly when it does for both parts of
      its split. */
  lemma BlocksExistSplit(blockOffsets: seq<nat>, ds: seq<SymbolDeclaration>)
    ensures BlocksExist(blockOffsets, ds) <==>
      BlocksExist(blockOffsets, Extracted(ds)) && BlocksExist(blockOffsets, Remaining(ds))
  {
    var e, r := Extracted(ds), Remaining(ds);
    SplitIsPartition(ds);
    assert multiset(e + r) == multiset(ds);
    if BlocksExist(blockOffsets, ds) {
      BlocksExistPermuted(blockOffsets, ds, e + r);
      assert forall k :: 0 <= k < |e| ==> e[k] == (e + r)[k];
      assert forall k :: 0 <= k < |r| ==> r[k] == (e + r)[|e| + k];
    }
    if BlocksExist(blockOffsets, e) && BlocksExist(blockOffsets, r) {
      assert BlocksExist(blockOffsets, e + r) by {
        forall k | 0 <= k < |e + r|
          ensures (e + r)[k].offset.block < |blockOffsets|
        {
          if k >= |e| {
            assert (e + r)[k] == r[k - |e|];
          }
        }
      }
      BlocksExistPermuted(blockOffsets, e + r, ds);
    }
  }

  /** The first renaming block turns `Internal` symbols into
      `InternalUnmangled` ones and leaves the rest: it neither makes nor
      removes an empty `InternalNamed` name. */
  lemma EmptyNamedKept(decls: seq<SymbolDeclaration>)
    ensures EmptyNamed(SymbolRenaming.AfterInternal(decls)) <==> EmptyNamed(decls)
  {
    var d1 := SymbolRenaming.AfterInternal(decls);
    forall i | 0 <= i < |decls|
      ensures d1[i].name == InternalNamed([]) <==> decls[i].name == InternalNamed([])
    {
      if decls[i].name.Internal? {
        var k := SymbolRenaming.UnnamedRank(decls, i);
      } else {
        SymbolRenaming.UnnamedKeeps(decls, i);
      }
    }
  }

  /** `write_symtab` succeeds exactly when no `InternalNamed` name is
      empty, every symbol's block exists, and every name starts at a string
      table offset that fits a pointer; it fails with the panic or the
      overflow. */
  lemma WrittenSymtabOk(blockOffsets: seq<nat>, indices: map<HeapToken, nat>, decls: seq<SymbolDeclaration>)
    ensures var r, locals := WrittenSymtab(blockOffsets, indices, decls), Locals(blockOffsets, decls);
      r.Ok? <==>
        && !EmptyNamed(decls) && BlocksExist(blockOffsets, decls)
        && NamesFit(|STRTAB_PREFIX|, locals)
        && NamesFit(|STRTAB_PREFIX| + |NameBytes(locals)|, Extracted(decls))
    ensures var r := WrittenSymtab(blockOffsets, indices, decls);
      r.Err? ==> r.error == Panic || r.error == PositionOverflow
  {
    var d2 := SymbolRenaming.AfterRenaming(decls);
    var rest, locals := Remaining(d2), Locals(blockOffsets, decls);
    EmptyNamedKept(decls);
    SplitAfterRenaming(blockOffsets, decls);
    BlocksExistSplit(blockOffsets, d2);
    if BlocksExist(blockOffsets, rest) {
      BlocksExistPermuted(blockOffsets, rest, locals);
    }
    if BlocksExist(blockOffsets, locals) {
      BlocksExistPermuted(blockOffsets, locals, rest);
    }
    WriteSymbolsOk(blockOffsets, Start(indices), locals, LOCAL_OBJECT);
    if WriteSymbols(blockOffsets, Start(indices), locals, LOCAL_OBJECT).Ok? {
      var st1 := WriteSymbols(blockOffsets, Start(indices), locals, LOCAL_OBJECT).value;
      var st := TableState(st1.symtab + Placeholders(), st1.strtab, st1.indices, st1.count + 0);
      WriteSymbolsResult(blockOffsets, Start(indices), locals, LOCAL_OBJECT);
      WriteSymbolsOk(blockOffsets, st, Globals(decls), GLOBAL_OBJECT);
    }
  }

  lemma EntryOffsets(a: nat, b: nat)
    ensures SYMBOL_HEADER_SIZE * (a + b) == SYMBOL_HEADER_SIZE * a + SYMBOL_HEADER_SIZE * b
  {
  }

  /** `st1`, `st` and `last` are the three writer states of a run from
      `start`. */
  predicate Runs(blockOffsets: seq<nat>, start: TableState, locals: seq<SymbolDeclaration>, globals: seq<SymbolDeclaration>, filler: Bytes,
                 counted: nat, st1: TableState, st: TableState, last: TableState)
  {
    RunBoth(blockOffsets, start, locals, globals, filler, counted) == Ok(RunStates(st1, st, last))
  }

  /** The steps of such a run. */
  lemma RunsSteps(blockOffsets: seq<nat>, start: TableState, locals: seq<SymbolDeclaration>, globals: seq<SymbolDeclaration>, filler: Bytes,
                  counted: nat, st1: TableState, st: TableState, last: TableState)
    requires Runs(blockOffsets, start, locals, globals, filler, counted, st1, st, last)
    ensures WriteSymbols(blockOffsets, start, locals, LOCAL_OBJECT) == Ok(st1)
    ensures st == TableState(st1.symtab + filler, st1.strtab, st1.indices, st1.count + counted)
    ensures WriteSymbols(blockOffsets, st, globals, GLOBAL_OBJECT) == Ok(last)
  {
  }

  /** A successful `write_symtab` is such a run from the starting state,
      over the sorted local symbols and the declared global ones. */
  lemma WrittenSymtabParts(blockOffsets: seq<nat>, indices: map<HeapToken, nat>, decls: seq<SymbolDeclaration>, counted: nat, out: Symtab)
    returns (st1: TableState, st: TableState, last: TableState)
    requires SymtabWith(blockOffsets, indices, decls, counted) == Ok(out)
    ensures Runs(blockOffsets, Start(indices), out.locals, Extracted(decls), Placeholders(), counted, st1, st, last)
    ensures out == Symtab(last.symtab, last.strtab, last.indices, Locals(blockOffsets, decls))
  {
    SplitAfterRenaming(blockOffsets, decls);
    var runs := RunBoth(blockOffsets, Start(indices), Locals(blockOffsets, decls), Globals(decls), Placeholders(), counted).value;
    st1, st, last := runs.st1, runs.st, runs.last;
  }

  /** What each run leaves behind: one entry per symbol after what was
      there, the names after the string table so far, the count. */
  lemma RunsState(blockOffsets: seq<nat>, start: TableState, locals: seq<SymbolDeclaration>, globals: seq<SymbolDeclaration>, filler: Bytes,
                  counted: nat, st1: TableState, st: TableState, last: TableState)
    requires Runs(blockOffsets, start, locals, globals, filler, counted, st1, st, last)
    ensures |st1.symtab| == |start.symtab| + SYMBOL_HEADER_SIZE * |locals| && st1.symtab[..|start.symtab|] == start.symtab
    ensures |st.symtab| == |st1.symtab| + |filler| && st.symtab[..|st1.symtab|] == st1.symtab
    ensures st.strtab == start.strtab + NameBytes(locals) && st.count == start.count + |locals| + counted
    ensures |last.symtab| == |st.symtab| + SYMBOL_HEADER_SIZE * |globals| && last.symtab[..|st.symtab|] == st.symtab
    ensures last.strtab == st.strtab + NameBytes(globals) && last.count == st.count + |globals|
  {
    RunsSteps(blockOffsets, start, locals, globals, filler, counted, st1, st, last);
    WriteSymbolsResult(blockOffsets, start, locals, LOCAL_OBJECT);
    WriteSymbolsResult(blockOffsets, st, globals, GLOBAL_OBJECT);
    assert st.symtab[..|st1.symtab|] == st1.symtab;
  }

  /** After both runs: one entry per symbol and per filler entry after the
      starting entries, and the names of both runs after the starting
      string table. */
  lemma RunsShape(blockOffsets: seq<nat>, start: TableState, locals: seq<SymbolDeclaration>, globals: seq<SymbolDeclaration>, filler: Bytes,
                  counted: nat, st1: TableState, st: TableState, last: TableState, n: nat)
    requires Runs(blockOffsets, start, locals, globals, filler, counted, st1, st, last)
    requires |start.symtab| == SYMBOL_HEADER_SIZE * 3 && |filler| == SYMBOL_HEADER_SIZE * n
    ensures |last.symtab| == SYMBOL_HEADER_SIZE * (3 + n + |locals| + |globals|)
    ensures last.symtab[..|start.symtab|] == start.symtab
    ensures last.strtab == start.strtab + NameBytes(locals) + NameBytes(globals)
  {
    RunsState(blockOffsets, start, locals, globals, filler, counted, st1, st, last);
    assert |last.symtab| == SYMBOL_HEADER_SIZE * (3 + n + |locals| + |globals|) by {
      EntryOffsets(3, n);
      EntryOffsets(3 + n, |locals|);
      EntryOffsets(3 + n + |locals|, |globals|);
    }
    PrefixSlice(last.symtab, st.symtab, 0, |start.symtab|);
    PrefixSlice(st.symtab, st1.symtab, 0, |start.symtab|);
  }

  /** Entry `i` of a symbol table. */
  function Entry(symtab: Bytes, i: nat): SymbolHeader
    requires SYMBOL_HEADER_SIZE * i + SYMBOL_HEADER_SIZE <= |symtab|
  {
    DecodeSymbolHeader(symtab[SYMBOL_HEADER_SIZE * i..SYMBOL_HEADER_SIZE * i + SYMBOL_HEADER_SIZE])
  }

  lemma EntryAt(symtab: Bytes, i: nat, at: nat)
    requires SYMBOL_HEADER_SIZE * i == at && at + SYMBOL_HEADER_SIZE <= |symtab|
    ensures Entry(symtab, i) == DecodeSymbolHeader(symtab[at..at + SYMBOL_HEADER_SIZE])
  {
  }

  lemma EntryIs(symtab: Bytes, i: nat, at: nat, h: SymbolHeader)
    requires SYMBOL_HEADER_SIZE * i == at && at + SYMBOL_HEADER_SIZE <= |symtab|
    requires symtab[at..at + SYMBOL_HEADER_SIZE] == EncodeSymbolHeader(h)
    ensures Entry(symtab, i) == h
  {
    SymbolHeaderRoundTrip(h);
  }

  /** Entry `3 + k` of the table is local symbol `k`: a local object at
      its resolved offset, named at the string table offset of its name. */
  lemma LocalEntry(blockOffsets: seq<nat>, start: TableState, locals: seq<SymbolDeclaration>, globals: seq<SymbolDeclaration>, filler: Bytes,
                   counted: nat, st1: TableState, st: TableState, last: TableState, k: nat)
    requires Runs(blockOffsets, start, locals, globals, filler, counted, st1, st, last)
    requires |start.symtab| == SYMBOL_HEADER_SIZE * 3 && k < |locals|
    ensures SYMBOL_HEADER_SIZE * (3 + k) + SYMBOL_HEADER_SIZE <= |last.symtab|
    ensures locals[k].offset.block < |blockOffsets|
    ensures Entry(last.symtab, 3 + k) == EntryHeader(blockOffsets, Entry(last.symtab, 3 + k).stName, locals[k], LOCAL_OBJECT)
    ensures NamedAt(Entry(last.symtab, 3 + k), locals[k], |start.strtab| + |NameBytes(locals[..k])|)
  {
    assert WriteSymbols(blockOffsets, start, locals, LOCAL_OBJECT) == Ok(st1) by {
      RunsSteps(blockOffsets, start, locals, globals, filler, counted, st1, st, last);
    }
    assert |st1.symtab| <= |last.symtab| && last.symtab[..|st1.symtab|] == st1.symtab by {
      RunsState(blockOffsets, start, locals, globals, filler, counted, st1, st, last);
      PrefixTrans(last.symtab, st.symtab, st1.symtab);
    }
    assert SYMBOL_HEADER_SIZE * (3 + k) == |start.symtab| + SYMBOL_HEADER_SIZE * k by {
      EntryOffsets(3, k);
    }
    RunEntry(blockOffsets, start, locals, LOCAL_OBJECT, k, st1, last.symtab, 3 + k, |start.strtab| + |NameBytes(locals[..k])|);
  }

  /** Copy `p` of `n` sits at entry `p`. */
  lemma RepeatedAt(h: SymbolHeader, n: nat, p: nat)
    requires p < n
    ensures SYMBOL_HEADER_SIZE * p + SYMBOL_HEADER_SIZE <= |Repeated(h, n)|
    ensures Repeated(h, n)[SYMBOL_HEADER_SIZE * p..SYMBOL_HEADER_SIZE * p + SYMBOL_HEADER_SIZE] == EncodeSymbolHeader(h)
  {
    var e, r, q := EncodeSymbolHeader(h), Repeated(h, n), SYMBOL_HEADER_SIZE * p;
    assert q + SYMBOL_HEADER_SIZE <= |r| by {
      EntryOffsets(p, 1);
      EntriesGrow(p + 1, n);
    }
    forall x | 0 <= x < SYMBOL_HEADER_SIZE
      ensures r[q..q + SYMBOL_HEADER_SIZE][x] == e[x]
    {
      assert (q + x) % SYMBOL_HEADER_SIZE == x;
    }
  }

  /** The `n` entries after the local symbols are the filler's: entry
      `p` of the filler is entry `3 + |locals| + p` of the table. */
  lemma FillerEntry(blockOffsets: seq<nat>, start: TableState, locals: seq<SymbolDeclaration>, globals: seq<SymbolDeclaration>, filler: Bytes,
                    counted: nat, st1: TableState, st: TableState, last: TableState, h: SymbolHeader, n: nat, p: nat, i: nat)
    requires Runs(blockOffsets, start, locals, globals, filler, counted, st1, st, last)
    requires |start.symtab| == SYMBOL_HEADER_SIZE * 3 && filler == Repeated(h, n) && p < n && i == 3 + |locals| + p
    ensures SYMBOL_HEADER_SIZE * i + SYMBOL_HEADER_SIZE <= |last.symtab|
    ensures Entry(last.symtab, i) == h
  {
    RepeatedAt(h, n, p);
    assert |st1.symtab| == SYMBOL_HEADER_SIZE * 3 + SYMBOL_HEADER_SIZE * |locals| &&
      |st1.symtab| + |filler| <= |last.symtab| && last.symtab[..|st1.symtab| + |filler|] == st1.symtab + filler by {
      RunsSteps(blockOffsets, start, locals, globals, filler, counted, st1, st, last);
      RunsState(blockOffsets, start, locals, globals, filler, counted, st1, st, last);
    }
    assert SYMBOL_HEADER_SIZE * i == |st1.symtab| + SYMBOL_HEADER_SIZE * p by {
      EntryOffsets(3, |locals|);
      EntryOffsets(3 + |locals|, p);
    }
    EntryInFiller(st1.symtab, filler, last.symtab, h, n, p, i);
  }

  /** Entry `p` of a filler of `n` copies of `h`, placed after `s1` in
      `big`, is `h`. */
  lemma EntryInFiller(s1: Bytes, filler: Bytes, big: Bytes, h: SymbolHeader, n: nat, p: nat, i: nat)
    requires |filler| == SYMBOL_HEADER_SIZE * n && p < n
    requires filler[SYMBOL_HEADER_SIZE * p..SYMBOL_HEADER_SIZE * p + SYMBOL_HEADER_SIZE] == EncodeSymbolHeader(h)
    requires |s1| + |filler| <= |big| && big[..|s1| + |filler|] == s1 + filler
    requires SYMBOL_HEADER_SIZE * i == |s1| + SYMBOL_HEADER_SIZE * p
    ensures SYMBOL_HEADER_SIZE * i + SYMBOL_HEADER_SIZE <= |big| && Entry(big, i) == h
  {
    var at, q := |s1| + SYMBOL_HEADER_SIZE * p, SYMBOL_HEADER_SIZE * p;
    assert q + SYMBOL_HEADER_SIZE <= |filler| by {
      EntryOffsets(p, 1);
      EntriesGrow(p + 1, n);
    }
    assert big[at..at + SYMBOL_HEADER_SIZE] == EncodeSymbolHeader(h) by {
      PrefixSlice(big, s1 + filler, at, at + SYMBOL_HEADER_SIZE);
      SuffixSlice(s1, filler, q, q + SYMBOL_HEADER_SIZE);
    }
    EntryIs(big, i, at, h);
  }

  lemma EntriesGrow(a: nat, b: nat)
    requires a <= b
    ensures SYMBOL_HEADER_SIZE * a <= SYMBOL_HEADER_SIZE * b
  {
  }

  /** A slice of the second part of a concatenation. */
  lemma SuffixSlice(a: Bytes, b: Bytes, i: nat, j: nat)
    requires i <= j <= |b|
    ensures (a + b)[|a| + i..|a| + j] == b[i..j]
  {
  }

  /** Entry `15 + |locals| + j` of the table is global symbol `j`: a global
      object at its resolved offset, named at the string table offset of its
      name, which follows all the local names. */
  lemma GlobalEntry(blockOffsets: seq<nat>, start: TableState, locals: seq<SymbolDeclaration>, globals: seq<SymbolDeclaration>, filler: Bytes,
                    counted: nat, st1: TableState, st: TableState, last: TableState, j: nat, i: nat)
    requires Runs(blockOffsets, start, locals, globals, filler, counted, st1, st, last)
    requires |start.symtab| == SYMBOL_HEADER_SIZE * 3 && |filler| == SYMBOL_HEADER_SIZE * PLACEHOLDER_COUNT && j < |globals|
    requires i == 3 + PLACEHOLDER_COUNT + |locals| + j
    ensures SYMBOL_HEADER_SIZE * i + SYMBOL_HEADER_SIZE <= |last.symtab|
    ensures globals[j].offset.block < |blockOffsets|
    ensures Entry(last.symtab, i) == EntryHeader(blockOffsets, Entry(last.symtab, i).stName, globals[j], GLOBAL_OBJECT)
    ensures NamedAt(Entry(last.symtab, i), globals[j], |start.strtab| + |NameBytes(locals)| + |NameBytes(globals[..j])|)
  {
    var at := |st.symtab| + SYMBOL_HEADER_SIZE * j;
    assert WriteSymbols(blockOffsets, st, globals, GLOBAL_OBJECT) == Ok(last) by {
      RunsSteps(blockOffsets, start, locals, globals, filler, counted, st1, st, last);
    }
    assert |st.strtab| == |start.strtab| + |NameBytes(locals)| && SYMBOL_HEADER_SIZE * i == at by {
      RunsState(blockOffsets, start, locals, globals, filler, counted, st1, st, last);
      EntryOffsets(3, |locals|);
      EntryOffsets(3 + |locals|, PLACEHOLDER_COUNT);
      EntryOffsets(3 + PLACEHOLDER_COUNT + |locals|, j);
    }
    assert last.symtab[..|last.symtab|] == last.symtab;
    RunEntry(blockOffsets, st, globals, GLOBAL_OBJECT, j, last, last.symtab, i,
             |start.strtab| + |NameBytes(locals)| + |NameBytes(globals[..j])|);
  }

  /** Entry `k` of a run, at table position `i`, in any symbol table that
      extends the run's. */
  lemma RunEntry(blockOffsets: seq<nat>, st: TableState, ds: seq<SymbolDeclaration>, info: u8, k: nat, t: TableState, big: Bytes,
                 i: nat, namePos: nat)
    requires k < |ds| && WriteSymbols(blockOffsets, st, ds, info) == Ok(t)
    requires |t.symtab| <= |big| && big[..|t.symtab|] == t.symtab
    requires SYMBOL_HEADER_SIZE * i == |st.symtab| + SYMBOL_HEADER_SIZE * k
    requires namePos == |st.strtab| + |NameBytes(ds[..k])|
    ensures SYMBOL_HEADER_SIZE * i + SYMBOL_HEADER_SIZE <= |big| && ds[k].offset.block < |blockOffsets|
    ensures Entry(big, i) == EntryHeader(blockOffsets, Entry(big, i).stName, ds[k], info)
    ensures NamedAt(Entry(big, i), ds[k], namePos)
  {
    var at := |st.symtab| + SYMBOL_HEADER_SIZE * k;
    WriteSymbolsEntry(blockOffsets, st, ds, info, k, t, big, at, namePos);
    EntryAt(big, i, at);
  }


  /** A symbol whose name goes to the string table and reads back as a
      string there: valid UTF-8 without a NUL, as a Rust `String` without
      an interior NUL is. */
  predicate Readable(d: SymbolDeclaration)
  {
    d.name.AsStr().Some? && Util.ValidUtf8(d.name.AsStr().value) &&
    forall j :: 0 <= j < |d.name.AsStr().value| ==> d.name.AsStr().value[j] != 0
  }

  /** Between any bytes before and after a run's names, the name of
      symbol `k` and its NUL sit at its offset within the run. */
  lemma StoredInMiddle(whole: Bytes, a: Bytes, b: Bytes, c: Bytes, p: nat, at: nat, s: Bytes)
    requires whole == a + b + c && at == |a| + p
    requires p + |s| <= |b| && b[p..p + |s|] == s
    ensures at + |s| <= |whole| && whole[at..at + |s|] == s
  {
    forall x | 0 <= x < |s|
      ensures whole[at..at + |s|][x] == s[x]
    {
      assert whole[at + x] == b[p + x] == b[p..p + |s|][x];
    }
  }

  /** A name stored at `index` with its NUL reads back. */
  lemma ReadsBackAt(buffer: Bytes, index: nat, d: SymbolDeclaration)
    requires Readable(d)
    requires index + |NameEntry(d)| <= |buffer| && buffer[index..index + |NameEntry(d)|] == NameEntry(d)
    ensures Util.ReadString(buffer, index) == Ok(d.name.AsStr().value)
  {
    var n := d.name.AsStr().value;
    assert NameEntry(d) == n + [0];
    var w := buffer[index..index + |n| + 1];
    assert buffer[index..index + |n|] == w[..|n|];
    assert buffer[index + |n|] == w[|n|];
    Util.ReadStringAt(buffer, index, n);
  }

  /** In a string table holding a run's names between any other bytes,
      the name of symbol `k` reads back at its offset. */
  lemma NameReadsBack(strtab: Bytes, a: Bytes, ds: seq<SymbolDeclaration>, c: Bytes, k: nat, pos: nat)
    requires strtab == a + NameBytes(ds) + c && k < |ds| && Readable(ds[k])
    requires pos == |a| + |NameBytes(ds[..k])|
    ensures pos <= |strtab| && Util.ReadString(strtab, pos) == Ok(ds[k].name.AsStr().value)
  {
    var b, p, e := NameBytes(ds), |NameBytes(ds[..k])|, NameEntry(ds[k]);
    assert p + |e| <= |b| && b[p..p + |e|] == e by {
      NameBytesAt(ds, k);
    }
    StoredInMiddle(strtab, a, b, c, p, pos, e);
    ReadsBackAt(strtab, pos, ds[k]);
  }

  /** The index map after both runs: a token maps to the index the last
      global symbol with it got, else the index the last local symbol with
      it got, else what it mapped to before.  The filler entries do not
      count, so global symbol `j` gets index `count + |locals| + j`. */
  lemma RunsIndex(blockOffsets: seq<nat>, start: TableState, locals: seq<SymbolDeclaration>, globals: seq<SymbolDeclaration>, filler: Bytes,
                  counted: nat, st1: TableState, st: TableState, last: TableState, x: HeapToken)
    requires Runs(blockOffsets, start, locals, globals, filler, counted, st1, st, last)
    ensures match LastWith(globals, x)
      case Some(j) => x in last.indices && last.indices[x] == start.count + |locals| + counted + j
      case None =>
        match LastWith(locals, x)
        case Some(k) => x in last.indices && last.indices[x] == start.count + k
        case None => (x in last.indices <==> x in start.indices) && (x in start.indices ==> last.indices[x] == start.indices[x])
  {
    assert st.count == start.count + |locals| + counted by {
      RunsState(blockOffsets, start, locals, globals, filler, counted, st1, st, last);
    }
    RunsSteps(blockOffsets, start, locals, globals, filler, counted, st1, st, last);
    WriteSymbolsIndex(blockOffsets, start, locals, LOCAL_OBJECT, x);
    WriteSymbolsIndex(blockOffsets, st, globals, GLOBAL_OBJECT, x);
  }
}
