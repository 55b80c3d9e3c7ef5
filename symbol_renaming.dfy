// The first half of `write_symtab` (`src/main.rs`): every `Internal(c)`
// symbol, in the order of its heap token, and every `InternalNamed`
// symbol, in the order of the name comparator, gets a generated name made
// of its first character and the next output of a fresh
// `SymbolNameGenerator`.
module SymbolRenaming {
  import opened Bytes
  import opened Wrappers
  import opened SymbolNames
  import opened ElfNames
  import opened NameOrder
  import Sorting
  import Util

  /** A symbol waiting for its generated name: its position among the
      declarations, the key the writer sorts it by, and the bytes of the
      character its new name starts with. */
  datatype Slot<K> = Slot(index: nat, key: K, initial: Bytes)

  /** No symbol is listed twice. */
  predicate DistinctIndices<K>(s: seq<Slot<K>>)
  {
    forall k, l :: 0 <= k < l < |s| ==> s[k].index != s[l].index
  }

  /** The `Internal(c)` symbols in declaration order, keyed by heap token,
      with the UTF-8 bytes of `c`. */
  function UnnamedSlots(decls: seq<SymbolDeclaration>): (r: seq<Slot<HeapToken>>)
    ensures forall k :: 0 <= k < |r| ==>
      && r[k].index < |decls| && decls[r[k].index].name.Internal?
      && r[k].key == decls[r[k].index].offset
      && r[k].initial == EncodeChar(decls[r[k].index].name.initial)
    ensures forall k, l :: 0 <= k < l < |r| ==> r[k].index < r[l].index
  {
    if decls == [] then []
    else
      var init := decls[..|decls| - 1];
      var last := decls[|decls| - 1];
      var prev := UnnamedSlots(init);
      var r := prev + (if last.name.Internal? then [Slot(|decls| - 1, last.offset, EncodeChar(last.name.initial))] else []);
      assert forall i :: 0 <= i < |init| ==> init[i] == decls[i];
      assert forall k :: 0 <= k < |prev| ==> r[k] == prev[k];
      r
  }

  /** Every `Internal(c)` symbol has its slot. */
  lemma {:induction false} UnnamedSlotsComplete(decls: seq<SymbolDeclaration>, i: nat)
    requires i < |decls| && decls[i].name.Internal?
    ensures exists k :: 0 <= k < |UnnamedSlots(decls)| && UnnamedSlots(decls)[k].index == i
  {
    var init := decls[..|decls| - 1];
    var r := UnnamedSlots(decls);
    var prev := UnnamedSlots(init);
    if i < |init| {
      assert init[i] == decls[i];
      UnnamedSlotsComplete(init, i);
      var k :| 0 <= k < |prev| && prev[k].index == i;
      assert r[k] == prev[k];
    } else {
      assert r[|prev|].index == i;
    }
  }

  /** `name.chars().next()`: the bytes of the first character (names are
      `String`s, so UTF-8; a malformed lead byte is taken alone), or
      nothing for the empty name, where `unwrap` panics. */
  function FirstChar(name: Bytes): (r: Bytes)
    ensures r == [] <==> name == []
    ensures |r| <= |name| && r == name[..|r|]
    ensures Util.Utf8CharLen(name) > 0 ==> r == name[..Util.Utf8CharLen(name)]
  {
    if name == [] then []
    else name[..if Util.Utf8CharLen(name) == 0 then 1 else Util.Utf8CharLen(name)]
  }

  /** The `InternalNamed` symbols in declaration order, keyed by name. */
  function NamedSlots(decls: seq<SymbolDeclaration>): (r: seq<Slot<Bytes>>)
    ensures forall k :: 0 <= k < |r| ==>
      && r[k].index < |decls| && decls[r[k].index].name.InternalNamed?
      && r[k].key == decls[r[k].index].name.name
      && r[k].initial == FirstChar(r[k].key)
    ensures forall k, l :: 0 <= k < l < |r| ==> r[k].index < r[l].index
  {
    if decls == [] then []
    else
      var init := decls[..|decls| - 1];
      var last := decls[|decls| - 1];
      var prev := NamedSlots(init);
      var r := prev + (if last.name.InternalNamed? then [Slot(|decls| - 1, last.name.name, FirstChar(last.name.name))] else []);
      assert forall i :: 0 <= i < |init| ==> init[i] == decls[i];
      assert forall k :: 0 <= k < |prev| ==> r[k] == prev[k];
      r
  }

  /** Every `InternalNamed` symbol has its slot. */
  lemma {:induction false} NamedSlotsComplete(decls: seq<SymbolDeclaration>, i: nat)
    requires i < |decls| && decls[i].name.InternalNamed?
    ensures exists k :: 0 <= k < |NamedSlots(decls)| && NamedSlots(decls)[k].index == i
  {
    var init := decls[..|decls| - 1];
    var r := NamedSlots(decls);
    var prev := NamedSlots(init);
    if i < |init| {
      assert init[i] == decls[i];
      NamedSlotsComplete(init, i);
      var k :| 0 <= k < |prev| && prev[k].index == i;
      assert r[k] == prev[k];
    } else {
      assert r[|prev|].index == i;
    }
  }

  /** The order of `sort_by_key(|(_, symbol)| symbol.offset)`. */
  predicate SlotTokenLe(a: Slot<HeapToken>, b: Slot<HeapToken>)
  {
    TokenLe(a.key, b.key)
  }

  /** The order of the `sort_by` with the `is_less_special` comparator. */
  predicate SlotNameLe(a: Slot<Bytes>, b: Slot<Bytes>)
  {
    NameLe(a.key, b.key)
  }

  lemma SlotOrdersTotal()
    ensures Sorting.TotalPreorder(SlotTokenLe)
    ensures Sorting.TotalPreorder(SlotNameLe)
  {
    NameLeTotalPreorder();
  }

  function UnnamedOrder(decls: seq<SymbolDeclaration>): seq<Slot<HeapToken>>
  {
    Sorting.SortBy(UnnamedSlots(decls), SlotTokenLe)
  }

  function NamedOrder(decls: seq<SymbolDeclaration>): seq<Slot<Bytes>>
  {
    Sorting.SortBy(NamedSlots(decls), SlotNameLe)
  }

  /** The symbol renamed with the `n`-th output of the generator. */
  function Rename(d: SymbolDeclaration, initial: Bytes, n: nat): SymbolDeclaration
    requires n >= 1
  {
    d.(name := InternalUnmangled(initial + Output(n)))
  }

  /** The declarations after the loop over `order` has renamed its
      entries, one generator output each (a slot naming no declaration
      renames nothing). */
  function RenameAll<K>(decls: seq<SymbolDeclaration>, order: seq<Slot<K>>): (r: seq<SymbolDeclaration>)
    ensures |r| == |decls|
  {
    if order == [] then decls
    else
      var last := order[|order| - 1];
      var prev := RenameAll(decls, order[..|order| - 1]);
      if last.index < |prev| then prev[last.index := Rename(prev[last.index], last.initial, |order|)]
      else prev
  }

  /** A symbol the order does not list keeps its declaration. */
  lemma {:induction false} RenameAllKeeps<K>(decls: seq<SymbolDeclaration>, order: seq<Slot<K>>, i: nat)
    requires i < |decls| && forall k :: 0 <= k < |order| ==> order[k].index != i
    ensures RenameAll(decls, order)[i] == decls[i]
  {
    if order != [] {
      RenameAllKeeps(decls, order[..|order| - 1], i);
    }
  }

  /** When no symbol is listed twice, entry `k` of the order gets the
      `k + 1`-th output of the generator. */
  lemma {:induction false} RenameAllAt<K>(decls: seq<SymbolDeclaration>, order: seq<Slot<K>>, k: nat)
    requires forall k :: 0 <= k < |order| ==> order[k].index < |decls|
    requires DistinctIndices(order) && k < |order|
    ensures RenameAll(decls, order)[order[k].index] == Rename(decls[order[k].index], order[k].initial, k + 1)
  {
    var init := order[..|order| - 1];
    var last := order[|order| - 1];
    if k == |order| - 1 {
      RenameAllKeeps(decls, init, last.index);
    } else {
      RenameAllAt(decls, init, k);
    }
  }

  /** A reordering of slots that name distinct symbols names distinct
      symbols too. */
  lemma PermutedSlots<K>(a: seq<Slot<K>>, b: seq<Slot<K>>)
    requires multiset(a) == multiset(b)
    requires forall k, l :: 0 <= k < l < |a| ==> a[k].index < a[l].index
    ensures DistinctIndices(b)
  {
    forall k, l | 0 <= k < l < |b|
      ensures b[k].index != b[l].index
    {
      if b[k].index == b[l].index {
        assert b[k] in multiset(b) && b[l] in multiset(b);
        var p :| 0 <= p < |a| && a[p] == b[k];
        var q :| 0 <= q < |a| && a[q] == b[l];
        assert p == q;
        TwiceCounted(b, k, l);
        OnceCounted(a, p);
      }
    }
  }

  lemma TwiceCounted<T>(s: seq<T>, k: nat, l: nat)
    requires k < l < |s| && s[k] == s[l]
    ensures multiset(s)[s[k]] >= 2
  {
    assert s == s[..l] + s[l..];
    assert s[k] in s[..l];
    assert s[l] in s[l..];
    assert multiset(s) == multiset(s[..l]) + multiset(s[l..]);
  }

  lemma {:induction false} OnceCounted<K>(a: seq<Slot<K>>, p: nat)
    requires p < |a|
    requires forall k, l :: 0 <= k < l < |a| ==> a[k].index < a[l].index
    ensures multiset(a)[a[p]] == 1
  {
    var x := a[p];
    assert a == a[..p] + [x] + a[p + 1..];
    assert x !in a[..p];
    assert x !in a[p + 1..];
    assert multiset(a) == multiset(a[..p]) + multiset{x} + multiset(a[p + 1..]);
  }

  /** The loop both renaming blocks share: a fresh generator, and for each
      symbol in `order` its initial followed by the generator's next name. */
  method RenameInOrder<K>(decls: seq<SymbolDeclaration>, order: seq<Slot<K>>) returns (out: seq<SymbolDeclaration>)
    requires forall k :: 0 <= k < |order| ==> order[k].index < |decls|
    ensures out == RenameAll(decls, order)
  {
    var generator := new SymbolNameGenerator();
    out := decls;
    for k := 0 to |order|
      invariant generator.Valid() && generator.calls == k
      invariant out == RenameAll(decls, order[..k])
    {
      assert order[..k + 1][..k] == order[..k];
      var tail := generator.Next();
      var slot := order[k];
      out := out[slot.index := out[slot.index].(name := InternalUnmangled(slot.initial + tail))];
    }
    assert order[..|order|] == order;
  }

  /** An element of a reordering is found at some place of the original. */
  lemma PlaceIn<T>(a: seq<T>, b: seq<T>, k: nat) returns (p: nat)
    requires multiset(a) == multiset(b) && k < |b|
    ensures p < |a| && a[p] == b[k]
  {
    assert b[k] in multiset(a);
    p :| 0 <= p < |a| && a[p] == b[k];
  }

  /** The unnamed order lists each `Internal(c)` symbol once, with its
      token and initial, in heap token order. */
  lemma UnnamedOrderFacts(decls: seq<SymbolDeclaration>)
    ensures var o := UnnamedOrder(decls);
      && DistinctIndices(o)
      && (forall k :: 0 <= k < |o| ==>
        && o[k].index < |decls| && decls[o[k].index].name.Internal?
        && o[k].key == decls[o[k].index].offset
        && o[k].initial == EncodeChar(decls[o[k].index].name.initial))
      && Sorting.SortedBy(o, SlotTokenLe)
  {
    var o, slots := UnnamedOrder(decls), UnnamedSlots(decls);
    PermutedSlots(slots, o);
    forall k | 0 <= k < |o|
      ensures o[k].index < |decls| && decls[o[k].index].name.Internal?
      ensures o[k].key == decls[o[k].index].offset
      ensures o[k].initial == EncodeChar(decls[o[k].index].name.initial)
    {
      var p := PlaceIn(slots, o, k);
    }
    SlotOrdersTotal();
    Sorting.SortBySorted(slots, SlotTokenLe);
  }

  /** Every `Internal(c)` symbol is in the unnamed order. */
  lemma UnnamedOrderComplete(decls: seq<SymbolDeclaration>, i: nat)
    requires i < |decls| && decls[i].name.Internal?
    ensures exists k :: 0 <= k < |UnnamedOrder(decls)| && UnnamedOrder(decls)[k].index == i
  {
    var o, slots := UnnamedOrder(decls), UnnamedSlots(decls);
    UnnamedSlotsComplete(decls, i);
    var p :| 0 <= p < |slots| && slots[p].index == i;
    var k := PlaceIn(o, slots, p);
  }

  /** The named order lists each `InternalNamed` symbol once, with its
      name and first character, in the comparator's order. */
  lemma NamedOrderFacts(decls: seq<SymbolDeclaration>)
    ensures var o := NamedOrder(decls);
      && DistinctIndices(o)
      && (forall k :: 0 <= k < |o| ==>
        && o[k].index < |decls| && decls[o[k].index].name.InternalNamed?
        && o[k].key == decls[o[k].index].name.name
        && o[k].initial == FirstChar(o[k].key))
      && Sorting.SortedBy(o, SlotNameLe)
  {
    var o, slots := NamedOrder(decls), NamedSlots(decls);
    PermutedSlots(slots, o);
    forall k | 0 <= k < |o|
      ensures o[k].index < |decls| && decls[o[k].index].name.InternalNamed?
      ensures o[k].key == decls[o[k].index].name.name
      ensures o[k].initial == FirstChar(o[k].key)
    {
      var p := PlaceIn(slots, o, k);
    }
    SlotOrdersTotal();
    Sorting.SortBySorted(slots, SlotNameLe);
  }

  /** Every `InternalNamed` symbol is in the named order. */
  lemma NamedOrderComplete(decls: seq<SymbolDeclaration>, i: nat)
    requires i < |decls| && decls[i].name.InternalNamed?
    ensures exists k :: 0 <= k < |NamedOrder(decls)| && NamedOrder(decls)[k].index == i
  {
    var o, slots := NamedOrder(decls), NamedSlots(decls);
    NamedSlotsComplete(decls, i);
    var p :| 0 <= p < |slots| && slots[p].index == i;
    var k := PlaceIn(o, slots, p);
  }

  /** The first renaming block: every `Internal(c)` symbol, in heap token
      order, becomes `InternalUnmangled` of `c` and the next generated
      name. */
  method NameInternalSymbols(decls: seq<SymbolDeclaration>) returns (out: seq<SymbolDeclaration>)
    ensures out == RenameAll(decls, UnnamedOrder(decls))
  {
    UnnamedOrderFacts(decls);
    out := RenameInOrder(decls, UnnamedOrder(decls));
  }

  /** The second renaming block: every `InternalNamed` symbol, in the
      comparator's order, becomes `InternalUnmangled` of its first character
      and the next generated name; an empty name panics. */
  method NameNamedSymbols(decls: seq<SymbolDeclaration>) returns (r: Result<seq<SymbolDeclaration>>)
    ensures r.Err? <==> exists i :: 0 <= i < |decls| && decls[i].name == InternalNamed([])
    ensures r.Err? ==> r.error == Panic
    ensures r.Ok? ==> r.value == RenameAll(decls, NamedOrder(decls))
  {
    var order := NamedOrder(decls);
    NamedOrderFacts(decls);
    NamedEmpty(decls);
    if exists k :: 0 <= k < |order| && order[k].initial == [] {
      return Err(Panic);
    }
    var out := RenameInOrder(decls, order);
    r := Ok(out);
  }

  /** Some slot of the named order has an empty initial exactly when some
      `InternalNamed` name is empty. */
  lemma NamedEmpty(decls: seq<SymbolDeclaration>)
    ensures (exists k :: 0 <= k < |NamedOrder(decls)| && NamedOrder(decls)[k].initial == []) <==>
      exists i :: 0 <= i < |decls| && decls[i].name == InternalNamed([])
  {
    var o := NamedOrder(decls);
    NamedOrderFacts(decls);
    if exists i :: 0 <= i < |decls| && decls[i].name == InternalNamed([]) {
      var i :| 0 <= i < |decls| && decls[i].name == InternalNamed([]);
      NamedOrderComplete(decls, i);
      var k :| 0 <= k < |o| && o[k].index == i;
      assert o[k].initial == [];
    }
  }

  /** The declarations after the first renaming block. */
  function AfterInternal(decls: seq<SymbolDeclaration>): seq<SymbolDeclaration>
  {
    RenameAll(decls, UnnamedOrder(decls))
  }

  /** The `Internal(c)` symbol `i` is renamed to `c` followed by the
      generator's `k + 1`-th output, `k` being its place in heap token
      order; it keeps its token and size. */
  lemma UnnamedRank(decls: seq<SymbolDeclaration>, i: nat) returns (k: nat)
    requires i < |decls| && decls[i].name.Internal?
    ensures k < |UnnamedOrder(decls)| && UnnamedOrder(decls)[k].index == i
    ensures AfterInternal(decls)[i] ==
      decls[i].(name := InternalUnmangled(EncodeChar(decls[i].name.initial) + Output(k + 1)))
  {
    var o := UnnamedOrder(decls);
    UnnamedOrderFacts(decls);
    UnnamedOrderComplete(decls, i);
    k :| 0 <= k < |o| && o[k].index == i;
    RenameAllAt(decls, o, k);
  }

  /** The first block touches nothing but `Internal(c)` symbols. */
  lemma UnnamedKeeps(decls: seq<SymbolDeclaration>, i: nat)
    requires i < |decls| && !decls[i].name.Internal?
    ensures AfterInternal(decls)[i] == decls[i]
  {
    UnnamedOrderFacts(decls);
    RenameAllKeeps(decls, UnnamedOrder(decls), i);
  }

  /** Symbols are named in heap token order: one whose token comes
      strictly first gets the earlier generator output. */
  lemma UnnamedRanksFollowTokens(decls: seq<SymbolDeclaration>, i: nat, j: nat, ki: nat, kj: nat)
    requires i < |decls| && decls[i].name.Internal? && j < |decls| && decls[j].name.Internal?
    requires ki < |UnnamedOrder(decls)| && UnnamedOrder(decls)[ki].index == i
    requires kj < |UnnamedOrder(decls)| && UnnamedOrder(decls)[kj].index == j
    requires !TokenLe(decls[j].offset, decls[i].offset)
    ensures ki < kj
  {
    UnnamedOrderFacts(decls);
  }

  /** Two `Internal` symbols with the same initial character get different
      names. */
  lemma UnnamedNamesDistinct(decls: seq<SymbolDeclaration>, i: nat, j: nat)
    requires i < |decls| && j < |decls| && i != j
    requires decls[i].name.Internal? && decls[j].name.Internal?
    requires decls[i].name.initial == decls[j].name.initial
    ensures AfterInternal(decls)[i].name != AfterInternal(decls)[j].name
  {
    var ki := UnnamedRank(decls, i);
    var kj := UnnamedRank(decls, j);
    GeneratedNamesDiffer(EncodeChar(decls[i].name.initial), ki, kj);
  }

  /** One initial followed by two different generator outputs gives two
      different names. */
  lemma GeneratedNamesDiffer(initial: Bytes, ki: nat, kj: nat)
    requires ki != kj
    ensures initial + Output(ki + 1) != initial + Output(kj + 1)
  {
    var m, n := ki + 1, kj + 1;
    if m < n {
      OutputsDistinct(m, n);
      SuffixesDiffer(initial, Output(m), Output(n));
    } else {
      OutputsDistinct(n, m);
      SuffixesDiffer(initial, Output(n), Output(m));
    }
  }

  lemma SuffixesDiffer(prefix: Bytes, a: Bytes, b: Bytes)
    requires a != b
    ensures prefix + a != prefix + b
  {
    assert (prefix + a)[|prefix|..] == a;
    assert (prefix + b)[|prefix|..] == b;
  }

  /** The declarations after both renaming blocks. */
  function AfterRenaming(decls: seq<SymbolDeclaration>): seq<SymbolDeclaration>
  {
    var d1 := AfterInternal(decls);
    RenameAll(d1, NamedOrder(d1))
  }

  /** The `InternalNamed` symbol `i` is renamed to the first character of
      its name followed by the `k + 1`-th output of a second, fresh
      generator, `k` being its place in the comparator's order. */
  lemma NamedRank(decls: seq<SymbolDeclaration>, i: nat) returns (k: nat)
    requires i < |decls| && decls[i].name.InternalNamed?
    ensures var d1 := AfterInternal(decls);
      && k < |NamedOrder(d1)| && NamedOrder(d1)[k].index == i
      && AfterRenaming(decls)[i] ==
        decls[i].(name := InternalUnmangled(FirstChar(decls[i].name.name) + Output(k + 1)))
  {
    var d1 := AfterInternal(decls);
    UnnamedKeeps(decls, i);
    var o := NamedOrder(d1);
    NamedOrderFacts(d1);
    NamedOrderComplete(d1, i);
    k :| 0 <= k < |o| && o[k].index == i;
    RenameAllAt(d1, o, k);
  }

  /** Two `InternalNamed` symbols whose names start with the same
      character get different names. */
  lemma NamedNamesDistinct(decls: seq<SymbolDeclaration>, i: nat, j: nat)
    requires i < |decls| && j < |decls| && i != j
    requires decls[i].name.InternalNamed? && decls[j].name.InternalNamed?
    requires FirstChar(decls[i].name.name) == FirstChar(decls[j].name.name)
    ensures AfterRenaming(decls)[i].name != AfterRenaming(decls)[j].name
  {
    var ki := NamedRank(decls, i);
    var kj := NamedRank(decls, j);
    GeneratedNamesDiffer(FirstChar(decls[i].name.name), ki, kj);
  }

  /** Named symbols are renamed in the comparator's order: one whose name
      sorts strictly first gets the earlier generator output. */
  lemma NamedRanksFollowNames(decls: seq<SymbolDeclaration>, i: nat, j: nat, ki: nat, kj: nat)
    requires i < |decls| && decls[i].name.InternalNamed? && j < |decls| && decls[j].name.InternalNamed?
    requires var o := NamedOrder(AfterInternal(decls));
      && ki < |o| && o[ki].index == i && kj < |o| && o[kj].index == j
    requires NameCmp(decls[i].name.name, decls[j].name.name) == Less
    ensures ki < kj
  {
    var d1 := AfterInternal(decls);
    UnnamedKeeps(decls, i);
    UnnamedKeeps(decls, j);
    NamedOrderFacts(d1);
    NameCmpTotalOrder(decls[i].name.name, decls[j].name.name, decls[j].name.name);
  }

  /** After both blocks every internal symbol has its final
      `InternalUnmangled` name, and nothing else changed: the other
      symbols are as declared, and tokens and sizes are kept. */
  lemma RenamingComplete(decls: seq<SymbolDeclaration>, i: nat)
    requires i < |decls|
    ensures var d := AfterRenaming(decls)[i];
      && d.offset == decls[i].offset && d.size == decls[i].size
      && (decls[i].name.IsInternal() ==> d.name.InternalUnmangled?)
      && (!decls[i].name.IsInternal() ==> d == decls[i])
  {
    var d1 := AfterInternal(decls);
    NamedOrderFacts(d1);
    if decls[i].name.Internal? {
      var k := UnnamedRank(decls, i);
      RenameAllKeeps(d1, NamedOrder(d1), i);
    } else if decls[i].name.InternalNamed? {
      var k := NamedRank(decls, i);
    } else {
      UnnamedKeeps(decls, i);
      RenameAllKeeps(d1, NamedOrder(d1), i);
    }
  }
}
