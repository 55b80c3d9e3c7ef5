// The orders the symbol table writer sorts by (`src/main.rs`): heap tokens
// by block and offset, and the names of `InternalNamed` symbols by the
// comparator built on `is_less_special`, which turns out to be the byte
// order with the end of a name weighted between 'O' and 'P'.
module NameOrder {
  import opened Bytes
  import opened SymbolNames
  import Sorting

  datatype Ordering = Less | Equal | Greater
  {
    function Reverse(): Ordering
    {
      match this
      case Less => Greater
      case Equal => Equal
      case Greater => Less
    }
  }

  /** Lexicographic comparison, as `Ord` on `str` and slices compares. */
  function LexCmp(a: seq<int>, b: seq<int>): Ordering
  {
    if a == [] && b == [] then Equal
    else if a == [] then Less
    else if b == [] then Greater
    else if a[0] < b[0] then Less
    else if a[0] > b[0] then Greater
    else LexCmp(a[1..], b[1..])
  }

  lemma {:induction false} LexCmpReverse(a: seq<int>, b: seq<int>)
    ensures LexCmp(b, a) == LexCmp(a, b).Reverse()
  {
    if a != [] && b != [] && a[0] == b[0] {
      LexCmpReverse(a[1..], b[1..]);
    }
  }

  lemma {:induction false} LexCmpEqual(a: seq<int>, b: seq<int>)
    ensures LexCmp(a, b) == Equal <==> a == b
  {
    if a != [] && b != [] && a[0] == b[0] {
      LexCmpEqual(a[1..], b[1..]);
      assert a == [a[0]] + a[1..] && b == [b[0]] + b[1..];
    }
  }

  lemma {:induction false} LexCmpTransitive(a: seq<int>, b: seq<int>, c: seq<int>)
    requires LexCmp(a, b) != Greater && LexCmp(b, c) != Greater
    ensures LexCmp(a, c) != Greater
  {
    if a != [] && b != [] && c != [] && a[0] == b[0] == c[0] {
      LexCmpTransitive(a[1..], b[1..], c[1..]);
    }
  }

  /** A proper prefix comes first. */
  lemma {:induction false} LexCmpPrefix(a: seq<int>, b: seq<int>)
    requires |b| < |a| && a[..|b|] == b
    ensures LexCmp(a, b) == Greater
  {
    if b != [] {
      assert a[1..][..|b| - 1] == b[1..];
      LexCmpPrefix(a[1..], b[1..]);
    }
  }

  /** `is_less_special(a, b)`: `a` is `b` followed by more, and the first
      character after `b` is below 'P'.  Names are UTF-8, where a character
      is below 'P' exactly when its first byte is. */
  predicate IsLessSpecial(a: Bytes, b: Bytes)
  {
    |a| != |b| && |b| <= |a| && a[..|b|] == b && a[|b|] < 0x50
  }

  /** The comparator of the `sort_by` over `InternalNamed` names. */
  function NameCmp(a: Bytes, b: Bytes): Ordering
  {
    if IsLessSpecial(a, b) then Less
    else if IsLessSpecial(b, a) then Greater
    else LexCmp(a, b)
  }

  /** Where the end of a name sorts: between 'O' (0x4F) and 'P' (0x50),
      on a scale that doubles every byte. */
  const EndWeight: int := 2 * 0x4F + 1

  /** The reference order: each byte doubled, then the end weight. */
  function WeightedKey(s: Bytes): (r: seq<int>)
    ensures |r| == |s| + 1
  {
    seq(|s|, i requires 0 <= i < |s| => 2 * s[i]) + [EndWeight]
  }

  /** Comparing weighted keys: a proper prefix goes before its extension
      exactly when that extension continues with 'P' or above; otherwise
      the byte order decides. */
  lemma {:induction false} WeightedCmp(a: Bytes, b: Bytes)
    ensures LexCmp(WeightedKey(a), WeightedKey(b)) ==
      if |b| < |a| && a[..|b|] == b then (if a[|b|] < 0x50 then Less else Greater)
      else if |a| < |b| && b[..|a|] == a then (if b[|a|] < 0x50 then Greater else Less)
      else LexCmp(a, b)
  {
    var ka, kb := WeightedKey(a), WeightedKey(b);
    if a != [] && b != [] {
      if a[0] == b[0] {
        WeightedCmp(a[1..], b[1..]);
        assert ka[1..] == WeightedKey(a[1..]);
        assert kb[1..] == WeightedKey(b[1..]);
        if |b| < |a| && a[..|b|] == b {
          assert a[1..][..|b| - 1] == b[1..];
        } else if |a| < |b| && b[..|a|] == a {
          assert b[1..][..|a| - 1] == a[1..];
        }
      }
    }
  }

  /** The comparator is the order of the weighted keys: `sort_by` sorts
      the names by them. */
  lemma NameCmpIsWeighted(a: Bytes, b: Bytes)
    ensures NameCmp(a, b) == LexCmp(WeightedKey(a), WeightedKey(b))
  {
    WeightedCmp(a, b);
    if |b| < |a| && a[..|b|] == b {
      LexCmpPrefix(a, b);
    } else if |a| < |b| && b[..|a|] == a {
      LexCmpPrefix(b, a);
      LexCmpReverse(b, a);
    }
  }

  /** Two names compare equal only when they are the same name. */
  lemma WeightedKeyInjective(a: Bytes, b: Bytes)
    requires WeightedKey(a) == WeightedKey(b)
    ensures a == b
  {
    assert |a| == |b|;
    forall i | 0 <= i < |a|
      ensures a[i] == b[i]
    {
      assert WeightedKey(a)[i] == WeightedKey(b)[i];
    }
  }

  /** The comparator is antisymmetric, equal only on equal names, and
      transitive: a total order, as `sort_by` requires. */
  lemma NameCmpTotalOrder(a: Bytes, b: Bytes, c: Bytes)
    ensures NameCmp(b, a) == NameCmp(a, b).Reverse()
    ensures NameCmp(a, b) == Equal <==> a == b
    ensures NameCmp(a, b) != Greater && NameCmp(b, c) != Greater ==> NameCmp(a, c) != Greater
  {
    NameCmpIsWeighted(a, b);
    NameCmpIsWeighted(b, a);
    NameCmpIsWeighted(b, c);
    NameCmpIsWeighted(a, c);
    LexCmpReverse(WeightedKey(a), WeightedKey(b));
    LexCmpEqual(WeightedKey(a), WeightedKey(b));
    if WeightedKey(a) == WeightedKey(b) {
      WeightedKeyInjective(a, b);
    }
    if NameCmp(a, b) != Greater && NameCmp(b, c) != Greater {
      LexCmpTransitive(WeightedKey(a), WeightedKey(b), WeightedKey(c));
    }
  }

  /** Not after, under the comparator. */
  predicate NameLe(a: Bytes, b: Bytes)
  {
    NameCmp(a, b) != Greater
  }

  /** Heap tokens in the order of the pair (block, offset), as
      `sort_by_key(|symbol| symbol.offset)` sorts them. */
  predicate TokenLe(a: HeapToken, b: HeapToken)
  {
    a.block < b.block || (a.block == b.block && a.offset <= b.offset)
  }

  lemma TokenLeTotalPreorder()
    ensures Sorting.TotalPreorder(TokenLe)
  {
  }

  lemma NameLeTotalPreorder()
    ensures Sorting.TotalPreorder(NameLe)
  {
    forall a, b
      ensures NameLe(a, b) || NameLe(b, a)
    {
      NameCmpTotalOrder(a, b, b);
    }
    forall a, b, c | NameLe(a, b) && NameLe(b, c)
      ensures NameLe(a, c)
    {
      NameCmpTotalOrder(a, b, c);
    }
  }
}
