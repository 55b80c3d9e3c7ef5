// `SymbolNameGenerator`: the odometer that hands out short names for the
// symbols the writer invents, over the 93-character alphabet
// `AUTO_SYMBOL_NAME_CHARS`.
module ElfNames {
  import opened Bytes

  const AUTO_SYMBOL_NAME_CHAR_COUNT: nat := 93

  /** The 31 punctuation characters after the letters and digits. */
  function Special(k: nat): u8
    requires k < 31
  {
    match k
    case 0 => '!' as int case 1 => '@' as int case 2 => '$' as int case 3 => '%' as int
    case 4 => '^' as int case 5 => '&' as int case 6 => '*' as int case 7 => '(' as int
    case 8 => ')' as int case 9 => '_' as int case 10 => '+' as int case 11 => '-' as int
    case 12 => '=' as int case 13 => '[' as int case 14 => ']' as int case 15 => '{' as int
    case 16 => '}' as int case 17 => ';' as int case 18 => '\'' as int case 19 => '\\' as int
    case 20 => ':' as int case 21 => '"' as int case 22 => '|' as int case 23 => ',' as int
    case 24 => '.' as int case 25 => '/' as int case 26 => '<' as int case 27 => '>' as int
    case 28 => '?' as int case 29 => '~' as int case _ => '`' as int
  }

  /** Position of a punctuation character in `Special`, or -1. */
  function SpecialIndex(c: int): int
  {
    match c
    case 0x21 => 0 case 0x40 => 1 case 0x24 => 2 case 0x25 => 3
    case 0x5E => 4 case 0x26 => 5 case 0x2A => 6 case 0x28 => 7
    case 0x29 => 8 case 0x5F => 9 case 0x2B => 10 case 0x2D => 11
    case 0x3D => 12 case 0x5B => 13 case 0x5D => 14 case 0x7B => 15
    case 0x7D => 16 case 0x3B => 17 case 0x27 => 18 case 0x5C => 19
    case 0x3A => 20 case 0x22 => 21 case 0x7C => 22 case 0x2C => 23
    case 0x2E => 24 case 0x2F => 25 case 0x3C => 26 case 0x3E => 27
    case 0x3F => 28 case 0x7E => 29 case 0x60 => 30 case _ => -1
  }

  /** `AUTO_SYMBOL_NAME_CHARS[k]`: a-z, A-Z, 0-9, then the punctuation. */
  function AutoChar(k: nat): u8
    requires k < AUTO_SYMBOL_NAME_CHAR_COUNT
  {
    if k < 26 then 0x61 + k
    else if k < 52 then 0x41 + (k - 26)
    else if k < 62 then 0x30 + (k - 52)
    else Special(k - 62)
  }

  function AutoIndex(c: int): int
  {
    if 0x61 <= c < 0x61 + 26 then c - 0x61
    else if 0x41 <= c < 0x41 + 26 then c - 0x41 + 26
    else if 0x30 <= c < 0x3A then c - 0x30 + 52
    else if SpecialIndex(c) >= 0 then SpecialIndex(c) + 62
    else -1
  }

  lemma AutoIndexOfChar(k: nat)
    requires k < AUTO_SYMBOL_NAME_CHAR_COUNT
    ensures AutoIndex(AutoChar(k)) == k
  {
    if k >= 62 {
      SpecialIndexOf(k - 62);
    }
  }

  lemma SpecialIndexOf(j: nat)
    requires j < 31
    ensures SpecialIndex(Special(j)) == j
  {
  }

  const AUTO_SYMBOL_NAME_CHARS: seq<u8> :=
    seq(AUTO_SYMBOL_NAME_CHAR_COUNT, k requires 0 <= k < AUTO_SYMBOL_NAME_CHAR_COUNT => AutoChar(k))

  /** The 93 characters are pairwise distinct, so a name determines its
      digits. */
  lemma AutoCharsDistinct(j: nat, k: nat)
    requires j < AUTO_SYMBOL_NAME_CHAR_COUNT && k < AUTO_SYMBOL_NAME_CHAR_COUNT
    requires AUTO_SYMBOL_NAME_CHARS[j] == AUTO_SYMBOL_NAME_CHARS[k]
    ensures j == k
  {
    AutoIndexOfChar(j);
    AutoIndexOfChar(k);
  }

  /** A digit string of the odometer. */
  predicate IsDigits(d: seq<nat>) {
    forall k :: 0 <= k < |d| ==> d[k] < AUTO_SYMBOL_NAME_CHAR_COUNT
  }

  /** The characters a digit string stands for. */
  function Render(d: seq<nat>): (r: Bytes)
    requires IsDigits(d)
    ensures |r| == |d|
    ensures forall k :: 0 <= k < |d| ==> r[k] == AutoChar(d[k])
  {
    seq(|d|, k requires 0 <= k < |d| => AutoChar(d[k]))
  }

  lemma {:induction false} RenderInjective(a: seq<nat>, b: seq<nat>)
    requires IsDigits(a) && IsDigits(b) && Render(a) == Render(b)
    ensures a == b
  {
    forall k | 0 <= k < |a| ensures a[k] == b[k] {
      assert Render(a)[k] == Render(b)[k];
      AutoCharsDistinct(a[k], b[k]);
    }
  }

  /** The carry loop of `next` started at position `i`: count that digit up;
      on overflow reset it (to 1 at position 0, to 0 elsewhere) and carry to
      the left, appending a new 0 digit when position 0 overflows. */
  function Carry(d: seq<nat>, i: nat): (r: seq<nat>)
    requires IsDigits(d) && i < |d|
    ensures IsDigits(r) && |r| >= |d| && |r| <= |d| + 1
    ensures |d| > 0 && d[0] >= 1 ==> r[0] >= 1
    decreases i
  {
    var v := d[i] + 1;
    if v < AUTO_SYMBOL_NAME_CHAR_COUNT then d[i := v]
    else if i == 0 then d[0 := 1] + [0]
    else Carry(d[i := 0], i - 1)
  }

  /** The digits after one later call of `next`. */
  function Succ(d: seq<nat>): (r: seq<nat>)
    requires IsDigits(d) && |d| > 0
    ensures IsDigits(r) && |r| > 0
  {
    Carry(d, |d| - 1)
  }

  /** The digits after `n` calls of `next` on a fresh generator. */
  function DigitsAfter(n: nat): (r: seq<nat>)
    ensures IsDigits(r)
    ensures n == 0 <==> r == []
    ensures n >= 2 ==> r[0] >= 1
  {
    if n == 0 then [] else if n == 1 then [0] else Succ(DigitsAfter(n - 1))
  }

  /** What the `n`-th call of `next` (counting from 1) returns. */
  function Output(n: nat): (r: Bytes)
    requires n >= 1
  {
    if n == 1 then [] else Render(DigitsAfter(n))
  }

  /** The carry grows the string exactly when every digit up to `i`
      overflows. */
  lemma {:induction false} CarryLength(d: seq<nat>, i: nat)
    requires IsDigits(d) && i < |d|
    ensures |Carry(d, i)| == |d| + 1 <==> forall k :: 0 <= k <= i ==> d[k] == AUTO_SYMBOL_NAME_CHAR_COUNT - 1
    decreases i
  {
    if d[i] + 1 < AUTO_SYMBOL_NAME_CHAR_COUNT {
    } else if i > 0 {
      var e := d[i := 0];
      CarryLength(e, i - 1);
      assert forall k :: 0 <= k <= i - 1 ==> e[k] == d[k];
    }
  }

  /** Length grows by one exactly when every position overflows. */
  lemma SuccLength(d: seq<nat>)
    requires IsDigits(d) && |d| > 0
    ensures |Succ(d)| == |d| + 1 <==> forall k :: 0 <= k < |d| ==> d[k] == AUTO_SYMBOL_NAME_CHAR_COUNT - 1
    ensures |Succ(d)| == |d| || |Succ(d)| == |d| + 1
  {
    CarryLength(d, |d| - 1);
  }

  /** The order the odometer climbs in: shorter first, then by the first
      digit that differs. */
  ghost predicate Below(a: seq<nat>, b: seq<nat>) {
    |a| < |b| || (|a| == |b| && exists k :: 0 <= k < |a| && a[..k] == b[..k] && a[k] < b[k])
  }

  lemma BelowTransitive(a: seq<nat>, b: seq<nat>, c: seq<nat>)
    requires Below(a, b) && Below(b, c)
    ensures Below(a, c)
  {
    if |a| == |b| == |c| {
      var k1 :| 0 <= k1 < |a| && a[..k1] == b[..k1] && a[k1] < b[k1];
      var k2 :| 0 <= k2 < |b| && b[..k2] == c[..k2] && b[k2] < c[k2];
      if k1 < k2 {
        assert b[k1] == b[..k2][k1] == c[..k2][k1];
        assert a[..k1] == c[..k1] && a[k1] < c[k1] by { assert b[..k1] == b[..k2][..k1]; assert c[..k1] == c[..k2][..k1]; }
      } else if k2 < k1 {
        assert a[k2] == a[..k1][k2] == b[..k1][k2];
        assert a[..k2] == c[..k2] && a[k2] < c[k2] by { assert a[..k2] == a[..k1][..k2]; assert b[..k2] == b[..k1][..k2]; }
      } else {
        assert a[..k1] == c[..k1] && a[k1] < c[k1];
      }
    }
  }

  lemma BelowIrreflexive(a: seq<nat>)
    ensures !Below(a, a)
  {
  }

  /** Every carry moves the digits strictly up. */
  lemma {:induction false} CarryAbove(d: seq<nat>, i: nat)
    requires IsDigits(d) && i < |d|
    ensures |Carry(d, i)| > |d| ||
      (|Carry(d, i)| == |d| && exists k :: 0 <= k <= i && Carry(d, i)[..k] == d[..k] && Carry(d, i)[k] > d[k])
    decreases i
  {
    var r := Carry(d, i);
    var v := d[i] + 1;
    if v < AUTO_SYMBOL_NAME_CHAR_COUNT {
      assert r[..i] == d[..i];
    } else if i > 0 {
      var e := d[i := 0];
      CarryAbove(e, i - 1);
      if |r| == |d| {
        var k :| 0 <= k <= i - 1 && r[..k] == e[..k] && r[k] > e[k];
        assert e[..k] == d[..k];
        assert r[..k] == d[..k] && r[k] > d[k];
      }
    }
  }

  lemma SuccAbove(d: seq<nat>)
    requires IsDigits(d) && |d| > 0
    ensures Below(d, Succ(d))
  {
    CarryAbove(d, |d| - 1);
  }

  lemma {:induction false} DigitsClimb(m: nat, n: nat)
    requires 1 <= m < n
    ensures Below(DigitsAfter(m), DigitsAfter(n))
    decreases n
  {
    SuccAbove(DigitsAfter(n - 1));
    if m < n - 1 {
      DigitsClimb(m, n - 1);
      BelowTransitive(DigitsAfter(m), DigitsAfter(n - 1), DigitsAfter(n));
    }
  }

  /** Outputs never repeat. */
  lemma OutputsDistinct(m: nat, n: nat)
    requires 1 <= m < n
    ensures Output(m) != Output(n)
  {
    DigitsClimb(m, n);
    if m >= 2 && Output(m) == Output(n) {
      RenderInjective(DigitsAfter(m), DigitsAfter(n));
      BelowIrreflexive(DigitsAfter(m));
    }
  }

  /** The first output is empty; every later one is non-empty, made of
      characters of `AUTO_SYMBOL_NAME_CHARS`, and never starts with 'a'. */
  lemma OutputShape(n: nat)
    requires n >= 1
    ensures n == 1 <==> Output(n) == []
    ensures forall k :: 0 <= k < |Output(n)| ==> Output(n)[k] in AUTO_SYMBOL_NAME_CHARS
    ensures n >= 2 ==> Output(n)[0] != 'a' as int
  {
    if n >= 2 {
      var d := DigitsAfter(n);
      assert Output(n)[0] == AutoChar(d[0]);
      forall k | 0 <= k < |d| ensures Output(n)[k] in AUTO_SYMBOL_NAME_CHARS {
        assert Output(n)[k] == AUTO_SYMBOL_NAME_CHARS[d[k]];
      }
    }
  }

  /** The first 93 calls leave a single digit that counts 0, 1, ..., 92. */
  lemma {:induction false} SingleDigitPhase(n: nat)
    requires 1 <= n <= AUTO_SYMBOL_NAME_CHAR_COUNT
    ensures DigitsAfter(n) == [n - 1]
  {
    if n > 1 {
      SingleDigitPhase(n - 1);
    }
  }

  /** The second output is "b". */
  lemma SecondOutput()
    ensures Output(2) == Str("b")
  {
    SingleDigitPhase(2);
    assert Output(2) == [AutoChar(1)];
  }

  /** During the first 93 calls, the `n`-th output (after the empty first
      one) is the single character `AUTO_SYMBOL_NAME_CHARS[n - 1]`. */
  lemma OutputSingle(n: nat)
    requires 2 <= n <= AUTO_SYMBOL_NAME_CHAR_COUNT
    ensures Output(n) == [AutoChar(n - 1)]
  {
    SingleDigitPhase(n);
    RenderOne(n - 1);
  }

  lemma RenderOne(k: nat)
    requires k < AUTO_SYMBOL_NAME_CHAR_COUNT
    ensures Render([k]) == [AutoChar(k)]
  {
    var r := Render([k]);
    assert r == [r[0]];
  }

  /** The 93rd output is "`" (0x60), the last single character. */
  lemma LastSingleCharacter(n: nat)
    requires n == AUTO_SYMBOL_NAME_CHAR_COUNT
    ensures Output(n) == [0x60]
  {
    OutputSingle(n);
    LastAutoChar();
  }

  lemma LastAutoChar()
    ensures AutoChar(AUTO_SYMBOL_NAME_CHAR_COUNT - 1) == 0x60
  {
    assert Special(30) == 0x60;
  }

  /** The first two-character output: position 0 restarts at digit 1, not
      0, and a new 0 digit is appended. */
  lemma OutputFirstPair(n: nat)
    requires n == AUTO_SYMBOL_NAME_CHAR_COUNT
    ensures Output(n + 1) == [AutoChar(1), AutoChar(0)]
  {
    FirstCarry(n);
    RenderTwo(1, 0);
  }

  /** Call 94 overflows the single digit. */
  lemma FirstCarry(n: nat)
    requires n == AUTO_SYMBOL_NAME_CHAR_COUNT
    ensures DigitsAfter(n + 1) == [1, 0]
  {
    SingleDigitPhase(n);
    TopCarry();
  }

  /** The single digit 92 carries into two digits. */
  lemma TopCarry()
    ensures Succ([AUTO_SYMBOL_NAME_CHAR_COUNT - 1]) == [1, 0]
  {
    assert [92][0 := 1] == [1];
  }

  lemma RenderTwo(j: nat, k: nat)
    requires j < AUTO_SYMBOL_NAME_CHAR_COUNT && k < AUTO_SYMBOL_NAME_CHAR_COUNT
    ensures Render([j, k]) == [AutoChar(j), AutoChar(k)]
  {
    var r := Render([j, k]);
    assert r == [r[0], r[1]];
  }

  /** The 94th output is "ba" (0x62 0x61). */
  lemma FirstTwoCharacters(n: nat)
    requires n == AUTO_SYMBOL_NAME_CHAR_COUNT
    ensures Output(n + 1) == [0x62, 0x61]
  {
    OutputFirstPair(n);
    assert AutoChar(1) == 0x62 && AutoChar(0) == 0x61;
  }

  /** The generator.  `calls` counts the calls of `next` so far. */
  class SymbolNameGenerator {
    var indices: seq<nat>
    var result: Bytes
    ghost var calls: nat

    ghost predicate Valid()
      reads this
    {
      IsDigits(indices) && result == Render(indices) && indices == DigitsAfter(calls)
    }

    constructor ()
      ensures Valid() && calls == 0 && indices == [] && result == []
    {
      indices := [];
      result := [];
      calls := 0;
    }

    /** `count_up_check_overflow(index)`. */
    method CountUpCheckOverflow(index: nat) returns (overflow: bool)
      requires IsDigits(indices) && index < |indices| && result == Render(indices)
      modifies this`indices, this`result
      ensures overflow == (old(indices[index]) + 1 >= AUTO_SYMBOL_NAME_CHAR_COUNT)
      ensures indices == old(indices)[index := if !overflow then old(indices[index]) + 1 else if index == 0 then 1 else 0]
      ensures IsDigits(indices) && result == Render(indices)
      ensures Carry(old(indices), index) ==
        if overflow && index > 0 then Carry(indices, index - 1) else if overflow then indices + [0] else indices
    {
      CarryStep(indices, index);
      var value := indices[index] + 1;
      overflow := value >= AUTO_SYMBOL_NAME_CHAR_COUNT;
      if overflow && index == 0 {
        value := 1;
      } else if overflow {
        value := 0;
      }
      indices := indices[index := value];
      result := result[index := AUTO_SYMBOL_NAME_CHARS[value]];
    }

    /** The carry loop of `next`: count the last position up and carry
        leftwards while a position overflows. */
    method CountUp()
      requires IsDigits(indices) && |indices| > 0 && result == Render(indices)
      modifies this`indices, this`result
      ensures IsDigits(indices) && result == Render(indices)
      ensures indices == Succ(old(indices))
    {
      ghost var target := Succ(indices);
      var i: nat := |indices| - 1;
      var overflow := CountUpCheckOverflow(i);
      while overflow
        invariant IsDigits(indices) && result == Render(indices)
        invariant i < |indices|
        invariant overflow && i > 0 ==> Carry(indices, i - 1) == target
        invariant overflow && i == 0 ==> indices + [0] == target
        invariant !overflow ==> indices == target
        decreases i, overflow
      {
        if i == 0 {
          RenderAppendFirst(indices);
          indices := indices + [0];
          result := result + [AUTO_SYMBOL_NAME_CHARS[0]];
          break;
        }
        i := i - 1;
        overflow := CountUpCheckOverflow(i);
      }
    }

    /** `next`: the name for the next symbol. */
    method Next() returns (name: Bytes)
      requires Valid()
      modifies this
      ensures Valid() && calls == old(calls) + 1
      ensures name == Output(calls)
    {
      if |indices| == 0 {
        RenderAppendFirst(indices);
        indices := indices + [0];
        result := result + [AUTO_SYMBOL_NAME_CHARS[0]];
        calls := calls + 1;
        return [];
      }
      assert Succ(indices) == DigitsAfter(calls + 1);
      CountUp();
      calls := calls + 1;
      name := result;
    }
  }

  /** One step of the carry loop, as `count_up_check_overflow` takes it. */
  lemma CarryStep(d: seq<nat>, i: nat)
    requires IsDigits(d) && i < |d|
    ensures var overflow := d[i] + 1 >= AUTO_SYMBOL_NAME_CHAR_COUNT;
      var e := d[i := if !overflow then d[i] + 1 else if i == 0 then 1 else 0];
      Carry(d, i) == if overflow && i > 0 then Carry(e, i - 1) else if overflow then e + [0] else e
  {
  }

  /** Appending the digit 0 appends the character 'a'. */
  lemma RenderAppendFirst(d: seq<nat>)
    requires IsDigits(d)
    ensures IsDigits(d + [0]) && Render(d + [0]) == Render(d) + [AUTO_SYMBOL_NAME_CHARS[0]]
  {
    assert IsDigits(d + [0]);
    var r, s := Render(d + [0]), Render(d) + [AUTO_SYMBOL_NAME_CHARS[0]];
    assert forall k :: 0 <= k < |r| ==> r[k] == s[k];
  }
}
