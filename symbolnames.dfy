// The crate-level records of the repository: how a symbol is named while the
// writer collects it, and the symbol and relocation declarations it collects.
module SymbolNames {
  import opened Wrappers
  import opened Bytes

  /** UTF-8 encoding of one Unicode scalar value, as `char::to_string` makes. */
  function EncodeChar(c: char): (r: Bytes)
    ensures 1 <= |r| <= 4
    ensures (c as int) < 0x80 <==> r == [c as int]
  {
    var x := c as int;
    if x < 0x80 then [x]
    else if x < 0x800 then [0xC0 + x / 0x40, 0x80 + x % 0x40]
    else if x < 0x1_0000 then [0xE0 + x / 0x1000, 0x80 + (x / 0x40) % 0x40, 0x80 + x % 0x40]
    else [0xF0 + x / 0x4_0000, 0x80 + (x / 0x1000) % 0x40, 0x80 + (x / 0x40) % 0x40, 0x80 + x % 0x40]
  }

  /** `SymbolName`.  Rust's `SymbolName::None` is `NoName` here, so that it
      does not clash with `Option`'s `None`. */
  datatype SymbolName =
    | NoName
    | Internal(initial: char)
    | InternalNamed(name: Bytes)
    | InternalUnmangled(name: Bytes)
    | Unmangled(name: Bytes)
  {
    /** `is_internal`: the writer picks the final name of these itself. */
    predicate IsInternal() {
      Internal? || InternalNamed? || InternalUnmangled?
    }

    /** `as_str`: the name the symbol already has, if any. */
    function AsStr(): (r: Option<Bytes>)
      ensures r.None? <==> NoName? || Internal?
      ensures r.Some? ==> r.value == name
    {
      match this
      case NoName => None
      case Internal(_) => None
      case InternalNamed(n) => Some(n)
      case InternalUnmangled(n) => Some(n)
      case Unmangled(n) => Some(n)
    }

    /** `Display`: a placeholder for the nameless kinds, the name otherwise. */
    function Display(): (r: Bytes)
      ensures AsStr().Some? ==> r == AsStr().value
      ensures NoName? ==> r == Str("<none>")
      ensures Internal? ==> r == EncodeChar(initial) + Str("<???>")
    {
      match this
      case NoName => Str("<none>")
      case Internal(c) => EncodeChar(c) + Str("<???>")
      case InternalNamed(n) => n
      case InternalUnmangled(n) => n
      case Unmangled(n) => n
    }
  }

  /** `is_internal` and `as_str` together: an internal symbol without a name
      yet is exactly an `Internal` one. */
  lemma InternalWithoutName(n: SymbolName)
    ensures (n.IsInternal() && n.AsStr().None?) <==> n.Internal?
    ensures (!n.IsInternal() && n.AsStr().None?) <==> n.NoName?
  {
  }

  /** vivibin's `HeapToken`: a place in a heap block of the write context,
      resolved to a file offset once every block has been laid out.  Its
      order is the order of the pair (block, offset). */
  datatype HeapToken = HeapToken(block: nat, offset: nat)
  {
    function Resolve(blockOffsets: seq<nat>): (r: nat)
      requires block < |blockOffsets|
      ensures r >= blockOffsets[block]
    {
      blockOffsets[block] + offset
    }

    function Key(): (r: seq<int>)
      ensures |r| == 2
    {
      [block, offset]
    }
  }

  datatype SymbolDeclaration = SymbolDeclaration(name: SymbolName, offset: HeapToken, size: u32)

  /** A relocation the writer has to emit: the word at `baseLocation` must
      point at `targetLocation`. */
  datatype RelDeclaration = RelDeclaration(baseLocation: nat, targetLocation: nat)
}
