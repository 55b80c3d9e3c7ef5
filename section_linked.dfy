// `get_section_linked` of the reassembler (`src/main.rs`): the bytes of a
// section with every relocated word replaced by the offset of the symbol it
// points at, marked with `0x7000_0000`, as the game's own linker leaves it.
module SectionLinking {
  import opened Wrappers
  import opened Bytes
  import opened PointerUtil
  import opened Elf
  import opened IndexMaps
  import Stream

  /** Where the word read at `pos` ends: four bytes on, or the end of the
      content when fewer are left (`read` into a 4-byte buffer). */
  function WordEnd(content: Bytes, pos: nat): (e: nat)
    requires pos < |content|
    ensures pos < e <= |content| && e <= pos + 4
    ensures e < pos + 4 ==> e == |content|
  {
    if |content| - pos < 4 then |content| else pos + 4
  }

  /** The linked word for a relocation: the big-endian offset of symbol
      `ELF32_R_SYM(info)`, or-ed with `0x7000_0000`. */
  function LinkedWord(symbols: IndexMap<Bytes, Symbol>, rel: Relocation): (r: Result<Bytes>)
    ensures r.Ok? <==> SymbolIndexOf(rel.info) < symbols.Len()
    ensures r.Err? ==> r.error == SymbolIndexOutOfRange
    ensures r.Ok? ==> r.value == U32ToBE(OrDebugMark(symbols.entries[SymbolIndexOf(rel.info)].1.Offset()))
  {
    match symbols.GetIndex(SymbolIndexOf(rel.info))
    case None => Err(SymbolIndexOutOfRange)
    case Some(entry) => Ok(U32ToBE(OrDebugMark(entry.1.Offset())))
  }

  /** The loop from position `pos` with `out` written so far: at each
      position, the relocation patching it (if any) gives the linked word
      and the four bytes there must read as zero; other positions are
      copied a word (or what is left) at a time. */
  function LinkedFrom(content: Bytes, relocations: IndexMap<Pointer, Relocation>, symbols: IndexMap<Bytes, Symbol>,
                      pos: nat, out: Bytes): Result<Bytes>
    decreases |content| - pos
  {
    if pos >= |content| then Ok(out)
    else
      var here :- Current(pos);
      match relocations.Get(here)
      case Some(rel) =>
        var word :- LinkedWord(symbols, rel);
        var value :- Stream.U32At(content, pos);
        if value != 0 then Err(Panic)
        else LinkedFrom(content, relocations, symbols, pos + 4, out + word)
      case None =>
        var e := WordEnd(content, pos);
        LinkedFrom(content, relocations, symbols, e, out + content[pos..e])
  }

  /** `get_section_linked`: the content as it is when the section has no
      relocations, the loop from the start otherwise. */
  function Linked(section: Section, symbols: IndexMap<Bytes, Symbol>): Result<Bytes>
  {
    match section.relocations
    case None => Ok(section.content)
    case Some(relocations) => LinkedFrom(section.content, relocations, symbols, 0, [])
  }

  /** `get_section_linked`, reading the content through a cursor at `pos`
      and writing the result to `out`. */
  method SectionLinked(section: Section, symbols: IndexMap<Bytes, Symbol>) returns (r: Result<Bytes>)
    ensures r == Linked(section, symbols)
  {
    if section.relocations.None? {
      return Ok(section.content);
    }
    var relocations := section.relocations.value;
    var content := section.content;
    var pos: nat := 0;
    var out: Bytes := [];
    while pos < |content|
      invariant pos <= |content|
      invariant LinkedFrom(content, relocations, symbols, pos, out) == Linked(section, symbols)
      decreases |content| - pos
    {
      var here := Current(pos);
      if here.Err? {
        return Err(here.error);
      }
      var rel := relocations.Get(here.value);
      if rel.Some? {
        var word := LinkedWord(symbols, rel.value);
        if word.Err? {
          return Err(word.error);
        }
        out := out + word.value;
        var value := Stream.U32At(content, pos);
        if value.Err? {
          return Err(value.error);
        }
        if value.value != 0 {
          return Err(Panic);
        }
        pos := pos + 4;
      } else {
        var e := WordEnd(content, pos);
        out := out + content[pos..e];
        pos := e;
      }
    }
    r := Ok(out);
  }

  /** The word at `p` links: its position fits a pointer, and a relocation
      there names an existing symbol over four zero bytes. */
  predicate WordOk(content: Bytes, relocations: IndexMap<Pointer, Relocation>, symbols: IndexMap<Bytes, Symbol>, p: nat)
  {
    p <= U32_MAX &&
    match relocations.Get(Pointer(p))
    case None => true
    case Some(rel) => SymbolIndexOf(rel.info) < symbols.Len() && p + 4 <= |content| && content[p..p + 4] == Zeros(4)
  }

  /** The output holds, at word `p`, the linked word of the relocation
      there, or else the input's bytes. */
  predicate WordLinked(content: Bytes, relocations: IndexMap<Pointer, Relocation>, symbols: IndexMap<Bytes, Symbol>,
                       result: Bytes, p: nat)
    requires p < |content| == |result|
  {
    p <= U32_MAX &&
    match relocations.Get(Pointer(p))
    case None => result[p..WordEnd(content, p)] == content[p..WordEnd(content, p)]
    case Some(rel) =>
      SymbolIndexOf(rel.info) < symbols.Len() && p + 4 <= |content| &&
      result[p..p + 4] == U32ToBE(OrDebugMark(symbols.entries[SymbolIndexOf(rel.info)].1.Offset()))
  }

  /** Every word from the boundary `from` on links. */
  predicate WordsOkFrom(content: Bytes, relocations: IndexMap<Pointer, Relocation>, symbols: IndexMap<Bytes, Symbol>, from: nat)
  {
    forall p :: from <= p < |content| && p % 4 == 0 ==> WordOk(content, relocations, symbols, p)
  }

  /** Every word from the boundary `from` on is linked in `result`. */
  predicate WordsLinkedFrom(content: Bytes, relocations: IndexMap<Pointer, Relocation>, symbols: IndexMap<Bytes, Symbol>,
                            result: Bytes, from: nat)
    requires |content| == |result|
  {
    forall p :: from <= p < |content| && p % 4 == 0 ==> WordLinked(content, relocations, symbols, result, p)
  }

  /** The word boundary after `pos` is four bytes on. */
  lemma NextBoundary(pos: nat, p: nat)
    requires pos % 4 == 0 && p % 4 == 0 && pos < p
    ensures pos + 4 <= p
  {
    assert pos == 4 * (pos / 4) && p == 4 * (p / 4);
  }

  lemma Boundary4(pos: nat)
    requires pos % 4 == 0
    ensures (pos + 4) % 4 == 0
  {
  }

  /** A prefix of `result` made of two parts gives both parts back. */
  lemma PrefixParts(result: Bytes, out: Bytes, chunk: Bytes)
    requires |out| + |chunk| <= |result| && result[..|out| + |chunk|] == out + chunk
    ensures result[..|out|] == out && result[|out|..|out| + |chunk|] == chunk
  {
    assert result[..|out|] == (out + chunk)[..|out|];
    assert result[|out|..|out| + |chunk|] == (out + chunk)[|out|..];
  }

  lemma WordsOkStep(content: Bytes, relocations: IndexMap<Pointer, Relocation>, symbols: IndexMap<Bytes, Symbol>, pos: nat)
    requires pos % 4 == 0 && pos < |content|
    ensures WordsOkFrom(content, relocations, symbols, pos) <==>
      WordOk(content, relocations, symbols, pos) && WordsOkFrom(content, relocations, symbols, pos + 4)
  {
    forall p | pos < p && p % 4 == 0
      ensures pos + 4 <= p
    {
      NextBoundary(pos, p);
    }
  }

  lemma WordsLinkedStep(content: Bytes, relocations: IndexMap<Pointer, Relocation>, symbols: IndexMap<Bytes, Symbol>,
                        result: Bytes, pos: nat)
    requires pos % 4 == 0 && pos < |content| == |result|
    requires WordLinked(content, relocations, symbols, result, pos)
    requires WordsLinkedFrom(content, relocations, symbols, result, pos + 4)
    ensures WordsLinkedFrom(content, relocations, symbols, result, pos)
  {
    forall p | pos <= p < |content| && p % 4 == 0
      ensures WordLinked(content, relocations, symbols, result, p)
    {
      if p != pos {
        NextBoundary(pos, p);
      }
    }
  }

  /** A relocated word the loop gets past is linked, and the loop goes on
      four bytes later with the linked word written. */
  lemma LinkedFromRelocated(content: Bytes, relocations: IndexMap<Pointer, Relocation>, symbols: IndexMap<Bytes, Symbol>,
                            pos: nat, out: Bytes, rel: Relocation, result: Bytes)
    requires pos < |content| && pos <= U32_MAX && relocations.Get(Pointer(pos)) == Some(rel)
    requires LinkedFrom(content, relocations, symbols, pos, out) == Ok(result)
    ensures SymbolIndexOf(rel.info) < symbols.Len() && pos + 4 <= |content|
    ensures LinkedFrom(content, relocations, symbols, pos + 4, out + LinkedWord(symbols, rel).value) == Ok(result)
  {
  }

  /** An unrelocated word is copied, and the loop goes on after it. */
  lemma LinkedFromCopied(content: Bytes, relocations: IndexMap<Pointer, Relocation>, symbols: IndexMap<Bytes, Symbol>,
                         pos: nat, out: Bytes, result: Bytes)
    requires pos < |content| && pos <= U32_MAX && relocations.Get(Pointer(pos)).None?
    requires LinkedFrom(content, relocations, symbols, pos, out) == Ok(result)
    ensures LinkedFrom(content, relocations, symbols, WordEnd(content, pos), out + content[pos..WordEnd(content, pos)]) == Ok(result)
  {
  }

  /** The four bytes read at `pos` are zero exactly when the value read is. */
  lemma ZeroRead(content: Bytes, pos: nat, v: u32)
    requires Stream.U32At(content, pos) == Ok(v)
    ensures pos + 4 <= |content| && (v == 0 <==> content[pos..pos + 4] == Zeros(4))
  {
    U32ZeroIff(content[pos..pos + 4]);
    U32RoundTrip(v);
  }

  /** From a word boundary, the loop succeeds exactly when every word from
      there on links. */
  lemma {:induction false} LinkedFromOk(content: Bytes, relocations: IndexMap<Pointer, Relocation>, symbols: IndexMap<Bytes, Symbol>,
                                        pos: nat, out: Bytes)
    requires pos % 4 == 0
    ensures LinkedFrom(content, relocations, symbols, pos, out).Ok? <==> WordsOkFrom(content, relocations, symbols, pos)
    decreases |content| - pos
  {
    if pos < |content| {
      WordsOkStep(content, relocations, symbols, pos);
      if pos <= U32_MAX {
        match relocations.Get(Pointer(pos))
        case Some(rel) =>
          var word := LinkedWord(symbols, rel);
          var value := Stream.U32At(content, pos);
          if word.Ok? && value.Ok? {
            ZeroRead(content, pos, value.value);
            LinkedFromOk(content, relocations, symbols, pos + 4, out + word.value);
          }
        case None =>
          if WordEnd(content, pos) == pos + 4 {
            LinkedFromOk(content, relocations, symbols, pos + 4, out + content[pos..pos + 4]);
          }
      }
    }
  }

  /** What the loop outputs for the word at `pos`: the linked word of the
      relocation there, or else the input's bytes up to the word's end. */
  predicate ChunkAt(content: Bytes, relocations: IndexMap<Pointer, Relocation>, symbols: IndexMap<Bytes, Symbol>,
                    pos: nat, chunk: Bytes)
    requires pos < |content|
  {
    pos <= U32_MAX &&
    match relocations.Get(Pointer(pos))
    case None => chunk == content[pos..WordEnd(content, pos)]
    case Some(rel) =>
      SymbolIndexOf(rel.info) < symbols.Len() && pos + 4 <= |content| &&
      chunk == U32ToBE(OrDebugMark(symbols.entries[SymbolIndexOf(rel.info)].1.Offset()))
  }

  /** One turn of a successful loop: the chunk it writes for the word at
      `pos` and the loop it goes on with. */
  lemma LinkedStep(content: Bytes, relocations: IndexMap<Pointer, Relocation>, symbols: IndexMap<Bytes, Symbol>,
                   pos: nat, out: Bytes, result: Bytes) returns (chunk: Bytes)
    requires pos < |content| && LinkedFrom(content, relocations, symbols, pos, out) == Ok(result)
    ensures ChunkAt(content, relocations, symbols, pos, chunk)
    ensures |chunk| == WordEnd(content, pos) - pos
    ensures LinkedFrom(content, relocations, symbols, pos + |chunk|, out + chunk) == Ok(result)
  {
    assert pos <= U32_MAX;
    match relocations.Get(Pointer(pos)) {
      case Some(rel) =>
        LinkedFromRelocated(content, relocations, symbols, pos, out, rel, result);
        chunk := LinkedWord(symbols, rel).value;
      case None =>
        LinkedFromCopied(content, relocations, symbols, pos, out, result);
        chunk := content[pos..WordEnd(content, pos)];
    }
  }

  /** A chunk found in the output at its word makes that word linked. */
  lemma ChunkLinked(content: Bytes, relocations: IndexMap<Pointer, Relocation>, symbols: IndexMap<Bytes, Symbol>,
                    result: Bytes, pos: nat, chunk: Bytes)
    requires pos < |content| == |result| && ChunkAt(content, relocations, symbols, pos, chunk)
    requires pos + |chunk| <= |result| && result[pos..pos + |chunk|] == chunk
    ensures WordLinked(content, relocations, symbols, result, pos)
  {
  }

  /** From a word boundary with everything before it written, a successful
      loop keeps what was written, outputs as many bytes as it reads, and
      leaves each word from there on linked. */
  lemma {:induction false} LinkedFromShape(content: Bytes, relocations: IndexMap<Pointer, Relocation>, symbols: IndexMap<Bytes, Symbol>,
                                           pos: nat, out: Bytes, result: Bytes)
    requires pos % 4 == 0 && |out| == pos && pos <= |content|
    requires LinkedFrom(content, relocations, symbols, pos, out) == Ok(result)
    ensures |result| == |content| && result[..pos] == out
    ensures WordsLinkedFrom(content, relocations, symbols, result, pos)
    decreases |content| - pos
  {
    if pos < |content| {
      var chunk := LinkedStep(content, relocations, symbols, pos, out, result);
      var next := out + chunk;
      if |chunk| == 4 {
        Boundary4(pos);
        LinkedFromShape(content, relocations, symbols, pos + 4, next, result);
      } else {
        assert result[..|result|] == next;
      }
      PrefixParts(result, out, chunk);
      ChunkLinked(content, relocations, symbols, result, pos, chunk);
      WordsLinkedStep(content, relocations, symbols, result, pos);
    }
  }

  /** `get_section_linked` succeeds exactly when the section has no
      relocations or every word of it links. */
  lemma LinkedOk(section: Section, symbols: IndexMap<Bytes, Symbol>)
    ensures Linked(section, symbols).Ok? <==>
      section.relocations.None? ||
      forall p :: 0 <= p < |section.content| && p % 4 == 0 ==> WordOk(section.content, section.relocations.value, symbols, p)
  {
    if section.relocations.Some? {
      LinkedFromOk(section.content, section.relocations.value, symbols, 0, []);
    }
  }

  /** What it returns has the length of the section's content: the content
      itself without relocations, and otherwise each word linked. */
  lemma LinkedContent(section: Section, symbols: IndexMap<Bytes, Symbol>, result: Bytes)
    requires Linked(section, symbols) == Ok(result)
    ensures |result| == |section.content|
    ensures section.relocations.None? ==> result == section.content
    ensures section.relocations.Some? ==>
      forall p :: 0 <= p < |section.content| && p % 4 == 0 ==> WordLinked(section.content, section.relocations.value, symbols, result, p)
  {
    if section.relocations.Some? {
      LinkedFromShape(section.content, section.relocations.value, symbols, 0, [], result);
    }
  }
}
