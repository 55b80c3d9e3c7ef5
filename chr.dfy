// The character table (`src/formats/chr.rs`): an NPC table and a map
// object table, each a count symbol that includes a trailing null entry
// and a table of pointers to definitions.
module ChrFormat {
  import opened Wrappers
  import opened Bytes
  import opened ElfRead
  import opened Layouts
  import Tables
  import Stream

  const NpcCountName: Bytes := Str("npcDataTableLen__Q2_4data3chr")
  const NpcTableName: Bytes := Str("npcDataTable__Q2_4data3chr")
  const MobjCountName: Bytes := Str("mobjDataTableLen__Q2_4data3chr")
  const MobjTableName: Bytes := Str("mobjDataTable__Q2_4data3chr")

  /** `NpcDef`: the id and description, the model pointer, then strings,
      optional strings and words (f32 fields kept as their bits). */
  const NpcDefCode: string := "SSPSWSOOOWOOOOOOOWOOWWWWWWOOOWOOOOOWWOOOWOW"
  /** `MobjDef`: the id and description, the model pointer, then a word,
      four strings, two words and an optional string. */
  const MobjDefCode: string := "SSPWSSSSWWO"

  /** `NpcDefPtr` and `MobjDefPtr`: a non-null pointer to the definition,
      read with the reader position restored afterwards. */
  const NpcDefPtrShape: Shape := Boxed(Flat(NpcDefCode))
  const MobjDefPtrShape: Shape := Boxed(Flat(MobjDefCode))

  /** An NPC definition is 0xac bytes with `field_0xN` at byte N, and its
      model pointer at byte 8. */
  lemma NpcDefLayout()
    ensures Sized(Flat(NpcDefCode)) && Size(Flat(NpcDefCode)) == 0xac
    ensures forall k :: 0 <= k < 43 ==> FieldOffset(Flat(NpcDefCode).fields, k) == 4 * k
    ensures Flat(NpcDefCode).fields[2] == Field(PointerKind)
  {
    FlatLayout(NpcDefCode);
    assert NpcDefCode[2] == 'P';
  }

  /** A map object definition is 0x2c bytes with `field_0xN` at byte N,
      its model pointer at byte 8 and its optional string at 0x28. */
  lemma MobjDefLayout()
    ensures Sized(Flat(MobjDefCode)) && Size(Flat(MobjDefCode)) == 0x2c
    ensures forall k :: 0 <= k < 11 ==> FieldOffset(Flat(MobjDefCode).fields, k) == 4 * k
    ensures Flat(MobjDefCode).fields[2] == Field(PointerKind)
    ensures Flat(MobjDefCode).fields[0x28 / 4] == Field(OptStringKind)
  {
    FlatLayout(MobjDefCode);
    assert MobjDefCode[2] == 'P' && MobjDefCode[10] == 'O';
  }

  /** A definition pointer takes up 4 bytes in its table; it reads the
      definition at its target and fails like `read_pointer` on a null or
      unrelocated word. */
  lemma DefPtrRead(d: ElfReadDomain, data: Bytes, pos: nat, code: string)
    requires |code| > 0
    ensures Sized(Boxed(Flat(code))) && Size(Boxed(Flat(code))) == 4
    ensures var r := ReadValue(d, data, pos, Boxed(Flat(code)));
      var p := PointerAt(d, data, pos);
      && (p.Err? ==> r == Err(p.error))
      && (p.Ok? ==> r == ReadValue(d, data, p.value.value as nat, Flat(code)))
  {
    FlatLayout(code);
  }

  /** `ChrData`: the two tables that are read, and the five tables that are
      not yet understood, each the placeholder `"TODO"`. */
  datatype ChrData = ChrData(
    models: string, kusyaModels: string, painkyModels: string,
    npcData: seq<Value>, mobjData: seq<Value>,
    playerData: string, partyData: string)

  const Placeholder: string := "TODO"

  /** `read_chr`: the NPC table, then the map object table, each with one
      entry fewer than its count; the first error ends the read. */
  method ReadChr(d: ElfReadDomain, reader: Stream.Cursor) returns (r: Result<ChrData>)
    modifies reader
    ensures Sized(NpcDefPtrShape) && Sized(MobjDefPtrShape)
    ensures var npcs := Tables.TableAt(d, reader.data, NpcCountName, NpcTableName, true, NpcDefPtrShape);
      var mobjs := Tables.TableAt(d, reader.data, MobjCountName, MobjTableName, true, MobjDefPtrShape);
      && (r.Ok? <==> npcs.Ok? && mobjs.Ok?)
      && (npcs.Err? ==> r == Err(npcs.error))
      && (npcs.Ok? && mobjs.Err? ==> r == Err(mobjs.error))
      && (r.Ok? ==> r.value.npcData == npcs.value && r.value.mobjData == mobjs.value)
    ensures r.Ok? ==>
      && Tables.CountAt(d, reader.data, NpcCountName) == Ok(|r.value.npcData| + 1)
      && Tables.CountAt(d, reader.data, MobjCountName) == Ok(|r.value.mobjData| + 1)
    ensures r.Ok? ==>
      && r.value.models == r.value.kusyaModels == r.value.painkyModels == Placeholder
      && r.value.playerData == r.value.partyData == Placeholder
    ensures NpcCountName !in d.symbols.Keys() ==> r == Err(MissingSymbol)
  {
    NpcDefLayout();
    MobjDefLayout();
    var npcs := Tables.ReadTable(d, reader, NpcCountName, NpcTableName, true, NpcDefPtrShape);
    if npcs.Err? {
      return Err(npcs.error);
    }
    var mobjs := Tables.ReadTable(d, reader, MobjCountName, MobjTableName, true, MobjDefPtrShape);
    if mobjs.Err? {
      return Err(mobjs.error);
    }
    r := Ok(ChrData(Placeholder, Placeholder, Placeholder, npcs.value, mobjs.value, Placeholder, Placeholder));
  }
}
