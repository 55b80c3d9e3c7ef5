// The file types the tool converts, their names on the command line, and
// the per-type constants the ELF writer uses (`src/formats/mod.rs`).
module Formats {
  import opened Wrappers
  import opened Layouts

  datatype FileType = Maplink | MapId | Shop | Dispos
  {
    /** `Display`: the lower-case name, which `from_string` parses back. */
    function Name(): (r: string)
      ensures r in AllValues
      ensures FromString(r) == Some(this)
    {
      match this
      case Maplink => "maplink"
      case MapId => "mapid"
      case Shop => "shop"
      case Dispos => "dispos"
    }

    /** `content_section_name`: the section holding the tables. */
    function ContentSectionName(): (r: string)
      ensures r == ".data" <==> Dispos?
      ensures r != ".data" ==> r == ".rodata"
    {
      match this
      case Dispos => ".data"
      case _ => ".rodata"
    }
  }

  /** `ALL_VALUES`: every name the command line accepts. */
  const AllValues: seq<string> := ["maplink", "mapid", "shop", "dispos"]

  /** `from_string`: the type of a name in `ALL_VALUES`, nothing for any
      other string. */
  function FromString(s: string): (r: Option<FileType>)
    ensures r.Some? <==> s in AllValues
  {
    if s == "maplink" then Some(Maplink)
    else if s == "mapid" then Some(MapId)
    else if s == "shop" then Some(Shop)
    else if s == "dispos" then Some(Dispos)
    else None
  }

  /** Parsing a name and printing the type gives the name back, so the two
      are inverse bijections between `ALL_VALUES` and the file types. */
  lemma NameOfParsed(s: string)
    requires s in AllValues
    ensures FromString(s).Some? && FromString(s).value.Name() == s
  {
    var k :| 0 <= k < |AllValues| && AllValues[k] == s;
    assert k == 0 || k == 1 || k == 2 || k == 3;
  }

  /** The parsed contents of one file: the table entries of its type, as
      the layout readers give them. */
  datatype FileData =
    | MaplinkData(areas: seq<Value>)
    | MapIdData(groups: seq<Value>)
    | ShopData(shops: seq<Value>)
    | DisposData(dispos: seq<Value>)
  {
    function Type(): FileType
    {
      match this
      case MaplinkData(_) => Maplink
      case MapIdData(_) => MapId
      case ShopData(_) => Shop
      case DisposData(_) => Dispos
    }

    /** `cpp_file_name`: the source file name the symbol table records;
        unwritten (a panic) for dispos files. */
    function CppFileName(): (r: Result<string>)
      ensures r.Err? <==> Type() == Dispos
      ensures r.Err? ==> r.error == Panic
      ensures r.Ok? ==> r.value == "data_" + (if Type() == Shop then "" else "fld_") + Type().Name() + ".cpp"
    {
      match this
      case MaplinkData(_) => Ok("data_fld_maplink.cpp")
      case MapIdData(_) => Ok("data_fld_mapid.cpp")
      case ShopData(_) => Ok("data_shop.cpp")
      case DisposData(_) => Err(Panic)
    }

    /** `elf_ident_padding_unk`: 1 for maplink files, 0 otherwise. */
    function ElfIdentPaddingUnk(): (r: nat)
      ensures r == 1 <==> Type() == Maplink
      ensures r != 1 ==> r == 0
    {
      match this
      case MaplinkData(_) => 1
      case _ => 0
    }

    /** `string_dedup_size`: 0xa028 for mapid files, 0xc32c for all others. */
    function StringDedupSize(): (r: nat)
      ensures r == 0xa028 <==> Type() == MapId
      ensures r != 0xa028 ==> r == 0xc32c
    {
      match this
      case MaplinkData(_) => 0xc32c
      case MapIdData(_) => 0xa028
      case _ => 0xc32c
    }
  }
}
