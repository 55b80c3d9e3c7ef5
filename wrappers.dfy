// Option and Result types shared by every module of the model, and the
// error kinds the repository's fallible operations can end in.
module Wrappers {

  datatype Option<T> = None | Some(value: T)

  /** Why an operation failed.  Rust panics (slice out of range, `unwrap` on
      nothing, `assert_eq!`, an arithmetic overflow in a debug build, indexing
      a map with a missing key) are all `Panic`: the program stops there. */
  datatype Error =
    | UnexpectedEof            // a read ran past the end of the stream
    | NoNulTerminator          // `CStr::from_bytes_until_nul` found no NUL
    | InvalidUtf8              // `CStr::to_str` rejected the bytes
    | PositionOverflow         // a stream position does not fit a u32
    | NonZeroPointerWord       // a relocated pointer field did not hold 0
    | NullPointer              // a non-nullable pointer or string was absent
    | SymbolIndexOutOfRange    // `ELF32_R_SYM(info)` names no symbol
    | MissingSymbol            // `find_symbol` found no symbol of that name
    | MissingSection           // a required section is not there
    | SectionIndexOutOfRange   // a section symbol's `st_shndx` names no section
    | InvalidSectionType       // binrw met an `sh_type` outside 0..4
    | Panic

  datatype Result<T> = Ok(value: T) | Err(error: Error)
  {
    predicate IsFailure() { Err? }

    function PropagateFailure<U>(): Result<U>
      requires Err?
    {
      Err(error)
    }

    function Extract(): T
      requires Ok?
    {
      value
    }
  }
}
