// The string helper and the reader-position guard of the repository's
// utility module.
module Util {
  import opened Wrappers
  import opened Bytes
  import Stream

  predicate IsContinuation(b: u8) { 0x80 <= b < 0xC0 }

  /** Length of the well-formed UTF-8 encoding of one scalar value at the
      start of `s` (Unicode, table 3-7), or 0 when `s` does not start with
      one. */
  function Utf8CharLen(s: Bytes): (n: nat)
    ensures n <= 4 && n <= |s|
    ensures |s| > 0 && s[0] < 0x80 ==> n == 1
    ensures n == 1 ==> s[0] < 0x80
  {
    if |s| == 0 then 0
    else
      var b := s[0];
      if b < 0x80 then 1
      else if 0xC2 <= b <= 0xDF then
        if |s| >= 2 && IsContinuation(s[1]) then 2 else 0
      else if 0xE0 <= b <= 0xEF then
        var lo := if b == 0xE0 then 0xA0 else 0x80;
        var hi := if b == 0xED then 0x9F else 0xBF;
        if |s| >= 3 && lo <= s[1] <= hi && IsContinuation(s[2]) then 3 else 0
      else if 0xF0 <= b <= 0xF4 then
        var lo := if b == 0xF0 then 0x90 else 0x80;
        var hi := if b == 0xF4 then 0x8F else 0xBF;
        if |s| >= 4 && lo <= s[1] <= hi && IsContinuation(s[2]) && IsContinuation(s[3]) then 4 else 0
      else 0
  }

  /** `s` is a well-formed UTF-8 sequence, what `str::from_utf8` accepts. */
  predicate ValidUtf8(s: Bytes)
    decreases |s|
  {
    |s| == 0 || (Utf8CharLen(s) > 0 && ValidUtf8(s[Utf8CharLen(s)..]))
  }

  /** Every ASCII sequence is valid UTF-8. */
  lemma {:induction false} AsciiIsUtf8(s: Bytes)
    requires forall i :: 0 <= i < |s| ==> s[i] < 0x80
    ensures ValidUtf8(s)
  {
    if |s| > 0 {
      AsciiIsUtf8(s[1..]);
    }
  }

  /** Index of the first NUL byte of `s`. */
  function FirstNul(s: Bytes): (r: Option<nat>)
    ensures r.Some? ==> r.value < |s| && s[r.value] == 0
    ensures r.Some? ==> forall j :: 0 <= j < r.value ==> s[j] != 0
    ensures r.None? ==> forall j :: 0 <= j < |s| ==> s[j] != 0
  {
    if |s| == 0 then None
    else if s[0] == 0 then Some(0)
    else
      match FirstNul(s[1..])
      case None => None
      case Some(k) => Some(k + 1)
  }

  /** `read_string(buffer, index)`: the NUL-terminated UTF-8 string starting
      at `index`.  Slicing `buffer[index..]` panics for an index past the end,
      hence the precondition. */
  function ReadString(buffer: Bytes, index: nat): (r: Result<Bytes>)
    requires index <= |buffer|
    ensures r.Ok? || r == Err(NoNulTerminator) || r == Err(InvalidUtf8)
    ensures r == Err(NoNulTerminator) <==> forall j :: index <= j < |buffer| ==> buffer[j] != 0
    ensures r.Ok? ==> index + |r.value| < |buffer| && buffer[index + |r.value|] == 0
    ensures r.Ok? ==> r.value == buffer[index..index + |r.value|]
    ensures r.Ok? ==> (forall j :: 0 <= j < |r.value| ==> r.value[j] != 0) && ValidUtf8(r.value)
    ensures r == Err(InvalidUtf8) ==>
      exists k | index <= k < |buffer| ::
        buffer[k] == 0 && (forall j :: index <= j < k ==> buffer[j] != 0) && !ValidUtf8(buffer[index..k])
  {
    var bytes := buffer[index..];
    match FirstNul(bytes)
    case None =>
      assert forall j :: index <= j < |buffer| ==> buffer[j] == bytes[j - index];
      Err(NoNulTerminator)
    case Some(k) =>
      assert buffer[index + k] == bytes[k];
      if ValidUtf8(bytes[..k]) then
        assert bytes[..k] == buffer[index..index + k];
        Ok(bytes[..k])
      else
        assert bytes[..k] == buffer[index..index + k];
        assert forall j :: index <= j < index + k ==> buffer[j] == bytes[j - index];
        Err(InvalidUtf8)
  }

  /** `read_string` at an index taken from the file: an index past the end of
      the buffer is the out-of-range slice panic. */
  function ReadStringChecked(buffer: Bytes, index: nat): (r: Result<Bytes>)
    ensures index > |buffer| <==> r == Err(Panic)
    ensures index <= |buffer| ==> r == ReadString(buffer, index)
  {
    if index <= |buffer| then ReadString(buffer, index) else Err(Panic)
  }

  /** A string stored followed by its NUL reads back unchanged. */
  lemma ReadStringOfTerminated(s: Bytes, rest: Bytes)
    requires ValidUtf8(s) && forall j :: 0 <= j < |s| ==> s[j] != 0
    ensures ReadString(s + [0] + rest, 0) == Ok(s)
  {
    var buffer := s + [0] + rest;
    assert buffer[|s|] == 0 && buffer[..|s|] == s;
    assert forall j :: 0 <= j < |s| ==> buffer[j] == s[j];
  }

  /** The first NUL is at `k` when `s[k]` is NUL and nothing before it is. */
  lemma {:induction false} FirstNulAt(s: Bytes, k: nat)
    requires k < |s| && s[k] == 0 && forall j :: 0 <= j < k ==> s[j] != 0
    ensures FirstNul(s) == Some(k)
  {
    if k > 0 {
      FirstNulAt(s[1..], k - 1);
    }
  }

  /** A string stored at `index` and followed by a NUL reads back unchanged,
      whatever the buffer holds around it. */
  lemma ReadStringAt(buffer: Bytes, index: nat, s: Bytes)
    requires index + |s| < |buffer| && buffer[index..index + |s|] == s && buffer[index + |s|] == 0
    requires ValidUtf8(s) && forall j :: 0 <= j < |s| ==> s[j] != 0
    ensures ReadString(buffer, index) == Ok(s)
  {
    var bytes := buffer[index..];
    assert bytes[..|s|] == s;
    assert bytes[|s|] == 0;
    assert forall j :: 0 <= j < |s| ==> bytes[j] == s[j];
    FirstNulAt(bytes, |s|);
    assert ValidUtf8(bytes[..|s|]);
  }

  /** Appending to a buffer does not change a string that read in it. */
  lemma ReadStringExtends(buffer: Bytes, more: Bytes, index: nat)
    requires index <= |buffer| && ReadString(buffer, index).Ok?
    ensures ReadString(buffer + more, index) == ReadString(buffer, index)
  {
    var s := ReadString(buffer, index).value;
    var b2 := buffer + more;
    assert b2[index..index + |s|] == buffer[index..index + |s|];
    ReadStringAt(b2, index, s);
  }

  /** `ReaderGuard`: remembers the reader position when created and seeks
      back to it when dropped, whatever happened in between. */
  class ReaderGuard {
    const reader: Stream.Cursor
    const startPos: nat

    constructor (reader: Stream.Cursor)
      ensures this.reader == reader && startPos == reader.pos
    {
      this.reader := reader;
      startPos := reader.pos;
    }

    method Drop()
      modifies reader
      ensures reader.pos == startPos
    {
      reader.Seek(startPos);
    }
  }
}
