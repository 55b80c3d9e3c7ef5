// The `std::io::Cursor` streams the repository reads from and writes to:
// a reader over an immutable byte buffer with a movable position, and a
// writer over a growable buffer whose writes overwrite or extend it.
module Stream {
  import opened Wrappers
  import opened Bytes

  /** `read_exact` of `n` bytes at position `pos`. */
  function ReadAt(data: Bytes, pos: nat, n: nat): (r: Result<Bytes>)
    ensures r.Ok? <==> pos + n <= |data|
    ensures r.Ok? ==> r.value == data[pos..pos + n]
    ensures r.Err? ==> r.error == UnexpectedEof
  {
    if pos + n <= |data| then Ok(data[pos..pos + n]) else Err(UnexpectedEof)
  }

  /** `n` records read one after the other, record `k` by `read(k)`;
      the first failing read ends the loop with its error. */
  function ReadEach<T>(read: nat -> Result<T>, n: nat): (r: Result<seq<T>>)
    ensures r.Ok? ==> |r.value| == n
  {
    if n == 0 then Ok([])
    else
      var prev :- ReadEach(read, n - 1);
      var x :- read(n - 1);
      Ok(prev + [x])
  }

  /** One more successful read extends the result. */
  lemma ReadEachNext<T>(read: nat -> Result<T>, i: nat, prev: seq<T>, x: T)
    requires ReadEach(read, i) == Ok(prev) && read(i) == Ok(x)
    ensures ReadEach(read, i + 1) == Ok(prev + [x])
  {
  }

  /** Once the loop has failed, reading further records keeps the error. */
  lemma {:induction false} ReadEachErrLater<T>(read: nat -> Result<T>, m: nat, n: nat)
    requires m <= n && ReadEach(read, m).Err?
    ensures ReadEach(read, n) == ReadEach(read, m)
  {
    if m < n {
      ReadEachErrLater(read, m, n - 1);
    }
  }

  /** A failing read ends the loop with its error. */
  lemma ReadEachStop<T>(read: nat -> Result<T>, i: nat, n: nat)
    requires i < n && ReadEach(read, i).Ok? && read(i).Err?
    ensures ReadEach(read, n) == Err(read(i).error)
  {
    ReadEachErrLater(read, i + 1, n);
  }

  /** Record `k` of a successful loop is what `read(k)` gave. */
  lemma {:induction false} ReadEachAt<T>(read: nat -> Result<T>, n: nat, k: nat)
    requires ReadEach(read, n).Ok? && k < n
    ensures read(k) == Ok(ReadEach(read, n).value[k])
  {
    if k < n - 1 {
      ReadEachAt(read, n - 1, k);
    }
  }

  /** The loop succeeds exactly when every read does. */
  lemma {:induction false} ReadEachOk<T>(read: nat -> Result<T>, n: nat)
    ensures ReadEach(read, n).Ok? <==> forall k :: 0 <= k < n ==> read(k).Ok?
  {
    if n > 0 {
      ReadEachOk(read, n - 1);
    }
  }

  /** Reads that give `xs` one by one make the loop give `xs`. */
  lemma {:induction false} ReadEachOf<T>(read: nat -> Result<T>, n: nat, xs: seq<T>)
    requires |xs| == n && forall k :: 0 <= k < n ==> read(k) == Ok(xs[k])
    ensures ReadEach(read, n) == Ok(xs)
  {
    if n > 0 {
      ReadEachOf(read, n - 1, xs[..n - 1]);
      assert xs == xs[..n - 1] + [xs[n - 1]];
    }
  }

  /** Where record `k` of records `stride` bytes apart from `base` starts. */
  function RecordPos(base: nat, stride: nat, k: nat): nat
  {
    base + stride * k
  }

  lemma RecordPosNext(base: nat, stride: nat, k: nat)
    ensures RecordPos(base, stride, k) + stride == RecordPos(base, stride, k + 1)
  {
  }

  /** Records one after the other from `base`, `stride` bytes apart. */
  function Strided<T>(readAt: nat -> Result<T>, base: nat, stride: nat): nat -> Result<T>
  {
    (k: nat) => readAt(RecordPos(base, stride, k))
  }

  /** Every record that reads at `p` ends within the first `limit` bytes. */
  ghost predicate ReadsWithin<T>(readAt: nat -> Result<T>, stride: nat, limit: nat)
  {
    forall p: nat :: readAt(p).Ok? ==> p + stride <= limit
  }

  /** Records read at `pos`, `pos + stride`, ... up to the first that equals
      `stop`, which ends the list and is not part of it; the first failing
      read ends it with its error. */
  function ReadUntil<T(==)>(readAt: nat -> Result<T>, stop: T, stride: nat, limit: nat, pos: nat): (r: Result<seq<T>>)
    requires stride > 0 && ReadsWithin(readAt, stride, limit)
    decreases limit - pos
  {
    var x :- readAt(pos);
    if x == stop then Ok([])
    else
      var rest :- ReadUntil(readAt, stop, stride, limit, pos + stride);
      Ok([x] + rest)
  }

  /** `prefix` in front of the records of a list that reads. */
  function Prepend<T>(prefix: seq<T>, r: Result<seq<T>>): (p: Result<seq<T>>)
    ensures p.Ok? <==> r.Ok?
    ensures p.Ok? ==> |p.value| == |prefix| + |r.value| && p.value[..|prefix|] == prefix && p.value[|prefix|..] == r.value
    ensures r.Err? ==> p == r
  {
    var rest :- r;
    Ok(prefix + rest)
  }

  /** One step of the loop that reads a list up to `stop`: a record that is
      not `stop` joins the records read so far. */
  lemma ReadUntilNext<T>(readAt: nat -> Result<T>, stop: T, stride: nat, limit: nat, start: nat, pos: nat, items: seq<T>, x: T, next: nat)
    requires stride > 0 && ReadsWithin(readAt, stride, limit)
    requires ReadUntil(readAt, stop, stride, limit, start) == Prepend(items, ReadUntil(readAt, stop, stride, limit, pos))
    requires readAt(pos) == Ok(x) && x != stop && next == pos + stride
    ensures ReadUntil(readAt, stop, stride, limit, start) == Prepend(items + [x], ReadUntil(readAt, stop, stride, limit, next))
  {
    var r := ReadUntil(readAt, stop, stride, limit, next);
    if r.Ok? {
      assert items + ([x] + r.value) == (items + [x]) + r.value;
    }
  }

  /** The loop's last step: the `stop` record ends the list. */
  lemma ReadUntilDone<T>(readAt: nat -> Result<T>, stop: T, stride: nat, limit: nat, start: nat, pos: nat, items: seq<T>)
    requires stride > 0 && ReadsWithin(readAt, stride, limit)
    requires ReadUntil(readAt, stop, stride, limit, start) == Prepend(items, ReadUntil(readAt, stop, stride, limit, pos))
    requires readAt(pos) == Ok(stop)
    ensures ReadUntil(readAt, stop, stride, limit, start) == Ok(items)
  {
    assert items + [] == items;
  }

  /** From record `j` of a list that ended at `stop`: the records read, none
      of them `stop`, and then `stop`. */
  lemma {:induction false} ReadUntilItemsFrom<T>(readAt: nat -> Result<T>, stop: T, stride: nat, limit: nat, base: nat, j: nat)
    requires stride > 0 && ReadsWithin(readAt, stride, limit)
    requires ReadUntil(readAt, stop, stride, limit, RecordPos(base, stride, j)).Ok?
    ensures var items := ReadUntil(readAt, stop, stride, limit, RecordPos(base, stride, j)).value;
      && (forall k :: 0 <= k < |items| ==> readAt(RecordPos(base, stride, j + k)) == Ok(items[k]) && items[k] != stop)
      && readAt(RecordPos(base, stride, j + |items|)) == Ok(stop)
    decreases limit - RecordPos(base, stride, j)
  {
    var p := RecordPos(base, stride, j);
    var items := ReadUntil(readAt, stop, stride, limit, p).value;
    var x := readAt(p).value;
    if x != stop {
      assert p + stride == RecordPos(base, stride, j + 1);
      ReadUntilItemsFrom(readAt, stop, stride, limit, base, j + 1);
      var rest := ReadUntil(readAt, stop, stride, limit, RecordPos(base, stride, j + 1)).value;
      assert items == [x] + rest;
      forall k | 1 <= k < |items|
        ensures readAt(RecordPos(base, stride, j + k)) == Ok(items[k]) && items[k] != stop
      {
        assert items[k] == rest[k - 1] && j + k == (j + 1) + (k - 1);
      }
      assert j + |items| == (j + 1) + |rest|;
    }
  }

  /** The records of a list that ended at `stop`, one stride apart, and
      the `stop` record after them. */
  lemma ReadUntilItems<T>(readAt: nat -> Result<T>, stop: T, stride: nat, limit: nat, pos: nat)
    requires stride > 0 && ReadsWithin(readAt, stride, limit)
    requires ReadUntil(readAt, stop, stride, limit, pos).Ok?
    ensures var items := ReadUntil(readAt, stop, stride, limit, pos).value;
      && (forall k :: 0 <= k < |items| ==> readAt(RecordPos(pos, stride, k)) == Ok(items[k]) && items[k] != stop)
      && readAt(RecordPos(pos, stride, |items|)) == Ok(stop)
  {
    assert RecordPos(pos, stride, 0) == pos;
    ReadUntilItemsFrom(readAt, stop, stride, limit, pos, 0);
    var items := ReadUntil(readAt, stop, stride, limit, pos).value;
    forall k | 0 <= k < |items|
      ensures readAt(RecordPos(pos, stride, k)) == Ok(items[k]) && items[k] != stop
    {
      assert 0 + k == k;
    }
    assert 0 + |items| == |items|;
  }

  /** From record `j` on, records that are not `stop` followed by `stop`
      read back as those records. */
  lemma {:induction false} ReadUntilOfFrom<T>(readAt: nat -> Result<T>, stop: T, stride: nat, limit: nat, base: nat, items: seq<T>, j: nat)
    requires stride > 0 && ReadsWithin(readAt, stride, limit) && j <= |items|
    requires forall k :: 0 <= k < |items| ==> readAt(RecordPos(base, stride, k)) == Ok(items[k]) && items[k] != stop
    requires readAt(RecordPos(base, stride, |items|)) == Ok(stop)
    ensures ReadUntil(readAt, stop, stride, limit, RecordPos(base, stride, j)) == Ok(items[j..])
    decreases |items| - j
  {
    if j < |items| {
      assert RecordPos(base, stride, j) + stride == RecordPos(base, stride, j + 1);
      ReadUntilOfFrom(readAt, stop, stride, limit, base, items, j + 1);
      assert items[j..] == [items[j]] + items[j + 1..];
    }
  }

  /** Records that are not `stop`, one stride apart and followed by `stop`,
      read back as exactly those records. */
  lemma ReadUntilOf<T>(readAt: nat -> Result<T>, stop: T, stride: nat, limit: nat, pos: nat, items: seq<T>)
    requires stride > 0 && ReadsWithin(readAt, stride, limit)
    requires forall k :: 0 <= k < |items| ==> readAt(RecordPos(pos, stride, k)) == Ok(items[k]) && items[k] != stop
    requires readAt(RecordPos(pos, stride, |items|)) == Ok(stop)
    ensures ReadUntil(readAt, stop, stride, limit, pos) == Ok(items)
  {
    assert RecordPos(pos, stride, 0) == pos;
    ReadUntilOfFrom(readAt, stop, stride, limit, pos, items, 0);
    assert items[0..] == items;
  }

  /** A big-endian u32 read at `pos`. */
  function U32At(data: Bytes, pos: nat): (r: Result<u32>)
    ensures r.Ok? <==> pos + 4 <= |data|
    ensures r.Ok? ==> U32ToBE(r.value) == data[pos..pos + 4]
    ensures r.Err? ==> r.error == UnexpectedEof
  {
    if pos + 4 <= |data| then
      U32BytesRoundTrip(data[pos..pos + 4]);
      Ok(BEToU32(data[pos..pos + 4]))
    else Err(UnexpectedEof)
  }

  /** Reading a u32 back from its own encoding gives the value. */
  lemma U32AtEncoding(data: Bytes, pos: nat, x: u32)
    requires pos + 4 <= |data| && data[pos..pos + 4] == U32ToBE(x)
    ensures U32At(data, pos) == Ok(x)
  {
    U32RoundTrip(x);
  }

  /** A reader: `Cursor<&[u8]>`. */
  class Cursor {
    const data: Bytes
    var pos: nat

    constructor (data: Bytes)
      ensures this.data == data && pos == 0
    {
      this.data := data;
      pos := 0;
    }

    /** `seek(SeekFrom::Start(p))` / `set_position(p)`. */
    method Seek(p: nat)
      modifies this
      ensures pos == p
    {
      pos := p;
    }

    method ReadExact(n: nat) returns (r: Result<Bytes>)
      modifies this
      ensures r == ReadAt(data, old(pos), n)
      ensures r.Ok? ==> pos == old(pos) + n
    {
      r := ReadAt(data, pos, n);
      if r.Ok? {
        pos := pos + n;
      } else {
        pos := if pos < |data| then |data| else pos;
      }
    }

    method ReadU32() returns (r: Result<u32>)
      modifies this
      ensures r == U32At(data, old(pos))
      ensures r.Ok? ==> pos == old(pos) + 4
    {
      var b := ReadExact(4);
      match b
      case Err(e) => r := Err(e);
      case Ok(bytes) => r := U32At(data, pos - 4);
    }
  }

  /** Writing `b` at `pos` into `buf`, as `Cursor<Vec<u8>>` does: bytes under
      the write are replaced, the buffer grows when the write runs past its
      end, and a gap before `pos` is filled with zeros. */
  function Overwrite(buf: Bytes, pos: nat, b: Bytes): (r: Bytes)
    ensures |r| == if pos + |b| <= |buf| then |buf| else pos + |b|
    ensures r[pos..pos + |b|] == b
    ensures forall i :: 0 <= i < pos && i < |buf| ==> r[i] == buf[i]
    ensures forall i :: |buf| <= i < pos ==> r[i] == 0
    ensures forall i :: pos + |b| <= i < |buf| ==> r[i] == buf[i]
  {
    var base := if pos <= |buf| then buf else buf + Zeros(pos - |buf|);
    if pos + |b| <= |base| then base[..pos] + b + base[pos + |b|..] else base[..pos] + b
  }

  /** A write at the end of the buffer is an append. */
  lemma OverwriteAtEnd(buf: Bytes, b: Bytes)
    ensures Overwrite(buf, |buf|, b) == buf + b
  {
  }

  /** A writer: `Cursor<Vec<u8>>`. */
  class ByteWriter {
    var buf: Bytes
    var pos: nat

    constructor ()
      ensures buf == [] && pos == 0
    {
      buf := [];
      pos := 0;
    }

    method Write(b: Bytes)
      modifies this
      ensures buf == Overwrite(old(buf), old(pos), b)
      ensures pos == old(pos) + |b|
    {
      buf := Overwrite(buf, pos, b);
      pos := pos + |b|;
    }

    method SetPosition(p: nat)
      modifies this
      ensures pos == p && buf == old(buf)
    {
      pos := p;
    }

    method WriteU32(x: u32)
      modifies this
      ensures buf == Overwrite(old(buf), old(pos), U32ToBE(x))
      ensures pos == old(pos) + 4
    {
      Write(U32ToBE(x));
    }

    /** vivibin's `align_to(writer, n)`: zero bytes up to a multiple of `n`. */
    method AlignTo(n: nat)
      modifies this
      ensures buf == Overwrite(old(buf), old(pos), Zeros(Padding(old(pos), n)))
      ensures pos == old(pos) + Padding(old(pos), n)
      ensures n > 1 ==> pos % n == 0
    {
      Write(Zeros(Padding(pos, n)));
    }
  }
}
