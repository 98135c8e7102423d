/** The file handle DuckDB holds: positional reads, a sequential cursor, and the empty write-ahead
    log that stands in for the one a sleeping database does not have. */
module FlockFile {
  import opened Substrate
  import opened Paging
  import opened PageSources
  import opened ReadPath

  const I64_MAX: int := 0x7FFF_FFFF_FFFF_FFFF

  datatype IoError =
    | ReadFailed(at: int)
    | EndOfFile(short: nat, at: int)
    | EmptyLog

  /** The cast of an unsigned file position to a signed one. */
  function AsI64(x: U64): (r: int)
    ensures -I64_MAX - 1 <= r <= I64_MAX
    ensures r < 0 <==> I64_MAX < x
    ensures r == x || r == x - (U64_MAX + 1)
  {
    if x <= I64_MAX then x else x - U64_MAX - 1
  }

  /** `flock_vfs_pread`: -1 for a refusal, else the count of bytes read. */
  method Pread(source: PageSource, totalLen: U64, offset: int, buf: array<Byte>, lo: nat, len: nat)
    returns (n: int)
    requires source.Valid() && offset <= I64_MAX && lo + len <= buf.Length
    modifies buf, source
    ensures source.Valid()
    ensures offset < 0 ==> n == -1 && buf[..] == old(buf[..]) && source.asked == old(source.asked)
    ensures offset >= 0 ==>
      var out := ReadRange(source.answers, source.pageSize, totalLen, offset, len, |old(source.asked)|);
      && source.asked == old(source.asked) + out.faults
      && n == (if out.error.Some? then -1 else |out.bytes|)
      && |out.bytes| <= Clamp(totalLen, offset, len) <= len
      && (out.error.None? ==> |out.bytes| == Clamp(totalLen, offset, len))
      && buf[..] == old(buf[..lo]) + out.bytes + old(buf[lo + |out.bytes|..])
  {
    hide ReadRange;
    if offset < 0 {
      return -1;
    }
    ReadRangeIsSafe(source.answers, source.pageSize, totalLen, offset, len, |source.asked|);
    if len == 0 {
      EmptyRange(source.answers, source.pageSize, totalLen, offset, |source.asked|);
      return 0;
    }
    var r := ServeRead(source, null, totalLen, offset, buf, lo, len);
    if r.Err? {
      return -1;
    }
    return r.value;
  }

  lemma EmptyRange(src: Answers, pageSize: nat, totalLen: nat, offset: nat, asked: nat)
    ensures ReadRange(src, pageSize, totalLen, offset, 0, asked) == Outcome([], [], None)
  {
  }

  lemma PastTheEnd(src: Answers, pageSize: nat, totalLen: nat, offset: nat, len: nat, asked: nat)
    requires totalLen <= offset
    ensures ReadRange(src, pageSize, totalLen, offset, len, asked) == Outcome([], [], None)
  {
  }

  /** What a positional read of exactly `nrBytes` makes of the one range it asks for. */
  function ExactResult(out: Outcome, at: nat, nrBytes: nat): Result<(), IoError> {
    if out.error.Some? then Err(ReadFailed(at))
    else if |out.bytes| < nrBytes then Err(EndOfFile(nrBytes - |out.bytes|, at + |out.bytes|))
    else Ok(())
  }

  /** Against any source: the read succeeds exactly when nothing was refused and the whole request lies
      inside the file, and it has then all of it. It fails as refused exactly when the range was, and as
      an end of file exactly when it was not but the request runs past the end, saying how far it got. */
  lemma ExactResultIff(src: Answers, pageSize: nat, totalLen: U64, at: U64, nrBytes: nat, asked: nat)
    requires 0 < nrBytes
    ensures var out := ReadRange(src, pageSize, totalLen, at, nrBytes, asked);
      var r := ExactResult(out, at, nrBytes);
      var there := Clamp(totalLen, at, nrBytes);
      && (r == Ok(()) <==> out.error.None? && at + nrBytes <= totalLen)
      && (r == Ok(()) ==> |out.bytes| == nrBytes)
      && (r == Err(ReadFailed(at)) <==> out.error.Some?)
      && (r == Err(EndOfFile(nrBytes - there, at + there)) <==> out.error.None? && totalLen < at + nrBytes)
  {
    hide ReadRange;
    ReadRangeIsSafe(src, pageSize, totalLen, at, nrBytes, asked);
  }

  class Handle {
    const source: PageSource?
    const totalLen: U64
    var position: U64

    /** A handle on a length that does not fit a signed 64-bit value is never opened. */
    ghost predicate Valid()
      reads this, if source == null then {} else {source}
    {
      totalLen <= I64_MAX && (source != null ==> source.Valid())
    }

    constructor (source: PageSource?, totalLen: U64)
      requires totalLen <= I64_MAX && (source != null ==> source.Valid())
      ensures Valid() && this.source == source && this.totalLen == totalLen && position == 0
    {
      this.source := source;
      this.totalLen := totalLen;
      position := 0;
    }

    method Seek(location: U64)
      modifies this`position
      ensures position == location
    {
      position := location;
    }

    /** Fill `buf[lo..lo + nrBytes]` from `location`, or fail. The retry loop never helps: one range
        read is all or an end of file, and the second iteration only finds out which. */
    method ReadAt(buf: array<Byte>, lo: nat, nrBytes: nat, location: U64) returns (r: Result<(), IoError>)
      requires Valid() && lo + nrBytes <= buf.Length
      modifies buf, if source == null then {} else {source}
      ensures Valid()
      ensures source == null || nrBytes == 0 || AsI64(location) < 0 ==>
        && buf[..] == old(buf[..])
        && (source != null ==> source.asked == old(source.asked))
        && r == (if nrBytes == 0 then Ok(())
                 else if source == null then Err(EmptyLog)
                 else Err(ReadFailed(AsI64(location))))
      ensures source != null && nrBytes > 0 && AsI64(location) >= 0 ==>
        var out := ReadRange(source.answers, source.pageSize, totalLen, location, nrBytes, |old(source.asked)|);
        && r == ExactResult(out, location, nrBytes)
        && (r.Ok? <==> out.error.None? && location + nrBytes <= totalLen)
        && (r.Ok? ==> out.bytes == buf[lo..lo + nrBytes])
        && (r.Err? ==> r.error.ReadFailed? || r.error.EndOfFile?)
        && (r.Err? && r.error.ReadFailed? <==> out.error.Some?)
        && (r.Err? && r.error.EndOfFile? <==> out.error.None? && totalLen < location + nrBytes)
        && source.asked == old(source.asked) + out.faults
        && |out.bytes| <= nrBytes
        && buf[..] == old(buf[..lo]) + out.bytes + old(buf[lo + |out.bytes|..])
    {
      hide ReadRange;
      if source == null {
        return if nrBytes == 0 then Ok(()) else Err(EmptyLog);
      }
      var at := AsI64(location);
      if 0 <= at && 0 < nrBytes {
        ExactResultIff(source.answers, source.pageSize, totalLen, at, nrBytes, |source.asked|);
      }
      ghost var before, earlier := buf[..], source.asked;
      ghost var out := if at < 0 then Outcome([], [], None)
                       else ReadRange(source.answers, source.pageSize, totalLen, at, nrBytes, |earlier|);
      var filled := 0;
      while filled < nrBytes
        invariant 0 <= filled <= nrBytes && source.Valid()
        invariant filled == 0 ==> buf[..] == before && source.asked == earlier
        invariant filled > 0 ==>
          && at >= 0 && out.error.None? && filled == |out.bytes| == Clamp(totalLen, at, nrBytes)
          && source.asked == earlier + out.faults
          && buf[..] == before[..lo] + out.bytes + before[lo + filled..]
      {
        // The signed addition stays in range: a positive `filled` ends inside the file.
        assert -I64_MAX - 1 <= at + filled <= I64_MAX;
        if filled > 0 {
          PastTheEnd(source.answers, source.pageSize, totalLen, at + filled, nrBytes - filled, |source.asked|);
        }
        var n := Pread(source, totalLen, at + filled, buf, lo + filled, nrBytes - filled);
        if n < 0 {
          return Err(ReadFailed(at + filled));
        }
        if n == 0 {
          return Err(EndOfFile(nrBytes - filled, at + filled));
        }
        filled := filled + n;
      }
      return Ok(());
    }

    /** Read at the cursor and move it past what was read. A short read is not an error here. */
    method ReadNext(buf: array<Byte>, lo: nat, nrBytes: nat) returns (r: Result<nat, IoError>)
      requires Valid() && lo + nrBytes <= buf.Length
      modifies this`position, buf, if source == null then {} else {source}
      ensures Valid()
      ensures source == null ==> r == Ok(0) && position == old(position) && buf[..] == old(buf[..])
      ensures source != null && AsI64(old(position)) < 0 ==>
        && r == Err(ReadFailed(AsI64(old(position)))) && position == old(position)
        && buf[..] == old(buf[..]) && source.asked == old(source.asked)
      ensures source != null && AsI64(old(position)) >= 0 ==>
        var out := ReadRange(source.answers, source.pageSize, totalLen, old(position), nrBytes, |old(source.asked)|);
        && r == (if out.error.Some? then Err(ReadFailed(old(position))) else Ok(|out.bytes|))
        && position == CursorAfter(old(position), out)
        && (r.Ok? <==> out.error.None?)
        && (r.Ok? ==> r.value == |out.bytes| == Clamp(totalLen, old(position), nrBytes))
        && position == old(position) + (if r.Ok? then r.value else 0)
        && source.asked == old(source.asked) + out.faults
        && |out.bytes| <= nrBytes
        && buf[..] == old(buf[..lo]) + out.bytes + old(buf[lo + |out.bytes|..])
    {
      hide ReadRange;
      if source == null {
        return Ok(0);
      }
      var n := Pread(source, totalLen, AsI64(position), buf, lo, nrBytes);
      if n < 0 {
        return Err(ReadFailed(AsI64(position)));
      }
      position := position + n;
      return Ok(n);
    }
  }

  function CursorAfter(position: nat, out: Outcome): nat {
    if out.error.Some? then position else position + |out.bytes|
  }

  /** A positional read of a persisted file fills its request exactly when the whole request lies
      inside the file, and then with the file's own bytes. */
  lemma PositionalReadIsExact(src: Answers, cas: Cas, m: Manifest, file: Bytes, pageSize: nat, location: U64,
                              nrBytes: nat, asked: nat)
    requires 0 < pageSize && Addressed(cas) && Stored(cas, m) && |file| <= I64_MAX
    requires Resolve(m) == FileMap(Chunks(file, pageSize)) && Steady(src, PagesOf(cas, m))
    requires 0 < nrBytes
    ensures var out := ReadRange(src, pageSize, |file|, location, nrBytes, asked);
      && (ExactResult(out, location, nrBytes).Ok? <==> location + nrBytes <= |file|)
      && (location + nrBytes <= |file| ==> out.bytes == file[location..location + nrBytes])
      && (ExactResult(out, location, nrBytes).Err? ==>
            && ExactResult(out, location, nrBytes).error.EndOfFile?
            && (location <= |file| ==> ExactResult(out, location, nrBytes).error.at == |file|))
  {
    hide ReadRange, Resolve, Chunks, FileMap, Addressed, Stored, Steady, Hydrated;
    LazyRefinesEager(src, cas, m, file, pageSize, location, nrBytes, asked);
  }

  // ---- The cursor ----------------------------------------------------------------------------

  function Sum(lens: seq<nat>): nat {
    if lens == [] then 0 else lens[0] + Sum(lens[1..])
  }

  /** A run of sequential reads of the given lengths: everything they returned, end to end, and
      where the cursor ends. */
  function ReadAll(src: Answers, pageSize: nat, totalLen: nat, position: nat, lens: seq<nat>, asked: nat)
    : (Bytes, nat)
    decreases |lens|
  {
    if lens == [] then ([], position) else
      var out := ReadRange(src, pageSize, totalLen, position, lens[0], asked);
      var (later, end) := ReadAll(src, pageSize, totalLen, CursorAfter(position, out), lens[1..],
                                   asked + |out.faults|);
      (out.bytes + later, end)
  }

  /** One sequential read. */
  lemma NextRead(src: Answers, cas: Cas, m: Manifest, file: Bytes, pageSize: nat, position: U64, len: nat, asked: nat)
    requires 0 < pageSize && Addressed(cas) && Stored(cas, m) && |file| <= I64_MAX
    requires Resolve(m) == FileMap(Chunks(file, pageSize)) && Steady(src, PagesOf(cas, m))
    ensures var out := ReadRange(src, pageSize, |file|, position, len, asked);
      var next := CursorAfter(position, out);
      && out.error == None
      && next == (if position <= |file| then Min(|file|, position + len) else position)
      && out.bytes == (if position <= |file| then file[position..next] else [])
  {
    hide ReadRange, Resolve, Chunks, FileMap, Addressed, Stored, Steady, Hydrated;
    LazyRefinesEager(src, cas, m, file, pageSize, position, len, asked);
    if position > |file| {
      PastTheEnd(src, pageSize, |file|, position, len, asked);
    }
  }

  /** Successive reads join up: one contiguous slice of the file, whatever the lengths asked for. From a
      cursor at or past the end they return nothing and leave it there. */
  lemma {:induction false} SequentialReadsJoin(src: Answers, cas: Cas, m: Manifest, file: Bytes, pageSize: nat,
                                                position: U64, lens: seq<nat>, asked: nat)
    requires 0 < pageSize && Addressed(cas) && Stored(cas, m) && |file| <= I64_MAX
    requires Resolve(m) == FileMap(Chunks(file, pageSize)) && Steady(src, PagesOf(cas, m))
    ensures var (bytes, end) := ReadAll(src, pageSize, |file|, position, lens, asked);
      && end == (if position <= |file| then Min(|file|, position + Sum(lens)) else position)
      && bytes == (if position <= |file| then file[position..end] else [])
    decreases |lens|
  {
    hide ReadRange, Resolve, Chunks, FileMap, Addressed, Stored, Steady, CursorAfter;
    if lens != [] {
      NextRead(src, cas, m, file, pageSize, position, lens[0], asked);
      var out := ReadRange(src, pageSize, |file|, position, lens[0], asked);
      var next := CursorAfter(position, out);
      SequentialReadsJoin(src, cas, m, file, pageSize, next, lens[1..], asked + |out.faults|);
      if position <= |file| {
        SlicesJoin(file, position, next, Min(|file|, position + Sum(lens)));
      }
    }
  }

  lemma SlicesJoin(file: Bytes, a: nat, b: nat, c: nat)
    requires a <= b <= c <= |file|
    ensures file[a..b] + file[b..c] == file[a..c]
  {
  }
}
