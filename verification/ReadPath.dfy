/** The read boundary: a byte range of a virtual file becomes page faults, and the bytes come back. */
module ReadPath {
  import opened Substrate
  import opened Arith
  import opened Paging
  import opened PageSources

  const U64_MAX: nat := 0xFFFF_FFFF_FFFF_FFFF

  type U64 = x: nat | x <= U64_MAX

  datatype VfsError =
    | ZeroPageSize
    | OffsetOverflow(offset: nat)
    | OversizePage(pageNo: PageNo, pageLen: nat, pageSize: nat)
    | ShortPage(pageNo: PageNo, neededOffset: nat, pageLen: nat)
    | Fault(pageNo: PageNo)

  /** What one read did: the bytes it put in the buffer, the pages it faulted in order, and why it
      stopped early, if it did. */
  datatype Outcome = Outcome(bytes: Bytes, faults: seq<PageNo>, error: Option<VfsError>)

  function Min(a: nat, b: nat): nat {
    if a < b then a else b
  }

  /** Where byte `pos` of the file lives: on this page, this far in. */
  function PageOf(pos: nat, pageSize: nat): PageNo
    requires 0 < pageSize
  {
    pos / pageSize
  }

  function OffsetIn(pos: nat, pageSize: nat): nat
    requires 0 < pageSize
  {
    pos % pageSize
  }

  /** What one faulted page contributes, from `pageOff` on and no more than is `needed`. */
  function Piece(answer: Option<Bytes>, pageSize: nat, pageNo: PageNo, pageOff: nat, needed: nat)
    : (piece: Result<Bytes, VfsError>)
    requires 0 < needed
    ensures piece.Ok? ==> 0 < |piece.value| <= needed
    ensures piece.Err? ==> !piece.error.OffsetOverflow?
  {
    if answer.None? then Err(Fault(pageNo))
    else if |answer.value| > pageSize then Err(OversizePage(pageNo, |answer.value|, pageSize))
    else if pageOff >= |answer.value| then Err(ShortPage(pageNo, pageOff, |answer.value|))
    else Ok(answer.value[pageOff..pageOff + Min(|answer.value| - pageOff, needed)])
  }

  /** The loop, from `done` bytes in and after `asked` faults. */
  function Serve(src: Answers, pageSize: nat, offset: nat, done: nat, want: nat, asked: nat): Outcome
    requires 0 < pageSize && done <= want
    decreases want - done
  {
    if done == want then Outcome([], [], None)
    else if offset + done > U64_MAX then Outcome([], [], Some(OffsetOverflow(offset)))
    else
      var pageNo, pageOff := PageOf(offset + done, pageSize), OffsetIn(offset + done, pageSize);
      var piece := Piece(src(asked, pageNo), pageSize, pageNo, pageOff, want - done);
      if piece.Err? then Outcome([], [pageNo], Some(piece.error))
      else
        var rest := Serve(src, pageSize, offset, done + |piece.value|, want, asked + 1);
        Outcome(piece.value + rest.bytes, [pageNo] + rest.faults, rest.error)
  }

  /** How many bytes a request is clamped to. */
  function Clamp(totalLen: nat, offset: nat, len: nat): nat {
    if offset >= totalLen then 0 else Min(totalLen - offset, len)
  }

  function ReadRange(src: Answers, pageSize: nat, totalLen: nat, offset: nat, len: nat, asked: nat): Outcome {
    var want := Clamp(totalLen, offset, len);
    if want == 0 then Outcome([], [], None)
    else if pageSize == 0 then Outcome([], [], Some(ZeroPageSize))
    else Serve(src, pageSize, offset, 0, want, asked)
  }

  /** Serve `[offset, offset + len)` into `buf[lo..lo + len]`, through the recorder if there is one. The
      buffer changes only where bytes were served, and the count returned is the number of bytes
      written. */
  method ServeRead(src: PageSource, rec: RecordingSource?, totalLen: U64, offset: U64, buf: array<Byte>, lo: nat,
                   len: nat)
    returns (r: Result<nat, VfsError>)
    requires src.Valid() && (rec != null ==> rec.inner == src)
    requires lo + len <= buf.Length
    modifies buf, src, if rec == null then {} else {rec}
    ensures src.Valid()
    ensures var out := ReadRange(src.answers, src.pageSize, totalLen, offset, len, |old(src.asked)|);
      && src.asked == old(src.asked) + out.faults
      && (rec != null ==> rec.recorded == old(rec.recorded) + out.faults)
      && |out.bytes| <= Clamp(totalLen, offset, len) <= len
      && buf[..] == old(buf[..lo]) + out.bytes + old(buf[lo + |out.bytes|..])
      && r == (if out.error.Some? then Err(out.error.value) else Ok(Clamp(totalLen, offset, len)))
      && (r.Ok? ==> |out.bytes| == r.value)
  {
    if offset >= totalLen {
      return Ok(0);
    }
    var remaining := totalLen - offset;
    var want := Min(remaining, len);
    if want == 0 {
      return Ok(0);
    }
    if src.pageSize == 0 {
      return Err(ZeroPageSize);
    }
    r := FillBuffer(src, rec, offset, want, buf, lo);
  }

  method FillBuffer(src: PageSource, rec: RecordingSource?, offset: U64, want: nat, buf: array<Byte>, lo: nat)
    returns (r: Result<nat, VfsError>)
    requires src.Valid() && (rec != null ==> rec.inner == src)
    requires 0 < src.pageSize && lo + want <= buf.Length
    modifies buf, src, if rec == null then {} else {rec}
    ensures src.Valid()
    ensures var out := Serve(src.answers, src.pageSize, offset, 0, want, |old(src.asked)|);
      && src.asked == old(src.asked) + out.faults
      && (rec != null ==> rec.recorded == old(rec.recorded) + out.faults)
      && |out.bytes| <= want
      && buf[..] == old(buf[..lo]) + out.bytes + old(buf[lo + |out.bytes|..])
      && r == (if out.error.Some? then Err(out.error.value) else Ok(want))
      && (r.Ok? ==> |out.bytes| == want)
  {
    hide Serve, Piece, PageOf, OffsetIn, Filled, Remaining, CacheAfter;
    ghost var before, earlier := buf[..], src.asked;
    ghost var recorded := if rec == null then [] else rec.recorded;
    ghost var out := Serve(src.answers, src.pageSize, offset, 0, want, |earlier|);
    ServeBounded(src.answers, src.pageSize, offset, 0, want, |earlier|);
    ghost var rest, faults := out, [];
    var done;
    r, done, rest, faults := FillLoop(src, rec, offset, want, buf, lo, out);
    AllDone(before, lo, out, done, faults, rest, buf[..]);
  }

  /** The loop. Its ghost results say what was served, what was faulted and what was left when it ended. */
  method FillLoop(src: PageSource, rec: RecordingSource?, offset: U64, want: nat, buf: array<Byte>, lo: nat,
                  ghost out: Outcome)
    returns (r: Result<nat, VfsError>, done: nat, ghost rest: Outcome, ghost faults: seq<PageNo>)
    requires src.Valid() && (rec != null ==> rec.inner == src)
    requires 0 < src.pageSize && lo + want <= buf.Length && |out.bytes| <= want
    requires out == Serve(src.answers, src.pageSize, offset, 0, want, |src.asked|)
    modifies buf, src, if rec == null then {} else {rec}
    ensures src.Valid() && src.asked == old(src.asked) + faults + rest.faults
    ensures rec != null ==> rec.recorded == old(rec.recorded) + faults + rest.faults
    ensures Remaining(out, done, faults, rest) && rest.bytes == []
    ensures Filled(old(buf[..]), lo, out.bytes, done, buf[..])
    ensures r == if rest.error.Some? then Err(rest.error.value) else Ok(want)
    ensures rest.error.None? ==> done == want
  {
    hide Serve, Piece, PageOf, OffsetIn, Filled, Remaining, CacheAfter;
    var pageSize := src.pageSize;
    ghost var before, earlier := buf[..], |src.asked|;
    done, rest, faults := 0, out, [];
    NothingDone(before, lo, out);
    while done < want
      invariant 0 <= done <= want
      invariant src.Valid() && src.asked == old(src.asked) + faults
      invariant rec != null ==> rec.recorded == old(rec.recorded) + faults
      invariant rest == Serve(src.answers, pageSize, offset, done, want, earlier + |faults|)
      invariant Remaining(out, done, faults, rest)
      invariant Filled(before, lo, out.bytes, done, buf[..])
    {
      ServeStep(src.answers, pageSize, offset, done, want, earlier + |faults|);
      if offset + done > U64_MAX {
        return Err(OffsetOverflow(offset)), done, rest, faults;
      }
      var filePos := offset + done;
      ghost var pageNo := PageOf(filePos, pageSize);
      ghost var piece := Piece(src.answers(earlier + |faults|, pageNo), pageSize, pageNo, OffsetIn(filePos, pageSize),
                               want - done);
      ghost var was := buf[..];
      var taken := ServeOne(src, rec, filePos, want - done, buf, lo + done);
      if taken.Err? {
        return Err(taken.error), done, rest, faults;
      }
      ghost var later := Serve(src.answers, pageSize, offset, done + taken.value, want, earlier + |faults| + 1);
      RemainingNext(out, done, faults, rest, pageNo, piece.value, later);
      FilledNext(before, lo, out, done, faults, rest, piece.value, later, was, buf[..]);
      Snoc(old(src.asked), faults, pageNo);
      if rec != null {
        Snoc(old(rec.recorded), faults, pageNo);
      }
      done, rest, faults := done + taken.value, later, faults + [pageNo];
    }
    ServeEnd(src.answers, pageSize, offset, want, earlier + |faults|);
    return Ok(done), done, rest, faults;
  }

  lemma Snoc<T>(a: seq<T>, b: seq<T>, x: T)
    ensures a + b + [x] == a + (b + [x])
  {
  }

  /** The buffer holds the first `done` bytes of the outcome, and is otherwise as it was. */
  ghost predicate Filled(before: Bytes, lo: nat, out: Bytes, done: nat, now: Bytes) {
    && done <= |out| && lo + |out| <= |before|
    && now == before[..lo] + out[..done] + before[lo + done..]
  }

  /** `rest` is what is still to come of `out` after `done` bytes and `faults`. */
  ghost predicate Remaining(out: Outcome, done: nat, faults: seq<PageNo>, rest: Outcome) {
    && done <= |out.bytes|
    && rest.error == out.error
    && faults + rest.faults == out.faults
    && rest.bytes == out.bytes[done..]
  }

  lemma NothingDone(before: Bytes, lo: nat, out: Outcome)
    requires lo + |out.bytes| <= |before|
    ensures Filled(before, lo, out.bytes, 0, before) && Remaining(out, 0, [], out)
  {
  }

  lemma RemainingNext(out: Outcome, done: nat, faults: seq<PageNo>, rest: Outcome, pageNo: PageNo, piece: Bytes,
                      later: Outcome)
    requires Remaining(out, done, faults, rest)
    requires rest == Outcome(piece + later.bytes, [pageNo] + later.faults, later.error)
    ensures Remaining(out, done + |piece|, faults + [pageNo], later)
  {
    assert faults + [pageNo] + later.faults == faults + ([pageNo] + later.faults);
    assert out.bytes[done..][|piece|..] == later.bytes;
  }

  lemma FilledNext(before: Bytes, lo: nat, out: Outcome, done: nat, faults: seq<PageNo>, rest: Outcome, piece: Bytes,
                   later: Outcome, was: Bytes, now: Bytes)
    requires Remaining(out, done, faults, rest) && rest.bytes == piece + later.bytes
    requires Filled(before, lo, out.bytes, done, was)
    requires lo + done + |piece| <= |was| && now == was[..lo + done] + piece + was[lo + done + |piece|..]
    ensures Filled(before, lo, out.bytes, done + |piece|, now)
  {
    Advance(before, lo, out.bytes, done, piece, later.bytes, now);
  }

  lemma AllDone(before: Bytes, lo: nat, out: Outcome, done: nat, faults: seq<PageNo>, rest: Outcome, now: Bytes)
    requires Remaining(out, done, faults, rest) && rest.bytes == []
    requires Filled(before, lo, out.bytes, done, now)
    ensures out.error == rest.error && out.faults == faults + rest.faults && |out.bytes| == done
    ensures now == before[..lo] + out.bytes + before[lo + |out.bytes|..]
  {
    assert out.bytes[..done] == out.bytes;
  }

  /** One turn of the loop: fault the page `pos` is on, check it, and copy what is needed of it. */
  method ServeOne(src: PageSource, rec: RecordingSource?, pos: nat, needed: nat, buf: array<Byte>, at: nat)
    returns (r: Result<nat, VfsError>)
    requires src.Valid() && (rec != null ==> rec.inner == src)
    requires 0 < src.pageSize && 0 < needed && at + needed <= buf.Length
    modifies buf, src, if rec == null then {} else {rec}
    ensures src.Valid()
    ensures src.asked == old(src.asked) + [PageOf(pos, src.pageSize)]
    ensures rec != null ==> rec.recorded == old(rec.recorded) + [PageOf(pos, src.pageSize)]
    ensures var pageNo := PageOf(pos, src.pageSize);
      var piece := Piece(src.answers(|old(src.asked)|, pageNo), src.pageSize, pageNo, OffsetIn(pos, src.pageSize),
                         needed);
      && (piece.Err? ==> r == Err(piece.error) && buf[..] == old(buf[..]))
      && (piece.Ok? ==> r == Ok(|piece.value|))
      && (piece.Ok? ==> buf[..] == old(buf[..at]) + piece.value + old(buf[at + |piece.value|..]))
  {
    hide Piece, PageOf, OffsetIn;
    var pageNo, pageOff := PageOf(pos, src.pageSize), OffsetIn(pos, src.pageSize);
    var answer := Ask(src, rec, pageNo);
    var piece := TakePiece(answer, src.pageSize, pageNo, pageOff, needed);
    if piece.Err? {
      return Err(piece.error);
    }
    CopyIn(buf, at, piece.value);
    return Ok(|piece.value|);
  }

  /** One fault, through the recorder if there is one. */
  method Ask(src: PageSource, rec: RecordingSource?, pageNo: PageNo) returns (answer: Option<Bytes>)
    requires src.Valid() && (rec != null ==> rec.inner == src)
    modifies src, if rec == null then {} else {rec}
    ensures src.Valid()
    ensures src.asked == old(src.asked) + [pageNo]
    ensures rec != null ==> rec.recorded == old(rec.recorded) + [pageNo]
    ensures answer == src.answers(|old(src.asked)|, pageNo)
  {
    if rec == null {
      answer := src.ReadPage(pageNo);
    } else {
      answer := rec.ReadPage(pageNo);
    }
  }

  /** The checks on a page, in order: there, not oversize, long enough for the byte asked for. */
  method TakePiece(answer: Option<Bytes>, pageSize: nat, pageNo: PageNo, pageOff: nat, needed: nat)
    returns (r: Result<Bytes, VfsError>)
    requires 0 < needed
    ensures r == Piece(answer, pageSize, pageNo, pageOff, needed)
  {
    if answer.None? {
      return Err(Fault(pageNo));
    }
    var page := answer.value;
    if |page| > pageSize {
      return Err(OversizePage(pageNo, |page|, pageSize));
    }
    if pageOff >= |page| {
      return Err(ShortPage(pageNo, pageOff, |page|));
    }
    var available := |page| - pageOff;
    var take := Min(available, needed);
    return Ok(page[pageOff..pageOff + take]);
  }

  lemma ServeStep(src: Answers, pageSize: nat, offset: nat, done: nat, want: nat, asked: nat)
    requires 0 < pageSize && done < want
    ensures offset + done > U64_MAX ==>
      Serve(src, pageSize, offset, done, want, asked) == Outcome([], [], Some(OffsetOverflow(offset)))
    ensures offset + done <= U64_MAX ==>
      var out := Serve(src, pageSize, offset, done, want, asked);
      var pageNo := PageOf(offset + done, pageSize);
      var piece := Piece(src(asked, pageNo), pageSize, pageNo, OffsetIn(offset + done, pageSize), want - done);
      && (piece.Err? ==> out == Outcome([], [pageNo], Some(piece.error)))
      && (piece.Ok? ==>
            var rest := Serve(src, pageSize, offset, done + |piece.value|, want, asked + 1);
            out == Outcome(piece.value + rest.bytes, [pageNo] + rest.faults, rest.error))
  {
  }

  lemma ServeEnd(src: Answers, pageSize: nat, offset: nat, want: nat, asked: nat)
    requires 0 < pageSize
    ensures Serve(src, pageSize, offset, want, want, asked) == Outcome([], [], None)
  {
  }

  method CopyIn(buf: array<Byte>, at: nat, bytes: Bytes)
    requires at + |bytes| <= buf.Length
    modifies buf
    ensures buf[..] == old(buf[..at]) + bytes + old(buf[at + |bytes|..])
  {
    forall i | 0 <= i < |bytes| {
      buf[at + i] := bytes[i];
    }
  }

  lemma Advance(before: Bytes, lo: nat, out: Bytes, done: nat, piece: Bytes, rest: Bytes, now: Bytes)
    requires lo + |out| <= |before| && done <= |out|
    requires out[done..] == piece + rest
    requires |now| == |before|
    requires var was := before[..lo] + out[..done] + before[lo + done..];
      now == was[..lo + done] + piece + was[lo + done + |piece|..]
    ensures done + |piece| <= |out| && rest == out[done + |piece|..]
    ensures now == before[..lo] + out[..done + |piece|] + before[lo + done + |piece|..]
  {
    assert out[done..][..|piece|] == piece;
    assert out[..done + |piece|] == out[..done] + piece;
    assert out[done + |piece|..] == out[done..][|piece|..];
  }

  // ---- Any source ----------------------------------------------------------------------------

  /** Never more than the clamped length, and exactly that when nothing was refused. */
  lemma {:induction false} ServeBounded(src: Answers, pageSize: nat, offset: nat, done: nat, want: nat, asked: nat)
    requires 0 < pageSize && done <= want
    ensures var out := Serve(src, pageSize, offset, done, want, asked);
      && |out.bytes| <= want - done
      && (out.error.None? <==> |out.bytes| == want - done)
    decreases want - done
  {
    if done < want && offset + done <= U64_MAX {
      var pageNo, pageOff := PageOf(offset + done, pageSize), OffsetIn(offset + done, pageSize);
      var piece := Piece(src(asked, pageNo), pageSize, pageNo, pageOff, want - done);
      if piece.Ok? {
        ServeBounded(src, pageSize, offset, done + |piece.value|, want, asked + 1);
      }
    }
  }

  /** Byte `k` of the file comes from page `k / pageSize` at `k % pageSize` of a page the source
      actually returned when asked for that page, and from nowhere else. */
  ghost predicate CameFrom(src: Answers, pageSize: nat, faults: seq<PageNo>, asked: nat, pos: nat, b: Byte)
    requires 0 < pageSize
  {
    exists i :: 0 <= i < |faults| && ServedBy(src, pageSize, faults[i], asked + i, pos, b)
  }

  ghost predicate ServedBy(src: Answers, pageSize: nat, pageNo: PageNo, call: nat, pos: nat, b: Byte)
    requires 0 < pageSize
  {
    && pageNo == PageOf(pos, pageSize)
    && src(call, pageNo).Some?
    && OffsetIn(pos, pageSize) < |src(call, pageNo).value| <= pageSize
    && src(call, pageNo).value[OffsetIn(pos, pageSize)] == b
  }

  lemma {:induction false} BytesComeFromTheirPage(src: Answers, pageSize: nat, offset: nat, done: nat, want: nat,
                                                   asked: nat, k: nat)
    requires 0 < pageSize && done <= want
    requires k < |Serve(src, pageSize, offset, done, want, asked).bytes|
    ensures var out := Serve(src, pageSize, offset, done, want, asked);
      CameFrom(src, pageSize, out.faults, asked, offset + done + k, out.bytes[k])
    decreases want - done
  {
    hide Serve, ServedBy;
    var out := Serve(src, pageSize, offset, done, want, asked);
    if done == want {
      ServeEnd(src, pageSize, offset, want, asked);
    } else {
      ServeStep(src, pageSize, offset, done, want, asked);
      var pageNo, pageOff := PageOf(offset + done, pageSize), OffsetIn(offset + done, pageSize);
      var piece := Piece(src(asked, pageNo), pageSize, pageNo, pageOff, want - done).value;
      var rest := Serve(src, pageSize, offset, done + |piece|, want, asked + 1);
      var pos := offset + done + k;
      if k < |piece| {
        PieceByte(src, pageSize, offset + done, want - done, asked, k);
        assert ServedBy(src, pageSize, out.faults[0], asked + 0, pos, out.bytes[k]);
      } else {
        BytesComeFromTheirPage(src, pageSize, offset, done + |piece|, want, asked + 1, k - |piece|);
        LaterCame(src, pageSize, pageNo, rest.faults, asked, pos, out.bytes[k]);
      }
    }
  }

  lemma PieceByte(src: Answers, pageSize: nat, pos: nat, needed: nat, asked: nat, k: nat)
    requires 0 < pageSize && 0 < needed
    requires var piece := Piece(src(asked, pos / pageSize), pageSize, pos / pageSize, pos % pageSize, needed);
      piece.Ok? && k < |piece.value|
    ensures var piece := Piece(src(asked, pos / pageSize), pageSize, pos / pageSize, pos % pageSize, needed);
      ServedBy(src, pageSize, pos / pageSize, asked, pos + k, piece.value[k])
  {
    DivModSplit(pos, pageSize);
    DivModUnique(pos + k, pageSize, pos / pageSize, pos % pageSize + k);
  }

  lemma LaterCame(src: Answers, pageSize: nat, first: PageNo, faults: seq<PageNo>, asked: nat, pos: nat, b: Byte)
    requires 0 < pageSize && CameFrom(src, pageSize, faults, asked + 1, pos, b)
    ensures CameFrom(src, pageSize, [first] + faults, asked, pos, b)
  {
    var i :| 0 <= i < |faults| && ServedBy(src, pageSize, faults[i], asked + 1 + i, pos, b);
    assert ServedBy(src, pageSize, ([first] + faults)[i + 1], asked + (i + 1), pos, b);
  }

  /** The checked addition never fires: the clamp already keeps every position below the length. */
  lemma {:induction false} ServeNeverOverflows(src: Answers, pageSize: nat, offset: nat, done: nat, want: nat,
                                               asked: nat)
    requires 0 < pageSize && done <= want && offset + want <= U64_MAX
    ensures var error := Serve(src, pageSize, offset, done, want, asked).error;
      !(error.Some? && error.value.OffsetOverflow?)
    decreases want - done
  {
    if done < want {
      var pageNo, pageOff := PageOf(offset + done, pageSize), OffsetIn(offset + done, pageSize);
      var piece := Piece(src(asked, pageNo), pageSize, pageNo, pageOff, want - done);
      if piece.Ok? {
        ServeNeverOverflows(src, pageSize, offset, done + |piece.value|, want, asked + 1);
      }
    }
  }

  /** For every input, including a hostile source: bounded, never an overflow, complete exactly when
      it succeeds, and every byte from its own page. */
  lemma ReadRangeIsSafe(src: Answers, pageSize: nat, totalLen: U64, offset: U64, len: nat, asked: nat)
    ensures var out := ReadRange(src, pageSize, totalLen, offset, len, asked);
      && |out.bytes| <= Clamp(totalLen, offset, len) <= len
      && (out.error.None? <==> |out.bytes| == Clamp(totalLen, offset, len))
      && !(out.error.Some? && out.error.value.OffsetOverflow?)
      && (out.bytes != [] ==> 0 < pageSize)
      && forall k :: 0 <= k < |out.bytes| ==>
           CameFrom(src, pageSize, out.faults, asked, offset + k, out.bytes[k])
  {
    hide Serve, CameFrom;
    var want := Clamp(totalLen, offset, len);
    if want > 0 && pageSize > 0 {
      var out := Serve(src, pageSize, offset, 0, want, asked);
      ServeBounded(src, pageSize, offset, 0, want, asked);
      ServeNeverOverflows(src, pageSize, offset, 0, want, asked);
      forall k | 0 <= k < |out.bytes|
        ensures CameFrom(src, pageSize, out.faults, asked, offset + k, out.bytes[k])
      {
        BytesComeFromTheirPage(src, pageSize, offset, 0, want, asked, k);
      }
    }
  }

  // ---- Exactly when --------------------------------------------------------------------------

  /** Page `p` is there, not oversize, and reaches as far into the file as bytes below `end` need. */
  predicate Serviceable(page: Option<Bytes>, pageSize: nat, p: PageNo, end: nat) {
    page.Some? && |page.value| <= pageSize && (p * pageSize + |page.value| >= end || |page.value| == pageSize)
  }

  /** The `k`th answer, to a question about the `k`th page from `first`, is serviceable. */
  ghost predicate ServiceableAt(src: Answers, pageSize: nat, asked: nat, first: nat, end: nat, k: nat) {
    Serviceable(src(asked + k, first + k), pageSize, first + k, end)
  }

  /** Were the source asked for each page from `first` to `last` in turn, each answer would do. */
  ghost predicate CoveringAnswers(src: Answers, pageSize: nat, asked: nat, first: nat, last: nat, end: nat) {
    forall k :: 0 <= k <= last - first ==> ServiceableAt(src, pageSize, asked, first, end, k)
  }

  /** `first`, `first + 1`, ... up to `last`. */
  function Consecutive(first: nat, last: nat): (r: seq<PageNo>)
    ensures |r| == if first <= last then last + 1 - first else 0
    ensures forall i :: 0 <= i < |r| ==> r[i] == first + i
    decreases last + 1 - first
  {
    if first > last then [] else [first] + Consecutive(first + 1, last)
  }

  lemma OnPage(pos: nat, pageSize: nat)
    requires 0 < pageSize
    ensures pos == PageOf(pos, pageSize) * pageSize + OffsetIn(pos, pageSize) && OffsetIn(pos, pageSize) < pageSize
  {
    DivModSplit(pos, pageSize);
  }

  /** Positions within `len` bytes of a page's start are on that page. */
  lemma SamePage(pos: nat, other: nat, len: nat, pageSize: nat)
    requires 0 < pageSize && len <= pageSize
    requires pos <= other && other - pos + OffsetIn(pos, pageSize) < len
    ensures PageOf(other, pageSize) == PageOf(pos, pageSize)
  {
    DivModSplit(pos, pageSize);
    DivModUnique(other, pageSize, pos / pageSize, pos % pageSize + (other - pos));
  }

  lemma QuotientsOrdered(a: nat, b: nat, d: nat)
    requires 0 < d && a <= b
    ensures a / d <= b / d
  {
    if b / d < a / d {
      DivModSplit(a, d);
      DivModSplit(b, d);
      MulGap(b / d, a / d, d);
    }
  }

  lemma NextFull(pos: nat, end: nat, pageSize: nat)
    requires 0 < pageSize && pos + (pageSize - OffsetIn(pos, pageSize)) < end
    ensures PageOf(pos + (pageSize - OffsetIn(pos, pageSize)), pageSize) == PageOf(pos, pageSize) + 1
    ensures PageOf(pos, pageSize) < PageOf(end - 1, pageSize)
  {
    var next := pos + (pageSize - pos % pageSize);
    DivModSplit(pos, pageSize);
    MulStep(pos / pageSize, pageSize);
    DivModUnique(next, pageSize, pos / pageSize + 1, 0);
    QuotientsOrdered(next, end - 1, pageSize);
  }

  lemma PagesOrdered(pos: nat, end: nat, pageSize: nat)
    requires 0 < pageSize && pos < end
    ensures PageOf(pos, pageSize) <= PageOf(end - 1, pageSize)
  {
    QuotientsOrdered(pos, end - 1, pageSize);
  }

  /** The piece a page gives says whether the page is serviceable. */
  lemma PieceServiceable(answer: Option<Bytes>, pageSize: nat, pos: nat, end: nat)
    requires 0 < pageSize && pos < end
    ensures var p, off := PageOf(pos, pageSize), OffsetIn(pos, pageSize);
      var piece := Piece(answer, pageSize, p, off, end - pos);
      && (piece.Err? ==> !Serviceable(answer, pageSize, p, end))
      && (piece.Ok? ==>
            && answer.Some? && off < |answer.value| <= pageSize
            && (pos + |piece.value| == end <==> end - pos + off <= |answer.value|)
            && (pos + |piece.value| == end ==> Serviceable(answer, pageSize, p, end))
            && (pos + |piece.value| < end ==>
                  && |piece.value| == |answer.value| - off
                  && (Serviceable(answer, pageSize, p, end) <==> |answer.value| == pageSize)))
  {
    OnPage(pos, pageSize);
  }

  lemma FirstFault(src: Answers, pageSize: nat, offset: nat, done: nat, want: nat, asked: nat)
    requires 0 < pageSize && done < want && offset + want <= U64_MAX
    ensures var faults := Serve(src, pageSize, offset, done, want, asked).faults;
      faults != [] && faults[0] == PageOf(offset + done, pageSize)
  {
    hide Serve, Piece, PageOf, OffsetIn;
    ServeStep(src, pageSize, offset, done, want, asked);
  }

  /** For any source, steady or not: a read succeeds having asked for each covering page once, in order,
      exactly when the answer to each of those questions would do. */
  lemma {:induction false} ServesOnceIff(src: Answers, pageSize: nat, offset: nat, done: nat, want: nat, asked: nat)
    requires 0 < pageSize && done < want && offset + want <= U64_MAX
    ensures var first, last := PageOf(offset + done, pageSize), PageOf(offset + want - 1, pageSize);
      var out := Serve(src, pageSize, offset, done, want, asked);
      (out.error.None? && out.faults == Consecutive(first, last))
      <==> CoveringAnswers(src, pageSize, asked, first, last, offset + want)
    decreases want - done
  {
    hide Serve, Piece, Consecutive, CoveringAnswers, Serviceable, PageOf, OffsetIn;
    var pos, end := offset + done, offset + want;
    var p, last := PageOf(pos, pageSize), PageOf(end - 1, pageSize);
    PagesOrdered(pos, end, pageSize);
    ServeStep(src, pageSize, offset, done, want, asked);
    PieceServiceable(src(asked, p), pageSize, pos, end);
    CoveringFirst(src, pageSize, asked, p, last, end);
    var piece := Piece(src(asked, p), pageSize, p, OffsetIn(pos, pageSize), want - done);
    if piece.Ok? {
      var page := src(asked, p).value;
      var next := done + |piece.value|;
      if next == want {
        ServeEnd(src, pageSize, offset, want, asked + 1);
        SamePage(pos, end - 1, |page|, pageSize);
        OnePage(src, pageSize, asked, p, end);
      } else if |page| < pageSize {
        SamePage(pos, pos + |piece.value|, |page| + 1, pageSize);
        FirstFault(src, pageSize, offset, next, want, asked + 1);
        NotConsecutive(p, Serve(src, pageSize, offset, next, want, asked + 1).faults, last);
      } else {
        NextFull(pos, end, pageSize);
        ServesOnceIff(src, pageSize, offset, next, want, asked + 1);
        CoveringPeel(src, pageSize, asked, p, last, end);
        ConsecutivePeel(p, Serve(src, pageSize, offset, next, want, asked + 1).faults, last);
      }
    }
  }

  lemma CoveringFirst(src: Answers, pageSize: nat, asked: nat, p: nat, last: nat, end: nat)
    requires p <= last
    ensures CoveringAnswers(src, pageSize, asked, p, last, end) ==> Serviceable(src(asked, p), pageSize, p, end)
  {
    hide Serviceable;
    if CoveringAnswers(src, pageSize, asked, p, last, end) {
      assert ServiceableAt(src, pageSize, asked, p, end, 0);
    }
  }

  lemma OnePage(src: Answers, pageSize: nat, asked: nat, p: nat, end: nat)
    ensures Serviceable(src(asked, p), pageSize, p, end) ==> CoveringAnswers(src, pageSize, asked, p, p, end)
    ensures Consecutive(p, p) == [p]
  {
  }

  lemma CoveringPeel(src: Answers, pageSize: nat, asked: nat, p: nat, last: nat, end: nat)
    requires p < last
    ensures CoveringAnswers(src, pageSize, asked, p, last, end)
      <==> Serviceable(src(asked, p), pageSize, p, end) && CoveringAnswers(src, pageSize, asked + 1, p + 1, last, end)
  {
    hide Serviceable;
    if CoveringAnswers(src, pageSize, asked, p, last, end) {
      assert ServiceableAt(src, pageSize, asked, p, end, 0);
      var later, next := asked + 1, p + 1;
      forall k: nat | 0 <= k <= last - next ensures ServiceableAt(src, pageSize, later, next, end, k) {
        assert ServiceableAt(src, pageSize, asked, p, end, k + 1);
      }
    }
    if Serviceable(src(asked, p), pageSize, p, end) && CoveringAnswers(src, pageSize, asked + 1, p + 1, last, end) {
      forall k: nat | 0 <= k <= last - p ensures ServiceableAt(src, pageSize, asked, p, end, k) {
        if k > 0 {
          assert ServiceableAt(src, pageSize, asked + 1, p + 1, end, k - 1);
        }
      }
    }
  }

  lemma NotConsecutive(p: PageNo, rest: seq<PageNo>, last: PageNo)
    requires rest != [] && rest[0] == p
    ensures [p] + rest != Consecutive(p, last)
  {
    assert ([p] + rest)[1] == p;
  }

  lemma ConsecutivePeel(p: PageNo, rest: seq<PageNo>, last: PageNo)
    requires p < last
    ensures [p] + rest == Consecutive(p, last) <==> rest == Consecutive(p + 1, last)
  {
    assert ([p] + rest)[1..] == rest;
    assert Consecutive(p, last)[1..] == Consecutive(p + 1, last);
  }

  /** The same of the whole read boundary, from what a caller can check before the call: for any source
      at all, the read succeeds asking for each covering page once, in ascending order, if and only if
      there is nothing to read or the page size is non-zero and each of those answers is there, not
      oversize and long enough. */
  lemma ReadRangeAsksOnceIff(src: Answers, pageSize: nat, totalLen: U64, offset: U64, len: nat, asked: nat)
    ensures var out := ReadRange(src, pageSize, totalLen, offset, len, asked);
      var want := Clamp(totalLen, offset, len);
      (out.error.None? && AsksEachOnce(out.faults, pageSize, offset, want))
      <==> want == 0 || Answerable(src, pageSize, asked, offset, want)
  {
    hide Serve, CoveringAnswers, Consecutive;
    var want := Clamp(totalLen, offset, len);
    if want > 0 && pageSize > 0 {
      ServesOnceIff(src, pageSize, offset, 0, want, asked);
    }
  }

  /** `faults` is every page `[offset, offset + want)` touches, once each, ascending. */
  predicate AsksEachOnce(faults: seq<PageNo>, pageSize: nat, offset: nat, want: nat) {
    if want == 0 then faults == []
    else 0 < pageSize && faults == Consecutive(PageOf(offset, pageSize), PageOf(offset + want - 1, pageSize))
  }

  ghost predicate Answerable(src: Answers, pageSize: nat, asked: nat, offset: nat, want: nat)
    requires 0 < want
  {
    && 0 < pageSize
    && CoveringAnswers(src, pageSize, asked, PageOf(offset, pageSize), PageOf(offset + want - 1, pageSize),
                       offset + want)
  }

  // ---- A steady source -----------------------------------------------------------------------

  ghost predicate AllServiceable(pages: PageNo -> Option<Bytes>, pageSize: nat, first: nat, last: nat, end: nat) {
    forall p :: first <= p <= last ==> Serviceable(pages(p), pageSize, p, end)
  }

  /** Every page that `[offset, offset + want)` touches is serviceable. */
  ghost predicate CoveredBy(pages: PageNo -> Option<Bytes>, pageSize: nat, offset: nat, want: nat)
    requires 0 < want
  {
    && 0 < pageSize
    && AllServiceable(pages, pageSize, PageOf(offset, pageSize), PageOf(offset + want - 1, pageSize), offset + want)
  }

  lemma SteadyCovering(src: Answers, pages: PageNo -> Option<Bytes>, pageSize: nat, asked: nat, first: nat, last: nat,
                       end: nat)
    requires Steady(src, pages)
    ensures CoveringAnswers(src, pageSize, asked, first, last, end)
      <==> AllServiceable(pages, pageSize, first, last, end)
  {
    hide Serviceable;
    if CoveringAnswers(src, pageSize, asked, first, last, end) {
      forall p | first <= p <= last ensures Serviceable(pages(p), pageSize, p, end) {
        assert ServiceableAt(src, pageSize, asked, first, end, p - first);
        assert src(asked + (p - first), p) == pages(p);
      }
    }
    if AllServiceable(pages, pageSize, first, last, end) {
      forall k: nat | 0 <= k <= last - first ensures ServiceableAt(src, pageSize, asked, first, end, k) {
        assert Serviceable(pages(first + k), pageSize, first + k, end);
        assert src(asked + k, first + k) == pages(first + k);
      }
    }
  }

  /** A page that ended early is faulted again for its next byte, and refused. */
  lemma ShortOnReread(src: Answers, pages: PageNo -> Option<Bytes>, pageSize: nat, offset: nat, done: nat, want: nat,
                      asked: nat, p: nat)
    requires Steady(src, pages) && 0 < pageSize && done < want && offset + want <= U64_MAX
    requires pages(p).Some? && |pages(p).value| < pageSize && offset + done == p * pageSize + |pages(p).value|
    ensures Serve(src, pageSize, offset, done, want, asked)
         == Outcome([], [p], Some(ShortPage(p, |pages(p).value|, |pages(p).value|)))
  {
    DivModUnique(offset + done, pageSize, p, |pages(p).value|);
    assert src(asked, p) == pages(p);
  }

  /** A steady source that is read successfully was asked for each covering page once. */
  lemma {:induction false} SteadyAsksOnce(src: Answers, pages: PageNo -> Option<Bytes>, pageSize: nat, offset: nat,
                                           done: nat, want: nat, asked: nat)
    requires Steady(src, pages)
    requires 0 < pageSize && done < want && offset + want <= U64_MAX
    requires Serve(src, pageSize, offset, done, want, asked).error.None?
    ensures Serve(src, pageSize, offset, done, want, asked).faults
         == Consecutive(PageOf(offset + done, pageSize), PageOf(offset + want - 1, pageSize))
    decreases want - done
  {
    hide Serve, Piece, Consecutive, Serviceable, PageOf, OffsetIn;
    var pos, end := offset + done, offset + want;
    var p := PageOf(pos, pageSize);
    ServeStep(src, pageSize, offset, done, want, asked);
    assert src(asked, p) == pages(p);
    PieceServiceable(pages(p), pageSize, pos, end);
    OnPage(pos, pageSize);
    var piece := Piece(pages(p), pageSize, p, OffsetIn(pos, pageSize), want - done).value;
    var page := pages(p).value;
    if done + |piece| == want {
      ServeEnd(src, pageSize, offset, want, asked + 1);
      SamePage(pos, end - 1, |page|, pageSize);
      OnePage(src, pageSize, asked, p, end);
    } else {
      if |page| < pageSize {
        ShortOnReread(src, pages, pageSize, offset, done + |piece|, want, asked + 1, p);
      }
      NextFull(pos, end, pageSize);
      SteadyAsksOnce(src, pages, pageSize, offset, done + |piece|, want, asked + 1);
      ConsecutivePeel(p, Serve(src, pageSize, offset, done + |piece|, want, asked + 1).faults,
                      PageOf(end - 1, pageSize));
    }
  }

  /** The whole read boundary against a steady source: it succeeds if and only if every covering page is
      serviceable, and then each was asked for once. */
  lemma ReadRangeSucceedsIff(src: Answers, pages: PageNo -> Option<Bytes>, pageSize: nat, totalLen: U64, offset: U64,
                             len: nat, asked: nat)
    requires Steady(src, pages)
    ensures var out := ReadRange(src, pageSize, totalLen, offset, len, asked);
      var want := Clamp(totalLen, offset, len);
      && (out.error.None? <==> want == 0 || CoveredBy(pages, pageSize, offset, want))
      && (out.error.None? ==> AsksEachOnce(out.faults, pageSize, offset, want))
  {
    hide Serve, AllServiceable, CoveringAnswers, Consecutive, Steady;
    var want := Clamp(totalLen, offset, len);
    ReadRangeAsksOnceIff(src, pageSize, totalLen, offset, len, asked);
    if want > 0 && pageSize > 0 {
      var first, last := PageOf(offset, pageSize), PageOf(offset + want - 1, pageSize);
      SteadyCovering(src, pages, pageSize, asked, first, last, offset + want);
      if ReadRange(src, pageSize, totalLen, offset, len, asked).error.None? {
        SteadyAsksOnce(src, pages, pageSize, offset, 0, want, asked);
      }
    }
  }

  // ---- Asking once ---------------------------------------------------------------------------

  /** Every answer but the last is a full page. */
  ghost predicate FullBeforeLast(src: Answers, pageSize: nat, faults: seq<PageNo>, asked: nat) {
    forall i :: 0 <= i < |faults| - 1 ==> FullAnswer(src(asked + i, faults[i]), pageSize)
  }

  predicate FullAnswer(answer: Option<Bytes>, pageSize: nat) {
    answer.Some? && |answer.value| == pageSize
  }

  /** A successful read of any source, steady or not, starts at the first covering page and ends at the
      last. It asks for each exactly once, in order, if and only if every answer but the last was a
      full page: a short answer in the middle makes it ask for the same page again. */
  lemma {:induction false} AsksOnceIffFull(src: Answers, pageSize: nat, offset: nat, done: nat, want: nat, asked: nat)
    requires 0 < pageSize && done < want && offset + want <= U64_MAX
    requires Serve(src, pageSize, offset, done, want, asked).error.None?
    ensures var faults := Serve(src, pageSize, offset, done, want, asked).faults;
      var first, last := PageOf(offset + done, pageSize), PageOf(offset + want - 1, pageSize);
      && faults != [] && faults[0] == first && faults[|faults| - 1] == last
      && (faults == Consecutive(first, last) <==> FullBeforeLast(src, pageSize, faults, asked))
    decreases want - done
  {
    hide Serve, Consecutive, FullBeforeLast, PageOf, OffsetIn;
    var pos, end := offset + done, offset + want;
    var p, off, last := PageOf(pos, pageSize), OffsetIn(pos, pageSize), PageOf(end - 1, pageSize);
    ServeStep(src, pageSize, offset, done, want, asked);
    var page := src(asked, p).value;
    var piece := Piece(src(asked, p), pageSize, p, off, want - done).value;
    OnPage(pos, pageSize);
    if done + |piece| == want {
      ServeEnd(src, pageSize, offset, want, asked + 1);
      SamePage(pos, end - 1, |page|, pageSize);
      OneFault(src, pageSize, p, asked);
    } else {
      var rest := Serve(src, pageSize, offset, done + |piece|, want, asked + 1);
      AsksOnceIffFull(src, pageSize, offset, done + |piece|, want, asked + 1);
      if |page| < pageSize {
        SamePage(pos, pos + |piece|, |page| + 1, pageSize);
        AskedTwice(src, pageSize, p, rest.faults, last, asked);
      } else {
        NextFull(pos, end, pageSize);
        AskedOnce(src, pageSize, p, rest.faults, last, asked);
      }
    }
  }

  lemma OneFault(src: Answers, pageSize: nat, p: PageNo, asked: nat)
    ensures [p] == Consecutive(p, p) && FullBeforeLast(src, pageSize, [p], asked)
  {
  }

  lemma AskedTwice(src: Answers, pageSize: nat, p: PageNo, rest: seq<PageNo>, last: PageNo, asked: nat)
    requires rest != [] && rest[0] == p
    requires src(asked, p).Some? && |src(asked, p).value| < pageSize
    ensures [p] + rest != Consecutive(p, last) && !FullBeforeLast(src, pageSize, [p] + rest, asked)
  {
    var faults := [p] + rest;
    assert faults[0] == p == faults[1];
    assert !FullAnswer(src(asked + 0, faults[0]), pageSize);
  }

  lemma AskedOnce(src: Answers, pageSize: nat, p: PageNo, rest: seq<PageNo>, last: PageNo, asked: nat)
    requires rest != [] && p < last
    requires src(asked, p).Some? && |src(asked, p).value| == pageSize
    ensures [p] + rest == Consecutive(p, last) <==> rest == Consecutive(p + 1, last)
    ensures FullBeforeLast(src, pageSize, [p] + rest, asked) <==> FullBeforeLast(src, pageSize, rest, asked + 1)
  {
    var faults := [p] + rest;
    assert faults[1..] == rest;
    assert Consecutive(p, last)[1..] == Consecutive(p + 1, last);
    if FullBeforeLast(src, pageSize, rest, asked + 1) {
      forall i | 0 <= i < |faults| - 1 ensures FullAnswer(src(asked + i, faults[i]), pageSize) {
        if i > 0 {
          assert FullAnswer(src(asked + 1 + (i - 1), rest[i - 1]), pageSize);
        }
      }
    }
    if FullBeforeLast(src, pageSize, faults, asked) {
      forall i | 0 <= i < |rest| - 1 ensures FullAnswer(src(asked + 1 + i, rest[i]), pageSize) {
        assert FullAnswer(src(asked + (i + 1), faults[i + 1]), pageSize);
      }
    }
  }

  /** A source that grows a page between two faults: the read succeeds having asked for it twice. */
  lemma GrowingPageIsAskedTwice(a: Byte, b: Byte)
    ensures ReadRange((i: nat, p: PageNo) => if i == 0 then Some([a]) else Some([a, b]), 2, 2, 0, 2, 0)
         == Outcome([a, b], [0, 0], None)
  {
    var src := (i: nat, p: PageNo) => if i == 0 then Some([a]) else Some([a, b]);
    assert [a, b][1..2] == [b] && [a][0..1] == [a];
    assert Serve(src, 2, 0, 2, 2, 2) == Outcome([], [], None);
    assert Piece(src(1, 0), 2, 0, 1, 1) == Ok([b]);
    assert Serve(src, 2, 0, 1, 2, 1) == Outcome([b], [0], None);
    assert Piece(src(0, 0), 2, 0, 0, 2) == Ok([a]);
    assert Serve(src, 2, 0, 0, 2, 0) == Outcome([a, b], [0, 0], None);
  }

  // ---- Lazy refines eager --------------------------------------------------------------------

  /** The pages of a file whose head a persist wrote, as the read boundary sees them. */
  function PagesOf(cas: Cas, m: Manifest): PageNo -> Option<Bytes> {
    (p: PageNo) => ReadPage(cas, m, p)
  }

  lemma FilePage(cas: Cas, m: Manifest, file: Bytes, pageSize: nat, p: nat)
    requires 0 < pageSize && Addressed(cas) && Stored(cas, m)
    requires Resolve(m) == FileMap(Chunks(file, pageSize))
    requires p * pageSize < |file|
    ensures p < |Chunks(file, pageSize)|
    ensures ReadPage(cas, m, p) == Some(Chunks(file, pageSize)[p])
    ensures ReadPage(cas, m, p).value
         == file[p * pageSize..if p * pageSize + pageSize <= |file| then p * pageSize + pageSize else |file|]
  {
    hide Chunks, Resolve;
    var n := |Chunks(file, pageSize)|;
    ChunkCount(file, pageSize);
    if n <= p {
      if n < p { MulGap(n, p, pageSize); }
      assert false;
    }
    ChunkAt(file, pageSize, p);
    var id := Resolve(m)[p];
    assert HashPage(cas[id]) == id;
  }

  /** At any offset and any buffer length, the lazy read is the slice of the hydrated file; it never
      fails, and it faults exactly the pages the slice touches. */
  lemma LazyRefinesEager(src: Answers, cas: Cas, m: Manifest, file: Bytes, pageSize: nat, offset: U64, len: nat,
                         asked: nat)
    requires 0 < pageSize && Addressed(cas) && Stored(cas, m) && |file| <= U64_MAX
    requires Resolve(m) == FileMap(Chunks(file, pageSize))
    requires Steady(src, PagesOf(cas, m))
    ensures var out := ReadRange(src, pageSize, |file|, offset, len, asked);
      var want := Clamp(|file|, offset, len);
      && Hydrated(cas, m, pageSize) == Ok(if file == [] then None else Some(file))
      && out.error == None
      && out.bytes == (if want == 0 then [] else file[offset..offset + want])
      && (|file| <= offset ==> out.bytes == [])
      && (offset < |file| <= offset + len ==> out.bytes == file[offset..])
      && (offset + len <= |file| ==> out.bytes == file[offset..offset + len])
      && AsksEachOnce(out.faults, pageSize, offset, want)
  {
    hide ReadRange, Resolve, Chunks, FileMap, Hydrated, CameFrom, Stored, Addressed, AllServiceable, Steady;
    HydrateIsFile(cas, m, file, pageSize);
    var want := Clamp(|file|, offset, len);
    ReadRangeSucceedsIff(src, PagesOf(cas, m), pageSize, |file|, offset, len, asked);
    ReadRangeIsSafe(src, pageSize, |file|, offset, len, asked);
    if want > 0 {
      FileServiceable(cas, m, file, pageSize, offset, want);
      var out := ReadRange(src, pageSize, |file|, offset, len, asked);
      FileBytes(src, cas, m, file, pageSize, out.faults, asked, offset, out.bytes);
    }
  }

  lemma FileServiceable(cas: Cas, m: Manifest, file: Bytes, pageSize: nat, offset: nat, want: nat)
    requires 0 < pageSize && Addressed(cas) && Stored(cas, m)
    requires Resolve(m) == FileMap(Chunks(file, pageSize))
    requires 0 < want && offset + want <= |file|
    ensures CoveredBy(PagesOf(cas, m), pageSize, offset, want)
  {
    hide Resolve, Chunks, FileMap, Stored, Addressed, ReadPage;
    var end := offset + want;
    var pages := PagesOf(cas, m);
    forall p | offset / pageSize <= p <= (end - 1) / pageSize
      ensures Serviceable(pages(p), pageSize, p, end)
    {
      BelowEnd(p, end, pageSize);
      FilePage(cas, m, file, pageSize, p);
    }
  }

  lemma FileBytes(src: Answers, cas: Cas, m: Manifest, file: Bytes, pageSize: nat, faults: seq<PageNo>, asked: nat,
                  offset: nat, bytes: Bytes)
    requires 0 < pageSize && Addressed(cas) && Stored(cas, m)
    requires Resolve(m) == FileMap(Chunks(file, pageSize))
    requires Steady(src, PagesOf(cas, m)) && offset + |bytes| <= |file|
    requires forall k :: 0 <= k < |bytes| ==> CameFrom(src, pageSize, faults, asked, offset + k, bytes[k])
    ensures bytes == file[offset..offset + |bytes|]
  {
    hide Resolve, Chunks, FileMap, Stored, Addressed, CameFrom, Steady;
    forall k | 0 <= k < |bytes| ensures bytes[k] == file[offset + k] {
      ByteOfFile(src, cas, m, file, pageSize, faults, asked, offset + k, bytes[k]);
    }
  }

  lemma BelowEnd(p: nat, end: nat, pageSize: nat)
    requires 0 < pageSize && 0 < end && p <= (end - 1) / pageSize
    ensures p * pageSize < end
  {
    DivModSplit(end - 1, pageSize);
    if p < (end - 1) / pageSize {
      MulGap(p, (end - 1) / pageSize, pageSize);
    }
  }

  lemma ByteOfFile(src: Answers, cas: Cas, m: Manifest, file: Bytes, pageSize: nat, faults: seq<PageNo>, asked: nat,
                   pos: nat, b: Byte)
    requires 0 < pageSize && Addressed(cas) && Stored(cas, m)
    requires Resolve(m) == FileMap(Chunks(file, pageSize))
    requires Steady(src, PagesOf(cas, m))
    requires pos < |file| && CameFrom(src, pageSize, faults, asked, pos, b)
    ensures b == file[pos]
  {
    hide Resolve, Chunks, FileMap, Stored, Addressed, ReadPage;
    var i :| 0 <= i < |faults| && ServedBy(src, pageSize, faults[i], asked + i, pos, b);
    var p := pos / pageSize;
    DivModSplit(pos, pageSize);
    FilePage(cas, m, file, pageSize, p);
    assert src(asked + i, p) == ReadPage(cas, m, p);
    var start := p * pageSize;
    SliceByte(file, start, if start + pageSize <= |file| then start + pageSize else |file|, pos - start);
  }

  lemma SliceByte(bytes: Bytes, from: nat, to: nat, k: nat)
    requires from <= to <= |bytes| && k < to - from
    ensures bytes[from..to][k] == bytes[from + k]
  {
  }

  // ---- Why a read stops ----------------------------------------------------------------------

  /** The page answered for byte `pos` stops the read: it is not there, or larger than a page, or it does
      not reach that byte. */
  predicate StoppedBy(answer: Option<Bytes>, pageSize: nat, pageNo: PageNo, pageOff: nat, error: VfsError) {
    || (answer.None? && error == Fault(pageNo))
    || (answer.Some? && pageSize < |answer.value| && error == OversizePage(pageNo, |answer.value|, pageSize))
    || (answer.Some? && |answer.value| <= pageSize && |answer.value| <= pageOff
        && error == ShortPage(pageNo, pageOff, |answer.value|))
  }

  lemma {:induction false} ServeStopsBy(src: Answers, pageSize: nat, offset: nat, done: nat, want: nat, asked: nat)
    requires 0 < pageSize && done <= want && offset + want <= U64_MAX
    ensures var out := Serve(src, pageSize, offset, done, want, asked);
      out.error.Some? ==>
        && out.faults != []
        && var last := |out.faults| - 1;
           var at := offset + done + |out.bytes|;
        && out.faults[last] == PageOf(at, pageSize)
        && StoppedBy(src(asked + last, out.faults[last]), pageSize, out.faults[last], OffsetIn(at, pageSize),
                     out.error.value)
    decreases want - done
  {
    hide Serve, PageOf, OffsetIn;
    if done == want {
      ServeEnd(src, pageSize, offset, want, asked);
    } else {
      ServeStep(src, pageSize, offset, done, want, asked);
      var pageNo := PageOf(offset + done, pageSize);
      var piece := Piece(src(asked, pageNo), pageSize, pageNo, OffsetIn(offset + done, pageSize), want - done);
      if piece.Ok? {
        ServeStopsBy(src, pageSize, offset, done + |piece.value|, want, asked + 1);
      }
    }
  }

  /** Why a read of any source stops, exactly: a zero page size when something is wanted, or the last page
      it asked for, which is the page of the first byte it did not serve. */
  lemma ReadRangeStopsBy(src: Answers, pageSize: nat, totalLen: U64, offset: U64, len: nat, asked: nat)
    ensures var out := ReadRange(src, pageSize, totalLen, offset, len, asked);
      && (out.error == Some(ZeroPageSize) <==> 0 < Clamp(totalLen, offset, len) && pageSize == 0)
      && (out.error.Some? && 0 < pageSize ==>
            && out.faults != []
            && var last := |out.faults| - 1;
               var at := offset + |out.bytes|;
            && out.faults[last] == PageOf(at, pageSize)
            && StoppedBy(src(asked + last, out.faults[last]), pageSize, out.faults[last], OffsetIn(at, pageSize),
                         out.error.value))
  {
    hide Serve, PageOf, OffsetIn;
    var want := Clamp(totalLen, offset, len);
    if 0 < want && 0 < pageSize {
      ServeStopsBy(src, pageSize, offset, 0, want, asked);
    }
  }
}
