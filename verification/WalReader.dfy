/** Reading a log of segments, and what is read when the log is cut at an arbitrary byte. */
module WalReader {
  import opened Substrate
  import opened WalFrames

  datatype SegmentRead<+R> = SegmentRead(records: seq<R>, torn: bool)

  /** One segment: every whole record, and whether bytes are left that do not decode. */
  function ReadSegment<R>(c: Codec<R>, bytes: Bytes): SegmentRead<R>
    requires Progresses(c)
    decreases |bytes|
  {
    match c.decode(bytes)
    case Torn => SegmentRead([], |bytes| > 0)
    case Decoded(r, consumed) =>
      var rest := ReadSegment(c, bytes[consumed..]);
      SegmentRead([r] + rest.records, rest.torn)
  }

  /** The log: segments in order, ending at the first one with a torn tail. */
  function ReadLog<R>(c: Codec<R>, segments: seq<Bytes>): seq<R>
    requires Progresses(c)
  {
    if segments == [] then [] else
      var first := ReadSegment(c, segments[0]);
      if first.torn then first.records else first.records + ReadLog(c, segments[1..])
  }

  /** Walk one segment from offset zero until a record does not decode. */
  method SegmentRecords<R>(c: Codec<R>, bytes: Bytes) returns (out: seq<R>, torn: bool)
    requires Progresses(c)
    ensures SegmentRead(out, torn) == ReadSegment(c, bytes)
  {
    hide ReadSegment, Progresses;
    out := [];
    var offset := 0;
    assert bytes[0..] == bytes;
    while true
      invariant 0 <= offset <= |bytes|
      invariant out + ReadSegment(c, bytes[offset..]).records == ReadSegment(c, bytes).records
      invariant ReadSegment(c, bytes[offset..]).torn == ReadSegment(c, bytes).torn
      decreases |bytes| - offset
    {
      SegmentStep(c, bytes, offset);
      var outcome := c.decode(bytes[offset..]);
      if outcome.Torn? {
        return out, offset < |bytes|;
      }
      Associative(out, [outcome.record], ReadSegment(c, bytes[offset + outcome.consumed..]).records);
      offset := offset + outcome.consumed;
      out := out + [outcome.record];
    }
  }

  lemma SegmentStep<R>(c: Codec<R>, bytes: Bytes, offset: nat)
    requires Progresses(c) && offset <= |bytes|
    ensures var outcome := c.decode(bytes[offset..]);
      var segment := ReadSegment(c, bytes[offset..]);
      && (outcome.Torn? ==> segment == SegmentRead([], offset < |bytes|))
      && (outcome.Decoded? ==>
            && 0 < outcome.consumed && offset + outcome.consumed <= |bytes|
            && var rest := ReadSegment(c, bytes[offset + outcome.consumed..]);
               segment == SegmentRead([outcome.record] + rest.records, rest.torn))
  {
    var outcome := c.decode(bytes[offset..]);
    if outcome.Decoded? {
      assert bytes[offset..][outcome.consumed..] == bytes[offset + outcome.consumed..];
    }
  }

  /** The whole log: a clean end of a segment moves on to the next, a torn tail ends the log. */
  method Records<R>(c: Codec<R>, segments: seq<Bytes>) returns (out: seq<R>)
    requires Progresses(c)
    ensures out == ReadLog(c, segments)
  {
    out := [];
    for s := 0 to |segments|
      invariant out + ReadLog(c, segments[s..]) == ReadLog(c, segments)
    {
      LogStep(c, segments, s);
      var records, torn := SegmentRecords(c, segments[s]);
      Associative(out, records, ReadLog(c, segments[s + 1..]));
      out := out + records;
      if torn {
        return;
      }
    }
  }

  lemma LogStep<R>(c: Codec<R>, segments: seq<Bytes>, s: nat)
    requires Progresses(c) && s < |segments|
    ensures var first := ReadSegment(c, segments[s]);
      ReadLog(c, segments[s..])
      == if first.torn then first.records else first.records + ReadLog(c, segments[s + 1..])
  {
    assert segments[s..][1..] == segments[s + 1..];
  }

  ghost function EncodeAll<R(!new)>(c: Codec<R>, rs: seq<R>): Bytes
  {
    if rs == [] then [] else c.encode(rs[0]) + EncodeAll(c, rs[1..])
  }

  /** How many records of `rs` survive whole when their bytes are cut at `k`. */
  ghost function WholeWithin<R(!new)>(c: Codec<R>, rs: seq<R>, k: nat): (n: nat)
    ensures n <= |rs|
  {
    if rs == [] || |c.encode(rs[0])| > k then 0
    else 1 + WholeWithin(c, rs[1..], k - |c.encode(rs[0])|)
  }

  /** `WholeWithin` is the longest prefix that fits. */
  lemma {:induction false} WholeWithinIsLongest<R(!new)>(c: Codec<R>, rs: seq<R>, k: nat)
    ensures var n := WholeWithin(c, rs, k);
      && |EncodeAll(c, rs[..n])| <= k
      && (n < |rs| ==> k < |EncodeAll(c, rs[..n + 1])|)
  {
    if rs != [] && |c.encode(rs[0])| <= k {
      WholeWithinIsLongest(c, rs[1..], k - |c.encode(rs[0])|);
      var n := WholeWithin(c, rs, k);
      assert rs[..n][1..] == rs[1..][..n - 1];
      if n < |rs| {
        assert rs[..n + 1][1..] == rs[1..][..n];
      }
    } else if rs != [] {
      assert rs[..1][1..] == [];
    }
  }

  lemma ReadStep<R(!new)>(c: Codec<R>, r: R, rest: Bytes)
    requires Exact(c) && c.fits(r)
    ensures var tail := ReadSegment(c, rest);
      ReadSegment(c, c.encode(r) + rest) == SegmentRead([r] + tail.records, tail.torn)
  {
    assert DecodesWhole(c, r, rest);
    assert (c.encode(r) + rest)[|c.encode(r)|..] == rest;
  }

  /** Cutting a segment at any byte leaves exactly the longest whole-record prefix, and the reader
      sees a torn tail exactly when the cut is not on a record boundary. */
  lemma {:induction false} ReadCutSegment<R(!new)>(c: Codec<R>, rs: seq<R>, k: nat)
    requires Exact(c) && AllFit(c, rs)
    requires k <= |EncodeAll(c, rs)|
    ensures var n := WholeWithin(c, rs, k);
      ReadSegment(c, EncodeAll(c, rs)[..k])
      == SegmentRead(rs[..n], |EncodeAll(c, rs[..n])| < k)
  {
    if rs == [] {
    } else if k < |c.encode(rs[0])| {
      ReadTornFirst(c, rs, k);
    } else {
      ReadCutSegment(c, rs[1..], k - |c.encode(rs[0])|);
      ReadPastFirst(c, rs, k);
      PrefixStep(c, rs, WholeWithin(c, rs[1..], k - |c.encode(rs[0])|));
    }
  }

  lemma ReadTornFirst<R(!new)>(c: Codec<R>, rs: seq<R>, k: nat)
    requires Exact(c) && AllFit(c, rs)
    requires rs != [] && k < |c.encode(rs[0])|
    ensures ReadSegment(c, EncodeAll(c, rs)[..k]) == SegmentRead([], 0 < k)
  {
    assert TornWithin(c, rs[0], k);
    assert EncodeAll(c, rs)[..k] == c.encode(rs[0])[..k];
  }

  lemma ReadPastFirst<R(!new)>(c: Codec<R>, rs: seq<R>, k: nat)
    requires Exact(c) && AllFit(c, rs)
    requires rs != [] && |c.encode(rs[0])| <= k <= |EncodeAll(c, rs)|
    ensures var tail := ReadSegment(c, EncodeAll(c, rs[1..])[..k - |c.encode(rs[0])|]);
      ReadSegment(c, EncodeAll(c, rs)[..k]) == SegmentRead([rs[0]] + tail.records, tail.torn)
  {
    var first, rest := c.encode(rs[0]), EncodeAll(c, rs[1..]);
    assert (first + rest)[..k] == first + rest[..k - |first|];
    ReadStep(c, rs[0], rest[..k - |first|]);
  }

  lemma PrefixStep<R(!new)>(c: Codec<R>, rs: seq<R>, n: nat)
    requires rs != [] && n < |rs|
    ensures rs[..n + 1] == [rs[0]] + rs[1..][..n]
    ensures EncodeAll(c, rs[..n + 1]) == c.encode(rs[0]) + EncodeAll(c, rs[1..][..n])
  {
    assert rs[..n + 1][1..] == rs[1..][..n];
  }

  ghost function Flatten<R>(segments: seq<seq<R>>): seq<R> {
    if segments == [] then [] else segments[0] + Flatten(segments[1..])
  }

  ghost function EncodeSegments<R(!new)>(c: Codec<R>, segments: seq<seq<R>>): (b: seq<Bytes>)
    ensures |b| == |segments|
    ensures forall i :: 0 <= i < |segments| ==> b[i] == EncodeAll(c, segments[i])
  {
    if segments == [] then [] else [EncodeAll(c, segments[0])] + EncodeSegments(c, segments[1..])
  }

  /** A log with no tear reads back as the records that were written to it. */
  lemma {:induction false} ReadWholeLog<R(!new)>(c: Codec<R>, segments: seq<seq<R>>)
    requires Exact(c) && AllFit(c, Flatten(segments))
    ensures ReadLog(c, EncodeSegments(c, segments)) == Flatten(segments)
  {
    if segments != [] {
      var bytes := EncodeSegments(c, segments);
      ReadUncut(c, segments[0]);
      assert bytes[1..] == EncodeSegments(c, segments[1..]);
      ReadWholeLog(c, segments[1..]);
    }
  }

  lemma ReadUncut<R(!new)>(c: Codec<R>, rs: seq<R>)
    requires Exact(c) && AllFit(c, rs)
    ensures ReadSegment(c, EncodeAll(c, rs)) == SegmentRead(rs, false)
  {
    var k := |EncodeAll(c, rs)|;
    WholeWithinIsLongest(c, rs, k);
    var n := WholeWithin(c, rs, k);
    if n < |rs| {
      PrefixEncodesShorter(c, rs, n + 1);
      assert false;
    }
    assert rs[..n] == rs;
    assert EncodeAll(c, rs)[..k] == EncodeAll(c, rs);
    ReadCutSegment(c, rs, k);
  }

  lemma {:induction false} PrefixEncodesShorter<R(!new)>(c: Codec<R>, rs: seq<R>, n: nat)
    requires n <= |rs|
    ensures |EncodeAll(c, rs[..n])| <= |EncodeAll(c, rs)|
  {
    if n > 0 {
      assert rs[..n][1..] == rs[1..][..n - 1];
      PrefixEncodesShorter(c, rs[1..], n - 1);
    }
  }

  /** What survives from segment `j` on when that segment is cut at byte `k`: the longest whole
      prefix of it, and -- only when the cut is on a record boundary, which looks like a sealed
      segment's clean end -- everything after it. */
  ghost function Survivors<R(!new)>(c: Codec<R>, segments: seq<seq<R>>, j: nat, k: nat): seq<R>
    requires j < |segments|
  {
    var n := WholeWithin(c, segments[j], k);
    segments[j][..n] +
    (if |EncodeAll(c, segments[j][..n])| < k then [] else Flatten(segments[j + 1..]))
  }

  /** The whole-log statement: a cut anywhere leaves the segments before it and the survivors. */
  lemma {:induction false} CutLog<R(!new)>(c: Codec<R>, segments: seq<seq<R>>, j: nat, k: nat)
    requires Exact(c) && AllFit(c, Flatten(segments))
    requires j < |segments| && k <= |EncodeAll(c, segments[j])|
    ensures var bytes := EncodeSegments(c, segments);
      ReadLog(c, bytes[j := bytes[j][..k]]) == Flatten(segments[..j]) + Survivors(c, segments, j, k)
  {
    if j == 0 {
      CutFirstSegment(c, segments, k);
    } else {
      var rest := segments[1..];
      CutLog(c, rest, j - 1, k);
      ReadPastWhole(c, segments, j, k);
      FlattenStep(segments, j);
      SurvivorsStep(c, segments, j, k);
      Associative(segments[0], Flatten(rest[..j - 1]), Survivors(c, rest, j - 1, k));
    }
  }

  lemma Associative<R>(a: seq<R>, b: seq<R>, c: seq<R>)
    ensures a + (b + c) == a + b + c
  {
  }

  lemma SurvivorsStep<R(!new)>(c: Codec<R>, segments: seq<seq<R>>, j: nat, k: nat)
    requires 0 < j < |segments|
    ensures Survivors(c, segments, j, k) == Survivors(c, segments[1..], j - 1, k)
  {
    assert segments[1..][j..] == segments[j + 1..];
  }

  lemma CutFirstSegment<R(!new)>(c: Codec<R>, segments: seq<seq<R>>, k: nat)
    requires Exact(c) && AllFit(c, Flatten(segments))
    requires segments != [] && k <= |EncodeAll(c, segments[0])|
    ensures var bytes := EncodeSegments(c, segments);
      ReadLog(c, bytes[0 := bytes[0][..k]]) == Survivors(c, segments, 0, k)
  {
    var bytes := EncodeSegments(c, segments);
    ReadCutSegment(c, segments[0], k);
    ReadWholeLog(c, segments[1..]);
    assert bytes[0 := bytes[0][..k]][1..] == EncodeSegments(c, segments[1..]);
    WholeWithinIsLongest(c, segments[0], k);
  }

  lemma ReadPastWhole<R(!new)>(c: Codec<R>, segments: seq<seq<R>>, j: nat, k: nat)
    requires Exact(c) && AllFit(c, Flatten(segments))
    requires 0 < j < |segments| && k <= |EncodeAll(c, segments[j])|
    ensures var bytes := EncodeSegments(c, segments);
      var rest := EncodeSegments(c, segments[1..]);
      ReadLog(c, bytes[j := bytes[j][..k]])
      == segments[0] + ReadLog(c, rest[j - 1 := rest[j - 1][..k]])
  {
    var bytes := EncodeSegments(c, segments);
    var rest := EncodeSegments(c, segments[1..]);
    ReadUncut(c, segments[0]);
    assert bytes[j := bytes[j][..k]][1..] == rest[j - 1 := rest[j - 1][..k]];
  }

  lemma FlattenStep<R>(segments: seq<seq<R>>, j: nat)
    requires 0 < j <= |segments|
    ensures Flatten(segments[..j]) == segments[0] + Flatten(segments[1..][..j - 1])
  {
    assert segments[..j][1..] == segments[1..][..j - 1];
  }

  /** A tear in the last segment, wherever it falls, reads back as a prefix of the log: all of it if
      nothing was cut. */
  lemma TornTailIsPrefix<R(!new)>(c: Codec<R>, segments: seq<seq<R>>, k: nat)
    requires Exact(c) && AllFit(c, Flatten(segments))
    requires segments != [] && k <= |EncodeAll(c, segments[|segments| - 1])|
    ensures var j := |segments| - 1;
      var bytes := EncodeSegments(c, segments);
      && ReadLog(c, bytes[j := bytes[j][..k]]) <= Flatten(segments)
      && (k == |EncodeAll(c, segments[j])| ==> ReadLog(c, bytes[j := bytes[j][..k]]) == Flatten(segments))
  {
    hide Exact, AllFit, EncodeAll, EncodeSegments, ReadLog, Survivors, Flatten;
    var j := |segments| - 1;
    CutLog(c, segments, j, k);
    LastSurvivors(c, segments, k);
    FlattenLast(segments);
    if k == |EncodeAll(c, segments[j])| {
      ReadWholeLog(c, segments);
      var bytes := EncodeSegments(c, segments);
      assert bytes[j][..k] == bytes[j] && bytes[j := bytes[j]] == bytes;
    }
  }

  lemma {:induction false} LastSurvivors<R(!new)>(c: Codec<R>, segments: seq<seq<R>>, k: nat)
    requires segments != []
    ensures Survivors(c, segments, |segments| - 1, k) <= segments[|segments| - 1]
  {
    hide EncodeAll;
    assert segments[|segments| - 1 + 1..] == [];
  }

  lemma {:induction false} FlattenLast<R>(segments: seq<seq<R>>)
    requires segments != []
    ensures Flatten(segments) == Flatten(segments[..|segments| - 1]) + segments[|segments| - 1]
  {
    var j := |segments| - 1;
    FlattenSplit(segments, j);
    assert segments[j..] == [segments[j]];
  }

  lemma {:induction false} FlattenSplit<R>(segments: seq<seq<R>>, j: nat)
    requires j <= |segments|
    ensures Flatten(segments) == Flatten(segments[..j]) + Flatten(segments[j..])
  {
    if j > 0 {
      FlattenSplit(segments[1..], j - 1);
      assert segments[..j][1..] == segments[1..][..j - 1];
      assert segments[1..][j - 1..] == segments[j..];
    }
  }

  /** For a segment that is not the last the reader cannot always tell. With all records distinct
      (log sequence numbers make them so), what is read is a prefix of the log exactly when the
      cut lost nothing, or fell inside a record, or nothing was written after it. */
  lemma SealedCutIsPrefixIff<R(!new)>(c: Codec<R>, segments: seq<seq<R>>, j: nat, k: nat)
    requires Exact(c) && AllFit(c, Flatten(segments))
    requires j < |segments| && k <= |EncodeAll(c, segments[j])|
    requires forall a, b :: 0 <= a < b < |Flatten(segments)| ==> Flatten(segments)[a] != Flatten(segments)[b]
    ensures var bytes := EncodeSegments(c, segments);
      var n := WholeWithin(c, segments[j], k);
      ReadLog(c, bytes[j := bytes[j][..k]]) <= Flatten(segments)
      <==> n == |segments[j]| || |EncodeAll(c, segments[j][..n])| < k || Flatten(segments[j + 1..]) == []
  {
    CutLog(c, segments, j, k);
    WholeWithinIsLongest(c, segments[j], k);
    FlattenAround(segments, j);
    var n := WholeWithin(c, segments[j], k);
    PrefixAfterHoleIff(Flatten(segments[..j]), segments[j], Flatten(segments[j + 1..]), n,
      |EncodeAll(c, segments[j][..n])| == k);
  }

  /** Two segments, the first sealed with two records and then cut between them: the reader takes the
      cut for a clean end and goes on, losing a record from the middle. */
  lemma SealedCutLosesTheMiddle<R(!new)>(c: Codec<R>, x: R, y: R, z: R)
    requires Exact(c) && c.fits(x) && c.fits(y) && c.fits(z)
    requires x != y && y != z && x != z
    ensures var bytes := EncodeSegments(c, [[x, y], [z]]);
      var k := |c.encode(x)|;
      k <= |bytes[0]| && ReadLog(c, bytes[0 := bytes[0][..k]]) == [x, z]
    ensures Flatten([[x, y], [z]]) == [x, y, z] && !([x, z] <= [x, y, z])
  {
    var segments := [[x, y], [z]];
    var k := |c.encode(x)|;
    assert [x, z][1] != [x, y, z][1];
    assert [x, y][1..] == [y] && [y][1..] == [] && [x][1..] == [] && [z][1..] == [];
    assert EncodeAll(c, [x]) == c.encode(x) + EncodeAll(c, []) == c.encode(x);
    assert EncodeAll(c, [y]) == c.encode(y) + EncodeAll(c, []) == c.encode(y);
    assert EncodeAll(c, [x, y]) == c.encode(x) + EncodeAll(c, [y]);
    assert segments[1..] == [[z]] && [[z]][1..] == [];
    assert Flatten([[z]]) == [z] + Flatten([]) == [z];
    assert Flatten(segments) == [x, y] + [z] == [x, y, z];
    NonEmpty(c, y);
    assert WholeWithin(c, [y], 0) == 0;
    assert WholeWithin(c, [x, y], k) == 1;
    assert [x, y][..1] == [x];
    assert segments[..0] == [];
    CutLog(c, segments, 0, k);
  }

  lemma NonEmpty<R(!new)>(c: Codec<R>, r: R)
    requires Exact(c) && c.fits(r)
    ensures 0 < |c.encode(r)|
  {
    assert DecodesWhole(c, r, []);
  }

  lemma FlattenAround<R>(segments: seq<seq<R>>, j: nat)
    requires j < |segments|
    ensures Flatten(segments) == Flatten(segments[..j]) + segments[j] + Flatten(segments[j + 1..])
  {
    FlattenSplit(segments, j);
    assert segments[j..][1..] == segments[j + 1..];
  }

  /** Dropping the tail of the middle part and keeping what follows is a prefix only if nothing
      was dropped or nothing follows. */
  lemma PrefixAfterHoleIff<R>(pre: seq<R>, mid: seq<R>, later: seq<R>, n: nat, keep: bool)
    requires n <= |mid|
    requires forall a, b :: 0 <= a < b < |pre + mid + later| ==> (pre + mid + later)[a] != (pre + mid + later)[b]
    ensures pre + (mid[..n] + (if keep then later else [])) <= pre + mid + later
            <==> n == |mid| || !keep || later == []
  {
    var all := pre + mid + later;
    if n == |mid| {
      assert mid[..n] == mid;
      assert pre + (mid + later) == pre + mid + later;
      assert pre + (mid + []) == (pre + mid + later)[..|pre| + n];
    } else if keep && later != [] {
      var at := |pre| + n;
      assert all[at] != all[|pre| + |mid|] == later[0];
      assert (pre + (mid[..n] + later))[at] == later[0];
    } else {
      assert pre + (mid[..n] + []) == all[..|pre| + n];
    }
  }
}
