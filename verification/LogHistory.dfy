/** What the fold of a log means: how it splits, what a checkpoint changes, when the emitted
    commits chain, and what every log of an honest primary looks like. */
module LogHistory {
  import opened Substrate
  import opened WalFrames
  import opened WalReader
  import opened WalSource

  // ---- Folding splits at any point ---------------------------------------------------------

  lemma {:induction false} FoldSplit(checkpoint: Option<Lsn>, st: Fold, a: seq<Record>, b: seq<Record>)
    ensures FoldLog(checkpoint, st, a + b) == FoldLog(checkpoint, FoldLog(checkpoint, st, a), b)
  {
    if b == [] {
      assert a + b == a;
    } else {
      var n := |b| - 1;
      FoldSplit(checkpoint, st, a, b[..n]);
      assert (a + b)[..|a| + n] == a + b[..n];
    }
  }

  /** What is emitted before does not influence what is emitted after. */
  lemma {:induction false} FoldIgnoresEmitted(checkpoint: Option<Lsn>, st: Fold, pre: seq<LoggedCommit>, b: seq<Record>)
    ensures var plain := FoldLog(checkpoint, st, b);
      FoldLog(checkpoint, st.(commits := pre + st.commits), b) == plain.(commits := pre + plain.commits)
  {
    if b != [] {
      var n := |b| - 1;
      FoldIgnoresEmitted(checkpoint, st, pre, b[..n]);
      var before := FoldLog(checkpoint, st, b[..n]);
      if b[n].kind.Commit? {
        var c := LoggedCommit(before.base, b[n].kind.manifest, b[n].lsn, b[n].kind.createdAtMs, before.pending);
        Associative(pre, before.commits, [c]);
      }
    }
  }

  /** Reading a longer log only adds commits at the end. */
  lemma LongerLogShipsMore(checkpoint: Option<Lsn>, st: Fold, a: seq<Record>, b: seq<Record>)
    requires a <= b
    ensures FoldLog(checkpoint, st, a).commits <= FoldLog(checkpoint, st, b).commits
  {
    FoldGrows(checkpoint, st, b, |a|);
    assert b[..|a|] == a;
  }

  // ---- Checkpoints -------------------------------------------------------------------------

  function Above(records: seq<Record>, lsn: Lsn): seq<Record> {
    if records == [] then [] else
      var n := |records| - 1;
      Above(records[..n], lsn) + (if records[n].lsn > lsn then [records[n]] else [])
  }

  predicate Ordered(records: seq<Record>) {
    forall i, j :: 0 <= i < j < |records| ==> records[i].lsn < records[j].lsn
  }

  predicate AllAbove(records: seq<Record>, lsn: Lsn) {
    forall r :: r in records ==> r.lsn > lsn
  }

  predicate AllCovered(records: seq<Record>, lsn: Lsn) {
    forall r :: r in records ==> r.lsn <= lsn
  }

  /** The covered records do not exist as far as the fold is concerned. */
  lemma {:induction false} FoldSkipsCovered(lsn: Lsn, st: Fold, records: seq<Record>)
    ensures FoldLog(Some(lsn), st, records) == FoldLog(None, st, Above(records, lsn))
  {
    if records != [] {
      var n := |records| - 1;
      FoldSkipsCovered(lsn, st, records[..n]);
      var rest := Above(records[..n], lsn);
      if records[n].lsn > lsn {
        assert (rest + [records[n]])[..|rest|] == rest;
      } else {
        assert rest + [] == rest;
      }
    }
  }

  lemma {:induction false} AboveSplit(a: seq<Record>, b: seq<Record>, lsn: Lsn)
    ensures Above(a + b, lsn) == Above(a, lsn) + Above(b, lsn)
  {
    hide Above;
    NoneAbove(lsn);
    if b == [] {
      assert a + b == a;
      assert Above(a, lsn) + [] == Above(a, lsn);
    } else {
      var n := |b| - 1;
      AboveSplit(a, b[..n], lsn);
      AboveSnoc(a + b[..n], b[n], lsn);
      AboveSnoc(b[..n], b[n], lsn);
      assert a + b == a + b[..n] + [b[n]] && b == b[..n] + [b[n]];
      Associative(Above(a, lsn), Above(b[..n], lsn), if b[n].lsn > lsn then [b[n]] else []);
    }
  }

  lemma NoneAbove(lsn: Lsn)
    ensures Above([], lsn) == []
  {
  }

  lemma AboveSnoc(a: seq<Record>, r: Record, lsn: Lsn)
    ensures Above(a + [r], lsn) == Above(a, lsn) + (if r.lsn > lsn then [r] else [])
  {
    assert (a + [r])[..|a|] == a;
  }

  lemma {:induction false} AboveOfCovered(records: seq<Record>, lsn: Lsn)
    ensures AllCovered(records, lsn) ==> Above(records, lsn) == []
    ensures AllAbove(records, lsn) ==> Above(records, lsn) == records
  {
    hide Above;
    if records == [] {
      NoneAbove(lsn);
    } else {
      var n := |records| - 1;
      AboveOfCovered(records[..n], lsn);
      AboveSnoc(records[..n], records[n], lsn);
      assert records == records[..n] + [records[n]];
      assert records[n] in records;
    }
  }

  lemma {:induction false} CommitLsns(st: Fold, records: seq<Record>, lsn: Lsn)
    requires st.commits == []
    ensures AllCovered(records, lsn) ==> forall c :: c in FoldLog(None, st, records).commits ==> c.lsn <= lsn
    ensures AllAbove(records, lsn) ==> forall c :: c in FoldLog(None, st, records).commits ==> c.lsn > lsn
  {
    if records != [] {
      var n := |records| - 1;
      CommitLsns(st, records[..n], lsn);
      assert records[n] in records;
    }
  }

  lemma {:induction false} FromAll(commits: seq<LoggedCommit>, from: Lsn)
    ensures (forall c :: c in commits ==> c.lsn >= from) ==> From(commits, from) == commits
    ensures (forall c :: c in commits ==> c.lsn < from) ==> From(commits, from) == []
  {
    if commits != [] {
      var n := |commits| - 1;
      FromAll(commits[..n], from);
      assert commits == commits[..n] + [commits[n]];
    }
  }

  lemma {:induction false} FromSplit(a: seq<LoggedCommit>, b: seq<LoggedCommit>, from: Lsn)
    ensures From(a + b, from) == From(a, from) + From(b, from)
  {
    if b == [] {
      assert a + b == a;
    } else {
      var n := |b| - 1;
      FromSplit(a, b[..n], from);
      assert (a + b)[..|a| + n] == a + b[..n];
      assert (a + b)[|a| + n] == b[n];
    }
  }

  lemma {:induction false} FromFrom(commits: seq<LoggedCommit>, x: Lsn, y: Lsn)
    ensures From(From(commits, x), y) == From(commits, if x < y then y else x)
  {
    if commits != [] {
      var n := |commits| - 1;
      FromFrom(commits[..n], x, y);
      var front := From(commits[..n], x);
      if commits[n].lsn >= x {
        FromSnoc(front, commits[n], y);
      } else {
        assert front + [] == front;
      }
    }
  }

  /** A checkpoint at a commit boundary is transparent. The full log is `covered + rest`, and what
      it holds up to the marker folds to the marker's manifest with nothing pending. Whatever is
      left of the covered part on disk, folding from the marker emits exactly the commits the full
      log emits above the marker, bases and change sets included, and ends in the same place. */
  lemma CheckpointTransparent(root: Manifest, covered: seq<Record>, rest: seq<Record>, kept: seq<Record>,
                              marker: Marker)
    requires AllCovered(covered, marker.lsn) && AllAbove(rest, marker.lsn)
    requires Above(kept, marker.lsn) == rest
    requires var at := FoldLog(None, Begin(root), covered);
      at.base == marker.manifest && at.pending == map[]
    ensures var full := FoldLog(None, Begin(root), covered + rest);
      var after := FoldLog(Some(marker.lsn), Begin(marker.manifest), kept);
      && after.commits == From(full.commits, marker.lsn + 1)
      && after.base == full.base && after.pending == full.pending
  {
    hide FoldLog, Above, From, AllCovered, AllAbove;
    var at := FoldLog(None, Begin(root), covered);
    var after := FoldLog(None, Begin(marker.manifest), rest);
    FoldSkipsCovered(marker.lsn, Begin(marker.manifest), kept);
    FoldSplit(None, Begin(root), covered, rest);
    assert at == Begin(marker.manifest).(commits := at.commits + []);
    FoldIgnoresEmitted(None, Begin(marker.manifest), at.commits, rest);
    CommitLsns(Begin(root), covered, marker.lsn);
    CommitLsns(Begin(marker.manifest), rest, marker.lsn);
    FromAll(at.commits, marker.lsn + 1);
    FromAll(after.commits, marker.lsn + 1);
    FromSplit(at.commits, after.commits, marker.lsn + 1);
  }

  function Kept<T>(segments: seq<T>, keep: seq<bool>): seq<T>
    requires |segments| == |keep|
  {
    if segments == [] then []
    else (if keep[0] then [segments[0]] else []) + Kept(segments[1..], keep[1..])
  }

  /** Deleting segments the checkpoint wholly covers removes nothing above it. */
  lemma {:induction false} DeletingCoveredSegments(segments: seq<seq<Record>>, keep: seq<bool>, lsn: Lsn)
    requires |segments| == |keep|
    requires forall i :: 0 <= i < |segments| && !keep[i] ==> AllCovered(segments[i], lsn)
    ensures Above(Flatten(Kept(segments, keep)), lsn) == Above(Flatten(segments), lsn)
  {
    if segments != [] {
      var kept := Kept(segments[1..], keep[1..]);
      DeletingCoveredSegments(segments[1..], keep[1..], lsn);
      AboveSplit(segments[0], Flatten(segments[1..]), lsn);
      if keep[0] {
        FlattenCons(segments[0], kept);
        AboveSplit(segments[0], Flatten(kept), lsn);
      } else {
        assert Kept(segments, keep) == kept;
        AboveOfCovered(segments[0], lsn);
        assert [] + Above(Flatten(segments[1..]), lsn) == Above(Flatten(segments[1..]), lsn);
      }
    }
  }

  lemma FlattenCons<R>(first: seq<R>, rest: seq<seq<R>>)
    ensures Flatten([first] + rest) == first + Flatten(rest)
  {
    assert ([first] + rest)[1..] == rest;
  }

  /** `src` holds exactly these segments, whole; its codec has room for every record in them. */
  ghost predicate Holds(src: Source, segments: seq<seq<Record>>) {
    && Exact(src.codec) && AllFit(src.codec, Flatten(segments))
    && src.segments == EncodeSegments(src.codec, segments)
  }

  /** The byte-level statement, for two sources over the same page store: one with no readable
      marker and the whole log, one with a durable marker and any wholly-covered segments deleted.
      The second ships what the first ships from just above the marker on. */
  lemma CheckpointedSourceShipsSuffix(full: Source, after: Source, segments: seq<seq<Record>>, keep: seq<bool>,
                                      marker: Marker, covered: seq<Record>, rest: seq<Record>, from: Lsn)
    requires |segments| == |keep|
    requires Holds(full, segments) && full.ReadCheckpoint() == None
    requires Holds(after, Kept(segments, keep)) && after.ReadCheckpoint() == Some(marker)
    requires after.cas == full.cas
    requires forall i :: 0 <= i < |segments| && !keep[i] ==> AllCovered(segments[i], marker.lsn)
    requires Flatten(segments) == covered + rest
    requires AllCovered(covered, marker.lsn) && AllAbove(rest, marker.lsn)
    requires var at := FoldLog(None, Begin(Root(full.pageSize)), covered);
      at.base == marker.manifest && at.pending == map[]
    ensures Shipments(after, from) == Shipments(full, if from <= marker.lsn then marker.lsn + 1 else from)
  {
    ReadWholeLog(full.codec, segments);
    ReadWholeLog(after.codec, Kept(segments, keep));
    KeptAbove(segments, keep, marker.lsn, covered, rest);
    CheckpointedRecordsShipSuffix(full, after, marker, covered, rest, from);
  }

  lemma KeptAbove(segments: seq<seq<Record>>, keep: seq<bool>, lsn: Lsn, covered: seq<Record>, rest: seq<Record>)
    requires |segments| == |keep|
    requires forall i :: 0 <= i < |segments| && !keep[i] ==> AllCovered(segments[i], lsn)
    requires Flatten(segments) == covered + rest
    requires AllCovered(covered, lsn) && AllAbove(rest, lsn)
    ensures Above(Flatten(Kept(segments, keep)), lsn) == rest
  {
    DeletingCoveredSegments(segments, keep, lsn);
    AboveSplit(covered, rest, lsn);
    AboveOfCovered(covered, lsn);
    AboveOfCovered(rest, lsn);
    assert [] + rest == rest;
  }

  lemma CheckpointedRecordsShipSuffix(full: Source, after: Source, marker: Marker,
                                      covered: seq<Record>, rest: seq<Record>, from: Lsn)
    requires Progresses(full.codec) && Progresses(after.codec)
    requires full.ReadCheckpoint() == None && after.ReadCheckpoint() == Some(marker)
    requires after.cas == full.cas
    requires ReadLog(full.codec, full.segments) == covered + rest
    requires Above(ReadLog(after.codec, after.segments), marker.lsn) == rest
    requires AllCovered(covered, marker.lsn) && AllAbove(rest, marker.lsn)
    requires var at := FoldLog(None, Begin(Root(full.pageSize)), covered);
      at.base == marker.manifest && at.pending == map[]
    ensures Shipments(after, from) == Shipments(full, if from <= marker.lsn then marker.lsn + 1 else from)
  {
    hide FoldLog, ReadLog, Above, From, BuildAll;
    CheckpointTransparent(Root(full.pageSize), covered, rest, ReadLog(after.codec, after.segments), marker);
    FromFrom(Commits(full), marker.lsn + 1, from);
  }

  /** A source whose last segment is torn ships a prefix of what the whole log ships. */
  lemma TornSourceShipsPrefix(whole: Source, torn: Source, segments: seq<seq<Record>>, k: nat)
    requires Holds(whole, segments) && segments != []
    requires k <= |EncodeAll(whole.codec, segments[|segments| - 1])|
    requires torn == whole.(segments := whole.segments[|segments| - 1 := whole.segments[|segments| - 1][..k]])
    ensures Commits(torn) <= Commits(whole)
    ensures Shipments(whole, 0).Ok? ==>
      Shipments(torn, 0).Ok? && Shipments(torn, 0).value <= Shipments(whole, 0).value
  {
    ReadWholeLog(whole.codec, segments);
    TornTailIsPrefix(whole.codec, segments, k);
    ShorterLogShipsPrefix(whole, torn);
  }

  /** A marker cut at any byte, or none at all, over a whole log: the fold starts from the root and
      ships everything. */
  lemma TornMarkerShipsWhole(whole: Source, torn: Source, marker: Marker, k: nat, from: Lsn)
    requires Exact(whole.codec) && whole.checkpointFile == None
    requires whole.codec.fits(Record(marker.lsn, Checkpoint(marker.manifest)))
    requires var file := whole.codec.encode(Record(marker.lsn, Checkpoint(marker.manifest)));
      k < |file| && torn == whole.(checkpointFile := Some(file[..k]))
    ensures torn.ReadCheckpoint() == None && torn.StartHead() == Root(whole.pageSize)
    ensures Shipments(torn, from) == Shipments(whole, from)
  {
    assert TornWithin(whole.codec, Record(marker.lsn, Checkpoint(marker.manifest)), k);
  }

  lemma ShorterLogShipsPrefix(whole: Source, torn: Source)
    requires Progresses(whole.codec)
    requires torn == whole.(segments := torn.segments)
    requires ReadLog(torn.codec, torn.segments) <= ReadLog(whole.codec, whole.segments)
    ensures Commits(torn) <= Commits(whole)
    ensures Shipments(whole, 0).Ok? ==>
      Shipments(torn, 0).Ok? && Shipments(torn, 0).value <= Shipments(whole, 0).value
  {
    hide FoldLog, ReadLog, From, BuildAll;
    LongerLogShipsMore(whole.CheckpointLsn(), Begin(whole.StartHead()),
      ReadLog(torn.codec, torn.segments), ReadLog(whole.codec, whole.segments));
    FromAll(Commits(torn), 0);
    FromAll(Commits(whole), 0);
    BuildAllPrefix(whole.cas, Commits(whole), |Commits(torn)|);
    assert Commits(whole)[..|Commits(torn)|] == Commits(torn);
  }

  // ---- Chains ------------------------------------------------------------------------------

  /** Where the primary stands after its first `i` commits. */
  function HeadAfter(start: Manifest, commits: seq<LoggedCommit>, i: nat): Manifest
    requires i <= |commits|
  {
    if i == 0 then start else commits[i - 1].manifest
  }

  /** Each commit builds on the one before, the first on `start`. */
  predicate Chained(start: Manifest, commits: seq<LoggedCommit>) {
    forall i {:trigger HeadAfter(start, commits, i)} ::
      0 <= i < |commits| ==> commits[i].base == HeadAfter(start, commits, i)
  }

  /** The log of a primary that only ever commits and checkpoints: every commit record names the
      manifest its writes derive, and every inline checkpoint names the manifest current there,
      between transactions. */
  predicate Straight(start: Manifest, records: seq<Record>) {
    records == [] ||
    var n := |records| - 1;
    && Straight(start, records[..n])
    && var st := FoldLog(None, Begin(start), records[..n]);
       match records[n].kind
       case Write(_, _) => true
       case Commit(manifest, createdAtMs) =>
         manifest == CommitTo(st.base, st.pending, createdAtMs) && manifest != st.base
       case Checkpoint(manifest) => manifest == st.base && st.pending == map[]
  }

  /** The commit names the manifest its change set really derives from its base. */
  ghost predicate Genuine(c: LoggedCommit) {
    c.manifest == CommitTo(c.base, c.changes, c.createdAtMs) && c.manifest != c.base
  }

  lemma {:induction false} StraightLogsChain(start: Manifest, records: seq<Record>)
    requires Straight(start, records)
    ensures var st := FoldLog(None, Begin(start), records);
      && Chained(start, st.commits)
      && st.base == HeadAfter(start, st.commits, |st.commits|)
      && forall c :: c in st.commits ==> Genuine(c)
  {
    if records != [] {
      var n := |records| - 1;
      StraightLogsChain(start, records[..n]);
      var before := FoldLog(None, Begin(start), records[..n]);
      if records[n].kind.Commit? {
        var c := LoggedCommit(before.base, records[n].kind.manifest, records[n].lsn,
          records[n].kind.createdAtMs, before.pending);
        assert Genuine(c);
        ChainedConcat(start, before.commits, before.base, [c]);
      }
    }
  }

  lemma {:induction false} StraightPrefix(start: Manifest, records: seq<Record>, i: nat)
    requires Straight(start, records) && i <= |records|
    ensures Straight(start, records[..i])
  {
    if i == |records| {
      assert records[..i] == records;
    } else {
      var n := |records| - 1;
      StraightPrefix(start, records[..n], i);
      assert records[..n][..i] == records[..i];
    }
  }

  ghost predicate CommitsClimb(commits: seq<LoggedCommit>) {
    forall i, j :: 0 <= i < j < |commits| ==> commits[i].lsn < commits[j].lsn
  }

  lemma {:induction false} CommitsOrdered(st: Fold, records: seq<Record>)
    requires st.commits == [] && Ordered(records)
    ensures var commits := FoldLog(None, st, records).commits;
      && CommitsClimb(commits)
      && (records != [] ==> forall c :: c in commits ==> c.lsn <= records[|records| - 1].lsn)
  {
    if records != [] {
      var n := |records| - 1;
      var last := records[n];
      CommitsOrdered(st, records[..n]);
      var before := FoldLog(None, st, records[..n]);
      forall c | c in before.commits ensures c.lsn < last.lsn {
        assert records[..n][n - 1].lsn < last.lsn;
      }
      if last.kind.Commit? {
        var c := LoggedCommit(before.base, last.kind.manifest, last.lsn, last.kind.createdAtMs, before.pending);
        ClimbsOn(before.commits, c);
      }
    }
  }

  lemma ClimbsOn(commits: seq<LoggedCommit>, c: LoggedCommit)
    requires CommitsClimb(commits) && forall d :: d in commits ==> d.lsn < c.lsn
    ensures CommitsClimb(commits + [c])
  {
  }

  /** An inline checkpoint that names some manifest `m` between two straight stretches of log --
      what a rewind whose marker was lost leaves behind -- keeps the chain exactly when `m` is the
      manifest current at that point. */
  lemma InlineCheckpointChainsIff(start: Manifest, a: seq<Record>, lsn: Lsn, m: Manifest, b: seq<Record>)
    requires Straight(start, a) && Straight(m, b)
    requires FoldLog(None, Begin(m), b).commits != []
    ensures var current := FoldLog(None, Begin(start), a).base;
      Chained(start, FoldLog(None, Begin(start), a + [Record(lsn, Checkpoint(m))] + b).commits)
      <==> m == current
  {
    var first := FoldLog(None, Begin(start), a);
    var second := FoldLog(None, Begin(m), b);
    var ck := [Record(lsn, Checkpoint(m))];
    StraightLogsChain(start, a);
    StraightLogsChain(m, b);
    FoldSplit(None, Begin(start), a + ck, b);
    FoldSplit(None, Begin(start), a, ck);
    assert FoldLog(None, first, ck) == Begin(m).(commits := first.commits + []);
    FoldIgnoresEmitted(None, Begin(m), first.commits, b);
    ChainedConcat(start, first.commits, m, second.commits);
  }

  /** What follows an inline checkpoint ships as if it were a log of its own, begun at the manifest the
      checkpoint names: neither the base nor a write that was pending before it has any part in it. */
  lemma InlineCheckpointForgets(st: Fold, lsn: Lsn, m: Manifest, rest: seq<Record>)
    ensures var after := FoldLog(None, st, [Record(lsn, Checkpoint(m))] + rest);
      var alone := FoldLog(None, Fold(m, map[], []), rest);
      && after.commits == st.commits + alone.commits
      && after.base == alone.base && after.pending == alone.pending
  {
    var ck := [Record(lsn, Checkpoint(m))];
    FoldSplit(None, st, ck, rest);
    assert FoldLog(None, st, ck) == Begin(m).(commits := st.commits + []) by {
      assert ck[..0] == [] && FoldLog(None, st, []) == st;
    }
    FoldIgnoresEmitted(None, Begin(m), st.commits, rest);
  }

  /** One page written on an empty root. */
  function OnePage(root: Manifest, a: Bytes, nowMs: nat): Manifest {
    Derive(root, map[0 := Some(PageId(a))], nowMs)
  }

  /** A commit, a rewind to the root whose marker was lost, and another commit. */
  function RewoundLog(a: Bytes, b: Bytes): seq<Record> {
    var root := Root(1);
    [Record(0, Write(0, Some(PageId(a)))), Record(1, Commit(OnePage(root, a, 1), 1)), Record(2, Checkpoint(root)),
     Record(3, Write(0, Some(PageId(b)))), Record(4, Commit(OnePage(root, b, 2), 2))]
  }

  /** The second of its shipments is built on the root, not on the first. */
  lemma LostRewindBreaksTheChain(a: Bytes, b: Bytes)
    requires a != b
    ensures var root := Root(1);
      var commits := FoldLog(None, Begin(root), RewoundLog(a, b)).commits;
      && commits == [LoggedCommit(root, OnePage(root, a, 1), 1, 1, map[0 := Some(PageId(a))]),
                     LoggedCommit(root, OnePage(root, b, 2), 4, 2, map[0 := Some(PageId(b))])]
      && Genuine(commits[0]) && Genuine(commits[1]) && !Chained(root, commits)
  {
    hide ApplyChanges;
    var root := Root(1);
    var first, second := OnePage(root, a, 1), OnePage(root, b, 2);
    OnePageCommits(root, a, 0, 1);
    OnePageCommits(root, b, 3, 2);
    var one := [Record(0, Write(0, Some(PageId(a)))), Record(1, Commit(first, 1))];
    var two := [Record(3, Write(0, Some(PageId(b)))), Record(4, Commit(second, 2))];
    InlineCheckpointChainsIff(root, one, 2, root, two);
    var ck := [Record(2, Checkpoint(root))];
    var log := one + ck + two;
    FoldSplit(None, Begin(root), one + ck, two);
    FoldSplit(None, Begin(root), one, ck);
    var at := FoldLog(None, Begin(root), one);
    assert FoldLog(None, at, ck) == Begin(root).(commits := at.commits + []) by {
      assert ck[..0] == [];
    }
    FoldIgnoresEmitted(None, Begin(root), at.commits, two);
    assert log == RewoundLog(a, b);
  }

  /** One write and its commit on an empty root. */
  lemma OnePageCommits(root: Manifest, a: Bytes, lsn: Lsn, nowMs: nat)
    requires root.Root?
    ensures var changes := map[0 := Some(PageId(a))];
      var m := OnePage(root, a, nowMs);
      var log := [Record(lsn, Write(0, Some(PageId(a)))), Record(lsn + 1, Commit(m, nowMs))];
      && Straight(root, log)
      && FoldLog(None, Begin(root), log) == Fold(m, map[], [LoggedCommit(root, m, lsn + 1, nowMs, changes)])
      && Genuine(LoggedCommit(root, m, lsn + 1, nowMs, changes))
  {
    var changes := map[0 := Some(PageId(a))];
    var m := OnePage(root, a, nowMs);
    var log := [Record(lsn, Write(0, Some(PageId(a)))), Record(lsn + 1, Commit(m, nowMs))];
    assert 0 in ApplyChanges(Resolve(root), changes);
    assert CommitTo(root, changes, nowMs) == m != root;
    assert log[..1] == [log[0]] && log[..1][..0] == [];
    assert FoldLog(None, Begin(root), []) == Begin(root);
    assert FoldLog(None, Begin(root), log[..1]) == Fold(root, changes, []);
  }

  lemma ChainedConcat(start: Manifest, a: seq<LoggedCommit>, m: Manifest, b: seq<LoggedCommit>)
    requires Chained(start, a) && Chained(m, b) && b != []
    ensures Chained(start, a + b) <==> m == HeadAfter(start, a, |a|)
  {
    var all, k := a + b, |a|;
    assert b[0].base == HeadAfter(m, b, 0) == m && all[k] == b[0];
    assert HeadAfter(start, all, k) == HeadAfter(start, a, k);
    if m == HeadAfter(start, a, |a|) {
      forall i | 0 <= i < |all|
        ensures all[i].base == HeadAfter(start, all, i)
      {
        if i < k {
          assert all[i] == a[i] && HeadAfter(start, all, i) == HeadAfter(start, a, i);
        } else if i > k {
          assert all[i] == b[i - k] && HeadAfter(start, all, i) == HeadAfter(m, b, i - k);
        }
      }
    }
  }
}
