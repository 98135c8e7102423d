/** Whole runs: a primary that commits, checkpoints, rewinds and rolls segments; readers that see
    its log cut at any byte; a network that keeps, repeats and reorders what they read; and a
    follower that applies, catches up, restores, crashes and reopens. */
module Runs {
  import opened Substrate
  import opened WalFrames
  import opened WalReader
  import opened WalSource
  import opened LogHistory
  import opened Replica
  import opened Convergence

  // ---- The primary -------------------------------------------------------------------------

  datatype Primary = Primary(
    pageSize: nat,
    head: Manifest,
    segments: seq<seq<Record>>,
    marker: Option<Marker>,
    nextLsn: Lsn,
    cas: Cas,
    committed: set<Manifest>)
  {
    function Start(): Manifest {
      if marker.Some? then marker.value.manifest else Root(pageSize)
    }

    function CheckpointLsn(): Option<Lsn> {
      if marker.Some? then Some(marker.value.lsn) else None
    }

    ghost function Log(): seq<Record> {
      Flatten(segments)
    }

    /** The records the marker does not cover. */
    ghost function Live(): seq<Record> {
      if marker.Some? then Above(Log(), marker.value.lsn) else Log()
    }
  }

  function Create(pageSize: nat): Primary {
    Primary(pageSize, Root(pageSize), [[]], None, 0, map[], {})
  }

  /** One write record per staged write, each with its own sequence number. */
  function WriteRecords(writes: seq<PageWrite>, lsn: Lsn): (rs: seq<Record>)
    ensures |rs| == |writes|
    ensures forall i :: 0 <= i < |rs| ==> rs[i] == Record(lsn + i, Write(writes[i].pageNo, writes[i].page))
  {
    seq(|writes|, i requires 0 <= i < |writes| => Record(lsn + i, Write(writes[i].pageNo, writes[i].page)))
  }

  function StoreAll(cas: Cas, pages: seq<Bytes>): Cas {
    if pages == [] then cas else
      var n := |pages| - 1;
      StoreAll(cas, pages[..n])[HashPage(pages[n]) := pages[n]]
  }

  /** Append records to the last segment, or seal it and open the next. */
  function Append(segments: seq<seq<Record>>, rs: seq<Record>, roll: bool): seq<seq<Record>>
    requires segments != []
  {
    if roll then segments + [rs]
    else segments[|segments| - 1 := segments[|segments| - 1] + rs]
  }

  /** Page bytes into the store, then the log, then the head; no record when nothing changed. */
  function Commit(p: Primary, pages: seq<Bytes>, writes: seq<PageWrite>, nowMs: nat, roll: bool): Primary
    requires p.segments != []
  {
    var cas := StoreAll(p.cas, pages);
    var m := CommitTo(p.head, LastWriter(writes), nowMs);
    if m == p.head then p.(cas := cas) else
      var rs := WriteRecords(writes, p.nextLsn) + [Record(p.nextLsn + |writes|, RecordKind.Commit(m, nowMs))];
      p.(cas := cas, head := m, segments := Append(p.segments, rs, roll),
         nextLsn := p.nextLsn + |writes| + 1, committed := p.committed + {m})
  }

  /** A durable marker naming `target` as the head; with `target == p.head` a plain checkpoint,
      otherwise a rewind. An inline record may accompany it, and any covered segment but the one
      being written may be deleted. */
  function Mark(p: Primary, target: Manifest, inline: bool, keep: seq<bool>): Primary
    requires p.segments != []
    requires |keep| == |p.segments|
  {
    KeptLast(p.segments, keep[|keep| - 1 := true]);
    var rs := if inline then [Record(p.nextLsn, Checkpoint(target))] else [];
    p.(head := target, marker := Some(Marker(target, p.nextLsn)), nextLsn := p.nextLsn + 1,
       segments := Append(Kept(p.segments, keep[|keep| - 1 := true]), rs, false))
  }

  lemma {:induction false} KeptLast<T>(segments: seq<T>, keep: seq<bool>)
    requires |segments| == |keep| && segments != [] && keep[|keep| - 1]
    ensures Kept(segments, keep) != []
  {
    if !keep[0] {
      KeptLast(segments[1..], keep[1..]);
    }
  }

  datatype PrimaryEvent =
    | Committing(pages: seq<Bytes>, writes: seq<PageWrite>, nowMs: nat, roll: bool)
    | Marking(target: Manifest, inline: bool, keep: seq<bool>)
    // A crash before the commit record: the pages are in the store, and recovery drops what write
    // records there are.
    | Crashing(pages: seq<Bytes>)

  /** A commit's pages are in the store before its records; a head only ever moves to a manifest
      this primary has been at. */
  predicate CanHappen(p: Primary, e: PrimaryEvent) {
    match e
    case Committing(pages, writes, _, _) =>
      forall w :: w in writes && w.page.Some? ==> w.page.value in StoreAll(p.cas, pages)
    case Marking(target, _, keep) =>
      && (target == p.head || target in p.committed || target == Root(p.pageSize))
      && |keep| == |p.segments|
    case Crashing(_) => true
  }

  function Happens(p: Primary, e: PrimaryEvent): Primary
    requires p.segments != [] && CanHappen(p, e)
  {
    match e
    case Committing(pages, writes, nowMs, roll) => Commit(p, pages, writes, nowMs, roll)
    case Marking(target, inline, keep) => Mark(p, target, inline, keep)
    case Crashing(pages) => p.(cas := StoreAll(p.cas, pages))
  }

  ghost predicate LsnsBelow(rs: seq<Record>, lsn: Lsn) {
    forall r :: r in rs ==> r.lsn < lsn
  }

  /** The log above the marker is straight and ends at the head, between transactions, and every
      page of every committed manifest is in the store. */
  ghost predicate PrimaryInv(p: Primary) {
    && p.segments != []
    && Ordered(p.Log()) && LsnsBelow(p.Log(), p.nextLsn)
    && (p.marker.Some? ==> p.marker.value.lsn < p.nextLsn)
    && Straight(p.Start(), p.Live())
    && FoldLog(None, Begin(p.Start()), p.Live()).base == p.head
    && FoldLog(None, Begin(p.Start()), p.Live()).pending == map[]
    && LoggedIn(p.cas, p.committed, FoldLog(None, Begin(p.Start()), p.Live()).commits)
    && Addressed(p.cas)
    && (p.head == Root(p.pageSize) || p.head in p.committed)
    && (forall m :: m in p.committed ==> Stored(p.cas, m))
  }

  ghost predicate LoggedIn(cas: Cas, committed: set<Manifest>, commits: seq<LoggedCommit>) {
    forall c :: c in commits ==>
      && c.manifest in committed
      && (forall n :: n in c.changes && c.changes[n].Some? ==> c.changes[n].value in cas)
  }

  lemma {:induction false} StoreAllMeaning(cas: Cas, pages: seq<Bytes>)
    requires Addressed(cas)
    ensures Addressed(StoreAll(cas, pages))
    ensures cas.Keys <= StoreAll(cas, pages).Keys
  {
    if pages != [] {
      StoreAllMeaning(cas, pages[..|pages| - 1]);
    }
  }

  lemma {:induction false} FlattenConcat<R>(a: seq<seq<R>>, b: seq<seq<R>>)
    ensures Flatten(a + b) == Flatten(a) + Flatten(b)
  {
    if a == [] {
      assert a + b == b;
    } else {
      FlattenConcat(a[1..], b);
      FlattenCons(a[0], a[1..] + b);
      assert a + b == [a[0]] + (a[1..] + b);
      Associative(a[0], Flatten(a[1..]), Flatten(b));
    }
  }

  lemma AppendFlattens(segments: seq<seq<Record>>, rs: seq<Record>, roll: bool)
    requires segments != []
    ensures Append(segments, rs, roll) != []
    ensures Flatten(Append(segments, rs, roll)) == Flatten(segments) + rs
  {
    var n := |segments| - 1;
    if roll {
      FlattenConcat(segments, [rs]);
    } else {
      var last := segments[n];
      assert segments == segments[..n] + [last];
      assert Append(segments, rs, roll) == segments[..n] + [last + rs];
      FlattenConcat(segments[..n], [last]);
      FlattenConcat(segments[..n], [last + rs]);
      Associative(Flatten(segments[..n]), last, rs);
    }
  }

  /** Write records only add to what is pending. */
  lemma {:induction false} WritesAccumulate(st: Fold, writes: seq<PageWrite>, lsn: Lsn)
    ensures FoldLog(None, st, WriteRecords(writes, lsn)) == st.(pending := st.pending + LastWriter(writes))
  {
    var rs := WriteRecords(writes, lsn);
    if writes != [] {
      var n := |writes| - 1;
      WritesAccumulate(st, writes[..n], lsn);
      assert rs[..n] == WriteRecords(writes[..n], lsn);
    } else {
      assert st.pending + map[] == st.pending;
    }
  }

  lemma {:induction false} WritesStayStraight(start: Manifest, before: seq<Record>, writes: seq<PageWrite>, lsn: Lsn)
    requires Straight(start, before)
    ensures Straight(start, before + WriteRecords(writes, lsn))
  {
    var rs := WriteRecords(writes, lsn);
    if writes == [] {
      assert before + rs == before;
    } else {
      var n := |writes| - 1;
      WritesStayStraight(start, before, writes[..n], lsn);
      assert (before + rs)[..|before| + n] == before + WriteRecords(writes[..n], lsn);
    }
  }

  lemma WritesPend(start: Manifest, before: seq<Record>, writes: seq<PageWrite>, lsn: Lsn)
    requires Straight(start, before)
    requires FoldLog(None, Begin(start), before).pending == map[]
    ensures var st := FoldLog(None, Begin(start), before);
      FoldLog(None, Begin(start), before + WriteRecords(writes, lsn)) == st.(pending := LastWriter(writes))
    ensures Straight(start, before + WriteRecords(writes, lsn))
  {
    hide FoldLog, Straight, LastWriter;
    var st := FoldLog(None, Begin(start), before);
    FoldSplit(None, Begin(start), before, WriteRecords(writes, lsn));
    WritesAccumulate(st, writes, lsn);
    WritesStayStraight(start, before, writes, lsn);
    assert map[] + LastWriter(writes) == LastWriter(writes);
  }

  /** Write records that a recovery left in the log after a crash, instead of dropping them, are folded
      into the next commit. That commit then ships what it really did if and only if it rewrites every
      page the orphans touched. */
  lemma OrphanWritesShipTruthIff(start: Manifest, live: seq<Record>, orphans: seq<PageWrite>, lsn: Lsn,
                                 writes: seq<PageWrite>, later: Lsn, nowMs: nat)
    requires FoldLog(None, Begin(start), live).pending == map[]
    requires var base := FoldLog(None, Begin(start), live).base;
      CommitTo(base, LastWriter(writes), nowMs) != base
    ensures var st := FoldLog(None, Begin(start), live);
      var m := CommitTo(st.base, LastWriter(writes), nowMs);
      var log := live + WriteRecords(orphans, lsn) + CommitRecords(writes, later, m, nowMs);
      var commits := FoldLog(None, Begin(start), log).commits;
      && |commits| == |st.commits| + 1
      && (Genuine(commits[|st.commits|]) <==> LastWriter(orphans).Keys <= LastWriter(writes).Keys)
  {
    hide FoldLog, LastWriter;
    var st := FoldLog(None, Begin(start), live);
    var m := CommitTo(st.base, LastWriter(writes), nowMs);
    var left := live + WriteRecords(orphans, lsn);
    FoldSplit(None, Begin(start), live, WriteRecords(orphans, lsn));
    WritesAccumulate(st, orphans, lsn);
    var torn := FoldLog(None, Begin(start), left);
    FoldSplit(None, Begin(start), left, CommitRecords(writes, later, m, nowMs));
    var commit := [Record(later + |writes|, RecordKind.Commit(m, nowMs))];
    FoldSplit(None, torn, WriteRecords(writes, later), commit);
    WritesAccumulate(torn, writes, later);
    var ready := FoldLog(None, torn, WriteRecords(writes, later));
    OneRecordFolds(ready, commit[0]);
    var merged := map[] + LastWriter(orphans) + LastWriter(writes);
    assert ready.pending == merged;
    MergeIff(LastWriter(orphans), LastWriter(writes));
    assert Genuine(LoggedCommit(st.base, m, later + |writes|, nowMs, merged)) <==> merged == LastWriter(writes);
  }

  /** A page no commit claimed, then a commit of another page on the empty root. */
  function OrphanLog(a: Bytes, b: Bytes): seq<Record> {
    [Record(0, Write(0, Some(PageId(a)))), Record(1, Write(1, Some(PageId(b)))),
     Record(2, RecordKind.Commit(Derive(Root(1), map[1 := Some(PageId(b))], 5), 5))]
  }

  /** What is shipped of it claims the second page and carries both: a follower at the root diverges, and
      its head has moved to a manifest the primary never had. */
  lemma OrphanWriteDiverges(a: Bytes, b: Bytes)
    ensures var root := Root(1);
      var cas := map[PageId(a) := a, PageId(b) := b];
      var both := map[0 := Some(PageId(a)), 1 := Some(PageId(b))];
      var claimed, got := Derive(root, map[1 := Some(PageId(b))], 5), Derive(root, both, 5);
      var commits := FoldLog(None, Begin(root), OrphanLog(a, b)).commits;
      && commits == [LoggedCommit(root, claimed, 2, 5, both)] && !Genuine(commits[0])
      && Build(cas, commits[0]).Ok?
      && var step := ApplyTo(Follower(map[], root, None), Build(cas, commits[0]).value);
      && step.result == Err(Diverged(2, claimed, got)) && step.follower.head == got != claimed
  {
    hide Build, Stage, FoldLog;
    var root, cas := Root(1), map[PageId(a) := a, PageId(b) := b];
    var both := map[0 := Some(PageId(a)), 1 := Some(PageId(b))];
    var claimed := Derive(root, map[1 := Some(PageId(b))], 5);
    OrphanFolds(a, b);
    var c := LoggedCommit(root, claimed, 2, 5, both);
    assert 0 in ApplyChanges(Resolve(root), both) && 0 in both && 0 !in claimed.changes;
    BuiltShipment(cas, c);
    ApplyOutcome(Follower(map[], root, None), Build(cas, c).value);
  }

  lemma OrphanFolds(a: Bytes, b: Bytes)
    ensures FoldLog(None, Begin(Root(1)), OrphanLog(a, b)).commits ==
      [LoggedCommit(Root(1), Derive(Root(1), map[1 := Some(PageId(b))], 5), 2, 5,
                    map[0 := Some(PageId(a)), 1 := Some(PageId(b))])]
  {
    var log := OrphanLog(a, b);
    var st := Begin(Root(1));
    assert log[..2][..1] == [log[0]] && log[..2] == [log[0], log[1]];
    OneRecordFolds(st, log[0]);
    assert FoldLog(None, st, log[..2]) == FoldRecord(FoldRecord(st, log[0]), log[1]);
  }

  lemma OneRecordFolds(st: Fold, r: Record)
    ensures FoldLog(None, st, [r]) == FoldRecord(st, r)
  {
    assert [r][..0] == [];
    assert FoldLog(None, st, []) == st;
  }

  lemma MergeIff(a: Changes, b: Changes)
    ensures map[] + a + b == b <==> a.Keys <= b.Keys
  {
    var merged := map[] + a + b;
    assert merged.Keys == a.Keys + b.Keys;
    if a.Keys <= b.Keys {
      assert merged == b;
    }
  }

  lemma {:induction false} LastWriterValues(writes: seq<PageWrite>)
    ensures forall n :: n in LastWriter(writes) ==> PageWrite(n, LastWriter(writes)[n]) in writes
  {
    if writes != [] {
      var k := |writes| - 1;
      LastWriterValues(writes[..k]);
      assert writes == writes[..k] + [writes[k]];
    }
  }

  lemma OrderedConcat(a: seq<Record>, b: seq<Record>, lsn: Lsn)
    requires Ordered(a) && LsnsBelow(a, lsn) && Ordered(b)
    requires forall r :: r in b ==> lsn <= r.lsn
    ensures Ordered(a + b)
  {
    forall i, j | 0 <= i < j < |a + b| ensures (a + b)[i].lsn < (a + b)[j].lsn {
      if i < |a| <= j {
        assert a[i] in a && b[j - |a|] in b;
      }
    }
  }

  /** The records one commit appends. */
  function CommitRecords(writes: seq<PageWrite>, lsn: Lsn, m: Manifest, nowMs: nat): seq<Record> {
    WriteRecords(writes, lsn) + [Record(lsn + |writes|, RecordKind.Commit(m, nowMs))]
  }

  lemma {:induction false} CommitExtendsStraight(start: Manifest, live: seq<Record>, writes: seq<PageWrite>,
                                                 lsn: Lsn, nowMs: nat)
    requires Straight(start, live)
    requires FoldLog(None, Begin(start), live).pending == map[]
    requires var base := FoldLog(None, Begin(start), live).base;
      CommitTo(base, LastWriter(writes), nowMs) != base
    ensures var st := FoldLog(None, Begin(start), live);
      var m := CommitTo(st.base, LastWriter(writes), nowMs);
      var live' := live + CommitRecords(writes, lsn, m, nowMs);
      && Straight(start, live')
      && FoldLog(None, Begin(start), live')
         == Fold(m, map[], st.commits + [LoggedCommit(st.base, m, lsn + |writes|, nowMs, LastWriter(writes))])
  {
    var st := FoldLog(None, Begin(start), live);
    var m := CommitTo(st.base, LastWriter(writes), nowMs);
    WritesPend(start, live, writes, lsn);
    var pending := live + WriteRecords(writes, lsn);
    var live' := live + CommitRecords(writes, lsn, m, nowMs);
    assert live' == pending + [Record(lsn + |writes|, RecordKind.Commit(m, nowMs))];
    assert live'[..|pending|] == pending;
  }

  lemma LiveGrows(p: Primary, p': Primary, rs: seq<Record>)
    requires p'.Log() == p.Log() + rs && p'.marker == p.marker
    requires p.marker.Some? ==> AllAbove(rs, p.marker.value.lsn)
    ensures p'.Live() == p.Live() + rs
  {
    if p.marker.Some? {
      AboveSplit(p.Log(), rs, p.marker.value.lsn);
      AboveOfCovered(rs, p.marker.value.lsn);
    }
  }

  lemma CommitKeepsPrimary(p: Primary, pages: seq<Bytes>, writes: seq<PageWrite>, nowMs: nat, roll: bool)
    requires PrimaryInv(p)
    requires forall w :: w in writes && w.page.Some? ==> w.page.value in StoreAll(p.cas, pages)
    ensures PrimaryInv(Commit(p, pages, writes, nowMs, roll))
  {
    hide Straight, FoldLog, Above, LastWriter, CommitTo, Flatten, Append, StoreAll, Stored;
    var p' := Commit(p, pages, writes, nowMs, roll);
    StoreAllMeaning(p.cas, pages);
    forall m | m in p.committed ensures Stored(p'.cas, m) {
      StoredGrows(p.cas, p'.cas, m);
    }
    if p'.head != p.head {
      var rs := CommitRecords(writes, p.nextLsn, p'.head, nowMs);
      AppendFlattens(p.segments, rs, roll);
      OrderedConcat(p.Log(), rs, p.nextLsn);
      LiveGrows(p, p', rs);
      CommitExtendsStraight(p.Start(), p.Live(), writes, p.nextLsn, nowMs);
      LastWriterValues(writes);
      CommittedIsStored(p, p'.cas, writes, nowMs);
    }
  }

  lemma CommittedIsStored(p: Primary, cas: Cas, writes: seq<PageWrite>, nowMs: nat)
    requires p.head == Root(p.pageSize) || Stored(p.cas, p.head)
    requires p.cas.Keys <= cas.Keys
    requires forall w :: w in writes && w.page.Some? ==> w.page.value in cas
    ensures Stored(cas, CommitTo(p.head, LastWriter(writes), nowMs))
  {
    CommitResolves(p.head, LastWriter(writes), nowMs);
    LastWriterValues(writes);
  }

  lemma MarkKeepsPrimary(p: Primary, target: Manifest, inline: bool, keep: seq<bool>)
    requires PrimaryInv(p)
    requires target == p.head || target in p.committed || target == Root(p.pageSize)
    requires |keep| == |p.segments|
    ensures PrimaryInv(Mark(p, target, inline, keep))
  {
    hide Ordered, Flatten, Above, Append, Kept, Stored, Straight, FoldLog;
    MarkLog(p, target, inline, keep);
    EmptyFold(target);
  }

  lemma EmptyFold(start: Manifest)
    ensures Straight(start, []) && FoldLog(None, Begin(start), []) == Begin(start)
  {
  }

  /** Nothing a marker was just written for is live. */
  lemma MarkLog(p: Primary, target: Manifest, inline: bool, keep: seq<bool>)
    requires p.segments != [] && |keep| == |p.segments|
    requires Ordered(p.Log()) && LsnsBelow(p.Log(), p.nextLsn)
    ensures var p' := Mark(p, target, inline, keep);
      && p'.segments != []
      && Ordered(p'.Log()) && LsnsBelow(p'.Log(), p'.nextLsn)
      && p'.Live() == []
  {
    hide Flatten, Kept, Append;
    var p' := Mark(p, target, inline, keep);
    var lsn := p.nextLsn;
    var keeping := keep[|keep| - 1 := true];
    var kept := Kept(p.segments, keeping);
    var rs := if inline then [Record(lsn, Checkpoint(target))] else [];
    KeptLast(p.segments, keeping);
    KeptSubsequence(p.segments, keeping, lsn);
    AppendFlattens(kept, rs, false);
    OrderedConcat(Flatten(kept), rs, lsn);
    AboveOfCovered(p'.Log(), lsn);
  }

  /** What is kept of an ordered log is ordered, and no later. */
  lemma {:induction false} KeptSubsequence(segments: seq<seq<Record>>, keep: seq<bool>, lsn: Lsn)
    requires |segments| == |keep|
    requires Ordered(Flatten(segments)) && LsnsBelow(Flatten(segments), lsn)
    ensures Ordered(Flatten(Kept(segments, keep))) && LsnsBelow(Flatten(Kept(segments, keep)), lsn)
    ensures forall r :: r in Flatten(Kept(segments, keep)) ==> r in Flatten(segments)
  {
    if segments != [] {
      var rest := Flatten(segments[1..]);
      var all := Flatten(segments);
      assert forall i :: 0 <= i < |rest| ==> rest[i] == all[|segments[0]| + i];
      assert Ordered(rest);
      forall r | r in rest ensures r.lsn < lsn {
        assert r in all;
      }
      KeptSubsequence(segments[1..], keep[1..], lsn);
      var kept := Kept(segments[1..], keep[1..]);
      if keep[0] {
        FlattenCons(segments[0], kept);
        KeptAfterFirst(segments[0], rest, Flatten(kept));
      } else {
        assert Kept(segments, keep) == kept;
      }
    }
  }

  lemma KeptAfterFirst(first: seq<Record>, rest: seq<Record>, kept: seq<Record>)
    requires Ordered(first + rest) && Ordered(kept)
    requires forall r :: r in kept ==> r in rest
    ensures Ordered(first + kept)
  {
    forall i, j | 0 <= i < j < |first + kept| ensures (first + kept)[i].lsn < (first + kept)[j].lsn {
      if j < |first| {
        assert (first + rest)[i].lsn < (first + rest)[j].lsn;
      } else if i < |first| {
        var r := kept[j - |first|];
        assert r in kept;
        var k :| 0 <= k < |rest| && rest[k] == r;
        assert (first + rest)[i].lsn < (first + rest)[|first| + k].lsn;
      }
    }
  }

  /** Every reachable primary: any sequence of commits, checkpoints and rewinds keeps the log
      straight above the marker and every committed page in the store. */
  lemma PrimaryStepKeeps(p: Primary, e: PrimaryEvent)
    requires PrimaryInv(p) && CanHappen(p, e)
    ensures var p' := Happens(p, e);
      && PrimaryInv(p')
      && p.committed <= p'.committed && p.cas.Keys <= p'.cas.Keys && p'.pageSize == p.pageSize
  {
    hide Commit, Mark;
    match e
    case Committing(pages, writes, nowMs, roll) =>
      CommitKeepsPrimary(p, pages, writes, nowMs, roll);
      CommitGrows(p, pages, writes, nowMs, roll);
    case Marking(target, inline, keep) =>
      MarkKeepsPrimary(p, target, inline, keep);
      MarkGrows(p, target, inline, keep);
    case Crashing(pages) =>
      CommitOfNothing(p, pages);
      CommitKeepsPrimary(p, pages, [], 0, false);
      CommitGrows(p, pages, [], 0, false);
  }

  /** What a reader that starts from the marker would ship of the log. */
  ghost function LiveCommits(p: Primary): seq<LoggedCommit> {
    FoldLog(None, Begin(p.Start()), p.Live()).commits
  }

  /** What each step does to that. A commit that changes something adds itself, built on the head there
      was; one that changes nothing, and a crash, add nothing; a checkpoint or a rewind leaves nothing,
      and what comes after it is built on its target. Pages handed over are in the store by then. */
  lemma StepShips(p: Primary, e: PrimaryEvent)
    requires PrimaryInv(p) && CanHappen(p, e)
    ensures var p' := Happens(p, e);
      && (e.Marking? ==>
            && p'.head == e.target == p'.Start() && LiveCommits(p') == [] && p'.CheckpointLsn() == Some(p.nextLsn)
            && (Record(p.nextLsn, Checkpoint(e.target)) in p'.Log() <==> e.inline)
            && (forall r :: r in p'.Log() ==> r in p.Log() || r == Record(p.nextLsn, Checkpoint(e.target))))
      && (e.Crashing? ==> p'.head == p.head && LiveCommits(p') == LiveCommits(p))
      && (e.Committing? ==>
            var next := CommitTo(p.head, LastWriter(e.writes), e.nowMs);
            && p'.head == next && p'.Start() == p.Start()
            && (next == p.head ==> LiveCommits(p') == LiveCommits(p))
            && (next != p.head ==>
                  LiveCommits(p') == LiveCommits(p) +
                    [LoggedCommit(p.head, next, p.nextLsn + |e.writes|, e.nowMs, LastWriter(e.writes))]))
      && (!e.Marking? ==> forall b :: b in e.pages ==> HashPage(b) in p'.cas)
  {
    hide Commit, Mark, PrimaryInv, LastWriter, CommitTo, StoreAll;
    match e
    case Committing(pages, writes, nowMs, roll) =>
      CommitShips(p, pages, writes, nowMs, roll);
      CommitStores(p, pages, writes, nowMs, roll);
    case Marking(target, inline, keep) =>
      MarkShips(p, target, inline, keep);
    case Crashing(pages) =>
      StoreAllHas(p.cas, pages);
  }

  lemma CommitShips(p: Primary, pages: seq<Bytes>, writes: seq<PageWrite>, nowMs: nat, roll: bool)
    requires PrimaryInv(p)
    ensures var p' := Commit(p, pages, writes, nowMs, roll);
      var next := CommitTo(p.head, LastWriter(writes), nowMs);
      && p'.head == next && p'.Start() == p.Start()
      && (next == p.head ==> LiveCommits(p') == LiveCommits(p))
      && (next != p.head ==>
            LiveCommits(p') == LiveCommits(p) +
              [LoggedCommit(p.head, next, p.nextLsn + |writes|, nowMs, LastWriter(writes))])
  {
    hide PrimaryInv, FoldLog, LastWriter, Straight, CommitTo, Commit, CommitRecords, Primary.Live, Primary.Start;
    var next := CommitTo(p.head, LastWriter(writes), nowMs);
    CommitAppends(p, pages, writes, nowMs, roll);
    if next != p.head {
      LiveIsFolded(p);
      FoldsOneMore(p.Start(), p.Live(), p.head, writes, p.nextLsn, nowMs);
    }
  }

  lemma FoldsOneMore(start: Manifest, live: seq<Record>, head: Manifest, writes: seq<PageWrite>, lsn: Lsn, nowMs: nat)
    requires Straight(start, live)
    requires FoldLog(None, Begin(start), live).pending == map[] && FoldLog(None, Begin(start), live).base == head
    requires CommitTo(head, LastWriter(writes), nowMs) != head
    ensures var next := CommitTo(head, LastWriter(writes), nowMs);
      FoldLog(None, Begin(start), live + CommitRecords(writes, lsn, next, nowMs)).commits
      == FoldLog(None, Begin(start), live).commits
         + [LoggedCommit(head, next, lsn + |writes|, nowMs, LastWriter(writes))]
  {
    hide FoldLog, LastWriter, Straight, CommitTo, CommitRecords;
    CommitExtendsStraight(start, live, writes, lsn, nowMs);
  }

  lemma LiveIsFolded(p: Primary)
    requires PrimaryInv(p)
    ensures Straight(p.Start(), p.Live())
    ensures FoldLog(None, Begin(p.Start()), p.Live()).base == p.head
    ensures FoldLog(None, Begin(p.Start()), p.Live()).pending == map[]
  {
    hide Straight, FoldLog, Above, Flatten;
  }

  lemma CommitAppends(p: Primary, pages: seq<Bytes>, writes: seq<PageWrite>, nowMs: nat, roll: bool)
    requires PrimaryInv(p)
    ensures var p' := Commit(p, pages, writes, nowMs, roll);
      && p'.head == CommitTo(p.head, LastWriter(writes), nowMs) && p'.Start() == p.Start()
      && (p'.head == p.head ==> p'.Live() == p.Live())
      && (p'.head != p.head ==> p'.Live() == p.Live() + CommitRecords(writes, p.nextLsn, p'.head, nowMs))
  {
    hide Straight, FoldLog, Above, LastWriter, CommitTo, Flatten, Append, StoreAll, Stored;
    var p' := Commit(p, pages, writes, nowMs, roll);
    if p'.head != p.head {
      var rs := CommitRecords(writes, p.nextLsn, p'.head, nowMs);
      AppendFlattens(p.segments, rs, roll);
      LiveGrows(p, p', rs);
    }
  }

  lemma CommitStores(p: Primary, pages: seq<Bytes>, writes: seq<PageWrite>, nowMs: nat, roll: bool)
    requires PrimaryInv(p)
    ensures forall b :: b in pages ==> HashPage(b) in Commit(p, pages, writes, nowMs, roll).cas
  {
    hide StoreAll, LastWriter, CommitTo, Append, FoldLog, Straight, Flatten, Above;
    StoreAllHas(p.cas, pages);
  }

  lemma {:induction false} StoreAllHas(cas: Cas, pages: seq<Bytes>)
    ensures forall b :: b in pages ==> HashPage(b) in StoreAll(cas, pages)
  {
    if pages != [] {
      var n := |pages| - 1;
      StoreAllHas(cas, pages[..n]);
      assert pages == pages[..n] + [pages[n]];
    }
  }

  lemma MarkShips(p: Primary, target: Manifest, inline: bool, keep: seq<bool>)
    requires PrimaryInv(p) && |keep| == |p.segments|
    ensures var p' := Mark(p, target, inline, keep);
      && p'.head == target == p'.Start() && LiveCommits(p') == [] && p'.CheckpointLsn() == Some(p.nextLsn)
      && (Record(p.nextLsn, Checkpoint(target)) in p'.Log() <==> inline)
      && (forall r :: r in p'.Log() ==> r in p.Log() || r == Record(p.nextLsn, Checkpoint(target)))
  {
    hide Flatten, Kept, Append, Straight, Above, FoldLog;
    MarkLog(p, target, inline, keep);
    EmptyFold(target);
    var keeping := keep[|keep| - 1 := true];
    var kept := Kept(p.segments, keeping);
    KeptLast(p.segments, keeping);
    KeptSubsequence(p.segments, keeping, p.nextLsn);
    AppendFlattens(kept, if inline then [Record(p.nextLsn, Checkpoint(target))] else [], false);
  }

  /** A crashed commit leaves what a commit of no changes leaves: pages nobody names. */
  lemma CommitOfNothing(p: Primary, pages: seq<Bytes>)
    requires p.segments != []
    ensures Commit(p, pages, [], 0, false) == p.(cas := StoreAll(p.cas, pages))
  {
    assert ApplyChanges(Resolve(p.head), map[]) == Resolve(p.head);
  }

  lemma MarkGrows(p: Primary, target: Manifest, inline: bool, keep: seq<bool>)
    requires p.segments != [] && |keep| == |p.segments|
    ensures var p' := Mark(p, target, inline, keep);
      p'.committed == p.committed && p'.cas == p.cas && p'.pageSize == p.pageSize
  {
  }

  lemma CommitGrows(p: Primary, pages: seq<Bytes>, writes: seq<PageWrite>, nowMs: nat, roll: bool)
    requires PrimaryInv(p)
    ensures var p' := Commit(p, pages, writes, nowMs, roll);
      p.committed <= p'.committed && p.cas.Keys <= p'.cas.Keys && p'.pageSize == p.pageSize
  {
    StoreAllMeaning(p.cas, pages);
  }
}
