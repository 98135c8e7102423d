/** The follower over whole runs: safety, monotonic reads, and convergence from every reachable
    state. */
module Replication {
  import opened Substrate
  import opened WalFrames
  import opened WalReader
  import opened WalSource
  import opened LogHistory
  import opened Replica
  import opened Convergence
  import opened Runs

  // ---- Reading the primary's files -----------------------------------------------------------

  /** The log as it stands while a commit is being written: some of its write records may be there,
      its commit record is not. */
  ghost function Growing(p: Primary, inFlight: seq<PageWrite>): seq<seq<Record>>
    requires p.segments != []
  {
    Append(p.segments, WriteRecords(inFlight, p.nextLsn), false)
  }

  ghost function LastBytes(codec: Codec<Record>, p: Primary, inFlight: seq<PageWrite>): Bytes
    requires p.segments != []
  {
    EncodeAll(codec, Growing(p, inFlight)[|p.segments| - 1])
  }

  /** The codec has room for every record in the log and for the marker. */
  ghost predicate LogFits(codec: Codec<Record>, p: Primary) {
    && Exact(codec)
    && AllFit(codec, p.Log())
    && (p.marker.Some? ==> codec.fits(Record(p.marker.value.lsn, Checkpoint(p.marker.value.manifest))))
  }

  /** What a reader of the primary's directory sees when the last segment is `k` bytes long. */
  ghost function ReadBy(codec: Codec<Record>, p: Primary, inFlight: seq<PageWrite>, k: nat): Source
    requires p.segments != [] && k <= |LastBytes(codec, p, inFlight)|
  {
    var bytes := EncodeSegments(codec, Growing(p, inFlight));
    var n := |bytes| - 1;
    var marker := if p.marker.None? then None
      else Some(codec.encode(Record(p.marker.value.lsn, Checkpoint(p.marker.value.manifest))));
    Source(codec, marker, bytes[n := bytes[n][..k]], p.cas, p.pageSize)
  }

  /** A view of the primary: which writes are in flight, and how many bytes of the last segment. */
  ghost predicate CanSee(codec: Codec<Record>, p: Primary, inFlight: seq<PageWrite>, k: nat) {
    && LogFits(codec, p) && p.segments != []
    && AllFit(codec, WriteRecords(inFlight, p.nextLsn))
    && k <= |LastBytes(codec, p, inFlight)|
  }

  lemma MarkerReadsBack(codec: Codec<Record>, p: Primary, inFlight: seq<PageWrite>, k: nat)
    requires CanSee(codec, p, inFlight, k)
    ensures ReadBy(codec, p, inFlight, k).ReadCheckpoint() == p.marker
    ensures ReadBy(codec, p, inFlight, k).StartHead() == p.Start()
    ensures ReadBy(codec, p, inFlight, k).CheckpointLsn() == p.CheckpointLsn()
  {
    if p.marker.Some? {
      var r := Record(p.marker.value.lsn, Checkpoint(p.marker.value.manifest));
      assert DecodesWhole(codec, r, []);
      assert codec.encode(r) + [] == codec.encode(r);
    }
  }

  /** Write records alone commit nothing. */
  lemma {:induction false} WritesCommitNothing(checkpoint: Option<Lsn>, st: Fold, log: seq<Record>,
                                                writes: seq<PageWrite>, lsn: Lsn)
    ensures FoldLog(checkpoint, st, log + WriteRecords(writes, lsn)).commits == FoldLog(checkpoint, st, log).commits
  {
    var all := log + WriteRecords(writes, lsn);
    if writes == [] {
      assert all == log;
    } else {
      var n := |writes| - 1;
      WritesCommitNothing(checkpoint, st, log, writes[..n], lsn);
      assert all[..|log| + n] == log + WriteRecords(writes[..n], lsn);
    }
  }

  /** Wherever the last segment is cut, and whatever is in flight, the reader sees a prefix of the live
      commits; uncut, all of them. */
  lemma ReaderSeesPrefix(codec: Codec<Record>, p: Primary, inFlight: seq<PageWrite>, k: nat)
    requires CanSee(codec, p, inFlight, k)
    ensures Commits(ReadBy(codec, p, inFlight, k)) <= LiveCommits(p)
    ensures k == |LastBytes(codec, p, inFlight)| ==> Commits(ReadBy(codec, p, inFlight, k)) == LiveCommits(p)
  {
    hide FoldLog, ReadLog, Flatten, EncodeSegments, EncodeAll, Append;
    var src := ReadBy(codec, p, inFlight, k);
    MarkerReadsBack(codec, p, inFlight, k);
    var log := Growing(p, inFlight);
    AppendFlattens(p.segments, WriteRecords(inFlight, p.nextLsn), false);
    AppendKeepsCount(p.segments, WriteRecords(inFlight, p.nextLsn));
    TornTailIsPrefix(codec, log, k);
    WritesCommitNothing(p.CheckpointLsn(), Begin(p.Start()), p.Log(), inFlight, p.nextLsn);
    LongerLogShipsMore(p.CheckpointLsn(), Begin(p.Start()), ReadLog(codec, src.segments), Flatten(log));
    FoldsLive(p);
    if k == |LastBytes(codec, p, inFlight)| {
      ReadWholeLog(codec, log);
      UncutIsWhole(EncodeSegments(codec, log), k);
    }
  }

  lemma AppendKeepsCount(segments: seq<seq<Record>>, rs: seq<Record>)
    requires segments != []
    ensures |Append(segments, rs, false)| == |segments|
  {
  }

  lemma UncutIsWhole(bytes: seq<Bytes>, k: nat)
    requires bytes != [] && k == |bytes[|bytes| - 1]|
    ensures bytes[|bytes| - 1 := bytes[|bytes| - 1][..k]] == bytes
  {
    assert bytes[|bytes| - 1][..k] == bytes[|bytes| - 1];
  }

  /** Folding the whole log from the marker is folding what the marker does not cover. */
  lemma FoldsLive(p: Primary)
    ensures FoldLog(p.CheckpointLsn(), Begin(p.Start()), p.Log()).commits == LiveCommits(p)
  {
    hide FoldLog, Above;
    if p.marker.Some? {
      FoldSkipsCovered(p.marker.value.lsn, Begin(p.Start()), p.Log());
    }
  }

  // ---- Shipments worth applying ----------------------------------------------------------------

  /** A shipment that says truthfully how some committed manifest came about. */
  ghost predicate Legitimate(s: Shipment, committed: set<Manifest>) {
    && s.manifest in committed
    && Intact(s, s.writes)
    && s.manifest == CommitTo(s.base, LastWriter(s.writes), s.createdAtMs)
  }

  lemma LiveCommitsAreSound(p: Primary, c: LoggedCommit)
    requires PrimaryInv(p) && c in LiveCommits(p)
    ensures Sound(p.cas, c) && c.manifest in p.committed
  {
    hide Straight, FoldLog, Stored;
    StraightLogsChain(p.Start(), p.Live());
    assert Genuine(c);
  }

  /** Everything a reader can be handed is legitimate. */
  lemma ReaderShipsLegitimate(codec: Codec<Record>, p: Primary, inFlight: seq<PageWrite>, k: nat, from: Lsn)
    requires PrimaryInv(p) && CanSee(codec, p, inFlight, k)
    ensures Shipments(ReadBy(codec, p, inFlight, k), from).Ok?
    ensures forall s :: s in Shipments(ReadBy(codec, p, inFlight, k), from).value ==> Legitimate(s, p.committed)
  {
    hide Straight, FoldLog, Stored, Commits, LiveCommits, Build, From, CommitTo, LastWriter, Intact, Flatten;
    var src := ReadBy(codec, p, inFlight, k);
    ReaderSeesPrefix(codec, p, inFlight, k);
    var wanted := From(Commits(src), from);
    FromIsSubset(Commits(src), from);
    forall c | c in wanted
      ensures Sound(p.cas, c) && c.manifest in p.committed
    {
      LiveCommitsAreSound(p, c);
    }
    BuiltAreLegitimate(p.cas, p.committed, wanted);
  }

  lemma {:induction false} FromIsSubset(commits: seq<LoggedCommit>, from: Lsn)
    ensures forall c :: c in From(commits, from) ==> c in commits
  {
    if commits != [] {
      FromIsSubset(commits[..|commits| - 1], from);
    }
  }

  lemma BuiltAreLegitimate(cas: Cas, committed: set<Manifest>, commits: seq<LoggedCommit>)
    requires Addressed(cas)
    requires forall c :: c in commits ==> Sound(cas, c) && c.manifest in committed
    ensures BuildAll(cas, commits).Ok?
    ensures forall s :: s in BuildAll(cas, commits).value ==> Legitimate(s, committed)
  {
    hide Build, BuildAll, CommitTo, LastWriter, Intact, Addressed;
    BuildAllMeaning(cas, commits);
    var ss := BuildAll(cas, commits).value;
    forall s | s in ss ensures Legitimate(s, committed) {
      var i :| 0 <= i < |ss| && ss[i] == s;
      BuiltShipment(cas, commits[i]);
    }
  }

  /** The follower is somewhere the primary has been, with every page of it. */
  ghost predicate FollowerInv(f: Follower, root: Manifest, committed: set<Manifest>) {
    && Addressed(f.pages)
    && Stored(f.pages, f.head)
    && (f.head == root || f.head in committed)
  }

  /** A legitimate shipment never diverges and is never found corrupt: it advances, repeats, or does
      not follow on. */
  lemma LegitimateIsSafe(f: Follower, s: Shipment, root: Manifest, committed: set<Manifest>)
    requires FollowerInv(f, root, committed) && Legitimate(s, committed)
    ensures var step := ApplyTo(f, s);
      && FollowerInv(step.follower, root, committed)
      && Descends(step.follower.head, f.head)
      && (forall id :: id in f.pages ==> id in step.follower.pages)
      && (step.result.Err? ==> step.result.error.OutOfOrder?)
  {
    hide CommitTo, LastWriter, Intact, Stored;
    ApplyOutcome(f, s);
    ApplyKeepsStore(f, s);
  }

  lemma {:induction false} LegitimateRunIsSafe(f: Follower, ss: seq<Shipment>, root: Manifest, committed: set<Manifest>)
    requires FollowerInv(f, root, committed)
    requires forall s :: s in ss ==> Legitimate(s, committed)
    ensures var p := ApplyAll(f, ss);
      && FollowerInv(p.follower, root, committed)
      && Descends(p.follower.head, f.head)
      && (forall id :: id in f.pages ==> id in p.follower.pages)
      && (p.error.Some? ==> p.error.value.OutOfOrder?)
  {
    hide ApplyTo, FollowerInv, Legitimate, Descends;
    if ss != [] {
      var n := |ss| - 1;
      LegitimateRunIsSafe(f, ss[..n], root, committed);
      var p := ApplyAll(f, ss[..n]);
      LegitimateIsSafe(p.follower, ss[n], root, committed);
      DescendsTransitive(ApplyTo(p.follower, ss[n]).follower.head, p.follower.head, f.head);
    } else {
      DescendsSelf(f.head);
    }
  }

  lemma DescendsSelf(m: Manifest)
    ensures Descends(m, m)
  {
  }

  // ---- The system ------------------------------------------------------------------------------

  datatype System = System(primary: Primary, network: set<Shipment>, follower: Follower)

  datatype Event =
    | Primary(e: PrimaryEvent)
    // Someone reads the log, with some writes in flight and cut anywhere, and sends what it saw.
    | Publish(inFlight: seq<PageWrite>, cut: nat, from: Lsn)
    // Anything ever sent arrives, any number of times.
    | Deliver(s: Shipment)
    | CatchUp(inFlight: seq<PageWrite>, cut: nat)
    | Restore(inFlight: seq<PageWrite>, cut: nat, target: Lsn)
    // Possibly with part of a shipment staged.
    | Crash(mid: Option<Shipment>, staged: nat)

  /** A record the frame has no room for is not written. */
  ghost predicate Enabled(codec: Codec<Record>, sys: System, e: Event)
    requires LogFits(codec, sys.primary) && sys.primary.segments != []
  {
    match e
    case Primary(pe) => CanHappen(sys.primary, pe) && LogFits(codec, Happens(sys.primary, pe))
    case Publish(inFlight, cut, _) => CanSee(codec, sys.primary, inFlight, cut)
    case Deliver(s) => s in sys.network
    case CatchUp(inFlight, cut) => CanSee(codec, sys.primary, inFlight, cut)
    case Restore(inFlight, cut, _) => CanSee(codec, sys.primary, inFlight, cut)
    case Crash(mid, staged) => mid.Some? ==> mid.value in sys.network && staged <= |mid.value.writes|
  }

  ghost function Next(codec: Codec<Record>, sys: System, e: Event): System
    requires LogFits(codec, sys.primary) && sys.primary.segments != [] && Enabled(codec, sys, e)
  {
    match e
    case Primary(pe) => sys.(primary := Happens(sys.primary, pe))
    case Publish(inFlight, cut, from) =>
      (match Shipments(ReadBy(codec, sys.primary, inFlight, cut), from)
       case Ok(ss) => sys.(network := sys.network + set s | s in ss)
       case Err(_) => sys)
    case Deliver(s) => sys.(follower := ApplyTo(sys.follower, s).follower)
    case CatchUp(inFlight, cut) =>
      sys.(follower := CatchUpFrom(sys.follower, ReadBy(codec, sys.primary, inFlight, cut)).follower)
    case Restore(inFlight, cut, target) =>
      sys.(follower := RestoreFrom(sys.follower, ReadBy(codec, sys.primary, inFlight, cut), target).follower)
    case Crash(mid, staged) =>
      var pages := if mid.Some? then Stage(sys.follower.pages, mid.value, staged).pages else sys.follower.pages;
      sys.(follower := Follower(pages, sys.follower.head, None))
  }

  ghost predicate SystemInv(codec: Codec<Record>, sys: System) {
    && PrimaryInv(sys.primary) && LogFits(codec, sys.primary)
    && FollowerInv(sys.follower, Root(sys.primary.pageSize), sys.primary.committed)
    && forall s :: s in sys.network ==> Legitimate(s, sys.primary.committed)
  }

  /** The follower never goes back, and never loses a page. */
  ghost predicate Follows(f: Follower, f': Follower) {
    && Descends(f'.head, f.head)
    && forall id :: id in f.pages ==> id in f'.pages
  }

  lemma CatchUpIsSafe(codec: Codec<Record>, p: Primary, f: Follower, inFlight: seq<PageWrite>, cut: nat)
    requires PrimaryInv(p) && CanSee(codec, p, inFlight, cut)
    requires FollowerInv(f, Root(p.pageSize), p.committed)
    ensures var f' := CatchUpFrom(f, ReadBy(codec, p, inFlight, cut)).follower;
      FollowerInv(f', Root(p.pageSize), p.committed) && Follows(f, f')
  {
    hide Straight, FoldLog, Stored, FollowerInv, Legitimate, Shipments, Resume, LastBytes, Descends;
    var src := ReadBy(codec, p, inFlight, cut);
    DescendsSelf(f.head);
    if Resume(src, f.head).Ok? {
      ReaderShipsLegitimate(codec, p, inFlight, cut, Resume(src, f.head).value);
      LegitimateRunIsSafe(f, Missing(src, f.head).value, Root(p.pageSize), p.committed);
    }
  }

  lemma RestoreIsSafe(codec: Codec<Record>, p: Primary, f: Follower, inFlight: seq<PageWrite>, cut: nat, target: Lsn)
    requires PrimaryInv(p) && CanSee(codec, p, inFlight, cut)
    requires FollowerInv(f, Root(p.pageSize), p.committed)
    ensures var f' := RestoreFrom(f, ReadBy(codec, p, inFlight, cut), target).follower;
      FollowerInv(f', Root(p.pageSize), p.committed) && Follows(f, f')
  {
    hide Straight, FoldLog, Stored, FollowerInv, Legitimate, Shipments, Resume, LastBytes, Descends, UpTo;
    var src := ReadBy(codec, p, inFlight, cut);
    DescendsSelf(f.head);
    if Resume(src, f.head).Ok? {
      ReaderShipsLegitimate(codec, p, inFlight, cut, Resume(src, f.head).value);
      LegitimateRunIsSafe(f, UpTo(Missing(src, f.head).value, target), Root(p.pageSize), p.committed);
    }
  }

  lemma StepIsSafe(codec: Codec<Record>, sys: System, e: Event)
    requires SystemInv(codec, sys) && Enabled(codec, sys, e)
    ensures SystemInv(codec, Next(codec, sys, e))
    ensures Follows(sys.follower, Next(codec, sys, e).follower)
    ensures sys.primary.committed <= Next(codec, sys, e).primary.committed
    ensures Next(codec, sys, e).primary.pageSize == sys.primary.pageSize
  {
    hide Straight, FoldLog, Flatten, ApplyTo, CatchUpFrom, RestoreFrom, Happens, Shipments, LastBytes, Stage;
    hide Addressed, Stored;
    DescendsSelf(sys.follower.head);
    match e
    case Primary(pe) =>
      PrimaryStepKeeps(sys.primary, pe);
    case Publish(inFlight, cut, from) =>
      ReaderShipsLegitimate(codec, sys.primary, inFlight, cut, from);
    case Deliver(s) =>
      LegitimateIsSafe(sys.follower, s, Root(sys.primary.pageSize), sys.primary.committed);
    case CatchUp(inFlight, cut) =>
      CatchUpIsSafe(codec, sys.primary, sys.follower, inFlight, cut);
    case Restore(inFlight, cut, target) =>
      RestoreIsSafe(codec, sys.primary, sys.follower, inFlight, cut, target);
    case Crash(mid, staged) =>
      if mid.Some? {
        StageMeaning(sys.follower.pages, mid.value, staged);
        StoredGrows(sys.follower.pages, Next(codec, sys, e).follower.pages, sys.follower.head);
      }
  }

  // ---- Runs ------------------------------------------------------------------------------------

  ghost function Initial(pageSize: nat): System {
    System(Create(pageSize), {}, Follower(map[], Root(pageSize), None))
  }

  /** `trace` is a run: it starts at the beginning and every step is an enabled event. */
  ghost predicate IsRun(codec: Codec<Record>, pageSize: nat, trace: seq<System>, events: seq<Event>) {
    && Exact(codec)
    && |trace| == |events| + 1
    && trace[0] == Initial(pageSize)
    && forall i :: 0 <= i < |events| ==>
         && trace[i].primary.segments != [] && LogFits(codec, trace[i].primary)
         && Enabled(codec, trace[i], events[i])
         && trace[i + 1] == Next(codec, trace[i], events[i])
  }

  lemma InitialIsSafe(codec: Codec<Record>, pageSize: nat)
    requires Exact(codec)
    ensures SystemInv(codec, Initial(pageSize))
  {
    var p := Create(pageSize);
    assert p.Log() == [] + Flatten([]) == [];
  }

  /** Runs start with the real frame, whatever its body format and checksum: nothing is assumed of a
      record that is never written. */
  lemma FramedRunsStart(f: Format<Record>, pageSize: nat)
    ensures IsRun(Framed(f), pageSize, [Initial(pageSize)], [])
    ensures LogFits(Framed(f), Initial(pageSize).primary)
  {
    FrameIsExact(f);
    InitialIsSafe(Framed(f), pageSize);
  }

  /** And they get somewhere: whatever the format, if the frame has room for one write and its commit,
      there is a run in which the primary commits, someone publishes its log, and a follower is handed
      the shipment and stands at the primary's head, off the root. */
  lemma FramedRunShips(f: Format<Record>, pageSize: nat, a: Bytes, nowMs: nat)
    returns (trace: seq<System>, events: seq<Event>)
    requires Fits(f, Record(0, Write(0, Some(PageId(a)))))
    requires Fits(f, Record(1, RecordKind.Commit(OnePage(Root(pageSize), a, nowMs), nowMs)))
    ensures IsRun(Framed(f), pageSize, trace, events) && |trace| == 4
    ensures trace[3].primary.head == OnePage(Root(pageSize), a, nowMs) == trace[3].follower.head != Root(pageSize)
    ensures ReadPage(trace[3].follower.pages, trace[3].follower.head, 0) == Some(a)
  {
    hide LogFits, ReadBy, LastBytes, Build, Shipments, FoldLog, Exact, PrimaryInv, Happens, CanHappen, ApplyTo, Genuine;
    hide SystemInv, CanSee, LiveCommits;
    FramedRunsStart(f, pageSize);
    var codec := Framed(f);
    var s0 := Initial(pageSize);
    var e0 := Event.Primary(Committing([a], [PageWrite(0, Some(PageId(a)))], nowMs, false));
    var p := OneCommitted(pageSize, a, nowMs);
    CommitsOnePage(pageSize, a, nowMs);
    FirstCommit(f, pageSize, a, nowMs);
    var s1 := s0.(primary := p);
    var k := |LastBytes(codec, p, [])|;
    var e1 := Publish([], k, 0);
    EmptyFlight(codec, p);
    var c := LoggedCommit(Root(pageSize), p.head, 1, nowMs, map[0 := Some(PageId(a))]);
    OneCommitShips(codec, p, c);
    var s := Build(p.cas, c).value;
    var s2 := Next(codec, s1, e1);
    var e2 := Deliver(s);
    var s3 := Next(codec, s2, e2);
    BuiltShipment(p.cas, c);
    UntamperedAdvances(s0.follower, p.cas, c);
    trace, events := [s0, s1, s2, s3], [e0, e1, e2];
    RunIsSafe(codec, pageSize, trace, events, 3);
    DeliveredReads(codec, s3, a);
  }

  /** A format with room for exactly the two records of such a run. */
  function TwoRecords(write: Record, commit: Record): Format<Record> {
    Format((r: Record) => if r == write then [0] else [1],
           (b: Bytes) => if b == [0] then Some(write) else if b == [1] then Some(commit) else None,
           (b: Bytes) => [0, 0, 0, 0])
  }

  /** So there are runs over a framed log in which something is written, shipped and applied. */
  lemma SomeFramedRunShips(pageSize: nat, a: Bytes)
    returns (codec: Codec<Record>, trace: seq<System>, events: seq<Event>)
    ensures IsRun(codec, pageSize, trace, events) && |trace| == 4
    ensures trace[3].primary.head == trace[3].follower.head != Root(pageSize)
    ensures ReadPage(trace[3].follower.pages, trace[3].follower.head, 0) == Some(a)
  {
    var write := Record(0, Write(0, Some(PageId(a))));
    var commit := Record(1, RecordKind.Commit(OnePage(Root(pageSize), a, 0), 0));
    var f := TwoRecords(write, commit);
    assert Fits(f, write) && Fits(f, commit);
    codec := Framed(f);
    trace, events := FramedRunShips(f, pageSize, a, 0);
  }

  lemma DeliveredReads(codec: Codec<Record>, sys: System, a: Bytes)
    requires SystemInv(codec, sys) && sys.follower.head.Overlay? && sys.follower.head.base.Root?
    requires sys.follower.head.changes == map[0 := Some(PageId(a))]
    ensures ReadPage(sys.follower.pages, sys.follower.head, 0) == Some(a)
  {
    assert Resolve(sys.follower.head)[0] == PageId(a);
    assert HashPage(sys.follower.pages[PageId(a)]) == PageId(a);
  }

  /** The primary after committing one page to an empty database. */
  function OneCommitted(pageSize: nat, a: Bytes, nowMs: nat): Primary {
    var m := OnePage(Root(pageSize), a, nowMs);
    Primary.Primary(pageSize, m, [[Record(0, Write(0, Some(PageId(a)))), Record(1, RecordKind.Commit(m, nowMs))]], None,
                    2, map[PageId(a) := a], {m})
  }

  lemma CommitsOnePage(pageSize: nat, a: Bytes, nowMs: nat)
    ensures var e := Committing([a], [PageWrite(0, Some(PageId(a)))], nowMs, false);
      CanHappen(Create(pageSize), e) && OneCommitted(pageSize, a, nowMs) == Happens(Create(pageSize), e)
  {
    var writes := [PageWrite(0, Some(PageId(a)))];
    var root, m := Root(pageSize), OnePage(Root(pageSize), a, nowMs);
    assert [a][..0] == [] && writes[..0] == [];
    assert StoreAll(map[], [a]) == map[PageId(a) := a];
    assert LastWriter(writes) == map[0 := Some(PageId(a))];
    assert 0 in ApplyChanges(Resolve(root), LastWriter(writes));
    assert CommitTo(root, LastWriter(writes), nowMs) == m != root;
    var log := [Record(0, Write(0, Some(PageId(a)))), Record(1, RecordKind.Commit(m, nowMs))];
    assert WriteRecords(writes, 0) + [log[1]] == log;
    OneSegment(log);
  }

  lemma FirstCommit(f: Format<Record>, pageSize: nat, a: Bytes, nowMs: nat)
    requires Fits(f, Record(0, Write(0, Some(PageId(a)))))
    requires Fits(f, Record(1, RecordKind.Commit(OnePage(Root(pageSize), a, nowMs), nowMs)))
    ensures var p := OneCommitted(pageSize, a, nowMs);
      && PrimaryInv(p) && LogFits(Framed(f), p)
      && LiveCommits(p) == [LoggedCommit(Root(pageSize), p.head, 1, nowMs, map[0 := Some(PageId(a))])]
      && Genuine(LiveCommits(p)[0])
  {
    hide Exact, PrimaryInv, Happens, Genuine, LiveCommits, LogFits, CanHappen, CommitTo, LastWriter;
    var e := Committing([a], [PageWrite(0, Some(PageId(a)))], nowMs, false);
    CommitsOnePage(pageSize, a, nowMs);
    FrameIsExact(f);
    InitialIsSafe(Framed(f), pageSize);
    PrimaryStepKeeps(Create(pageSize), e);
    StepShips(Create(pageSize), e);
    OnePageLog(pageSize, a, nowMs);
    OneCommittedFits(f, pageSize, a, nowMs);
  }

  lemma OnePageLog(pageSize: nat, a: Bytes, nowMs: nat)
    ensures LiveCommits(Create(pageSize)) == [] && OneCommitted(pageSize, a, nowMs).head != Root(pageSize)
    ensures LastWriter([PageWrite(0, Some(PageId(a)))]) == map[0 := Some(PageId(a))]
    ensures Genuine(LoggedCommit(Root(pageSize), OneCommitted(pageSize, a, nowMs).head, 1, nowMs,
                                 map[0 := Some(PageId(a))]))
  {
    assert [PageWrite(0, Some(PageId(a)))][..0] == [];
    OnePageCommits(Root(pageSize), a, 0, nowMs);
    EmptyFold(Root(pageSize));
    assert Create(pageSize).Live() == [];
  }

  lemma OneCommittedFits(f: Format<Record>, pageSize: nat, a: Bytes, nowMs: nat)
    requires Fits(f, Record(0, Write(0, Some(PageId(a)))))
    requires Fits(f, Record(1, RecordKind.Commit(OnePage(Root(pageSize), a, nowMs), nowMs)))
    ensures LogFits(Framed(f), OneCommitted(pageSize, a, nowMs))
  {
    hide Exact;
    FrameIsExact(f);
    OneSegment(OneCommitted(pageSize, a, nowMs).segments[0]);
  }

  lemma OneSegment(log: seq<Record>)
    ensures Append([[]], log, false) == [log] && Flatten([log]) == log
  {
    assert [] + log == log;
    assert [log][1..] == [];
    assert Flatten([log]) == log + Flatten([]);
  }

  lemma EmptyFlight(codec: Codec<Record>, p: Primary)
    requires LogFits(codec, p) && p.segments != []
    ensures CanSee(codec, p, [], |LastBytes(codec, p, [])|)
  {
  }

  /** Read whole, a log with one commit is one shipment. */
  lemma OneCommitShips(codec: Codec<Record>, p: Primary, c: LoggedCommit)
    requires PrimaryInv(p) && LogFits(codec, p) && LiveCommits(p) == [c]
    ensures var k := |LastBytes(codec, p, [])|;
      && CanSee(codec, p, [], k) && Build(p.cas, c).Ok?
      && Shipments(ReadBy(codec, p, [], k), 0) == Ok([Build(p.cas, c).value])
  {
    hide Straight, FoldLog, Stored, Build, BuildAll, From, LastBytes, LogFits, Commits, LiveCommits, ReadBy;
    EmptyFlight(codec, p);
    var k := |LastBytes(codec, p, [])|;
    ReaderSeesPrefix(codec, p, [], k);
    ReaderHasStore(codec, p, [], k);
    LiveCommitsAreSound(p, c);
    BuiltShipment(p.cas, c);
    OneIsBuilt(p.cas, c);
  }

  lemma ReaderHasStore(codec: Codec<Record>, p: Primary, inFlight: seq<PageWrite>, k: nat)
    requires p.segments != [] && k <= |LastBytes(codec, p, inFlight)|
    ensures ReadBy(codec, p, inFlight, k).cas == p.cas
  {
  }

  lemma OneIsBuilt(cas: Cas, c: LoggedCommit)
    requires Build(cas, c).Ok?
    ensures BuildAll(cas, From([c], 0)) == Ok([Build(cas, c).value])
  {
    hide Build;
    assert [c][..0] == [];
    assert From([c], 0) == From([], 0) + [c] == [c];
    assert BuildAll(cas, [c][..0]) == Ok([]);
    assert [] + [Build(cas, c).value] == [Build(cas, c).value];
  }

  lemma {:induction false} RunIsSafe(codec: Codec<Record>, pageSize: nat, trace: seq<System>, events: seq<Event>,
                                     i: nat)
    requires IsRun(codec, pageSize, trace, events) && i < |trace|
    ensures SystemInv(codec, trace[i]) && trace[i].primary.pageSize == pageSize
  {
    hide SystemInv, Next, Enabled;
    if i == 0 {
      InitialIsSafe(codec, pageSize);
    } else {
      RunIsSafe(codec, pageSize, trace, events, i - 1);
      StepIsSafe(codec, trace[i - 1], events[i - 1]);
    }
  }

  lemma {:induction false} RunFollows(codec: Codec<Record>, pageSize: nat, trace: seq<System>, events: seq<Event>,
                                      i: nat, j: nat)
    requires IsRun(codec, pageSize, trace, events) && i <= j < |trace|
    ensures Follows(trace[i].follower, trace[j].follower)
    decreases j - i
  {
    hide SystemInv, Next, Enabled;
    if i == j {
      DescendsSelf(trace[i].follower.head);
    } else {
      RunFollows(codec, pageSize, trace, events, i, j - 1);
      RunIsSafe(codec, pageSize, trace, events, j - 1);
      StepIsSafe(codec, trace[j - 1], events[j - 1]);
      DescendsTransitive(trace[j].follower.head, trace[j - 1].follower.head, trace[i].follower.head);
    }
  }

  /** The property the crate is judged on, over every run: at every moment the follower is at the
      start head or at a manifest the primary committed, and reads every page of it exactly as the
      primary does. */
  lemma FollowerEqualsPrimary(codec: Codec<Record>, pageSize: nat, trace: seq<System>, events: seq<Event>, i: nat,
                              page: PageNo)
    requires IsRun(codec, pageSize, trace, events) && i < |trace|
    ensures var sys := trace[i];
      var head := sys.follower.head;
      && (head == Root(pageSize) || head in sys.primary.committed)
      && ReadPage(sys.follower.pages, head, page) == ReadPage(sys.primary.cas, head, page)
      && (ReadPage(sys.follower.pages, head, page).Some? <==> page in Resolve(head))
  {
    hide Next, Enabled, Straight, FoldLog, IsRun;
    RunIsSafe(codec, pageSize, trace, events, i);
    var sys := trace[i];
    ReadsAgree(sys.follower.pages, sys.primary.cas, sys.follower.head, page);
  }

  /** Reads never go back, and a read pinned to a manifest the follower was once at still returns
      the same bytes at every later moment. */
  lemma PinnedReadsPersist(codec: Codec<Record>, pageSize: nat, trace: seq<System>, events: seq<Event>, i: nat,
                           j: nat, page: PageNo)
    requires IsRun(codec, pageSize, trace, events) && i <= j < |trace|
    ensures var pinned := trace[i].follower.head;
      && Descends(trace[j].follower.head, pinned)
      && ReadPage(trace[j].follower.pages, pinned, page) == ReadPage(trace[i].follower.pages, pinned, page)
  {
    hide Next, Enabled, IsRun, PrimaryInv, Legitimate, LogFits;
    RunIsSafe(codec, pageSize, trace, events, i);
    RunIsSafe(codec, pageSize, trace, events, j);
    RunFollows(codec, pageSize, trace, events, i, j);
    var pinned := trace[i].follower.head;
    StoredGrows(trace[i].follower.pages, trace[j].follower.pages, pinned);
    ReadsAgree(trace[i].follower.pages, trace[j].follower.pages, pinned, page);
  }

  /** A primary's whole log serves its live commits, ending at its head. */
  lemma PrimaryServes(codec: Codec<Record>, p: Primary)
    requires PrimaryInv(p) && LogFits(codec, p)
    ensures var src := ReadBy(codec, p, [], |LastBytes(codec, p, [])|);
      var commits := LiveCommits(p);
      && Serves(src, p.Start(), commits)
      && HeadAfter(p.Start(), commits, |commits|) == p.head
  {
    hide Straight, FoldLog, Stored, Flatten, Sound, Commits, Above;
    var k := |LastBytes(codec, p, [])|;
    ReaderSeesPrefix(codec, p, [], k);
    MarkerReadsBack(codec, p, [], k);
    StraightLogsChain(p.Start(), p.Live());
    LiveIsOrdered(p);
    CommitsOrdered(Begin(p.Start()), p.Live());
    forall c | c in LiveCommits(p) ensures Sound(p.cas, c) {
      LiveCommitsAreSound(p, c);
    }
  }

  lemma LiveIsOrdered(p: Primary)
    requires Ordered(p.Log())
    ensures Ordered(p.Live())
  {
    if p.marker.Some? {
      AboveIsOrdered(p.Log(), p.marker.value.lsn);
    }
  }

  lemma {:induction false} AboveIsOrdered(records: seq<Record>, lsn: Lsn)
    requires Ordered(records)
    ensures Ordered(Above(records, lsn))
    ensures forall r :: r in Above(records, lsn) ==> r in records
  {
    if records != [] {
      var n := |records| - 1;
      AboveIsOrdered(records[..n], lsn);
      forall r | r in Above(records[..n], lsn) ensures r.lsn < records[n].lsn {
        var k :| 0 <= k < n && records[k] == r;
      }
    }
  }

  /** Convergence, from every reachable state: a follower that reads the whole log either ends at
      the primary's head, having advanced once per commit it was behind, or is told it is unknown
      and left alone -- and it is unknown exactly when its head is neither the start head nor the
      manifest of a commit above the marker. */
  lemma CatchUpConverges(codec: Codec<Record>, pageSize: nat, trace: seq<System>, events: seq<Event>, i: nat)
    requires IsRun(codec, pageSize, trace, events) && i < |trace|
    ensures var sys := trace[i];
      sys.primary.segments != [] &&
      var src := ReadBy(codec, sys.primary, [], |LastBytes(codec, sys.primary, [])|);
      var commits := LiveCommits(sys.primary);
      var known := exists k :: 0 <= k <= |commits| && HeadAfter(sys.primary.Start(), commits, k) == sys.follower.head;
      var p := CatchUpFrom(sys.follower, src);
      && (known ==>
            && p.error == None && p.follower.head == sys.primary.head && p.advanced <= |commits|
            && HeadAfter(sys.primary.Start(), commits, |commits| - p.advanced) == sys.follower.head)
      && (!known ==> p.Outcome() == Err(FollowerUnknown(sys.follower.head)) && p.follower == sys.follower)
  {
    hide Next, Enabled, Legitimate, CatchUpFrom, Serves, HeadAfter, LiveCommits, ReadBy, LastBytes, Straight, FoldLog;
    RunIsSafe(codec, pageSize, trace, events, i);
    var sys := trace[i];
    PrimaryServes(codec, sys.primary);
    var src := ReadBy(codec, sys.primary, [], |LastBytes(codec, sys.primary, [])|);
    var commits := LiveCommits(sys.primary);
    CatchUpUnknownIff(sys.follower, src, sys.primary.Start(), commits);
    if k :| 0 <= k <= |commits| && HeadAfter(sys.primary.Start(), commits, k) == sys.follower.head {
      CatchUpExact(sys.follower, src, sys.primary.Start(), commits, k);
    }
  }

  /** The same of the steps themselves, for a follower at any position `k`: catching up ends at the
      primary's head, restoring at the last commit at or below its target unless the follower is past
      it, and a crash loses no position: catching up after it ends where it would have. */
  lemma StepsConverge(codec: Codec<Record>, pageSize: nat, trace: seq<System>, events: seq<Event>, i: nat, k: nat,
                      target: Lsn, mid: Option<Shipment>, staged: nat)
    requires IsRun(codec, pageSize, trace, events) && i < |trace|
    requires LogFits(codec, trace[i].primary) && trace[i].primary.segments != []
    requires k <= |LiveCommits(trace[i].primary)|
    requires HeadAfter(trace[i].primary.Start(), LiveCommits(trace[i].primary), k) == trace[i].follower.head
    requires Enabled(codec, trace[i], Crash(mid, staged))
    ensures var sys := trace[i];
      var whole := |LastBytes(codec, sys.primary, [])|;
      var commits := LiveCommits(sys.primary);
      var n := CountUpTo(commits, target);
      var crashed := Next(codec, sys, Crash(mid, staged));
      && CanSee(codec, sys.primary, [], whole)
      && Next(codec, sys, CatchUp([], whole)).follower.head == sys.primary.head
      && Next(codec, sys, Restore([], whole, target)).follower.head
           == HeadAfter(sys.primary.Start(), commits, if k <= n then n else k)
      && crashed.primary == sys.primary && crashed.follower.head == sys.follower.head
      && crashed.follower.appliedLsn == None && sys.follower.pages.Keys <= crashed.follower.pages.Keys
      && Next(codec, crashed, CatchUp([], whole)).follower.head == sys.primary.head
  {
    hide SystemInv, LogFits, CanSee, Enabled, CatchUpFrom, RestoreFrom, HeadAfter, LiveCommits, ReadBy, LastBytes,
         CountUpTo, Stage, PrimaryInv, IsRun;
    var sys := trace[i];
    RunIsSafe(codec, pageSize, trace, events, i);
    InvariantParts(codec, sys);
    EmptyFlight(codec, sys.primary);
    FollowersGetThere(codec, sys.primary, sys.follower, k, target);
    var crashed := Next(codec, sys, Crash(mid, staged));
    if mid.Some? {
      CrashStages(codec, sys, mid.value, staged);
    }
    FollowersGetThere(codec, sys.primary, crashed.follower, k, target);
    StillEnabled(codec, sys, crashed, target);
  }

  lemma InvariantParts(codec: Codec<Record>, sys: System)
    requires SystemInv(codec, sys)
    ensures PrimaryInv(sys.primary) && LogFits(codec, sys.primary) && Addressed(sys.follower.pages)
  {
    hide PrimaryInv, LogFits, Legitimate, Addressed, Stored;
  }

  lemma CrashStages(codec: Codec<Record>, sys: System, s: Shipment, staged: nat)
    requires SystemInv(codec, sys) && Enabled(codec, sys, Crash(Some(s), staged))
    ensures var st := Stage(sys.follower.pages, s, staged);
      Addressed(st.pages) && sys.follower.pages.Keys <= st.pages.Keys
  {
    hide PrimaryInv, LogFits, Legitimate, Stage, Intact, Resident, LastWriter;
    StageMeaning(sys.follower.pages, s, staged);
  }

  lemma StillEnabled(codec: Codec<Record>, sys: System, crashed: System, target: Lsn)
    requires LogFits(codec, sys.primary) && sys.primary.segments != [] && crashed.primary == sys.primary
    requires CanSee(codec, sys.primary, [], |LastBytes(codec, sys.primary, [])|)
    ensures var whole := |LastBytes(codec, sys.primary, [])|;
      && Enabled(codec, sys, CatchUp([], whole)) && Enabled(codec, sys, Restore([], whole, target))
      && Enabled(codec, crashed, CatchUp([], whole))
  {
    hide LogFits, CanSee, LastBytes;
  }

  lemma FollowersGetThere(codec: Codec<Record>, p: Primary, f: Follower, k: nat, target: Lsn)
    requires PrimaryInv(p) && LogFits(codec, p) && p.segments != [] && Addressed(f.pages)
    requires CanSee(codec, p, [], |LastBytes(codec, p, [])|)
    requires k <= |LiveCommits(p)| && HeadAfter(p.Start(), LiveCommits(p), k) == f.head
    ensures var src := ReadBy(codec, p, [], |LastBytes(codec, p, [])|);
      var commits := LiveCommits(p);
      var n := CountUpTo(commits, target);
      && CatchUpFrom(f, src).follower.head == p.head
      && RestoreFrom(f, src, target).follower.head == HeadAfter(p.Start(), commits, if k <= n then n else k)
  {
    hide PrimaryInv, LogFits, CanSee, CatchUpFrom, RestoreFrom, HeadAfter, LiveCommits, ReadBy, LastBytes, CountUpTo,
         Serves;
    var src := ReadBy(codec, p, [], |LastBytes(codec, p, [])|);
    PrimaryServes(codec, p);
    CatchUpExact(f, src, p.Start(), LiveCommits(p), k);
    RestoreExact(f, src, p.Start(), LiveCommits(p), k, target);
  }
}
