/** Runs of a pool: any number of databases on one shared store, any interleaving of their steps, and
    a crash of any set of open handles between steps or in the middle of a snapshot or a fork. */
module PoolRuns {
  import opened Substrate
  import opened Paging
  import opened Pool

  /** `taken` remembers every id a snapshot returned and the file bytes it was taken of. */
  datatype System = System(pageSize: nat, disk: Disk, open: map<Name, Session>, taken: set<(Manifest, Bytes)>)

  datatype Event =
    | OpenAs(name: Name)
    | Execute(name: Name, file: Bytes)
    | Snapshot(name: Name, nowMs: nat)
    | Fork(name: Name, fork: Name, nowMs: nat)
    | Restore(name: Name, to: Manifest)
    | Crash(victims: set<Name>)
    // A crash inside a snapshot: some pages written, the commit record durable or not.
    | CrashInSnapshot(name: Name, nowMs: nat, written: set<PageId>, logged: bool, victims: set<Name>)
    // A crash inside a fork, after the parent's snapshot. One inside that snapshot is the event above.
    | CrashInFork(name: Name, fork: Name, nowMs: nat, at: ForkPoint, victims: set<Name>)

  /** How far a fork got: its directory not linked yet, linked with no head recorded in it, recorded. */
  datatype ForkPoint = BeforeLink | BeforeRecord | AfterRecord

  predicate Enabled(sys: System, e: Event) {
    match e
    case OpenAs(name) => name !in sys.open
    case Crash(_) => true
    case CrashInSnapshot(name, _, written, logged, victims) =>
      && name in sys.open && name in victims && 0 < sys.pageSize
      && written <= HashAll(Chunks(sys.open[name].file, sys.pageSize))
      && (logged ==> written == HashAll(Chunks(sys.open[name].file, sys.pageSize)))
    case CrashInFork(name, fork, _, _, victims) => name in sys.open && name in victims && fork !in sys.disk.heads
    case Execute(name, _) => name in sys.open
    case Snapshot(name, _) => name in sys.open
    case Fork(name, _, _) => name in sys.open
    case Restore(name, _) => name in sys.open
  }

  function Closed(open: map<Name, Session>, victims: set<Name>): map<Name, Session> {
    map n | n in open && n !in victims :: open[n]
  }

  /** A step that cannot be taken changes nothing. */
  function Next(sys: System, e: Event): System
    requires 0 < sys.pageSize
  {
    if !Enabled(sys, e) then sys else
    match e
    case OpenAs(name) =>
      var (disk, found) := Opened(sys.disk, sys.pageSize, name);
      sys.(disk := disk, open := if found.Ok? then sys.open[name := found.value] else sys.open)
    case Execute(name, file) =>
      sys.(open := sys.open[name := sys.open[name].(file := file)])
    case Snapshot(name, nowMs) =>
      var (disk, s) := Snapshotted(sys.disk, sys.pageSize, name, sys.open[name], nowMs);
      sys.(disk := disk, open := sys.open[name := s], taken := sys.taken + {(s.head, s.file)})
    case Fork(name, fork, nowMs) =>
      var (disk, s, forked) := Forked(sys.disk, sys.pageSize, name, sys.open[name], fork, nowMs);
      var open := sys.open[name := s];
      sys.(disk := disk, open := if forked.Ok? then open[fork := forked.value] else open)
    case Restore(name, to) =>
      var (disk, s, _) := Restored(sys.disk, sys.pageSize, name, sys.open[name], to);
      sys.(disk := disk, open := sys.open[name := s])
    case Crash(victims) => sys.(open := Closed(sys.open, victims))
    case CrashInSnapshot(name, nowMs, written, logged, victims) =>
      var pages := sys.disk.pages + Filed(written);
      var heads := if logged then sys.disk.heads[name := NextHead(sys.pageSize, sys.open[name], nowMs)]
                   else sys.disk.heads;
      sys.(disk := sys.disk.(pages := pages, heads := heads), open := Closed(sys.open, victims))
    case CrashInFork(name, fork, nowMs, at, victims) =>
      var (disk, s) := Snapshotted(sys.disk, sys.pageSize, name, sys.open[name], nowMs);
      sys.(disk := disk.(heads := TornHeads(disk.heads, sys.pageSize, fork, s.head, at)),
           open := Closed(sys.open, victims))
  }

  /** A directory with no head recorded in it recovers to the empty root. */
  function TornHeads(heads: map<Name, Manifest>, pageSize: nat, fork: Name, head: Manifest, at: ForkPoint)
    : map<Name, Manifest>
  {
    match at
    case BeforeLink => heads
    case BeforeRecord => heads[fork := Root(pageSize)]
    case AfterRecord => heads[fork := head]
  }

  // ---- The invariant -------------------------------------------------------------------------

  /** The manifest is a file, and all of it is in the store. */
  ghost predicate Whole(pages: Cas, pageSize: nat, m: Manifest, file: Bytes)
    requires 0 < pageSize
  {
    Resolve(m) == FileMap(Chunks(file, pageSize)) && Stored(pages, m)
  }

  ghost predicate Good(pages: Cas, pageSize: nat, m: Manifest)
    requires 0 < pageSize
  {
    exists file :: Whole(pages, pageSize, m, file)
  }

  ghost predicate Inv(sys: System) {
    && 0 < sys.pageSize
    && Addressed(sys.disk.pages)
    && (forall m :: m in sys.disk.manifests ==> Good(sys.disk.pages, sys.pageSize, m))
    && (forall n :: n in sys.disk.heads ==> Good(sys.disk.pages, sys.pageSize, sys.disk.heads[n]))
    && (forall n :: n in sys.open ==> n in sys.disk.heads && sys.open[n].head == sys.disk.heads[n])
    && (forall t :: t in sys.taken ==>
          t.0 in sys.disk.manifests && Whole(sys.disk.pages, sys.pageSize, t.0, t.1))
  }

  function Empty(pageSize: nat): System {
    System(pageSize, Disk(map[], {}, map[]), map[], {})
  }

  lemma EmptyPool(pageSize: nat)
    requires 0 < pageSize
    ensures Inv(Empty(pageSize))
  {
  }

  lemma RootIsGood(pages: Cas, pageSize: nat)
    requires 0 < pageSize
    ensures Good(pages, pageSize, Root(pageSize))
  {
    assert Whole(pages, pageSize, Root(pageSize), []);
  }

  /** What a snapshot installs is the scratch file, byte for byte, and all of it is there. */
  lemma SnapshotIsWhole(pages: Cas, pageSize: nat, s: Session, nowMs: nat)
    requires 0 < pageSize && Addressed(pages)
    ensures var pages' := pages + Filed(HashAll(Chunks(s.file, pageSize)));
      Addressed(pages') && pages.Keys <= pages'.Keys
      && Whole(pages', pageSize, NextHead(pageSize, s, nowMs), s.file)
  {
    hide Chunks, Resolve;
    var chunks := Chunks(s.file, pageSize);
    var pages' := pages + Filed(HashAll(chunks));
    PersistedHead(s.head, chunks, nowMs);
    FileStored(pages', chunks);
  }

  lemma FiledIsAddressed(pages: Cas, ids: set<PageId>)
    requires Addressed(pages)
    ensures Addressed(pages + Filed(ids)) && pages.Keys <= (pages + Filed(ids)).Keys
  {
  }

  lemma WholeGrows(pages: Cas, pages': Cas, pageSize: nat, m: Manifest, file: Bytes)
    requires 0 < pageSize && pages.Keys <= pages'.Keys && Whole(pages, pageSize, m, file)
    ensures Whole(pages', pageSize, m, file)
  {
  }

  /** Everything that was good stays good while the shared store only grows. */
  lemma GoodGrows(sys: System, pages': Cas)
    requires Inv(sys) && sys.disk.pages.Keys <= pages'.Keys
    ensures forall m :: m in sys.disk.manifests ==> Good(pages', sys.pageSize, m)
    ensures forall n :: n in sys.disk.heads ==> Good(pages', sys.pageSize, sys.disk.heads[n])
    ensures forall t :: t in sys.taken ==> Whole(pages', sys.pageSize, t.0, t.1)
  {
    hide Whole;
    forall m | Good(sys.disk.pages, sys.pageSize, m) ensures Good(pages', sys.pageSize, m) {
      var file :| Whole(sys.disk.pages, sys.pageSize, m, file);
      WholeGrows(sys.disk.pages, pages', sys.pageSize, m, file);
    }
    forall t | t in sys.taken ensures Whole(pages', sys.pageSize, t.0, t.1) {
      WholeGrows(sys.disk.pages, pages', sys.pageSize, t.0, t.1);
    }
  }

  /** Hydrating a whole manifest gives its file. */
  lemma WholeHydrates(pages: Cas, pageSize: nat, m: Manifest, file: Bytes)
    requires 0 < pageSize && Addressed(pages) && Whole(pages, pageSize, m, file)
    ensures Hydrated(pages, m, pageSize).Ok?
    ensures FileOf(Hydrated(pages, m, pageSize).value) == file
  {
    HydrateIsFile(pages, m, file, pageSize);
  }

  lemma GoodHydrates(pages: Cas, pageSize: nat, m: Manifest)
    requires 0 < pageSize && Addressed(pages) && Good(pages, pageSize, m)
    ensures Hydrated(pages, m, pageSize).Ok?
    ensures Whole(pages, pageSize, m, FileOf(Hydrated(pages, m, pageSize).value))
  {
    hide Whole, Hydrated;
    var file :| Whole(pages, pageSize, m, file);
    WholeHydrates(pages, pageSize, m, file);
  }

  lemma SnapshotKeeps(sys: System, name: Name, nowMs: nat)
    requires Inv(sys) && name in sys.open
    ensures Inv(Next(sys, Event.Snapshot(name, nowMs)))
  {
    hide Whole, Good, Addressed, Chunks, HashAll, NextHead, Filed;
    var s := sys.open[name];
    var pages' := sys.disk.pages + Filed(HashAll(Chunks(s.file, sys.pageSize)));
    SnapshotIsWhole(sys.disk.pages, sys.pageSize, s, nowMs);
    GoodGrows(sys, pages');
    WholeIsGood(pages', sys.pageSize, NextHead(sys.pageSize, s, nowMs), s.file);
  }

  lemma WholeIsGood(pages: Cas, pageSize: nat, m: Manifest, file: Bytes)
    requires 0 < pageSize && Whole(pages, pageSize, m, file)
    ensures Good(pages, pageSize, m)
  {
  }

  lemma OpenKeeps(sys: System, name: Name)
    requires Inv(sys)
    ensures Inv(Next(sys, OpenAs(name)))
  {
    hide Whole, Good, Addressed, Hydrated;
    RootIsGood(sys.disk.pages, sys.pageSize);
  }

  lemma ForkKeeps(sys: System, name: Name, fork: Name, nowMs: nat)
    requires Inv(sys) && name in sys.open
    ensures Inv(Next(sys, Event.Fork(name, fork, nowMs)))
  {
    hide Whole, Good, Addressed, Hydrated, Chunks, HashAll, NextHead, Filed;
    SnapshotKeeps(sys, name, nowMs);
  }

  lemma RestoreKeeps(sys: System, name: Name, to: Manifest)
    requires Inv(sys) && name in sys.open
    ensures Inv(Next(sys, Event.Restore(name, to)))
  {
    hide Whole, Good, Addressed, Hydrated;
  }

  lemma TornSnapshotKeeps(sys: System, e: Event)
    requires Inv(sys) && e.CrashInSnapshot?
    ensures Inv(Next(sys, e))
  {
    hide Whole, Good, Addressed, Chunks, HashAll, NextHead, Filed;
    if Enabled(sys, e) {
      var s := sys.open[e.name];
      FiledIsAddressed(sys.disk.pages, e.written);
      var pages' := sys.disk.pages + Filed(e.written);
      GoodGrows(sys, pages');
      if e.logged {
        SnapshotIsWhole(sys.disk.pages, sys.pageSize, s, e.nowMs);
        WholeIsGood(pages', sys.pageSize, NextHead(sys.pageSize, s, e.nowMs), s.file);
      }
    }
  }

  lemma TornForkKeeps(sys: System, e: Event)
    requires Inv(sys) && e.CrashInFork?
    ensures Inv(Next(sys, e))
  {
    hide Whole, Good, Addressed, Chunks, HashAll, NextHead, Filed;
    if Enabled(sys, e) {
      SnapshotKeeps(sys, e.name, e.nowMs);
      var sys' := Next(sys, Event.Snapshot(e.name, e.nowMs));
      RootIsGood(sys'.disk.pages, sys.pageSize);
    }
  }

  lemma StepKeeps(sys: System, e: Event)
    requires Inv(sys)
    ensures Inv(Next(sys, e))
  {
    hide Whole, Good, Addressed;
    match e
    case OpenAs(name) => OpenKeeps(sys, name);
    case Execute(_, _) =>
    case Snapshot(name, nowMs) => if name in sys.open { SnapshotKeeps(sys, name, nowMs); }
    case Fork(name, fork, nowMs) => if name in sys.open { ForkKeeps(sys, name, fork, nowMs); }
    case Restore(name, to) => if name in sys.open { RestoreKeeps(sys, name, to); }
    case Crash(_) =>
    case CrashInSnapshot(_, _, _, _, _) => TornSnapshotKeeps(sys, e);
    case CrashInFork(_, _, _, _, _) => TornForkKeeps(sys, e);
  }

  // ---- Runs ----------------------------------------------------------------------------------

  ghost function After(sys: System, events: seq<Event>): (later: System)
    requires Inv(sys)
    ensures Inv(later)
    decreases |events|
  {
    if events == [] then sys else
      StepKeeps(sys, events[0]);
      After(Next(sys, events[0]), events[1..])
  }

  /** Nothing is ever taken away from the shared store, or from what snapshots promised. */
  ghost predicate Grows(a: System, b: System) {
    && a.pageSize == b.pageSize
    && a.disk.pages.Keys <= b.disk.pages.Keys && a.disk.manifests <= b.disk.manifests
    && a.taken <= b.taken && a.disk.heads.Keys <= b.disk.heads.Keys
  }

  lemma StepGrows(sys: System, e: Event)
    requires 0 < sys.pageSize
    ensures Grows(sys, Next(sys, e))
  {
    hide Hydrated, Chunks, HashAll, NextHead;
  }

  lemma {:induction false} RunKeeps(sys: System, events: seq<Event>)
    requires Inv(sys)
    ensures Grows(sys, After(sys, events))
    decreases |events|
  {
    hide Inv, Next;
    if events != [] {
      StepKeeps(sys, events[0]);
      PageSizeIsPositive(sys);
      StepGrows(sys, events[0]);
      RunKeeps(Next(sys, events[0]), events[1..]);
    }
  }

  lemma PageSizeIsPositive(sys: System)
    requires Inv(sys)
    ensures 0 < sys.pageSize
  {
  }

  /** What a snapshot promises is recorded: the id it returned, for the bytes it was taken of. */
  lemma SnapshotPromises(sys: System, name: Name, nowMs: nat)
    requires Inv(sys) && name in sys.open
    ensures var sys' := Next(sys, Event.Snapshot(name, nowMs));
      && (sys'.open[name].head, sys.open[name].file) in sys'.taken
      && sys'.disk.heads[name] == sys'.open[name].head
      && sys'.open[name].file == sys.open[name].file
  {
    hide Chunks, HashAll, NextHead, Filed;
  }

  /** Snapshot permanence, over every run of every database in the pool, through any crashes: an id
      a snapshot ever returned hydrates to exactly the bytes it was taken of, and restoring any open
      database to it puts exactly those bytes in its scratch file. */
  lemma SnapshotsArePermanent(sys: System, events: seq<Event>, id: Manifest, file: Bytes, name: Name)
    requires Inv(sys) && (id, file) in sys.taken
    ensures var later := After(sys, events);
      && Hydrated(later.disk.pages, id, later.pageSize) == Ok(if file == [] then None else Some(file))
      && (name in later.open ==>
            var (disk, s, error) := Restored(later.disk, later.pageSize, name, later.open[name], id);
            error == None && s == Session(id, file) && disk.heads == later.disk.heads[name := id])
  {
    hide After, Whole, Hydrated, Resolve, Chunks;
    RunKeeps(sys, events);
    var later := After(sys, events);
    assert (id, file) in later.taken;
    HydratesTo(later.disk.pages, later.pageSize, id, file);
  }

  /** A restore fails exactly for a manifest the pool has never seen, and then nothing has moved. */
  lemma RestoreFailsIff(sys: System, name: Name, to: Manifest)
    requires Inv(sys) && name in sys.open
    ensures var (disk, s, error) := Restored(sys.disk, sys.pageSize, name, sys.open[name], to);
      && (error != None <==> to !in sys.disk.manifests)
      && (error != None ==> error == Some(UnknownSnapshot(to)) && disk == sys.disk && s == sys.open[name])
  {
    hide Hydrated, Whole;
    if to in sys.disk.manifests {
      GoodHydrates(sys.disk.pages, sys.pageSize, to);
    }
  }

  /** A name nobody has used opens as an empty database at the empty root, and is there from then on. */
  lemma NewNameOpensEmpty(sys: System, name: Name)
    requires Inv(sys) && name !in sys.disk.heads
    ensures var opened' := Next(sys, OpenAs(name));
      && name in opened'.open && opened'.open[name] == Session(Root(sys.pageSize), [])
      && opened'.disk.heads == sys.disk.heads[name := Root(sys.pageSize)]
  {
    hide Hydrated, Good, Whole;
    RootIsEmpty(sys.disk.pages, sys.pageSize);
  }

  // ---- Isolation -----------------------------------------------------------------------------

  /** The database a step is taken on. A crash is nobody's step. */
  function Subjects(e: Event): set<Name> {
    if e.Crash? then {} else {e.name}
  }

  function Victims(e: Event): set<Name> {
    if e.Crash? || e.CrashInSnapshot? || e.CrashInFork? then e.victims else {}
  }

  /** A step on one database -- a fork into a new name included -- leaves every other one its head,
      its bytes, and, unless its handle died in a crash, its session. */
  lemma StepIsIsolated(sys: System, e: Event, other: Name)
    requires Inv(sys) && other in sys.disk.heads && other !in Subjects(e)
    ensures var sys' := Next(sys, e);
      && other in sys'.disk.heads && sys'.disk.heads[other] == sys.disk.heads[other]
      && Hydrated(sys'.disk.pages, sys'.disk.heads[other], sys'.pageSize)
           == Hydrated(sys.disk.pages, sys.disk.heads[other], sys.pageSize)
      && (other in sys'.open <==> other in sys.open && !(Enabled(sys, e) && other in Victims(e)))
      && (other in sys'.open ==> sys'.open[other] == sys.open[other])
  {
    hide Hydrated, Whole, Chunks, HashAll, NextHead, Filed, Addressed;
    StepKeeps(sys, e);
    StepGrows(sys, e);
    SameBytes(sys, Next(sys, e), sys.disk.heads[other]);
  }

  lemma SameBytes(a: System, b: System, m: Manifest)
    requires Inv(a) && Inv(b) && Grows(a, b) && Good(a.disk.pages, a.pageSize, m)
    ensures Hydrated(a.disk.pages, m, a.pageSize) == Hydrated(b.disk.pages, m, b.pageSize)
  {
    hide Hydrated, Whole;
    var file :| Whole(a.disk.pages, a.pageSize, m, file);
    WholeGrows(a.disk.pages, b.disk.pages, a.pageSize, m, file);
    HydratesTo(a.disk.pages, a.pageSize, m, file);
    HydratesTo(b.disk.pages, b.pageSize, m, file);
  }

  lemma HydratesTo(pages: Cas, pageSize: nat, m: Manifest, file: Bytes)
    requires 0 < pageSize && Addressed(pages) && Whole(pages, pageSize, m, file)
    ensures Hydrated(pages, m, pageSize) == Ok(if file == [] then None else Some(file))
  {
    HydrateIsFile(pages, m, file, pageSize);
  }

  /** The scratch file is not what the head says. */
  predicate Dirty(sys: System, name: Name)
    requires 0 < sys.pageSize && name in sys.open
  {
    Resolve(sys.open[name].head) != FileMap(Chunks(sys.open[name].file, sys.pageSize))
  }

  /** The step moves `name`'s durable head: a snapshot, its own or a fork's, of a file that has changed,
      torn after its commit record or not at all, or a restore to another manifest the pool knows. */
  predicate MovesHead(sys: System, e: Event, name: Name)
    requires 0 < sys.pageSize
  {
    && Enabled(sys, e) && name in sys.open && name in sys.disk.heads
    && match e
       case Snapshot(n, _) => n == name && Dirty(sys, name)
       case Fork(n, fork, _) => n == name && fork !in sys.disk.heads && Dirty(sys, name)
       case CrashInFork(n, _, _, _, _) => n == name && Dirty(sys, name)
       case CrashInSnapshot(n, _, _, logged, _) => n == name && logged && Dirty(sys, name)
       case Restore(n, to) => n == name && to in sys.disk.manifests && to != sys.disk.heads[name]
       case _ => false
  }

  /** Those steps and no others. A refused fork, an unknown restore, an unchanged snapshot and a crash
      inside a snapshot before its commit record leave the head where it was. */
  lemma StepMovesHeadIff(sys: System, e: Event, name: Name)
    requires Inv(sys) && name in sys.disk.heads
    ensures 0 < sys.pageSize && name in Next(sys, e).disk.heads
    ensures Next(sys, e).disk.heads[name] != sys.disk.heads[name] <==> MovesHead(sys, e, name)
  {
    hide Hydrated, Whole, Good, Chunks, HashAll, Filed, Addressed, Dirty, NextHead;
    if name in sys.open && (e.Snapshot? || e.Fork? || e.CrashInSnapshot? || e.CrashInFork?) {
      DirtyMoves(sys, name, e.nowMs);
    }
  }

  lemma DirtyMoves(sys: System, name: Name, nowMs: nat)
    requires 0 < sys.pageSize && name in sys.open
    ensures NextHead(sys.pageSize, sys.open[name], nowMs) != sys.open[name].head <==> Dirty(sys, name)
  {
    hide Chunks, Resolve, CommitTo, Diff, FileMap;
    PersistedHead(sys.open[name].head, Chunks(sys.open[name].file, sys.pageSize), nowMs);
  }

  /** No step of the run moves `name`'s head. */
  ghost predicate NeverMoves(sys: System, events: seq<Event>, name: Name)
    requires Inv(sys)
    decreases |events|
  {
    events != [] ==>
      && !MovesHead(sys, events[0], name)
      && (StepKeeps(sys, events[0]); NeverMoves(Next(sys, events[0]), events[1..], name))
  }

  lemma {:induction false} HeadStaysThrough(sys: System, events: seq<Event>, name: Name)
    requires Inv(sys) && name in sys.disk.heads && NeverMoves(sys, events, name)
    ensures name in After(sys, events).disk.heads
    ensures After(sys, events).disk.heads[name] == sys.disk.heads[name]
    decreases |events|
  {
    hide Inv, Next, MovesHead;
    if events != [] {
      StepKeeps(sys, events[0]);
      StepMovesHeadIff(sys, events[0], name);
      HeadStaysThrough(Next(sys, events[0]), events[1..], name);
    }
  }

  /** A returned snapshot is durable: whatever the rest of the pool does, and however often anything
      crashes and reopens, this database included and in the middle of its next snapshot too, opening it
      later brings back those bytes at that id, until a step moves its head. */
  lemma SnapshotIsDurable(sys: System, name: Name, nowMs: nat, events: seq<Event>)
    requires Inv(sys) && name in sys.open
    ensures Inv(Next(sys, Event.Snapshot(name, nowMs)))
    ensures var taken := Next(sys, Event.Snapshot(name, nowMs));
      var later := After(taken, events);
      && 0 < later.pageSize
      && (NeverMoves(taken, events, name) && name !in later.open ==>
            var reopened := Next(later, OpenAs(name));
            && name in reopened.open
            && reopened.open[name] == Session(taken.open[name].head, sys.open[name].file))
  {
    hide After, Hydrated, Whole, Chunks, HashAll, NextHead, Filed, Addressed, Good, NeverMoves;
    StepKeeps(sys, Event.Snapshot(name, nowMs));
    var taken := Next(sys, Event.Snapshot(name, nowMs));
    SnapshotPromises(sys, name, nowMs);
    RunKeeps(taken, events);
    var later := After(taken, events);
    if NeverMoves(taken, events, name) {
      HeadStaysThrough(taken, events, name);
      WholeHydrates(later.disk.pages, later.pageSize, taken.open[name].head, sys.open[name].file);
    }
  }

  /** A crash inside a snapshot is all or nothing, decided by the commit record alone. */
  lemma TornSnapshotIsAtomic(sys: System, name: Name, nowMs: nat, written: set<PageId>, logged: bool,
                             victims: set<Name>)
    requires Inv(sys) && Enabled(sys, CrashInSnapshot(name, nowMs, written, logged, victims))
    ensures var crashed := Next(sys, CrashInSnapshot(name, nowMs, written, logged, victims));
      var reopened := Next(crashed, OpenAs(name));
      && name in reopened.open
      && reopened.open[name].head == (if logged then NextHead(sys.pageSize, sys.open[name], nowMs)
                                      else sys.open[name].head)
      && (logged ==> reopened.open[name].file == sys.open[name].file)
      && (!logged ==>
            var before := Hydrated(sys.disk.pages, sys.open[name].head, sys.pageSize);
            before.Ok? && reopened.open[name].file == FileOf(before.value))
  {
    hide Hydrated, Whole, Chunks, HashAll, NextHead, Filed, Addressed, Good;
    var e := CrashInSnapshot(name, nowMs, written, logged, victims);
    var crashed := Next(sys, e);
    StepKeeps(sys, e);
    StepGrows(sys, e);
    if logged {
      SnapshotIsWhole(sys.disk.pages, sys.pageSize, sys.open[name], nowMs);
      var head := NextHead(sys.pageSize, sys.open[name], nowMs);
      WholeHydrates(crashed.disk.pages, sys.pageSize, head, sys.open[name].file);
    } else {
      SameBytes(sys, crashed, sys.open[name].head);
      GoodHydrates(sys.disk.pages, sys.pageSize, sys.open[name].head);
    }
  }

  /** A snapshot of a scratch file that is what the head already says returns the head, whenever it
      is taken, and moves nothing. */
  lemma UnchangedSnapshotIsFree(sys: System, name: Name, nowMs: nat)
    requires Inv(sys) && name in sys.open
    ensures NextHead(sys.pageSize, sys.open[name], nowMs) == sys.open[name].head <==>
      Resolve(sys.open[name].head) == FileMap(Chunks(sys.open[name].file, sys.pageSize))
    ensures var once := Next(sys, Event.Snapshot(name, nowMs));
      forall later :: NextHead(sys.pageSize, once.open[name], later) == once.open[name].head
  {
    hide Chunks, Resolve, HashAll, Filed, CommitTo, Diff;
    var chunks := Chunks(sys.open[name].file, sys.pageSize);
    PersistedHead(sys.open[name].head, chunks, nowMs);
    var head := NextHead(sys.pageSize, sys.open[name], nowMs);
    forall later ensures CommitTo(head, Diff(Resolve(head), FileMap(chunks)), later) == head {
      PersistedHead(head, chunks, later);
    }
  }

  // ---- Forks ---------------------------------------------------------------------------------

  /** A completed fork is a second database at the parent's snapshot: same head, same bytes, durable
      under its own name; the parent keeps what it had in its scratch file. */
  lemma ForkIsTheParent(sys: System, name: Name, fork: Name, nowMs: nat)
    requires Inv(sys) && name in sys.open && fork !in sys.disk.heads
    ensures var (disk, s, forked) := Forked(sys.disk, sys.pageSize, name, sys.open[name], fork, nowMs);
      var head := NextHead(sys.pageSize, sys.open[name], nowMs);
      && forked == Ok(Session(head, sys.open[name].file))
      && s == Session(head, sys.open[name].file)
      && disk.heads == sys.disk.heads[name := head][fork := head]
  {
    hide Hydrated, Whole, Chunks, HashAll, NextHead, Filed, Addressed, Good;
    SnapshotIsWhole(sys.disk.pages, sys.pageSize, sys.open[name], nowMs);
    var (disk, s) := Snapshotted(sys.disk, sys.pageSize, name, sys.open[name], nowMs);
    WholeHydrates(disk.pages, sys.pageSize, s.head, sys.open[name].file);
  }

  /** A fork fails exactly when the name has a directory, and is refused before the parent is even
      snapshotted. */
  lemma ForkFailsIff(sys: System, name: Name, fork: Name, nowMs: nat)
    requires Inv(sys) && name in sys.open
    ensures var (disk, s, forked) := Forked(sys.disk, sys.pageSize, name, sys.open[name], fork, nowMs);
      && (forked.Err? <==> fork in sys.disk.heads)
      && (forked.Err? ==> forked.error == NameTaken(fork) && disk == sys.disk && s == sys.open[name])
  {
    hide Snapshotted, Hydrated, NextHead, Inv;
    if fork !in sys.disk.heads {
      ForkIsTheParent(sys, name, fork, nowMs);
    }
  }

  /** When a fork is crash-atomic, exactly. Interrupted before the directory is linked there is no fork
      and the name is still free. From then on the name is taken, and it opens as the parent's snapshot
      if and only if the head was recorded or there was nothing to lose: by head, when the snapshot is
      the empty root, and by bytes, when the parent's file is empty. The parent has its snapshot in
      every case. */
  lemma TornForkIsAtomicIff(sys: System, name: Name, fork: Name, nowMs: nat, at: ForkPoint, victims: set<Name>)
    requires Inv(sys) && Enabled(sys, CrashInFork(name, fork, nowMs, at, victims))
    ensures var crashed := Next(sys, CrashInFork(name, fork, nowMs, at, victims));
      var taken := Session(NextHead(sys.pageSize, sys.open[name], nowMs), sys.open[name].file);
      var (parent, forked) := (Next(crashed, OpenAs(name)), Next(crashed, OpenAs(fork)));
      && name in parent.open && parent.open[name] == taken
      && (fork !in crashed.disk.heads <==> at.BeforeLink?)
      && fork in forked.open
      && (at.BeforeRecord? ==> forked.open[fork] == Session(Root(sys.pageSize), []))
      && (!at.BeforeLink? ==>
            && (forked.open[fork].head == taken.head <==> at.AfterRecord? || taken.head == Root(sys.pageSize))
            && (forked.open[fork].file == taken.file <==> at.AfterRecord? || taken.file == []))
      && (Forked(crashed.disk, sys.pageSize, name, taken, fork, nowMs).2.Err? <==> !at.BeforeLink?)
  {
    hide Hydrated, Whole, Chunks, HashAll, NextHead, Filed, Addressed, Good;
    var e := CrashInFork(name, fork, nowMs, at, victims);
    var crashed := Next(sys, e);
    StepKeeps(sys, e);
    SnapshotIsWhole(sys.disk.pages, sys.pageSize, sys.open[name], nowMs);
    var head := NextHead(sys.pageSize, sys.open[name], nowMs);
    WholeHydrates(crashed.disk.pages, sys.pageSize, head, sys.open[name].file);
    RootIsEmpty(crashed.disk.pages, sys.pageSize);
    StepKeeps(crashed, OpenAs(name));
    ForkFailsIff(Next(crashed, OpenAs(name)), name, fork, nowMs);
  }

  /** What an open handle reads. */
  function Reads(sys: System, name: Name): Option<Bytes> {
    if name in sys.open then Some(sys.open[name].file) else None
  }

  /** It happens: one byte written, the fork interrupted in the window, and the fork opens without it. */
  lemma TornForkLosesBytes()
    ensures Inv(Empty(1))
    ensures var events := [OpenAs("a"), Execute("a", [0]), CrashInFork("a", "b", 0, BeforeRecord, {"a"})];
      && Reads(After(Empty(1), events + [OpenAs("a")]), "a") == Some([0])
      && Reads(After(Empty(1), events + [OpenAs("b")]), "b") == Some([])
  {
    hide Hydrated, Chunks, HashAll, NextHead, Filed, Inv, After;
    EmptyPool(1);
    RootIsEmpty(map[], 1);
    var e := CrashInFork("a", "b", 0, BeforeRecord, {"a"});
    var events := [OpenAs("a"), Execute("a", [0]), e];
    var opened' := Next(Empty(1), OpenAs("a"));
    StepKeeps(Empty(1), OpenAs("a"));
    var written := Next(opened', Execute("a", [0]));
    StepKeeps(opened', Execute("a", [0]));
    TornForkIsAtomicIff(written, "a", "b", 0, BeforeRecord, {"a"});
    var crashed := Next(written, e);
    StepKeeps(written, e);
    forall name ensures After(Empty(1), events + [OpenAs(name)]) == Next(crashed, OpenAs(name)) {
      var last := OpenAs(name);
      assert events + [last] == [OpenAs("a"), Execute("a", [0]), e, last];
      OneStep(Empty(1), [OpenAs("a"), Execute("a", [0]), e, last]);
      OneStep(opened', [Execute("a", [0]), e, last]);
      OneStep(written, [e, last]);
      OneStep(crashed, [last]);
      OneStep(Next(crashed, last), [last]);
      assert [OpenAs("a"), Execute("a", [0]), e, last][1..] == [Execute("a", [0]), e, last];
      assert [Execute("a", [0]), e, last][1..] == [e, last] && [e, last][1..] == [last] && [last][1..] == [];
    }
  }

  lemma OneStep(sys: System, events: seq<Event>)
    requires Inv(sys) && events != []
    ensures 0 < sys.pageSize && Next(sys, events[0]).pageSize == sys.pageSize
    ensures Inv(Next(sys, events[0]))
    ensures After(sys, events) == After(Next(sys, events[0]), events[1..])
    ensures After(sys, []) == sys
  {
    hide Next;
    StepKeeps(sys, events[0]);
    StepGrows(sys, events[0]);
  }

  lemma RootIsEmpty(pages: Cas, pageSize: nat)
    requires 0 < pageSize && Addressed(pages)
    ensures Hydrated(pages, Root(pageSize), pageSize) == Ok(None)
  {
    assert Whole(pages, pageSize, Root(pageSize), []);
    HydrateIsFile(pages, Root(pageSize), [], pageSize);
  }
}
