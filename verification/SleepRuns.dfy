/** Which snapshots survive a sleep and a wake, over every run of a pool. */
module SleepRuns {
  import opened Substrate
  import opened Paging
  import opened Pool
  import opened PoolRuns
  import opened SleepClosure

  // ---- What a sleep needs is always there ----------------------------------------------------

  /** The pool holds the history of everything it can get at. A head whose commit record survived a
      crash is the one manifest that may be waiting for recovery to install it. */
  ghost predicate Rooted(sys: System) {
    && (forall m :: m in sys.disk.manifests ==> Ancestry(m) <= sys.disk.manifests)
    && (forall n :: n in sys.disk.heads ==> Ancestry(sys.disk.heads[n]) <= sys.disk.manifests + {sys.disk.heads[n]})
    && (forall n :: n in sys.open ==> sys.open[n].head in sys.disk.manifests)
  }

  lemma NextHeadAncestry(pageSize: nat, s: Session, nowMs: nat)
    requires 0 < pageSize
    ensures Ancestry(NextHead(pageSize, s, nowMs)) <= Ancestry(s.head) + {NextHead(pageSize, s, nowMs)}
    ensures NextHead(pageSize, s, nowMs) in Ancestry(NextHead(pageSize, s, nowMs))
  {
    hide Diff, Chunks, FileMap, Resolve;
    HeadIsReachable(NextHead(pageSize, s, nowMs));
  }

  lemma StepIsRooted(sys: System, e: Event)
    requires Inv(sys) && Rooted(sys)
    ensures Rooted(Next(sys, e))
  {
    hide Whole, Good, Addressed, Hydrated, Chunks, HashAll, NextHead, Filed, Ancestry;
    if e.CrashInSnapshot? || e.CrashInFork? {
      TornStepIsRooted(sys, e);
    } else if Enabled(sys, e) {
      match e
      case OpenAs(_) => HeadIsReachable(HeadOf(sys.disk, sys.pageSize, e.name)); RootIsAlone(sys.pageSize);
      case Snapshot(name, nowMs) => NextHeadAncestry(sys.pageSize, sys.open[name], nowMs);
      case Fork(name, _, nowMs) => NextHeadAncestry(sys.pageSize, sys.open[name], nowMs);
      case _ =>
    }
  }

  lemma TornStepIsRooted(sys: System, e: Event)
    requires Inv(sys) && Rooted(sys) && (e.CrashInSnapshot? || e.CrashInFork?)
    ensures Rooted(Next(sys, e))
  {
    hide Whole, Good, Addressed, Hydrated, Chunks, HashAll, NextHead, Filed, Ancestry;
    if Enabled(sys, e) {
      NextHeadAncestry(sys.pageSize, sys.open[e.name], e.nowMs);
      RootIsAlone(sys.pageSize);
    }
  }

  lemma RootIsAlone(pageSize: nat)
    ensures Ancestry(Root(pageSize)) == {Root(pageSize)}
  {
  }

  lemma EmptyIsRooted(pageSize: nat)
    ensures Rooted(Empty(pageSize))
  {
  }

  lemma {:induction false} RunIsRooted(sys: System, events: seq<Event>)
    requires Inv(sys) && Rooted(sys)
    ensures Rooted(After(sys, events))
    decreases |events|
  {
    hide Inv, Next, Rooted;
    if events != [] {
      StepIsRooted(sys, events[0]);
      StepKeeps(sys, events[0]);
      PageSizeIsPositive(sys);
      RunIsRooted(Next(sys, events[0]), events[1..]);
    }
  }

  /** In any run of a pool from nothing, the walk of a sleep misses no manifest and the staging no page:
      short of the upload, a sleep never fails. */
  lemma SleepFindsEverything(pageSize: nat, events: seq<Event>, name: Name)
    requires 0 < pageSize
    ensures Inv(Empty(pageSize)) && Rooted(After(Empty(pageSize), events))
    ensures var sys := After(Empty(pageSize), events);
      name in sys.open ==>
        var reachable := Reachable(sys.open[name].head);
        reachable.manifests <= sys.disk.manifests && reachable.pages <= sys.disk.pages.Keys
  {
    hide After, Inv, Ancestry;
    EmptyPool(pageSize);
    EmptyIsRooted(pageSize);
    RunIsRooted(Empty(pageSize), events);
    var sys := After(Empty(pageSize), events);
    if name in sys.open {
      AncestorsAreStored(sys, sys.open[name].head);
    }
  }

  lemma AncestorsAreStored(sys: System, head: Manifest)
    requires Inv(sys) && Ancestry(head) <= sys.disk.manifests
    ensures PagesOfAll(Ancestry(head)) <= sys.disk.pages.Keys
  {
    hide Ancestry, Resolve, Chunks, FileMap;
    forall m, p | m in Ancestry(head) && p in Resolve(m).Keys ensures Resolve(m)[p] in sys.disk.pages {
      assert Good(sys.disk.pages, sys.pageSize, m);
    }
  }

  // ---- The bucket ----------------------------------------------------------------------------

  /** Every manifest in the bucket has all its pages there. */
  ghost predicate Backed(bucket: Contents, pageSize: nat) {
    && 0 < pageSize && Addressed(bucket.pages)
    && (forall m :: m in bucket.manifests ==> Good(bucket.pages, pageSize, m))
  }

  /** And every manifest there resolves there. */
  ghost predicate Sound(bucket: Contents, pageSize: nat) {
    && Backed(bucket, pageSize)
    && (forall m :: m in bucket.manifests ==> Chain(m) <= bucket.manifests)
  }

  /** However an upload ends, every manifest in the bucket still has its pages: a manifest is only sent
      once the pages are. */
  lemma UploadKeepsBacked(sys: System, bucket: Contents, head: Manifest, upload: Upload)
    requires Inv(sys) && Reachable(head).manifests <= sys.disk.manifests
    requires Backed(bucket, sys.pageSize)
    ensures Backed(Received(bucket, sys.disk.pages, Uploaded(upload, Reachable(head))), sys.pageSize)
  {
    hide Ancestry, PagesOfAll, Whole;
    var bucket' := Received(bucket, sys.disk.pages, Uploaded(upload, Reachable(head)));
    forall m | m in bucket'.manifests ensures Good(bucket'.pages, sys.pageSize, m) {
      if m in bucket.manifests {
        var file :| Whole(bucket.pages, sys.pageSize, m, file);
        WholeGrows(bucket.pages, bucket'.pages, sys.pageSize, m, file);
      } else {
        var file :| Whole(sys.disk.pages, sys.pageSize, m, file);
        WholeIsReceived(sys.disk.pages, sys.pageSize, m, file, head, bucket);
      }
    }
  }

  lemma WholeIsReceived(pool: Cas, pageSize: nat, m: Manifest, file: Bytes, head: Manifest, bucket: Contents)
    requires 0 < pageSize && Whole(pool, pageSize, m, file) && m in Ancestry(head)
    ensures Whole(Received(bucket, pool, Reachable(head)).pages, pageSize, m, file)
  {
    hide Ancestry, Resolve, Chunks, FileMap;
    forall p | p in Resolve(m).Keys ensures Resolve(m)[p] in PagesOfAll(Ancestry(head)) {
    }
  }

  /** A completed sleep leaves a sound bucket sound. */
  lemma SleepKeepsSound(sys: System, bucket: Contents, head: Manifest)
    requires Inv(sys) && Reachable(head).manifests <= sys.disk.manifests
    requires Sound(bucket, sys.pageSize)
    ensures Sound(Received(bucket, sys.disk.pages, Reachable(head)), sys.pageSize)
  {
    hide Ancestry, PagesOfAll, Chain, Backed, Inv;
    UploadKeepsBacked(sys, bucket, head, Completes);
    forall m | m in Ancestry(head) ensures Chain(m) <= Ancestry(head) {
      ChainIsAncestry(m);
      AncestryIsTransitive(head, m);
    }
  }

  // ---- Which ids survive ---------------------------------------------------------------------

  /** An id resolves after the wake exactly when its storage chain is in the bucket. In a bucket that
      was empty that is exactly the head's ancestry; in one where everything resolved, that and what
      was there before. */
  lemma ResolvesAfterWakeIff(bucket: set<Manifest>, head: Manifest, id: Manifest)
    ensures ResolveIn(bucket + Ancestry(head), id).Some? <==> Chain(id) <= bucket + Ancestry(head)
    ensures ResolveIn(Ancestry(head), id).Some? <==> id in Ancestry(head)
    ensures (forall m :: m in bucket ==> Chain(m) <= bucket) ==>
      (ResolveIn(bucket + Ancestry(head), id).Some? <==> id in bucket || id in Ancestry(head))
  {
    hide Chain, Ancestry, ResolveIn;
    ResolvesIffChain(bucket + Ancestry(head), id);
    ResolvesIffChain(Ancestry(head), id);
    ChainIsAncestry(id);
    if id in Ancestry(head) {
      AncestryIsTransitive(head, id);
    }
  }

  /** The law of `sleep`, exactly. Take any id a snapshot of this pool ever returned and the bytes it
      was taken of, and put any database of the pool to sleep in a bucket. After the wake, restoring
      the id gives those bytes if it is in the ancestry of the head that was put to sleep, or was
      already in the bucket; otherwise the store has never seen it and nothing moves. */
  lemma SnapshotSurvivesSleepIff(sys: System, bucket: Contents, name: Name, head: Manifest, s: Session,
                                 id: Manifest, file: Bytes)
    requires Inv(sys) && Ancestry(head) <= sys.disk.manifests && (id, file) in sys.taken
    requires Sound(bucket, sys.pageSize)
    ensures var bucket' := Received(bucket, sys.disk.pages, Reachable(head));
      var (disk, s', error) := Restored(Woken(bucket', name, head), sys.pageSize, name, s, id);
      var survives := id in Ancestry(head) || id in bucket.manifests;
      && (error == None <==> survives)
      && (ResolveIn(bucket'.manifests, id).Some? <==> survives)
      && (survives ==> s' == Session(id, file))
      && (!survives ==> error == Some(UnknownSnapshot(id)) && s' == s && disk == Woken(bucket', name, head))
  {
    hide Ancestry, Chain, Resolve, ResolveIn, Hydrated, Good, Chunks, FileMap, PagesOfAll, Only;
    var bucket' := Received(bucket, sys.disk.pages, Reachable(head));
    SleepKeepsSound(sys, bucket, head);
    ResolvesAfterWakeIff(bucket.manifests, head, id);
    if id in bucket'.manifests {
      SameFile(bucket'.pages, sys, id, file);
      WholeHydrates(bucket'.pages, sys.pageSize, id, file);
    }
  }

  /** A manifest that is a file in one store is the same file wherever its pages are. */
  lemma SameFile(pages: Cas, sys: System, id: Manifest, file: Bytes)
    requires 0 < sys.pageSize && Good(pages, sys.pageSize, id) && Whole(sys.disk.pages, sys.pageSize, id, file)
    ensures Whole(pages, sys.pageSize, id, file)
  {
  }

  /** Going back and committing again starts a new branch of history: of two commits on one head, the
      second is not built on the first. */
  lemma RewoundIsNotAnAncestor(head: Manifest, first: Changes, firstMs: nat, second: Changes, secondMs: nat)
    ensures Derive(head, first, firstMs) in Ancestry(Derive(head, second, secondMs)) <==>
      first == second && firstMs == secondMs
  {
    hide Ancestry, Size;
    var a, b := Derive(head, first, firstMs), Derive(head, second, secondMs);
    assert Ancestry(b) == {b} + Ancestry(head) && Size(a) > Size(head) by {
      Unfold(head, first, firstMs);
      Unfold(head, second, secondMs);
    }
    if a in Ancestry(head) {
      SmallerThan(head, a);
    }
  }

  lemma Unfold(head: Manifest, changes: Changes, nowMs: nat)
    ensures var m := Derive(head, changes, nowMs);
      Ancestry(m) == {m} + Ancestry(head) && Size(m) > Size(head)
  {
  }

  function Size(m: Manifest): nat {
    match m
    case Root(_) => 0
    case Full(_, parent, _) => Size(parent) + 1
    case Overlay(base, parent, _, _) => Size(base) + Size(parent) + 1
  }

  lemma {:induction false} SmallerThan(m: Manifest, a: Manifest)
    requires a in Ancestry(m)
    ensures Size(a) <= Size(m)
  {
    if a != m {
      match m
      case Full(_, parent, _) => SmallerThan(parent, a);
      case Overlay(base, parent, _, _) =>
        if a in Ancestry(base) { SmallerThan(base, a); } else { SmallerThan(parent, a); }
    }
  }

  // ---- A run that loses one ------------------------------------------------------------------

  const NAME := "a"

  /** Write, snapshot, go back to the empty database, write something else, snapshot again. */
  const DETOUR := [OpenAs(NAME), Execute(NAME, [0]), Event.Snapshot(NAME, 1), Event.Restore(NAME, Root(1)),
                   Execute(NAME, [1]), Event.Snapshot(NAME, 2)]

  /** Put to sleep after that, the first snapshot does not make it to the bucket: its id restores in the
      pool, and is unknown after the wake. */
  lemma DetourLosesASnapshot() returns (id: Manifest)
    ensures Inv(Empty(1))
    ensures var sys := After(Empty(1), DETOUR);
      && NAME in sys.open && (id, [0]) in sys.taken
      && Restored(sys.disk, 1, NAME, sys.open[NAME], id).2 == None
      && var head := sys.open[NAME].head;
         var bucket := Received(Contents({}, map[]), sys.disk.pages, Reachable(head));
         Restored(Woken(bucket, NAME, head), 1, NAME, sys.open[NAME], id).2 == Some(UnknownSnapshot(id))
  {
    hide Inv, After, Restored, Received, Woken, Rooted, Reachable;
    EmptyPool(1);
    EmptyIsRooted(1);
    OneStep(Empty(1), DETOUR);
    RunIsRooted(Empty(1), DETOUR);
    RunKeeps(Empty(1), DETOUR);
    var opened' := Next(Empty(1), OpenAs(NAME));
    OpensAtRoot();
    id := DetourEnds(opened', DETOUR[1..]);
    var sys := After(Empty(1), DETOUR);
    HeadIsRooted(sys, NAME);
    RestoreFailsIff(sys, NAME, id);
    TakenIsHeld(sys, id, [0]);
    SnapshotSurvivesSleepIff(sys, Contents({}, map[]), NAME, sys.open[NAME].head, sys.open[NAME], id, [0]);
  }

  lemma OpensAtRoot()
    ensures var sys := Next(Empty(1), OpenAs(NAME));
      NAME in sys.open && sys.open[NAME] == Session(Root(1), []) && Root(1) in sys.disk.manifests
  {
    hide Hydrated;
    RootIsEmpty(map[], 1);
  }

  lemma HeadIsRooted(sys: System, name: Name)
    requires Rooted(sys) && name in sys.open
    ensures Ancestry(sys.open[name].head) <= sys.disk.manifests
  {
  }

  lemma TakenIsHeld(sys: System, id: Manifest, file: Bytes)
    requires Inv(sys) && (id, file) in sys.taken
    ensures id in sys.disk.manifests && sys.pageSize > 0
  {
  }

  lemma DetourEnds(sys: System, rest: seq<Event>) returns (id: Manifest)
    requires Inv(sys) && sys.pageSize == 1 && NAME in sys.open && sys.open[NAME].head == Root(1)
    requires Root(1) in sys.disk.manifests && rest == DETOUR[1..]
    ensures var end := After(sys, rest);
      && NAME in end.open && end.pageSize == 1 && (id, [0]) in end.taken
      && id !in Ancestry(end.open[NAME].head)
  {
    hide Inv, Next, Ancestry;
    var e1, e2, e3 := Execute(NAME, [0]), Event.Snapshot(NAME, 1), Event.Restore(NAME, Root(1));
    var e4, e5 := Execute(NAME, [1]), Event.Snapshot(NAME, 2);
    assert rest == [e1, e2, e3, e4, e5];
    OneStep(sys, [e1, e2, e3, e4, e5]);
    var s1 := Next(sys, e1);
    OneStep(s1, [e2, e3, e4, e5]);
    var s2 := Next(s1, e2);
    OneStep(s2, [e3, e4, e5]);
    var s3 := Next(s2, e3);
    OneStep(s3, [e4, e5]);
    OneStep(Next(s3, e4), [e5]);
    FromRoot(sys, [0], 1);
    BackToRoot(s2);
    FromRoot(s3, [1], 2);
    id := s2.open[NAME].head;
    var first, second := Grown(1, [0]), Grown(1, [1]);
    RewoundIsNotAnAncestor(Root(1), first, 1, second, 2);
  }

  /** What a write on the empty database changes. */
  function Grown(pageSize: nat, file: Bytes): Changes
    requires 0 < pageSize
  {
    Diff(map[], FileMap(Chunks(file, pageSize)))
  }

  /** Write and snapshot on the empty root. */
  lemma FromRoot(sys: System, file: Bytes, nowMs: nat)
    requires Inv(sys) && NAME in sys.open && sys.open[NAME].head == Root(sys.pageSize) && file != []
    ensures Inv(Next(sys, Execute(NAME, file)))
    ensures var end := Next(Next(sys, Execute(NAME, file)), Event.Snapshot(NAME, nowMs));
      && NAME in end.open && end.pageSize == sys.pageSize
      && end.open[NAME].head == Derive(Root(sys.pageSize), Grown(sys.pageSize, file), nowMs)
      && (end.open[NAME].head, file) in end.taken && sys.taken <= end.taken
      && sys.disk.manifests <= end.disk.manifests
  {
    hide Inv, Chunks, HashAll, Filed, Diff, FileMap, Whole;
    PageSizeIsPositive(sys);
    StepKeeps(sys, Execute(NAME, file));
    var written := Next(sys, Execute(NAME, file));
    SnapshotLeavesRoot(sys.pageSize, written.open[NAME], nowMs);
  }

  lemma SnapshotLeavesRoot(pageSize: nat, s: Session, nowMs: nat)
    requires 0 < pageSize && s.head == Root(pageSize) && s.file != []
    ensures NextHead(pageSize, s, nowMs) == Derive(s.head, Grown(pageSize, s.file), nowMs)
  {
    hide Chunks, HashAll, Filed, Diff, FileMap, Hydrated, Whole;
    SnapshotIsWhole(map[], pageSize, s, nowMs);
    if NextHead(pageSize, s, nowMs) == s.head {
      var pages := Filed(HashAll(Chunks(s.file, pageSize)));
      assert map[] + pages == pages;
      WholeHydrates(pages, pageSize, s.head, s.file);
      RootIsEmpty(pages, pageSize);
    }
  }

  lemma BackToRoot(sys: System)
    requires Inv(sys) && NAME in sys.open && Root(sys.pageSize) in sys.disk.manifests
    ensures var end := Next(sys, Event.Restore(NAME, Root(sys.pageSize)));
      && Inv(end) && NAME in end.open && end.pageSize == sys.pageSize
      && end.open[NAME].head == Root(sys.pageSize) && end.taken == sys.taken
  {
    hide Inv, Hydrated;
    PageSizeIsPositive(sys);
    StepKeeps(sys, Event.Restore(NAME, Root(sys.pageSize)));
  }
}
