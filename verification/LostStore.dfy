/** Two runs in which the pool's store is lost while a branch is asleep. In one, a crashed sleep cannot be
    woken: what is left of the directory recovers to an older head. In the other the wake succeeds, and
    the branch cannot be put to sleep again. */
module LostStore {
  import opened Substrate
  import opened Paging
  import opened Pool
  import PoolRuns
  import opened SleepClosure
  import SleepRuns
  import opened TierLifecycle
  import opened TierRuns
  import opened SleepAgain
  import Workspace

  const NAME := "main"
  const TIER := "cold"

  /** The head of the first commit. */
  const FIRST := Derive(Root(1), SleepRuns.Grown(1, [0]), 1)

  /** Commit twice and sleep, up to the sleep's record. */
  const SLEPT := [Commit(NAME, [0], 1), Commit(NAME, [1], 2), StartSleep(NAME, TIER), TakeSnapshot(NAME, [1], 3),
                  FinishUpload, WriteRecord]

  /** Crash while the directory is being removed, and lose the pool's store. */
  const DOOMED := SLEPT + [TearDir(FIRST), Crash, LoseCas]

  /** Finish the sleep, and lose the pool's store. */
  const WORN := SLEPT + [RemoveDir, LoseCas]

  // ---- The steps -----------------------------------------------------------------------------

  /** The pool holds the history of everything it has, and the pages of all of that. */
  ghost predicate Rich(disk: Disk) {
    forall m :: m in disk.manifests ==> Ancestry(m) <= disk.manifests && Stored(disk.pages, m)
  }

  /** Nothing is running, and `NAME` is awake at `head`. */
  ghost predicate Resting(w: World, head: Manifest) {
    && Inv(w) && w.pageSize == 1 && w.running.Idle? && w.asleep == map[] && w.tiers == map[]
    && w.disk.heads == map[NAME := head] && head in w.disk.manifests && head in w.held && Rich(w.disk)
  }

  lemma RecoveredIsRich(disk: Disk, pageSize: nat, name: Name)
    requires Rich(disk) && (name in disk.heads ==> disk.heads[name] in disk.manifests)
    ensures Rich(Recovered(disk, pageSize, name))
  {
    hide Hydrated;
    SleepRuns.RootIsAlone(pageSize);
  }

  lemma TakenIsRich(disk: Disk, pageSize: nat, name: Name, file: Bytes, nowMs: nat)
    requires 0 < pageSize && Addressed(disk.pages) && Rich(disk) && HeadOf(disk, pageSize, name) in disk.manifests
    ensures Rich(Taken(disk, pageSize, name, file, nowMs).0)
    ensures Resolve(Taken(disk, pageSize, name, file, nowMs).1.head) == FileMap(Chunks(file, pageSize))
  {
    hide Chunks, HashAll, NextHead, Filed, Ancestry, Resolve, FileMap;
    var s := Session(HeadOf(disk, pageSize, name), file);
    PoolRuns.SnapshotIsWhole(disk.pages, pageSize, s, nowMs);
    SleepRuns.NextHeadAncestry(pageSize, s, nowMs);
  }

  /** What a commit makes of the world. */
  lemma CommitDoes(w: World, file: Bytes, nowMs: nat)
    requires Inv(w) && w.running.Idle? && NAME !in w.asleep
    ensures 0 < w.pageSize && Inv(Next(w, Commit(NAME, file, nowMs)))
    ensures var disk := Taken(Recovered(w.disk, w.pageSize, NAME), w.pageSize, NAME, file, nowMs).0;
      Next(w, Commit(NAME, file, nowMs)) == Remembering(w.held, w.(disk := disk))
  {
    hide Inv, Opens, Opened, Snapshotted, Openable, Remembering;
    InvIsPositive(w);
    CoreNow(w);
    RecoveredOpens(w, NAME);
    StepKeeps(w, Commit(NAME, file, nowMs));
  }

  /** A snapshot of a branch whose recovery finds `before`. */
  lemma TakenDisk(disk: Disk, before: Manifest, file: Bytes, nowMs: nat) returns (after: Disk, head: Manifest)
    requires HeadOf(disk, 1, NAME) == before && (NAME in disk.heads ==> before in disk.manifests)
    requires disk.heads.Keys <= {NAME} && Addressed(disk.pages) && Rich(disk)
    ensures (after, Session(head, file)) == Taken(Recovered(disk, 1, NAME), 1, NAME, file, nowMs)
    ensures after.heads == map[NAME := head] && head in after.manifests && Rich(after)
    ensures head == NextHead(1, Session(before, file), nowMs) && Resolve(head) == FileMap(Chunks(file, 1))
  {
    hide Chunks, HashAll, NextHead, Filed, Resolve, FileMap, Rich, Hydrated;
    var recovered := Recovered(disk, 1, NAME);
    RecoveredIsRich(disk, 1, NAME);
    TakenIsRich(recovered, 1, NAME, file, nowMs);
    var (taken, s) := Taken(recovered, 1, NAME, file, nowMs);
    after, head := taken, s.head;
  }

  lemma FirstCommit()
    ensures Inv(Initial(1)) && Resting(Next(Initial(1), Commit(NAME, [0], 1)), FIRST)
    ensures Resolve(FIRST) == FileMap(Chunks([0], 1))
  {
    hide Resolve, Inv, Rich, Chunks, FileMap, Taken, Recovered, NextHead;
    InitialIsInv(1);
    var w := Initial(1);
    EmptyIsRich();
    CommitDoes(w, [0], 1);
    var disk, head := TakenDisk(w.disk, Root(1), [0], 1);
    SleepRuns.SnapshotLeavesRoot(1, Session(Root(1), [0]), 1);
    Values(disk.heads, head);
  }

  lemma EmptyIsRich()
    ensures Rich(Initial(1).disk) && Addressed(Initial(1).disk.pages)
  {
  }

  lemma Values(heads: map<Name, Manifest>, head: Manifest)
    requires heads == map[NAME := head]
    ensures head in heads.Values
  {
    assert NAME in heads;
  }

  lemma SecondCommit(w: World) returns (head: Manifest)
    requires Resting(w, FIRST)
    ensures Resting(Next(w, Commit(NAME, [1], 2)), head) && FIRST in Next(w, Commit(NAME, [1], 2)).held
    ensures FIRST in Ancestry(head)
  {
    hide Resolve, Inv, Rich, Chunks, FileMap, Taken, Recovered, NextHead, Ancestry;
    CoreNow(w);
    CommitDoes(w, [1], 2);
    var disk, last := TakenDisk(w.disk, FIRST, [1], 2);
    HistoryKept(Session(FIRST, [1]), 2, FIRST);
    Values(disk.heads, last);
    head := last;
  }

  /** A snapshot's manifest has the history of the head it was taken on. */
  lemma HistoryKept(s: Session, nowMs: nat, a: Manifest)
    requires a in Ancestry(s.head) || a == s.head
    ensures a in Ancestry(NextHead(1, s, nowMs))
  {
    hide Diff, Chunks, FileMap, Resolve;
    HeadIsReachable(s.head);
  }

  /** The sleep, up to and including its record. */
  lemma Sleeps(w: World, head: Manifest) returns (last: Manifest)
    requires Resting(w, head) && FIRST in w.held && FIRST in Ancestry(head)
    ensures var w1 := Next(w, StartSleep(NAME, TIER));
      && w1.pageSize == 1 && var w2 := Next(w1, TakeSnapshot(NAME, [1], 3));
      && w2.pageSize == 1 && var w3 := Next(w2, FinishUpload);
      && w3.pageSize == 1 && var w4 := Next(w3, WriteRecord);
      && w4.pageSize == 1 && w4.running == SleepRecorded(NAME) && FIRST in w4.held
      && w4.asleep == map[NAME := Record(TIER, last)] && w4.disk.heads == map[NAME := last]
    ensures Resolve(last) == FileMap(Chunks([1], 1)) && FIRST in Ancestry(last)
  {
    hide Next, Resolve, Inv, Chunks, FileMap, Rich, Taken, Recovered, Ancestry, NextHead;
    CoreNow(w);
    Opening(w, head);
    var w1 := Next(w, StartSleep(NAME, TIER));
    var disk, next := TakenDisk(w.disk, head, [1], 3);
    last := next;
    HistoryKept(Session(head, [1]), 3, FIRST);
    SleepRecords(w1, disk, last);
    SleepUploads(Next(w1, TakeSnapshot(NAME, [1], 3)), last);
  }

  lemma Opening(w: World, head: Manifest)
    requires Resting(w, head)
    ensures var w1 := Next(w, StartSleep(NAME, TIER));
      && w1.pageSize == 1 && w1.running == SleepOpened(NAME, TIER, head) && w1.asleep == map[]
      && w1.disk == Recovered(w.disk, 1, NAME) && w1.disk.heads == map[NAME := head] && w.held <= w1.held
  {
    hide Inv, Rich, Opens, Openable, Opened;
    CoreNow(w);
    NameResolves();
    RecoveredOpens(w, NAME);
    RecoverOnly(w.disk, head);
  }

  lemma SleepRecords(w: World, disk: Disk, last: Manifest)
    requires w.pageSize == 1 && w.running.SleepOpened? && w.running.name == NAME && w.running.tier == TIER
    requires (disk, Session(last, [1])) == Taken(w.disk, 1, NAME, [1], 3)
    ensures var w2 := Next(w, TakeSnapshot(NAME, [1], 3));
      && w2.pageSize == 1 && w2.running == SleepSnapshotted(NAME, TIER, last) && w2.asleep == w.asleep
      && w2.disk == disk && w.held <= w2.held
  {
    hide Taken;
  }

  lemma SleepUploads(w: World, last: Manifest)
    requires w.pageSize == 1 && w.running == SleepSnapshotted(NAME, TIER, last) && w.asleep == map[]
    requires Rich(w.disk) && last in w.disk.manifests
    ensures var w1 := Next(w, FinishUpload);
      && w1.pageSize == 1 && var w2 := Next(w1, WriteRecord);
      && w2.pageSize == 1 && w2.running == SleepRecorded(NAME) && w2.asleep == map[NAME := Record(TIER, last)]
      && w2.disk == w.disk && w.held <= w2.held
  {
    hide Reachable, Received, Rich;
    RichPages(w.disk, last);
  }

  lemma RecoverOnly(disk: Disk, head: Manifest)
    requires disk.heads == map[NAME := head]
    ensures Recovered(disk, 1, NAME).heads == disk.heads
  {
    hide Hydrated;
  }

  lemma NameResolves()
    ensures Workspace.Resolves({NAME}, {}, NAME)
  {
    hide Workspace.Listed;
    Workspace.ResolvesIff({NAME}, {}, NAME);
  }

  lemma RichPages(disk: Disk, head: Manifest)
    requires Rich(disk) && head in disk.manifests
    ensures Reachable(head).manifests <= disk.manifests && Reachable(head).pages <= disk.pages.Keys
  {
    hide Ancestry, Resolve;
  }

  /** The crash and the loss. */
  lemma IsLost(w: World, last: Manifest)
    requires 0 < w.pageSize && w.running == SleepRecorded(NAME) && FIRST in w.held
    requires w.asleep == map[NAME := Record(TIER, last)] && w.disk.heads == map[NAME := last]
    ensures var w1 := Next(w, TearDir(FIRST));
      && w1.pageSize == w.pageSize && var w2 := Next(w1, Crash);
      && w2.pageSize == w.pageSize && var w3 := Next(w2, LoseCas);
      && w3.pageSize == w.pageSize && w3.running.Idle? && w3.asleep == w.asleep
      && w3.disk.pages == map[] && w3.disk.heads == map[NAME := FIRST]
  {
    hide Next;
    DirTears(w, last);
    StoreGoes(Next(w, TearDir(FIRST)));
  }

  lemma DirTears(w: World, last: Manifest)
    requires 0 < w.pageSize && w.running == SleepRecorded(NAME) && FIRST in w.held
    requires w.disk.heads == map[NAME := last]
    ensures var w1 := Next(w, TearDir(FIRST));
      w1.pageSize == w.pageSize && w1.asleep == w.asleep && w1.disk.heads == map[NAME := FIRST]
  {
  }

  lemma StoreGoes(w: World)
    requires 0 < w.pageSize && NAME in w.asleep && w.disk.heads == map[NAME := FIRST]
    ensures var w1 := Next(w, Crash);
      && w1.pageSize == w.pageSize && var w2 := Next(w1, LoseCas);
      && w2.pageSize == w.pageSize && w2.running.Idle? && w2.asleep == w.asleep
      && w2.disk.pages == map[] && w2.disk.heads == w.disk.heads
  {
  }

  // ---- The outcome ---------------------------------------------------------------------------

  /** The world after the first `k` events. */
  ghost function At(k: nat): (w: World)
    requires k <= |SLEPT|
    ensures Inv(w)
  {
    InitialIsInv(1);
    After(Initial(1), SLEPT[..k])
  }

  lemma StepAt(k: nat)
    requires k < |SLEPT|
    ensures At(k).pageSize > 0 && At(k + 1) == Next(At(k), SLEPT[k])
  {
    hide Inv, Next, After;
    InitialIsInv(1);
    AfterSnoc(Initial(1), SLEPT[..k], SLEPT[k]);
    assert SLEPT[..k + 1] == SLEPT[..k] + [SLEPT[k]];
  }

  lemma FallsAsleep() returns (last: Manifest)
    ensures Inv(Initial(1))
    ensures var w := After(Initial(1), SLEPT);
      && w.pageSize == 1 && w.running == SleepRecorded(NAME) && FIRST in w.held
      && w.asleep == map[NAME := Record(TIER, last)] && w.disk.heads == map[NAME := last]
    ensures Resolve(last) == FileMap(Chunks([1], 1)) && FIRST in Ancestry(last)
    ensures Resolve(FIRST) == FileMap(Chunks([0], 1))
  {
    hide Inv, Next, Resolve, Chunks, FileMap, Ancestry;
    FirstCommit();
    assert At(0) == Initial(1) && At(|SLEPT|) == After(Initial(1), SLEPT) by {
      assert SLEPT[..0] == [] && SLEPT[..|SLEPT|] == SLEPT;
    }
    StepAt(0); StepAt(1); StepAt(2); StepAt(3); StepAt(4); StepAt(5);
    var head := SecondCommit(At(1));
    last := Sleeps(At(2), head);
  }

  /** Hydration needs every page. */
  lemma HydratedIsStored(cas: Cas, m: Manifest, size: nat)
    ensures Hydrated(cas, m, size).Ok? ==> Stored(cas, m)
  {
    hide Hydrated, Resolve, Ascending;
    HydratesIff(cas, m, size);
    var keys := Ascending(Resolve(m).Keys);
    if Hydrated(cas, m, size).Ok? {
      forall p | p in Resolve(m) ensures Resolve(m)[p] in cas {
        assert p in keys;
        var k :| 0 <= k < |keys| && keys[k] == p;
        assert Resolve(m)[keys[k]] in cas;
      }
    }
  }

  /** The branch is asleep, its tier holds its head, and yet no wake brings it back: adopting the
      head's pages does not bring back the older head's, and that is the one recovery finds. */
  lemma TornAndLostStaysAsleep(files: seq<(PageId, Bytes)>, cached: set<Manifest>)
    ensures Inv(Initial(1))
    ensures var w := After(Initial(1), DOOMED);
      && w.pageSize == 1 && w.running.Idle? && NAME in w.asleep && w.disk.heads == map[NAME := FIRST]
      && (Fetched(w, NAME, files, cached) ==>
            !AwakeAt(After(w, WakeSteps(NAME, files, cached)), NAME, LogicalHead(w, NAME)))
  {
    hide Inv, Next, After, Resolve, Opens, AwakeAt, Fetched, Chunks, FileMap;
    var last := FallsAsleep();
    var slept := After(Initial(1), SLEPT);
    IsLost(slept, last);
    AfterConcat(Initial(1), SLEPT, [TearDir(FIRST), Crash, LoseCas]);
    StepFirst(slept, [TearDir(FIRST), Crash, LoseCas]);
    var torn := Next(slept, TearDir(FIRST));
    StepFirst(torn, [Crash, LoseCas]);
    StepFirst(Next(torn, Crash), [LoseCas]);
    var w := Next(Next(torn, Crash), LoseCas);
    StepFirst(w, [Crash]);
    assert [TearDir(FIRST), Crash, LoseCas][1..] == [Crash, LoseCas] && [Crash, LoseCas][1..] == [LoseCas];
    assert [LoseCas][1..] == [];
    if Fetched(w, NAME, files, cached) {
      WakeReachesTheHeadIff(w, NAME, files, cached);
      LostIsNotAdopted(w, last, cached);
    }
  }

  lemma LostIsNotAdopted(w: World, last: Manifest, cached: set<Manifest>)
    requires w.pageSize == 1 && w.asleep == map[NAME := Record(TIER, last)]
    requires w.disk.pages == map[] && w.disk.heads == map[NAME := FIRST]
    requires Resolve(last) == FileMap(Chunks([1], 1)) && Resolve(FIRST) == FileMap(Chunks([0], 1))
    ensures !Opens(Adopted(w, NAME, cached), 1, HeadOf(w.disk, 1, NAME))
  {
    hide Resolve, Hydrated, ResolveIn;
    var disk := Adopted(w, NAME, cached);
    HydratedIsStored(disk.pages, FIRST, 1);
    assert Chunks([1], 1) == [[1]] && Chunks([0], 1) == [[0]];
    assert Resolve(FIRST)[0] == PageId([0]);
    assert PageId([0]) !in Resolve(last).Values;
  }

  // ---- Sleeping again ------------------------------------------------------------------------

  lemma DirGoes(w: World, last: Manifest)
    requires 0 < w.pageSize && w.running == SleepRecorded(NAME) && NAME in w.asleep
    requires w.disk.heads == map[NAME := last]
    ensures var w1 := Next(w, RemoveDir);
      && w1.pageSize == w.pageSize && var w2 := Next(w1, LoseCas);
      && w2.pageSize == w.pageSize && w2.running.Idle? && w2.asleep == w.asleep
      && w2.disk.pages == map[] && w2.disk.heads == map[]
  {
  }

  /** The wake brings the branch back at its head, and then it cannot be put to sleep again: the page of
      the first commit is in the tier, but the wake did not adopt it. */
  lemma WokenCannotSleepAgain(files: seq<(PageId, Bytes)>, cached: set<Manifest>)
    ensures Inv(Initial(1))
    ensures var w := After(Initial(1), WORN);
      && w.pageSize == 1 && w.running.Idle? && NAME in w.asleep
      && (Fetched(w, NAME, files, cached) ==>
            var woken := After(w, WakeSteps(NAME, files, cached));
            var ready := After(woken, SleepSteps(NAME, TIER, [1], 4));
            && AwakeAt(woken, NAME, LogicalHead(w, NAME))
            && ready.running.SleepSnapshotted? && 0 < ready.pageSize && !Enabled(ready, FinishUpload))
  {
    hide Inv, Next, After, Resolve, Opens, AwakeAt, Lists, ResolveIn, TierOf, Chunks, FileMap, Enabled, Ancestry;
    hide Workspace.Resolves, SleepSteps, WakeSteps;
    var last := FallsAsleep();
    var slept := After(Initial(1), SLEPT);
    DirGoes(slept, last);
    AfterConcat(Initial(1), SLEPT, [RemoveDir, LoseCas]);
    StepFirst(slept, [RemoveDir, LoseCas]);
    StepFirst(Next(slept, RemoveDir), [LoseCas]);
    var w := Next(Next(slept, RemoveDir), LoseCas);
    StepFirst(w, [Crash]);
    assert [RemoveDir, LoseCas][1..] == [LoseCas] && [LoseCas][1..] == [];
    if Fetched(w, NAME, files, cached) {
      LeftoverOpens(w, NAME, files, cached);
      WakeReachesTheHeadIff(w, NAME, files, cached);
      SleepsAgainIff(w, NAME, files, cached, TIER, [1], 4);
      NameResolves();
      assert w.disk.heads.Keys + {NAME} == {NAME} && w.asleep.Keys - {NAME} == {};
      FirstPageIsNeeded(last);
    }
  }

  lemma FirstPageIsNeeded(last: Manifest)
    requires FIRST in Ancestry(last)
    requires Resolve(last) == FileMap(Chunks([1], 1)) && Resolve(FIRST) == FileMap(Chunks([0], 1))
    ensures !(Reachable(last).pages <= Resolve(last).Values)
  {
    hide Resolve, Ancestry;
    assert Chunks([1], 1) == [[1]] && Chunks([0], 1) == [[0]];
    assert 0 in Resolve(FIRST).Keys && Resolve(FIRST)[0] == PageId([0]);
    assert PageId([0]) in Reachable(last).pages;
    assert PageId([0]) !in Resolve(last).Values;
  }
}
