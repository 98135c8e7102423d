/** Putting a branch to sleep, exactly when it works: the first time, and again after a wake. */
module SleepAgain {
  import opened Substrate
  import opened Paging
  import opened Pool
  import PoolRuns
  import opened SleepClosure
  import opened TierLifecycle
  import opened TierRuns
  import Workspace

  /** What a sleep does up to its upload, when the branch was only opened. */
  function SleepSteps(name: Name, tier: string, file: Bytes, nowMs: nat): seq<Event> {
    [StartSleep(name, tier), TakeSnapshot(name, file, nowMs)]
  }

  /** A branch that is awake and written back as it was can be uploaded if and only if its name resolves
      and the pool still has the whole history of its head: every manifest reachable from it, and every
      page any of those names. */
  lemma SleepsIff(w: World, name: Name, tier: string, file: Bytes, nowMs: nat)
    requires Inv(w) && w.running.Idle? && name in w.disk.heads && name !in w.asleep && 0 < w.pageSize
    requires Resolve(w.disk.heads[name]) == FileMap(Chunks(file, w.pageSize))
    ensures var ready := After(w, SleepSteps(name, tier, file, nowMs));
      var head := w.disk.heads[name];
      && 0 < ready.pageSize
      && (Workspace.Resolves(w.disk.heads.Keys, w.asleep.Keys, name) ==>
            ready.running == SleepSnapshotted(name, tier, head))
      && (Enabled(ready, FinishUpload) <==>
            && Workspace.Resolves(w.disk.heads.Keys, w.asleep.Keys, name)
            && Reachable(head).manifests <= w.disk.manifests + {head}
            && Reachable(head).pages <= w.disk.pages.Keys)
  {
    hide Inv, Next, After, Resolve, FileMap, Chunks, Reachable, Enabled, Workspace.Resolves;
    var e1, e2 := StartSleep(name, tier), TakeSnapshot(name, file, nowMs);
    StepFirst(w, [e1, e2]);
    StepFirst(Next(w, e1), [e2]);
    StepFirst(Next(Next(w, e1), e2), [e2]);
    assert [e1, e2][1..] == [e2] && [e2][1..] == [];
    SleepOpens(w, name, tier);
    if Workspace.Resolves(w.disk.heads.Keys, w.asleep.Keys, name) {
      SleepSnapshots(Next(w, e1), name, file, nowMs);
    } else {
      NoSnapshot(Next(w, e1), name, file, nowMs);
    }
  }

  lemma SleepOpens(w: World, name: Name, tier: string)
    requires Inv(w) && w.running.Idle? && name in w.disk.heads && name !in w.asleep
    ensures 0 < w.pageSize
    ensures var head := w.disk.heads[name];
      var w1 := Next(w, StartSleep(name, tier));
      if Workspace.Resolves(w.disk.heads.Keys, w.asleep.Keys, name) then
        w1.running == SleepOpened(name, tier, head) && w1.pageSize == w.pageSize && w1.asleep == w.asleep
        && w1.disk == w.disk.(manifests := w.disk.manifests + {head})
      else w1 == w
  {
    hide Inv, Opens, Openable, Hydrated, Workspace.Resolves;
    InvIsPositive(w);
    CoreNow(w);
    RecoveredOpens(w, name);
    assert w.disk.heads[name := w.disk.heads[name]] == w.disk.heads;
  }

  lemma CoreNow(w: World)
    requires Inv(w)
    ensures Core(w) && 0 < w.pageSize && Addressed(w.disk.pages)
  {
  }

  lemma SleepSnapshots(w: World, name: Name, file: Bytes, nowMs: nat)
    requires Inv(w) && w.running.SleepOpened? && w.running.name == name && 0 < w.pageSize
    requires name in w.disk.heads && w.disk.heads[name] == w.running.head && w.running.head in w.disk.manifests
    requires name !in w.asleep
    requires Resolve(w.running.head) == FileMap(Chunks(file, w.pageSize))
    ensures var head := w.running.head;
      var w1 := Next(w, TakeSnapshot(name, file, nowMs));
      && 0 < w1.pageSize && w1.running == SleepSnapshotted(name, w.running.tier, head)
      && (Enabled(w1, FinishUpload) <==>
            Reachable(head).manifests <= w.disk.manifests && Reachable(head).pages <= w.disk.pages.Keys)
  {
    hide Inv, Resolve, FileMap, Chunks, Reachable, Diff, CommitTo;
    PersistedHead(w.running.head, Chunks(file, w.pageSize), nowMs);
    SamePages(w, name, file);
  }

  /** Filing the pages of a file that is there already adds none. */
  lemma SamePages(w: World, name: Name, file: Bytes)
    requires Inv(w) && name in w.disk.heads && name !in w.asleep && 0 < w.pageSize
    requires Resolve(w.disk.heads[name]) == FileMap(Chunks(file, w.pageSize))
    ensures (w.disk.pages + Filed(HashAll(Chunks(file, w.pageSize)))).Keys == w.disk.pages.Keys
  {
    hide Resolve, ResolveIn, Chunks, Hydrated;
    var head, chunks := w.disk.heads[name], Chunks(file, w.pageSize);
    assert IsBranch(w, name) && Recoverable(w, name);
    OpenableIsGood(w.disk, w.pageSize, head);
    PoolRuns.GoodHydrates(w.disk.pages, w.pageSize, head);
    forall id | id in HashAll(chunks) ensures id in w.disk.pages {
      var i :| 0 <= i < |chunks| && HashPage(chunks[i]) == id;
      assert Resolve(head)[i] == id;
    }
  }

  lemma NoSnapshot(w: World, name: Name, file: Bytes, nowMs: nat)
    requires 0 < w.pageSize && w.running.Idle?
    ensures var w1 := Next(w, TakeSnapshot(name, file, nowMs));
      0 < w1.pageSize && !Enabled(w1, FinishUpload)
  {
  }

  // ---- After a wake --------------------------------------------------------------------------

  /** A wake adopts the pages of the head and no others. Putting the branch to sleep again, untouched,
      works if and only if the history of its head is there all the same: its manifests in the pool or in
      what the wake fetched, and every page of an ancestor in the pool or in the head itself. After the
      pool's store was lost, that is: no ancestor has a page the head has not. */
  lemma SleepsAgainIff(w: World, name: Name, files: seq<(PageId, Bytes)>, cached: set<Manifest>, tier: string,
                       file: Bytes, nowMs: nat)
    requires Inv(w) && w.running.Idle? && Fetched(w, name, files, cached) && 0 < w.pageSize
    requires Opens(Adopted(w, name, cached), w.pageSize, HeadOf(w.disk, w.pageSize, name))
    requires Resolve(w.asleep[name].head) == FileMap(Chunks(file, w.pageSize))
    ensures var ready := After(After(w, WakeSteps(name, files, cached)), SleepSteps(name, tier, file, nowMs));
      var head := w.asleep[name].head;
      && 0 < ready.pageSize
      && (Workspace.Resolves(w.disk.heads.Keys + {name}, w.asleep.Keys - {name}, name) ==>
            ready.running == SleepSnapshotted(name, tier, head))
      && (Enabled(ready, FinishUpload) <==>
            && Workspace.Resolves(w.disk.heads.Keys + {name}, w.asleep.Keys - {name}, name)
            && Reachable(head).manifests <= w.disk.manifests + cached + {HeadOf(w.disk, w.pageSize, name)}
            && Reachable(head).pages <= w.disk.pages.Keys + Resolve(head).Values)
  {
    hide Inv, After, Resolve, FileMap, Chunks, Reachable, Enabled, Workspace.Resolves, Opens, TierOf, Lists;
    hide CachedPages, SleepSteps, WakeSteps, ResolveIn;
    WakeReachesTheHeadIff(w, name, files, cached);
    var woken := After(w, WakeSteps(name, files, cached));
    SleepsIff(woken, name, tier, file, nowMs);
    CachedAreTheHeads(w, name, cached);
    assert woken.disk.heads.Keys == w.disk.heads.Keys + {name};
    assert woken.asleep.Keys == w.asleep.Keys - {name};
    assert woken.disk.pages.Keys == w.disk.pages.Keys + Resolve(w.asleep[name].head).Values;
    assert woken.disk.manifests + {w.asleep[name].head} == woken.disk.manifests;
  }

  lemma CachedAreTheHeads(w: World, name: Name, cached: set<Manifest>)
    requires Inv(w) && name in w.asleep && ResolveIn(cached, w.asleep[name].head).Some?
    ensures CachedPages(w, w.asleep[name]).Keys == Resolve(w.asleep[name].head).Values
    ensures w.asleep[name].head in cached
  {
    hide Resolve, ProgressOk;
    var head := w.asleep[name].head;
    assert IsBranch(w, name) && Recoverable(w, name);
    var file :| PoolRuns.Whole(TierOf(w, w.asleep[name].tier).pages, w.pageSize, head, file);
    assert Stored(TierOf(w, w.asleep[name].tier).pages, head);
  }
}
