/** Runs of the command line's `sleep` and `wake`: what a branch stands for through any of them, and
    exactly when waking it again after a crash brings it back. */
module TierRuns {
  import opened Substrate
  import opened Paging
  import opened Pool
  import PoolRuns
  import opened SleepClosure
  import opened TierLifecycle
  import TreeCopy

  ghost function After(w: World, events: seq<Event>): (later: World)
    requires Inv(w)
    ensures Inv(later)
    decreases |events|
  {
    if events == [] then w else
      StepKeeps(w, events[0]);
      After(Next(w, events[0]), events[1..])
  }

  // ---- What a branch stands for --------------------------------------------------------------

  /** The steps that can record a new head for a branch: someone commits, or a sleep takes its
      snapshot. */
  predicate Commits(e: Event, name: Name) {
    (e.Commit? || e.TakeSnapshot? || e.TearSnapshot?) && e.name == name
  }

  /** The step makes durable for `name` a file other than the one `head` is. */
  predicate Rewrites(pageSize: nat, head: Manifest, e: Event, name: Name)
    requires 0 < pageSize
  {
    && Commits(e, name) && (e.TearSnapshot? ==> e.logged)
    && Resolve(head) != FileMap(Chunks(e.file, pageSize))
  }

  /** Exactly what moves the head a branch stands for: a commit, or a sleep's own snapshot, of a file
      that is not what the head says. Writing back the same file does not, nor does a snapshot torn
      before its commit record, and every other step -- opening, an upload, the record, tearing down and
      removing the directory, adopting pages, reopening, restoring, deleting the record, a crash
      anywhere, losing the store -- leaves every branch a branch and its head where it was. */
  lemma StepMovesHeadIff(w: World, e: Event, name: Name)
    requires Inv(w) && IsBranch(w, name)
    ensures 0 < w.pageSize && Next(w, e).pageSize == w.pageSize && IsBranch(Next(w, e), name)
    ensures LogicalHead(Next(w, e), name) != LogicalHead(w, name) <==>
      Enabled(w, e) && Rewrites(w.pageSize, LogicalHead(w, name), e, name)
  {
    hide Step, Enabled, Core, Rewrites;
    InvIsPositive(w);
    if Enabled(w, e) {
      NothingToRewrite(w, e, name);
      if Commits(e, name) {
        SnapshotMovesIff(w, e, name);
      } else if e.LoseCas? || (e.RestoreHead? && name == Subject(w, e)) {
        StoreMovesNothing(w, e, name);
      } else {
        StepIsOk(w, e);
        if name == Subject(w, e) {
          StepMovesNothing(w, e);
        }
      }
    }
  }

  lemma NothingToRewrite(w: World, e: Event, name: Name)
    requires 0 < w.pageSize && IsBranch(w, name)
    ensures !Commits(e, name) ==> !Rewrites(w.pageSize, LogicalHead(w, name), e, name)
  {
  }

  lemma SnapshotMovesIff(w: World, e: Event, name: Name)
    requires Inv(w) && Enabled(w, e) && Commits(e, name) && IsBranch(w, name)
    ensures 0 < w.pageSize && Step(w, e).pageSize == w.pageSize && IsBranch(Step(w, e), name)
    ensures LogicalHead(Step(w, e), name) != LogicalHead(w, name) <==>
      Rewrites(w.pageSize, LogicalHead(w, name), e, name)
  {
    hide Inv, Openable, Opens, HoldsHead, Chunks, HashAll, Filed, Hydrated, Resolve, FileMap, Diff, CommitTo;
    ProgressNow(w);
    PersistedHead(w.disk.heads[name], Chunks(e.file, w.pageSize), e.nowMs);
  }

  lemma StoreMovesNothing(w: World, e: Event, name: Name)
    requires Inv(w) && Enabled(w, e) && IsBranch(w, name) && (e.LoseCas? || e.RestoreHead?)
    ensures var w' := Step(w, e);
      w'.pageSize == w.pageSize && IsBranch(w', name) && LogicalHead(w', name) == LogicalHead(w, name)
  {
    hide Openable, Hydrated, Recoverable;
    if e.RestoreHead? {
      RestoreKeeps(w);
    }
  }

  lemma StepMovesNothing(w: World, e: Event)
    requires Inv(w) && Enabled(w, e) && !Commits(e, Subject(w, e)) && !e.LoseCas? && !e.RestoreHead?
    requires IsBranch(w, Subject(w, e))
    ensures IsBranch(Step(w, e), Subject(w, e))
    ensures LogicalHead(Step(w, e), Subject(w, e)) == LogicalHead(w, Subject(w, e))
  {
    hide Inv, Openable, Opens, HoldsHead, TreeCopy.CopyFiles, CachedPages, Received, Reachable, Taken, Filed;
    hide Chunks, HashAll, NextHead;
    ProgressNow(w);
  }

  lemma ProgressNow(w: World)
    requires Inv(w)
    ensures 0 < w.pageSize && ProgressOk(w)
  {
  }

  /** Any number of sleeps and wakes of anything, this branch included, interrupted anywhere, and the
      pool's store lost any number of times while everything is asleep: a branch that is only ever
      written back as it was is always awake and openable at the head it had, or asleep with a tier that
      holds that head. */
  lemma {:induction false} BranchSurvives(w: World, events: seq<Event>, name: Name)
    requires Inv(w) && IsBranch(w, name)
    requires forall e :: e in events ==> !Rewrites(w.pageSize, LogicalHead(w, name), e, name)
    ensures var later := After(w, events);
      && later.pageSize == w.pageSize > 0 && IsBranch(later, name)
      && LogicalHead(later, name) == LogicalHead(w, name)
      && Recoverable(later, name)
    decreases |events|
  {
    hide Next, Rewrites, Inv;
    if events == [] {
      RecoverableNow(w, name);
    } else {
      assert events[0] in events;
      InvIsPositive(w);
      StepKeeps(w, events[0]);
      StepMovesHeadIff(w, events[0], name);
      BranchSurvives(Next(w, events[0]), events[1..], name);
    }
  }

  /** A sleep writes back what opening hydrated, and that is the file the head is: on its own it rewrites
      nothing. */
  lemma UntouchedIsNotRewritten(w: World, name: Name, e: Event)
    requires Inv(w) && IsBranch(w, name) && name !in w.asleep && Commits(e, name)
    ensures 0 < w.pageSize
    ensures var opened' := Hydrated(w.disk.pages, LogicalHead(w, name), w.pageSize);
      opened'.Ok? && (e.file == FileOf(opened'.value) ==>
                        !Rewrites(w.pageSize, LogicalHead(w, name), e, name))
  {
    hide Hydrated, Chunks, FileMap, Resolve, ResolveIn, PoolRuns.Good;
    assert Recoverable(w, name);
    PoolRuns.GoodHydrates(w.disk.pages, w.pageSize, LogicalHead(w, name));
  }

  lemma RecoverableNow(w: World, name: Name)
    requires Inv(w) && IsBranch(w, name)
    ensures 0 < w.pageSize && Recoverable(w, name)
  {
  }

  // ---- Waking --------------------------------------------------------------------------------

  /** What a wake fetches into its cache: some of the tier's manifests that the head resolves through,
      and the head's pages, listed in some order. */
  ghost predicate Fetched(w: World, name: Name, files: seq<(PageId, Bytes)>, cached: set<Manifest>) {
    && name in w.asleep
    && cached <= TierOf(w, w.asleep[name].tier).manifests
    && ResolveIn(cached, w.asleep[name].head).Some?
    && Lists(files, CachedPages(w, w.asleep[name]))
  }

  /** What a full, uninterrupted wake does. */
  function WakeSteps(name: Name, files: seq<(PageId, Bytes)>, cached: set<Manifest>): seq<Event> {
    [StartWake(name, cached), Adopt(files, cached), OpenBranch, RestoreHead, RemoveRecord]
  }

  /** The pool once the cache has been copied into it. */
  function Adopted(w: World, name: Name, cached: set<Manifest>): Disk
    requires name in w.asleep
  {
    Disk(CachedPages(w, w.asleep[name]) + w.disk.pages, w.disk.manifests + cached, w.disk.heads)
  }

  predicate AwakeAt(w: World, name: Name, head: Manifest) {
    name !in w.asleep && name in w.disk.heads && w.disk.heads[name] == head
  }

  /** Recovery has installed what it found, and the directory ends at `head`. */
  function Ended(disk: Disk, name: Name, found: Manifest, head: Manifest): Disk {
    Disk(disk.pages, disk.manifests + {found}, disk.heads[name := head])
  }

  /** The exact outcome of waking with nothing running, for the first time or again after a crash
      anywhere. It ends with the branch awake at the head it stands for if and only if the head that
      recovery finds in its directory can be opened once the cache has been adopted. Otherwise the wake
      fails there: the record and what is left of the directory are as they were. The pool keeps what was
      adopted either way. */
  lemma WakeReachesTheHeadIff(w: World, name: Name, files: seq<(PageId, Bytes)>, cached: set<Manifest>)
    requires Inv(w) && w.running.Idle? && Fetched(w, name, files, cached)
    ensures var later := After(w, WakeSteps(name, files, cached));
      var leftover := HeadOf(w.disk, w.pageSize, name);
      var reached := AwakeAt(later, name, LogicalHead(w, name));
      && later.running.Idle? && later.tiers == w.tiers && later.pageSize == w.pageSize
      && (reached <==> Opens(Adopted(w, name, cached), w.pageSize, leftover))
      && later.asleep == (if reached then w.asleep - {name} else w.asleep)
      && later.disk == Ended(Adopted(w, name, cached), name, leftover,
                             if reached then LogicalHead(w, name) else leftover)
  {
    hide Next, Inv, After, Opens, TierOf, CachedPages, Lists, ResolveIn;
    WakeAdopts(w, name, files, cached);
    var steps := WakeSteps(name, files, cached);
    var w2 := Next(Next(w, steps[0]), steps[1]);
    WakeEnds(w2, name, w.asleep[name].head);
    var w3 := Next(w2, OpenBranch);
    var w4 := Next(w3, RestoreHead);
    StepFirst(w, steps);
    StepFirst(Next(w, steps[0]), steps[1..]);
    StepFirst(w2, [OpenBranch, RestoreHead, RemoveRecord]);
    StepFirst(w3, [RestoreHead, RemoveRecord]);
    StepFirst(w4, [RemoveRecord]);
    StepFirst(Next(w4, RemoveRecord), [RemoveRecord]);
    assert steps[1..][1..] == [OpenBranch, RestoreHead, RemoveRecord];
    assert [OpenBranch, RestoreHead, RemoveRecord][1..] == [RestoreHead, RemoveRecord];
    assert [RestoreHead, RemoveRecord][1..] == [RemoveRecord] && [RemoveRecord][1..] == [];
  }

  /** The first half: the cache is filled and copied into the pool. */
  lemma WakeAdopts(w: World, name: Name, files: seq<(PageId, Bytes)>, cached: set<Manifest>)
    requires Inv(w) && w.running.Idle? && Fetched(w, name, files, cached)
    ensures 0 < w.pageSize
    ensures var w1 := Next(w, StartWake(name, cached));
      Inv(w1) && w1.pageSize == w.pageSize
    ensures var w2 := Next(Next(w, StartWake(name, cached)), Adopt(files, cached));
      && Inv(w2) && w2.pageSize == w.pageSize
      && w2.running == WakeAdopting(name, w.asleep[name].head, Contents(cached, CachedPages(w, w.asleep[name])))
      && w2.disk == Adopted(w, name, cached) && w2.asleep == w.asleep && w2.tiers == w.tiers
  {
    hide HoldsHead, Addressed, TierOf, CachedPages, ResolveIn, TreeCopy.CopyFiles, Drawn;
    var pages := CachedPages(w, w.asleep[name]);
    assert Recoverable(w, name);
    StepKeeps(w, StartWake(name, cached));
    StepKeeps(Next(w, StartWake(name, cached)), Adopt(files, cached));
    CopiedIsAdopted(files, pages, w.disk.pages);
  }

  /** The second half: open what is in the directory, restore the head, forget the record. */
  lemma WakeEnds(w: World, name: Name, head: Manifest)
    requires Inv(w) && 0 < w.pageSize && name in w.asleep && w.asleep[name].head == head
    requires w.running.WakeAdopting? && w.running.name == name && w.running.head == head
    requires w.running.cache.manifests <= w.disk.manifests && w.running.cache.pages.Keys <= w.disk.pages.Keys
    ensures var w1 := Next(w, OpenBranch);
      && Inv(w1) && w1.pageSize == w.pageSize && var w2 := Next(w1, RestoreHead);
      && Inv(w2) && w2.pageSize == w.pageSize && var later := Next(w2, RemoveRecord);
      var leftover := HeadOf(w.disk, w.pageSize, name);
      var opens := Opens(w.disk, w.pageSize, leftover);
      && later.running.Idle? && later.tiers == w.tiers && later.pageSize == w.pageSize
      && later.asleep == (if opens then w.asleep - {name} else w.asleep)
      && later.disk == Ended(w.disk, name, leftover, if opens then head else leftover)
  {
    hide Inv, Opens, Restored, Opened;
    StepKeeps(w, OpenBranch);
    OpenInstalls(w, name);
    var w1 := Next(w, OpenBranch);
    StepKeeps(w1, RestoreHead);
    if Opens(w.disk, w.pageSize, HeadOf(w.disk, w.pageSize, name)) {
      RestoreWakes(w1);
    }
  }

  lemma OpenInstalls(w: World, name: Name)
    ensures var leftover := HeadOf(w.disk, w.pageSize, name);
      Recovered(w.disk, w.pageSize, name) == Ended(w.disk, name, leftover, leftover)
  {
    hide Hydrated;
  }

  lemma RestoreWakes(w: World)
    requires Inv(w) && 0 < w.pageSize && w.running.WakeOpened?
    ensures var w' := Next(w, RestoreHead);
      && w'.running == WakeRestored(w.running.name) && w'.tiers == w.tiers && w'.asleep == w.asleep
      && w'.disk == w.disk.(heads := w.disk.heads[w.running.name := w.running.head])
  {
    hide Core, Hydrated;
    RestoreKeeps(w);
  }

  lemma StepFirst(w: World, events: seq<Event>)
    requires Inv(w) && events != []
    ensures 0 < w.pageSize && Inv(Next(w, events[0])) && After(w, events) == After(Next(w, events[0]), events[1..])
    ensures After(w, []) == w
  {
    hide Inv, Next;
    InvIsPositive(w);
    StepKeeps(w, events[0]);
  }

  // ---- Which leftovers open ------------------------------------------------------------------

  /** No directory, an empty one, or one already at the record's head: whatever was lost, it opens. */
  lemma LeftoverOpens(w: World, name: Name, files: seq<(PageId, Bytes)>, cached: set<Manifest>)
    requires Inv(w) && Fetched(w, name, files, cached)
    ensures 0 < w.pageSize
    ensures var leftover := HeadOf(w.disk, w.pageSize, name);
      leftover == Root(w.pageSize) || leftover == w.asleep[name].head ==>
        Opens(Adopted(w, name, cached), w.pageSize, leftover)
  {
    hide HoldsHead, Addressed, TierOf, ResolveIn, Opens, Hydrated, Resolve, Lists;
    var disk, head := Adopted(w, name, cached), w.asleep[name].head;
    assert Recoverable(w, name);
    AdoptedIsAddressed(w, name, cached);
    RootIsOpenable(disk, w.pageSize);
    OpenableOpens(disk, w.pageSize, Root(w.pageSize));
    CacheHolds(TierOf(w, w.asleep[name].tier), cached, w.pageSize, head);
    HeldIsThere(Contents(cached, CachedPages(w, w.asleep[name])), disk, w.pageSize, head);
    OpenableOpens(disk, w.pageSize, head);
  }

  lemma AdoptedIsAddressed(w: World, name: Name, cached: set<Manifest>)
    requires Core(w) && name in w.asleep
    ensures Addressed(Adopted(w, name, cached).pages) && DiskGrows(w.disk, Adopted(w, name, cached))
  {
    hide HoldsHead, Resolve, ProgressOk;
    assert IsBranch(w, name) && Recoverable(w, name);
    EmptyHoldsNothing(w.pageSize, w.asleep[name].head);
  }

  /** Every head a directory ever recorded can still be opened. */
  ghost predicate NothingLost(w: World) {
    0 < w.pageSize && forall m :: m in w.held ==> Openable(w.disk, w.pageSize, m)
  }

  lemma StepLosesNothing(w: World, e: Event)
    requires Inv(w) && NothingLost(w) && !e.LoseCas?
    ensures 0 < w.pageSize && NothingLost(Next(w, e))
  {
    hide Step, Enabled, Openable, Core, DiskGrows;
    InvIsPositive(w);
    if Enabled(w, e) {
      StepIsOk(w, e);
      RememberingLosesNothing(w, Step(w, e), Subject(w, e));
    }
  }

  lemma RememberingLosesNothing(w: World, w': World, name: Name)
    requires Inv(w) && NothingLost(w) && StepOk(w, w', name)
    ensures NothingLost(Remembering(w.held, w'))
  {
    hide Openable, ProgressOk, Recoverable;
    RootIsOpenable(w'.disk, w'.pageSize);
    forall m | m in w.held ensures Openable(w'.disk, w'.pageSize, m) {
      OpenableGrows(w.disk, w'.disk, w.pageSize, m);
    }
    forall b | b in w'.disk.heads ensures Openable(w'.disk, w'.pageSize, w'.disk.heads[b]) {
      assert b != name ==> b in w.disk.heads;
    }
  }

  lemma {:induction false} RunLosesNothing(w: World, events: seq<Event>)
    requires Inv(w) && NothingLost(w) && forall e :: e in events ==> !e.LoseCas?
    ensures NothingLost(After(w, events))
    decreases |events|
  {
    hide Inv, Next, NothingLost;
    if events != [] {
      assert events[0] in events;
      StepKeeps(w, events[0]);
      StepLosesNothing(w, events[0]);
      RunLosesNothing(Next(w, events[0]), events[1..]);
    }
  }

  lemma {:induction false} AfterSnoc(w: World, events: seq<Event>, e: Event)
    requires Inv(w)
    ensures After(w, events).pageSize > 0
    ensures After(w, events + [e]) == Next(After(w, events), e)
    decreases |events|
  {
    hide Inv, Next;
    InvIsPositive(After(w, events));
    if events == [] {
      assert events + [e] == [e];
      StepFirst(w, [e]);
      StepFirst(Next(w, e), [e]);
      assert [e][1..] == [];
    } else {
      StepFirst(w, events);
      StepFirst(w, events + [e]);
      assert (events + [e])[1..] == events[1..] + [e];
      AfterSnoc(Next(w, events[0]), events[1..], e);
    }
  }

  /** The crash theorem. Take any run of any commands on any branches from an empty pool, and let it
      crash anywhere. A branch is then either awake and openable at the head it stands for, or asleep
      with a tier that holds that head. Waking a sleeping one again brings it back at that head whenever
      the pool's store was never lost, and whenever there is no directory left, or an empty one, or one
      at the record's head; in general, exactly when what is left can be opened after adopting. */
  lemma CrashedRunWakes(pageSize: nat, events: seq<Event>, name: Name, files: seq<(PageId, Bytes)>,
                        cached: set<Manifest>)
    requires 0 < pageSize
    ensures Inv(Initial(pageSize))
    ensures var w := After(Initial(pageSize), events + [Crash]);
      && 0 < w.pageSize
      && (IsBranch(w, name) ==> Recoverable(w, name))
      && (Fetched(w, name, files, cached) ==>
            var reached := AwakeAt(After(w, WakeSteps(name, files, cached)), name, LogicalHead(w, name));
            var leftover := HeadOf(w.disk, w.pageSize, name);
            && (reached <==> Opens(Adopted(w, name, cached), w.pageSize, leftover))
            && ((forall e :: e in events ==> !e.LoseCas?) ==> reached)
            && (leftover == Root(w.pageSize) || leftover == w.asleep[name].head ==> reached))
  {
    hide After, Inv, Recoverable, Opens, Adopted, Lists, ResolveIn, TierOf, NothingLost, AwakeAt;
    InitialIsInv(pageSize);
    var w := After(Initial(pageSize), events + [Crash]);
    RecoverableIf(w, name);
    if Fetched(w, name, files, cached) {
      CrashIsIdle(Initial(pageSize), events);
      WakeReachesTheHeadIff(w, name, files, cached);
      LeftoverOpens(w, name, files, cached);
      if forall e :: e in events ==> !e.LoseCas? {
        InitialLosesNothing(pageSize);
        RunLosesNothing(Initial(pageSize), events + [Crash]);
        KeptLeftoverOpens(w, name, cached);
      }
    }
  }

  /** An interrupted sleep and the wake after it reach the head the branch had before. From an empty pool
      run anything, up to some moment; from there on run anything that writes this branch back only as it
      was, its own sleeps and wakes included; and crash. The branch is then awake and openable at that
      head, or asleep and waking it again reaches that head as `CrashedRunWakes` says. */
  lemma InterruptedSleepWakes(pageSize: nat, before: seq<Event>, events: seq<Event>, name: Name,
                              files: seq<(PageId, Bytes)>, cached: set<Manifest>)
    requires 0 < pageSize
    ensures Inv(Initial(pageSize))
    ensures var was := After(Initial(pageSize), before);
      && 0 < was.pageSize
      && (IsBranch(was, name)
          && (forall e :: e in events ==> !Rewrites(was.pageSize, LogicalHead(was, name), e, name)) ==>
            var w := After(Initial(pageSize), before + events + [Crash]);
            var head := LogicalHead(was, name);
            && 0 < w.pageSize && IsBranch(w, name) && LogicalHead(w, name) == head
            && (name !in w.asleep ==> AwakeAt(w, name, head) && Openable(w.disk, w.pageSize, head))
            && (Fetched(w, name, files, cached) ==>
                  var reached := AwakeAt(After(w, WakeSteps(name, files, cached)), name, head);
                  var leftover := HeadOf(w.disk, w.pageSize, name);
                  && (reached <==> Opens(Adopted(w, name, cached), w.pageSize, leftover))
                  && ((forall e :: e in before + events ==> !e.LoseCas?) ==> reached)
                  && (leftover == Root(w.pageSize) || leftover == head ==> reached)))
  {
    hide After, Inv, Openable, Opens, Adopted, Fetched, Rewrites;
    InitialIsInv(pageSize);
    var was := After(Initial(pageSize), before);
    InvIsPositive(was);
    if IsBranch(was, name)
      && (forall e :: e in events ==> !Rewrites(was.pageSize, LogicalHead(was, name), e, name)) {
      CrashRewritesNothing(was.pageSize, LogicalHead(was, name), name);
      BranchSurvives(was, events + [Crash], name);
      AfterConcat(Initial(pageSize), before, events + [Crash]);
      assert before + (events + [Crash]) == before + events + [Crash];
      CrashedRunWakes(pageSize, before + events, name, files, cached);
      FetchedIsAsleep(After(Initial(pageSize), before + events + [Crash]), name, files, cached);
    }
  }

  lemma CrashRewritesNothing(pageSize: nat, head: Manifest, name: Name)
    requires 0 < pageSize
    ensures !Rewrites(pageSize, head, Crash, name)
  {
  }

  lemma FetchedIsAsleep(w: World, name: Name, files: seq<(PageId, Bytes)>, cached: set<Manifest>)
    ensures Fetched(w, name, files, cached) ==> name in w.asleep
  {
  }

  lemma {:induction false} AfterConcat(w: World, a: seq<Event>, b: seq<Event>)
    requires Inv(w)
    ensures After(w, a + b) == After(After(w, a), b)
    decreases |a|
  {
    hide Inv, Next;
    if a == [] {
      assert a + b == b;
    } else {
      StepFirst(w, a);
      StepFirst(w, a + b);
      assert (a + b)[1..] == a[1..] + b;
      AfterConcat(Next(w, a[0]), a[1..], b);
    }
  }

  lemma RecoverableIf(w: World, name: Name)
    requires Inv(w)
    ensures 0 < w.pageSize && (IsBranch(w, name) ==> Recoverable(w, name))
  {
  }

  lemma InitialLosesNothing(pageSize: nat)
    requires 0 < pageSize
    ensures NothingLost(Initial(pageSize))
  {
  }

  lemma CrashIsIdle(w: World, events: seq<Event>)
    requires Inv(w)
    ensures After(w, events + [Crash]).running.Idle?
  {
    hide After, Inv;
    AfterSnoc(w, events, Crash);
  }

  /** What was never lost opens, with more adopted or not. */
  lemma KeptLeftoverOpens(w: World, name: Name, cached: set<Manifest>)
    requires Inv(w) && NothingLost(w) && name in w.asleep
    ensures Opens(Adopted(w, name, cached), w.pageSize, HeadOf(w.disk, w.pageSize, name))
  {
    hide Openable, Opens, Recoverable, ProgressOk;
    var disk, leftover := Adopted(w, name, cached), HeadOf(w.disk, w.pageSize, name);
    AdoptedIsAddressed(w, name, cached);
    RootIsOpenable(w.disk, w.pageSize);
    OpenableGrows(w.disk, disk, w.pageSize, leftover);
    OpenableOpens(disk, w.pageSize, leftover);
  }

  /** There is always something to fetch: a sleeping branch's tier holds its head. */
  lemma WakeCanFetch(w: World, name: Name) returns (files: seq<(PageId, Bytes)>, cached: set<Manifest>)
    requires Inv(w) && name in w.asleep
    ensures Fetched(w, name, files, cached)
  {
    hide CachedPages, Lists, PoolRuns.Good, ResolveIn;
    assert Recoverable(w, name);
    cached := TierOf(w, w.asleep[name].tier).manifests;
    files := ListAll(CachedPages(w, w.asleep[name]));
  }

  lemma {:induction false} ListAll(cache: Cas) returns (files: seq<(PageId, Bytes)>)
    ensures Lists(files, cache)
    decreases |cache|
  {
    if cache == map[] {
      files := [];
    } else {
      var id :| id in cache;
      var rest := cache - {id};
      assert |rest.Keys| < |cache.Keys| by {
        assert rest.Keys == cache.Keys - {id};
      }
      var some := ListAll(rest);
      files := some + [(id, cache[id])];
      ListedSnoc(some, rest, id, cache);
    }
  }

  lemma ListedSnoc(some: seq<(PageId, Bytes)>, rest: Cas, id: PageId, cache: Cas)
    requires Lists(some, rest) && id in cache && rest == cache - {id}
    ensures Lists(some + [(id, cache[id])], cache)
  {
    var files := some + [(id, cache[id])];
    assert files[..|files| - 1] == some;
    forall i | i in cache ensures TreeCopy.FirstNamed(files, i).Some? {
      assert i != id ==> i in rest;
    }
  }
}
