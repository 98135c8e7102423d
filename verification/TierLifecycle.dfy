/** The command line's `sleep` and `wake`: a branch directory, a sleep record and a tier, changed one
    file operation at a time, with a crash possible between any two. */
module TierLifecycle {
  import opened Substrate
  import opened Paging
  import opened Pool
  import PoolRuns
  import opened SleepClosure
  import TreeCopy
  import Workspace

  /** The sleep record: which tier, and the head the token names. */
  datatype Record = Record(tier: string, head: Manifest)

  /** How far the running command has got. All of it is lost in a crash. */
  datatype Progress =
    | Idle
    | SleepOpened(name: Name, tier: string, head: Manifest)
    | SleepSnapshotted(name: Name, tier: string, head: Manifest)
    | SleepUploaded(name: Name, tier: string, head: Manifest)
    | SleepRecorded(name: Name)
    | WakeAdopting(name: Name, head: Manifest, cache: Contents)
    | WakeOpened(name: Name, head: Manifest)
    | WakeRestored(name: Name)

  /** `held` remembers every head a branch directory ever recorded. */
  datatype World = World(pageSize: nat, disk: Disk, asleep: map<Name, Record>, tiers: map<string, Contents>,
                         running: Progress, held: set<Manifest>)

  function Initial(pageSize: nat): World {
    World(pageSize, Disk(map[], {}, map[]), map[], map[], Idle, {})
  }

  datatype Event =
    // Someone opens a branch that is not asleep, or a new one, and commits.
    | Commit(name: Name, file: Bytes, nowMs: nat)
    | StartSleep(name: Name, tier: string)
    | TakeSnapshot(name: Name, file: Bytes, nowMs: nat)
    // A crash inside that snapshot: some pages written, the commit record durable or not.
    | TearSnapshot(name: Name, file: Bytes, nowMs: nat, written: set<PageId>, logged: bool)
    | UploadSome(sent: Closure)
    | FinishUpload
    | WriteRecord
    // Removing the directory takes several unlinks; what is left recovers to an older head or to none.
    | TearDir(leftover: Manifest)
    | RemoveDir
    | StartWake(name: Name, cached: set<Manifest>)
    // Copying files out of the cache, pages before manifests.
    | Adopt(files: seq<(PageId, Bytes)>, manifests: set<Manifest>)
    | OpenBranch
    | RestoreHead
    | RemoveRecord
    | Crash
    // The pool's content-addressed store is deleted while no branch is awake.
    | LoseCas

  // ---- Steps ---------------------------------------------------------------------------------

  /** The store can serve all of `head`: its overlay chain resolves, it is a file, its pages are there. */
  ghost predicate HoldsHead(store: Contents, pageSize: nat, head: Manifest)
    requires 0 < pageSize
  {
    && Addressed(store.pages)
    && ResolveIn(store.manifests, head).Some?
    && PoolRuns.Good(store.pages, pageSize, head)
  }

  /** What recovery to `head` can draw on: the pool, and the manifest its own log re-derives. */
  function Local(disk: Disk, head: Manifest): Contents {
    Contents(disk.manifests + {head}, disk.pages)
  }

  /** Recovering to `head` and hydrating it goes through. */
  predicate Opens(disk: Disk, pageSize: nat, head: Manifest) {
    ResolveIn(Local(disk, head).manifests, head).Some? && Hydrated(disk.pages, head, pageSize).Ok?
  }

  function TierOf(w: World, tier: string): Contents {
    if tier in w.tiers then w.tiers[tier] else Contents({}, map[])
  }

  /** The pages a wake faults into its cache: the head's. */
  function CachedPages(w: World, record: Record): Cas {
    Only(TierOf(w, record.tier).pages, Resolve(record.head).Values)
  }

  /** The walk of a sleep misses no manifest and the staging no page. A sleep that cannot stage fails
      before it uploads anything, which is a crash. */
  predicate CanStage(disk: Disk, head: Manifest) {
    Reachable(head).manifests <= disk.manifests && Reachable(head).pages <= disk.pages.Keys
  }

  /** Files listed out of a cache. */
  ghost predicate Drawn(files: seq<(PageId, Bytes)>, cache: Cas) {
    forall k :: 0 <= k < |files| ==> files[k].0 in cache && cache[files[k].0] == files[k].1
  }

  ghost predicate Enabled(w: World, e: Event)
    requires 0 < w.pageSize
  {
    match e
    case Commit(name, _, _) =>
      w.running.Idle? && name !in w.asleep && Opens(w.disk, w.pageSize, HeadOf(w.disk, w.pageSize, name))
    case StartSleep(name, _) => w.running.Idle? && Workspace.Resolves(w.disk.heads.Keys, w.asleep.Keys, name)
    case TakeSnapshot(name, _, _) => w.running.SleepOpened? && w.running.name == name
    case TearSnapshot(name, file, _, written, logged) =>
      && w.running.SleepOpened? && w.running.name == name
      && written <= HashAll(Chunks(file, w.pageSize))
      && (logged ==> written == HashAll(Chunks(file, w.pageSize)))
    case UploadSome(sent) =>
      && w.running.SleepSnapshotted? && CanStage(w.disk, w.running.head)
      && sent.manifests <= Reachable(w.running.head).manifests && sent.pages <= Reachable(w.running.head).pages
    case FinishUpload => w.running.SleepSnapshotted? && CanStage(w.disk, w.running.head)
    case WriteRecord => w.running.SleepUploaded?
    case TearDir(leftover) =>
      && w.running.SleepRecorded? && w.running.name in w.disk.heads
      && (leftover in w.held || leftover == Root(w.pageSize))
    case RemoveDir => w.running.SleepRecorded?
    case StartWake(name, cached) =>
      && w.running.Idle? && name in w.asleep
      && var store := TierOf(w, w.asleep[name].tier);
      && HoldsHead(store, w.pageSize, w.asleep[name].head)
      && cached <= store.manifests && ResolveIn(cached, w.asleep[name].head).Some?
    case Adopt(files, manifests) =>
      && w.running.WakeAdopting? && Drawn(files, w.running.cache.pages)
      && manifests <= w.running.cache.manifests
      && (manifests != {} ==> w.running.cache.pages.Keys <= TreeCopy.CopyFiles(files, w.disk.pages).0.Keys)
    case OpenBranch =>
      && w.running.WakeAdopting?
      && w.running.cache.manifests <= w.disk.manifests && w.running.cache.pages.Keys <= w.disk.pages.Keys
    case RestoreHead => w.running.WakeOpened?
    case RemoveRecord => w.running.WakeRestored?
    case Crash => true
    case LoseCas => w.running.Idle? && forall b :: b in w.disk.heads ==> b in w.asleep
  }

  /** Recovery makes the directory if there was none, and installs the head it finds. */
  function Recovered(disk: Disk, pageSize: nat, name: Name): Disk {
    Opened(disk, pageSize, name).0
  }

  /** A snapshot of a branch just recovered whose scratch file has come to hold `file`. */
  function Taken(disk: Disk, pageSize: nat, name: Name, file: Bytes, nowMs: nat): (Disk, Session)
    requires 0 < pageSize
  {
    Snapshotted(disk, pageSize, name, Session(HeadOf(disk, pageSize, name), file), nowMs)
  }

  ghost function Step(w: World, e: Event): World
    requires 0 < w.pageSize && Enabled(w, e)
  {
    match e
    case Commit(name, file, nowMs) =>
      w.(disk := Taken(Recovered(w.disk, w.pageSize, name), w.pageSize, name, file, nowMs).0)
    case StartSleep(name, tier) =>
      var head := HeadOf(w.disk, w.pageSize, name);
      w.(disk := Recovered(w.disk, w.pageSize, name),
         running := if Opens(w.disk, w.pageSize, head) then SleepOpened(name, tier, head) else Idle)
    case TakeSnapshot(name, file, nowMs) =>
      var (disk, s) := Taken(w.disk, w.pageSize, name, file, nowMs);
      w.(disk := disk, running := SleepSnapshotted(name, w.running.tier, s.head))
    case TearSnapshot(name, file, nowMs, written, logged) =>
      var head := NextHead(w.pageSize, Session(HeadOf(w.disk, w.pageSize, name), file), nowMs);
      var heads := if logged then w.disk.heads[name := head] else w.disk.heads;
      w.(disk := w.disk.(pages := w.disk.pages + Filed(written), heads := heads), running := Idle)
    case UploadSome(sent) => Sent(w, sent)
    case FinishUpload =>
      Sent(w, Reachable(w.running.head)).(running := SleepUploaded(w.running.name, w.running.tier, w.running.head))
    case WriteRecord =>
      w.(asleep := w.asleep[w.running.name := Record(w.running.tier, w.running.head)],
         running := SleepRecorded(w.running.name))
    case TearDir(leftover) =>
      w.(disk := w.disk.(heads := w.disk.heads[w.running.name := leftover]))
    case RemoveDir =>
      w.(disk := w.disk.(heads := w.disk.heads - {w.running.name}), running := Idle)
    case StartWake(name, cached) =>
      w.(running := WakeAdopting(name, w.asleep[name].head, Contents(cached, CachedPages(w, w.asleep[name]))))
    case Adopt(files, manifests) =>
      w.(disk := w.disk.(manifests := w.disk.manifests + manifests,
                         pages := TreeCopy.CopyFiles(files, w.disk.pages).0))
    case OpenBranch =>
      w.(disk := Recovered(w.disk, w.pageSize, w.running.name),
         running := if Opens(w.disk, w.pageSize, HeadOf(w.disk, w.pageSize, w.running.name))
                    then WakeOpened(w.running.name, w.running.head) else Idle)
    case RestoreHead =>
      var session := Session(HeadOf(w.disk, w.pageSize, w.running.name), []);
      var (disk, _, error) := Restored(w.disk, w.pageSize, w.running.name, session, w.running.head);
      w.(disk := disk, running := if error.Some? then Idle else WakeRestored(w.running.name))
    case RemoveRecord =>
      w.(asleep := w.asleep - {w.running.name}, running := Idle)
    case Crash => w.(running := Idle)
    case LoseCas => w.(disk := w.disk.(pages := map[], manifests := {}))
  }

  function Sent(w: World, sent: Closure): World
    requires w.running.SleepSnapshotted?
  {
    var tier := w.running.tier;
    w.(tiers := w.tiers[tier := Received(TierOf(w, tier), w.disk.pages, sent)])
  }

  /** A step that cannot be taken changes nothing. */
  ghost function Next(w: World, e: Event): World
    requires 0 < w.pageSize
  {
    if !Enabled(w, e) then w else Remembering(w.held, Step(w, e))
  }

  function Remembering(held: set<Manifest>, w: World): World {
    w.(held := held + w.disk.heads.Values)
  }

  // ---- The invariant -------------------------------------------------------------------------

  predicate IsBranch(w: World, name: Name) {
    name in w.disk.heads || name in w.asleep
  }

  /** The head a branch stands for: the record's while it is asleep, its directory's otherwise. */
  function LogicalHead(w: World, name: Name): Manifest
    requires IsBranch(w, name)
  {
    if name in w.asleep then w.asleep[name].head else w.disk.heads[name]
  }

  /** The pool can open `head`: the manifests it resolves through and its pages are there. */
  ghost predicate Openable(disk: Disk, pageSize: nat, head: Manifest)
    requires 0 < pageSize
  {
    HoldsHead(Local(disk, head), pageSize, head)
  }

  /** Awake, the pool can open it at its head; asleep, the tier its record names holds that head. */
  ghost predicate Recoverable(w: World, name: Name)
    requires 0 < w.pageSize && IsBranch(w, name)
  {
    if name in w.asleep then HoldsHead(TierOf(w, w.asleep[name].tier), w.pageSize, LogicalHead(w, name))
    else Openable(w.disk, w.pageSize, LogicalHead(w, name))
  }

  /** What the running command has established so far. */
  ghost predicate ProgressOk(w: World)
    requires 0 < w.pageSize
  {
    match w.running
    case Idle => true
    case SleepOpened(name, _, head) =>
      name !in w.asleep && name in w.disk.heads && w.disk.heads[name] == head && head in w.disk.manifests
    case SleepSnapshotted(name, _, head) => name !in w.asleep && name in w.disk.heads && w.disk.heads[name] == head
    case SleepUploaded(name, tier, head) =>
      && name !in w.asleep && name in w.disk.heads && w.disk.heads[name] == head
      && HoldsHead(TierOf(w, tier), w.pageSize, head)
    case SleepRecorded(name) => name in w.asleep
    case WakeAdopting(name, head, cache) =>
      name in w.asleep && w.asleep[name].head == head && HoldsHead(cache, w.pageSize, head)
    case WakeOpened(name, head) =>
      && name in w.asleep && w.asleep[name].head == head && name in w.disk.heads
      && head in w.disk.manifests && Openable(w.disk, w.pageSize, head)
    case WakeRestored(name) =>
      && name in w.asleep && name in w.disk.heads && w.disk.heads[name] == w.asleep[name].head
      && Openable(w.disk, w.pageSize, w.asleep[name].head)
  }

  ghost predicate Core(w: World) {
    && 0 < w.pageSize
    && Addressed(w.disk.pages)
    && (forall t :: t in w.tiers ==> Addressed(w.tiers[t].pages))
    && (forall b :: IsBranch(w, b) ==> Recoverable(w, b))
    && ProgressOk(w)
  }

  ghost predicate Inv(w: World) {
    Core(w) && forall b :: b in w.disk.heads ==> w.disk.heads[b] in w.held
  }

  lemma InitialIsInv(pageSize: nat)
    requires 0 < pageSize
    ensures Inv(Initial(pageSize))
  {
  }

  // ---- Growth --------------------------------------------------------------------------------

  lemma GoodGrows(pages: Cas, pages': Cas, pageSize: nat, m: Manifest)
    requires 0 < pageSize && pages.Keys <= pages'.Keys && PoolRuns.Good(pages, pageSize, m)
    ensures PoolRuns.Good(pages', pageSize, m)
  {
    var file :| PoolRuns.Whole(pages, pageSize, m, file);
    PoolRuns.WholeGrows(pages, pages', pageSize, m, file);
    assert PoolRuns.Whole(pages', pageSize, m, file);
  }

  lemma HoldsGrows(a: Contents, b: Contents, pageSize: nat, head: Manifest)
    requires 0 < pageSize && HoldsHead(a, pageSize, head) && Addressed(b.pages)
    requires a.manifests <= b.manifests && a.pages.Keys <= b.pages.Keys
    ensures HoldsHead(b, pageSize, head)
  {
    hide ResolveIn, Chain;
    ResolvesIffChain(a.manifests, head);
    ResolvesIffChain(b.manifests, head);
    GoodGrows(a.pages, b.pages, pageSize, head);
  }

  ghost predicate DiskGrows(disk: Disk, disk': Disk) {
    disk.pages.Keys <= disk'.pages.Keys && disk.manifests <= disk'.manifests && Addressed(disk'.pages)
  }

  lemma OpenableGrows(disk: Disk, disk': Disk, pageSize: nat, head: Manifest)
    requires 0 < pageSize && Openable(disk, pageSize, head) && DiskGrows(disk, disk')
    ensures Openable(disk', pageSize, head)
  {
    hide HoldsHead;
    HoldsGrows(Local(disk, head), Local(disk', head), pageSize, head);
  }

  lemma OpenableOpens(disk: Disk, pageSize: nat, head: Manifest)
    requires 0 < pageSize && Openable(disk, pageSize, head)
    ensures Opens(disk, pageSize, head)
  {
    hide ResolveIn, Hydrated, PoolRuns.Good;
    PoolRuns.GoodHydrates(disk.pages, pageSize, head);
  }

  lemma RootIsOpenable(disk: Disk, pageSize: nat)
    requires 0 < pageSize && Addressed(disk.pages)
    ensures Openable(disk, pageSize, Root(pageSize))
  {
    PoolRuns.RootIsGood(disk.pages, pageSize);
  }

  lemma ReceivedGrows(store: Contents, pages: Cas, sent: Closure)
    requires Addressed(store.pages) && Addressed(pages)
    ensures var after := Received(store, pages, sent);
      Addressed(after.pages) && store.manifests <= after.manifests && store.pages.Keys <= after.pages.Keys
  {
  }

  /** The complete upload holds the head. */
  lemma UploadHolds(store: Contents, disk: Disk, pageSize: nat, head: Manifest)
    requires 0 < pageSize && Addressed(store.pages) && Addressed(disk.pages)
    requires Reachable(head).manifests <= disk.manifests && Reachable(head).pages <= disk.pages.Keys
    requires PoolRuns.Good(disk.pages, pageSize, head)
    ensures HoldsHead(Received(store, disk.pages, Reachable(head)), pageSize, head)
  {
    hide Ancestry, Resolve, ResolveIn;
    var after := Received(store, disk.pages, Reachable(head));
    ReceivedGrows(store, disk.pages, Reachable(head));
    AncestryResolves(after.manifests, head);
    HeadIsReachable(head);
    var file :| PoolRuns.Whole(disk.pages, pageSize, head, file);
    forall p | p in Resolve(head) ensures Resolve(head)[p] in after.pages {
      assert Resolve(head)[p] in PagesOfAll(Ancestry(head));
    }
    assert PoolRuns.Whole(after.pages, pageSize, head, file);
  }

  /** The cache a wake faults in from the tier holds the head on its own. */
  lemma CacheHolds(store: Contents, cached: set<Manifest>, pageSize: nat, head: Manifest)
    requires 0 < pageSize && HoldsHead(store, pageSize, head) && ResolveIn(cached, head).Some?
    ensures HoldsHead(Contents(cached, Only(store.pages, Resolve(head).Values)), pageSize, head)
  {
    hide ResolveIn, Resolve;
    var pages := Only(store.pages, Resolve(head).Values);
    var file :| PoolRuns.Whole(store.pages, pageSize, head, file);
    assert PoolRuns.Whole(pages, pageSize, head, file);
  }

  lemma SnapshotOpens(disk: Disk, pageSize: nat, name: Name, file: Bytes, nowMs: nat)
    requires 0 < pageSize && Openable(disk, pageSize, HeadOf(disk, pageSize, name))
    requires HeadOf(disk, pageSize, name) in disk.manifests
    ensures var (disk', s) := Taken(disk, pageSize, name, file, nowMs);
      && DiskGrows(disk, disk') && disk'.heads == disk.heads[name := s.head]
      && Openable(disk', pageSize, s.head)
  {
    hide Chunks, HashAll, NextHead, Filed, Resolve, ResolveIn, PoolRuns.Whole, Chain;
    var before := Session(HeadOf(disk, pageSize, name), file);
    var (disk', s) := Taken(disk, pageSize, name, file, nowMs);
    PoolRuns.SnapshotIsWhole(disk.pages, pageSize, before, nowMs);
    PoolRuns.WholeIsGood(disk'.pages, pageSize, s.head, file);
    NextResolves(disk.manifests, pageSize, before, nowMs);
  }

  lemma NextResolves(manifests: set<Manifest>, pageSize: nat, s: Session, nowMs: nat)
    requires 0 < pageSize && s.head in manifests && ResolveIn(manifests + {s.head}, s.head).Some?
    ensures var head := NextHead(pageSize, s, nowMs);
      forall more: set<Manifest> :: manifests <= more && head in more ==> ResolveIn(more, head).Some?
  {
    hide Chunks, Diff, FileMap, Resolve, ResolveIn, ApplyChanges;
    var head := NextHead(pageSize, s, nowMs);
    ResolvesIffChain(manifests + {s.head}, s.head);
    forall more: set<Manifest> | manifests <= more && head in more ensures ResolveIn(more, head).Some? {
      ResolvesIffChain(more, head);
    }
  }

  // ---- Preservation --------------------------------------------------------------------------

  /** Tiers only gain manifests and pages. */
  ghost predicate TiersGrow(tiers: map<string, Contents>, tiers': map<string, Contents>) {
    && tiers.Keys <= tiers'.Keys
    && (forall t :: t in tiers' ==> Addressed(tiers'[t].pages))
    && (forall t :: t in tiers ==>
          tiers[t].manifests <= tiers'[t].manifests && tiers[t].pages.Keys <= tiers'[t].pages.Keys)
  }

  /** Only `name` may change; the store and the tiers grow. */
  ghost predicate OnlyTouches(w: World, w': World, name: Name) {
    && w'.pageSize == w.pageSize
    && DiskGrows(w.disk, w'.disk)
    && TiersGrow(w.tiers, w'.tiers)
    && (forall b :: b != name ==> (b in w'.asleep <==> b in w.asleep) && (b in w'.disk.heads <==> b in w.disk.heads))
    && (forall b :: b != name && b in w.asleep && b in w'.asleep ==> w'.asleep[b] == w.asleep[b])
    && (forall b :: b != name && b in w.disk.heads && b in w'.disk.heads ==> w'.disk.heads[b] == w.disk.heads[b])
  }

  /** The head `name` ends up with is one the pool had, the empty root, or one it can open. */
  ghost predicate HeadKnown(w: World, w': World, name: Name)
    requires 0 < w'.pageSize
  {
    name in w'.disk.heads ==>
      var head := w'.disk.heads[name];
      head in w.held || head == Root(w'.pageSize) || Openable(w'.disk, w'.pageSize, head)
  }

  /** What every step but one keeps. */
  ghost predicate StepOk(w: World, w': World, name: Name) {
    Core(w') && OnlyTouches(w, w', name) && HeadKnown(w, w', name)
  }

  lemma OthersKept(w: World, w': World, name: Name)
    requires Core(w) && OnlyTouches(w, w', name)
    ensures forall b :: b != name && IsBranch(w', b) ==>
      IsBranch(w, b) && LogicalHead(w', b) == LogicalHead(w, b) && Recoverable(w', b)
  {
    hide Openable, HoldsHead, Addressed;
    forall b | b != name && IsBranch(w', b)
      ensures IsBranch(w, b) && LogicalHead(w', b) == LogicalHead(w, b) && Recoverable(w', b)
    {
      assert IsBranch(w, b) && Recoverable(w, b);
      StaysRecoverable(w, w', b);
    }
  }

  lemma StaysRecoverable(w: World, w': World, b: Name)
    requires 0 < w.pageSize == w'.pageSize
    requires DiskGrows(w.disk, w'.disk) && TiersGrow(w.tiers, w'.tiers)
    requires IsBranch(w, b) && IsBranch(w', b) && Recoverable(w, b)
    requires b in w'.asleep <==> b in w.asleep
    requires b in w.asleep ==> w'.asleep[b] == w.asleep[b]
    requires b !in w.asleep ==> w'.disk.heads[b] == w.disk.heads[b]
    ensures Recoverable(w', b)
  {
    hide Openable, HoldsHead, Addressed, DiskGrows;
    if b in w.asleep {
      var tier := w.asleep[b].tier;
      EmptyHoldsNothing(w.pageSize, w.asleep[b].head);
      assert TierOf(w, tier) != Contents({}, map[]);
      HoldsGrows(TierOf(w, tier), TierOf(w', tier), w.pageSize, w.asleep[b].head);
    } else {
      OpenableGrows(w.disk, w'.disk, w.pageSize, w.disk.heads[b]);
    }
  }

  lemma EmptyHoldsNothing(pageSize: nat, head: Manifest)
    requires 0 < pageSize
    ensures !HoldsHead(Contents({}, map[]), pageSize, head)
  {
  }

  /** Nothing that bears on `name` moved except in ways that keep it recoverable. */
  lemma SubjectKept(w: World, w': World, name: Name)
    requires Core(w) && OnlyTouches(w, w', name) && IsBranch(w, name) && IsBranch(w', name)
    requires name in w'.asleep <==> name in w.asleep
    requires name in w.asleep ==> w'.asleep[name] == w.asleep[name]
    requires name !in w.asleep ==> w'.disk.heads[name] == w.disk.heads[name]
    ensures forall b :: IsBranch(w', b) ==> Recoverable(w', b)
  {
    hide Recoverable, Addressed, DiskGrows;
    OthersKept(w, w', name);
    StaysRecoverable(w, w', name);
  }

  /** Recovering a branch that is not asleep always finds a head the pool can open. */
  lemma RecoveredOpens(w: World, name: Name)
    requires Core(w) && name !in w.asleep
    ensures var disk := Recovered(w.disk, w.pageSize, name);
      var head := HeadOf(w.disk, w.pageSize, name);
      && DiskGrows(w.disk, disk) && disk.heads == w.disk.heads[name := head] && head in disk.manifests
      && Openable(w.disk, w.pageSize, head) && Openable(disk, w.pageSize, head)
      && Opens(w.disk, w.pageSize, head)
  {
    hide HoldsHead, Addressed, Hydrated, ResolveIn;
    var head := HeadOf(w.disk, w.pageSize, name);
    RootIsOpenable(w.disk, w.pageSize);
    assert name in w.disk.heads ==> IsBranch(w, name) && Recoverable(w, name);
    OpenableGrows(w.disk, Recovered(w.disk, w.pageSize, name), w.pageSize, head);
    OpenableOpens(w.disk, w.pageSize, head);
  }

  lemma CommitKeeps(w: World, e: Event)
    requires Inv(w) && e.Commit? && Enabled(w, e)
    ensures StepOk(w, Step(w, e), e.name)
  {
    hide Openable, Opens, Addressed, Opened, Snapshotted;
    RecoveredOpens(w, e.name);
    var disk := Recovered(w.disk, w.pageSize, e.name);
    SnapshotOpens(disk, w.pageSize, e.name, e.file, e.nowMs);
    OthersKept(w, Step(w, e), e.name);
  }

  lemma StartSleepKeeps(w: World, e: Event)
    requires Inv(w) && e.StartSleep? && Enabled(w, e)
    ensures StepOk(w, Step(w, e), e.name)
  {
    hide Openable, Opens, Addressed, Opened, Workspace.Listed;
    assert e.name !in w.asleep;
    RecoveredOpens(w, e.name);
    OthersKept(w, Step(w, e), e.name);
  }

  lemma SnapshotKeeps(w: World, e: Event)
    requires Inv(w) && e.TakeSnapshot? && Enabled(w, e)
    ensures StepOk(w, Step(w, e), e.name)
  {
    hide Openable, Addressed, Snapshotted;
    assert IsBranch(w, e.name) && Recoverable(w, e.name);
    SnapshotOpens(w.disk, w.pageSize, e.name, e.file, e.nowMs);
    OthersKept(w, Step(w, e), e.name);
  }

  lemma TearSnapshotKeeps(w: World, e: Event)
    requires Inv(w) && e.TearSnapshot? && Enabled(w, e)
    ensures StepOk(w, Step(w, e), e.name)
  {
    hide HoldsHead, Addressed, Chunks, HashAll, NextHead, Filed;
    assert IsBranch(w, e.name) && Recoverable(w, e.name);
    var w' := Step(w, e);
    PoolRuns.FiledIsAddressed(w.disk.pages, e.written);
    if e.logged {
      TornIsOpenable(w.disk, w'.disk, w.pageSize, Session(w.running.head, e.file), e.nowMs);
    } else {
      OpenableGrows(w.disk, w'.disk, w.pageSize, w.running.head);
    }
    OthersKept(w, w', e.name);
  }

  /** A commit record whose manifest is still to be installed: recovery re-derives it. */
  lemma TornIsOpenable(disk: Disk, disk': Disk, pageSize: nat, s: Session, nowMs: nat)
    requires 0 < pageSize && Openable(disk, pageSize, s.head) && s.head in disk.manifests
    requires disk'.pages == disk.pages + Filed(HashAll(Chunks(s.file, pageSize)))
    requires disk.manifests <= disk'.manifests
    ensures Openable(disk', pageSize, NextHead(pageSize, s, nowMs))
  {
    hide Chunks, HashAll, NextHead, Filed, ResolveIn, PoolRuns.Whole;
    var head := NextHead(pageSize, s, nowMs);
    PoolRuns.SnapshotIsWhole(disk.pages, pageSize, s, nowMs);
    PoolRuns.WholeIsGood(disk'.pages, pageSize, head, s.file);
    NextResolves(disk.manifests, pageSize, s, nowMs);
  }

  /** An upload, partial or complete, takes nothing out of the tier. */
  lemma SentKeeps(w: World, sent: Closure)
    requires Core(w) && w.running.SleepSnapshotted?
    ensures Core(Sent(w, sent)) && OnlyTouches(w, Sent(w, sent), w.running.name)
  {
    hide Openable, HoldsHead, Addressed, Received;
    var name, tier := w.running.name, w.running.tier;
    EmptyIsAddressed();
    ReceivedGrows(TierOf(w, tier), w.disk.pages, sent);
    SubjectKept(w, Sent(w, sent), name);
  }

  /** What an upload that has got so far leaves in the tier: all it sent, on top of what was there. */
  lemma UploadArrives(w: World, sent: Closure)
    requires 0 < w.pageSize && Enabled(w, UploadSome(sent))
    ensures var tier, w' := w.running.tier, Next(w, UploadSome(sent));
      && TierOf(w', tier).manifests == TierOf(w, tier).manifests + sent.manifests
      && TierOf(w', tier).pages.Keys == TierOf(w, tier).pages.Keys + sent.pages
      && (forall t :: t != tier ==> TierOf(w', t) == TierOf(w, t))
      && w'.disk == w.disk && w'.asleep == w.asleep && w'.running == w.running
  {
    hide Reachable;
  }

  lemma UploadSomeKeeps(w: World, e: Event)
    requires Inv(w) && e.UploadSome? && Enabled(w, e)
    ensures StepOk(w, Step(w, e), w.running.name)
  {
    hide Core, Openable, Received;
    SentKeeps(w, e.sent);
  }

  lemma FinishUploadKeeps(w: World)
    requires Inv(w) && Enabled(w, FinishUpload)
    ensures StepOk(w, Step(w, FinishUpload), w.running.name)
  {
    hide Openable, HoldsHead, Addressed, Reachable, Received, OnlyTouches;
    var name, tier, head := w.running.name, w.running.tier, w.running.head;
    var sent := Sent(w, Reachable(head));
    EmptyIsAddressed();
    SentKeeps(w, Reachable(head));
    assert Recoverable(w, name) && Recoverable(sent, name);
    OpenableIsGood(w.disk, w.pageSize, head);
    UploadHolds(TierOf(w, tier), w.disk, w.pageSize, head);
    Uploading(w, sent);
  }

  lemma Uploading(w: World, sent: World)
    requires w.running.SleepSnapshotted? && Core(sent) && OnlyTouches(w, sent, w.running.name)
    requires sent.running == w.running
    requires sent.pageSize == w.pageSize && HoldsHead(TierOf(sent, w.running.tier), w.pageSize, w.running.head)
    ensures var done := sent.(running := SleepUploaded(w.running.name, w.running.tier, w.running.head));
      Core(done) && OnlyTouches(w, done, w.running.name)
  {
    hide HoldsHead, Addressed, DiskGrows, TiersGrow;
    var done := sent.(running := SleepUploaded(w.running.name, w.running.tier, w.running.head));
    forall b | IsBranch(done, b) ensures Recoverable(done, b) {
      assert Recoverable(sent, b);
    }
  }

  lemma EmptyIsAddressed()
    ensures Addressed(map[])
  {
  }

  lemma OpenableIsGood(disk: Disk, pageSize: nat, head: Manifest)
    requires 0 < pageSize && Openable(disk, pageSize, head)
    ensures PoolRuns.Good(disk.pages, pageSize, head)
  {
  }

  lemma WriteRecordKeeps(w: World)
    requires Inv(w) && Enabled(w, WriteRecord)
    ensures StepOk(w, Step(w, WriteRecord), w.running.name)
  {
    hide HoldsHead, Addressed;
    OthersKept(w, Step(w, WriteRecord), w.running.name);
  }

  lemma DirKeeps(w: World, e: Event)
    requires Inv(w) && (e.TearDir? || e.RemoveDir?) && Enabled(w, e)
    ensures StepOk(w, Step(w, e), w.running.name)
  {
    hide HoldsHead, Addressed;
    SubjectKept(w, Step(w, e), w.running.name);
  }

  lemma StartWakeKeeps(w: World, e: Event)
    requires Inv(w) && e.StartWake? && Enabled(w, e)
    ensures StepOk(w, Step(w, e), e.name)
  {
    hide PoolRuns.Good, HoldsHead, Addressed, Resolve, ResolveIn;
    CacheHolds(TierOf(w, w.asleep[e.name].tier), e.cached, w.pageSize, w.asleep[e.name].head);
    SubjectKept(w, Step(w, e), e.name);
  }

  // ---- Adopting a cache ----------------------------------------------------------------------

  lemma {:induction false} DrawnFirst(files: seq<(PageId, Bytes)>, cache: Cas, id: PageId)
    requires Drawn(files, cache)
    ensures TreeCopy.FirstNamed(files, id).Some? ==>
      id in cache && TreeCopy.FirstNamed(files, id) == Some(cache[id])
  {
    if files != [] {
      DrawnFirst(files[..|files| - 1], cache, id);
    }
  }

  /** Copying files out of the cache adds some of it to the pool's store and changes nothing there. */
  lemma CopiedIsPartial(files: seq<(PageId, Bytes)>, cache: Cas, dst: Cas)
    requires Drawn(files, cache) && Addressed(cache) && Addressed(dst)
    ensures var after := TreeCopy.CopyFiles(files, dst).0;
      Addressed(after) && dst.Keys <= after.Keys <= dst.Keys + cache.Keys
  {
    hide Drawn, TreeCopy.CopyFiles, TreeCopy.FirstNamed;
    var after := TreeCopy.CopyFiles(files, dst).0;
    forall id ensures id in dst ==> id in after
              ensures id in after ==> (id in dst || id in cache) && HashPage(after[id]) == id {
      TreeCopy.CopyFinds(files, dst, id);
      DrawnFirst(files, cache, id);
    }
  }

  /** Copying all of it, in whatever order it is listed, is adopting the cache. */
  ghost predicate Lists(files: seq<(PageId, Bytes)>, cache: Cas) {
    Drawn(files, cache) && forall id :: id in cache ==> TreeCopy.FirstNamed(files, id).Some?
  }

  lemma CopiedIsAdopted(files: seq<(PageId, Bytes)>, cache: Cas, dst: Cas)
    requires Lists(files, cache)
    ensures TreeCopy.CopyFiles(files, dst).0 == cache + dst
  {
    hide Drawn, TreeCopy.CopyFiles, TreeCopy.FirstNamed;
    var after := TreeCopy.CopyFiles(files, dst).0;
    forall id ensures id in after <==> id in cache + dst
              ensures id in after ==> after[id] == (cache + dst)[id] {
      TreeCopy.CopyFinds(files, dst, id);
      DrawnFirst(files, cache, id);
    }
  }

  lemma AdoptKeeps(w: World, e: Event)
    requires Inv(w) && e.Adopt? && Enabled(w, e)
    ensures StepOk(w, Step(w, e), w.running.name)
  {
    hide PoolRuns.Good, ResolveIn, TreeCopy.CopyFiles, Drawn;
    CopiedIsPartial(e.files, w.running.cache.pages, w.disk.pages);
    SubjectKept(w, Step(w, e), w.running.name);
  }

  lemma HeldIsThere(store: Contents, disk: Disk, pageSize: nat, head: Manifest)
    requires 0 < pageSize && HoldsHead(store, pageSize, head)
    requires store.manifests <= disk.manifests && store.pages.Keys <= disk.pages.Keys && Addressed(disk.pages)
    ensures head in disk.manifests && Openable(disk, pageSize, head)
  {
    HoldsGrows(store, Local(disk, head), pageSize, head);
  }

  lemma OpenBranchKeeps(w: World)
    requires Inv(w) && Enabled(w, OpenBranch)
    ensures StepOk(w, Step(w, OpenBranch), w.running.name)
  {
    hide HoldsHead, Addressed, Hydrated, Opens;
    HeldIsThere(w.running.cache, w.disk, w.pageSize, w.running.head);
    var w' := Step(w, OpenBranch);
    OpenableGrows(w.disk, w'.disk, w.pageSize, w.running.head);
    SubjectKept(w, w', w.running.name);
  }

  lemma RestoreKeeps(w: World)
    requires Inv(w) && Enabled(w, RestoreHead)
    ensures StepOk(w, Step(w, RestoreHead), w.running.name)
    ensures Step(w, RestoreHead).running == WakeRestored(w.running.name)
  {
    hide PoolRuns.Good, HoldsHead, Addressed, Hydrated;
    OpenableIsGood(w.disk, w.pageSize, w.running.head);
    AddressedDisk(w);
    PoolRuns.GoodHydrates(w.disk.pages, w.pageSize, w.running.head);
    var w' := Step(w, RestoreHead);
    OpenableGrows(w.disk, w'.disk, w.pageSize, w.running.head);
    SubjectKept(w, w', w.running.name);
  }

  lemma AddressedDisk(w: World)
    requires Core(w)
    ensures 0 < w.pageSize && Addressed(w.disk.pages)
  {
  }

  lemma RemoveRecordKeeps(w: World)
    requires Inv(w) && Enabled(w, RemoveRecord)
    ensures StepOk(w, Step(w, RemoveRecord), w.running.name)
  {
    hide HoldsHead, Addressed;
    OthersKept(w, Step(w, RemoveRecord), w.running.name);
  }

  lemma CrashKeeps(w: World, name: Name)
    requires Inv(w)
    ensures StepOk(w, Step(w, Crash), name)
  {
    hide HoldsHead, Addressed;
    var w' := Step(w, Crash);
    forall b | IsBranch(w', b) ensures Recoverable(w', b) {
      assert Recoverable(w, b);
    }
  }

  lemma LoseCasKeeps(w: World)
    requires Inv(w) && Enabled(w, LoseCas)
    ensures Core(Step(w, LoseCas))
  {
    hide HoldsHead;
    var w' := Step(w, LoseCas);
    forall b | IsBranch(w', b) ensures Recoverable(w', b) {
      assert Recoverable(w, b);
    }
  }

  /** The branch a step works on. */
  function Subject(w: World, e: Event): Name {
    match e
    case Commit(name, _, _) => name
    case StartSleep(name, _) => name
    case TakeSnapshot(name, _, _) => name
    case TearSnapshot(name, _, _, _, _) => name
    case StartWake(name, _) => name
    case _ => if w.running.Idle? then "" else w.running.name
  }

  /** Every step but losing the store leaves the store and the tiers no smaller, and every branch but
      its own as it was. */
  lemma StepIsOk(w: World, e: Event)
    requires Inv(w) && Enabled(w, e) && !e.LoseCas?
    ensures StepOk(w, Step(w, e), Subject(w, e))
  {
    hide Step, Enabled, Inv, StepOk;
    RunningNow(w, e);
    match e
    case Commit(_, _, _) => CommitKeeps(w, e);
    case StartSleep(_, _) => StartSleepKeeps(w, e);
    case TakeSnapshot(_, _, _) => SnapshotKeeps(w, e);
    case TearSnapshot(_, _, _, _, _) => TearSnapshotKeeps(w, e);
    case UploadSome(_) => UploadSomeKeeps(w, e);
    case FinishUpload => FinishUploadKeeps(w);
    case WriteRecord => WriteRecordKeeps(w);
    case TearDir(_) => DirKeeps(w, e);
    case RemoveDir => DirKeeps(w, e);
    case StartWake(_, _) => StartWakeKeeps(w, e);
    case Adopt(_, _) => AdoptKeeps(w, e);
    case OpenBranch => OpenBranchKeeps(w);
    case RestoreHead => RestoreKeeps(w);
    case RemoveRecord => RemoveRecordKeeps(w);
    case Crash => CrashKeeps(w, Subject(w, e));
  }

  lemma RunningNow(w: World, e: Event)
    requires Inv(w) && Enabled(w, e)
    ensures e.Commit? || e.StartSleep? || e.StartWake? || e.Crash? || e.LoseCas? || !w.running.Idle?
  {
  }

  /** Every step of either command, and a crash between any two, keeps every branch recoverable. */
  lemma StepKeeps(w: World, e: Event)
    requires Inv(w)
    ensures Inv(Next(w, e))
  {
    hide Step, Enabled, Core, StepOk;
    InvIsPositive(w);
    if Enabled(w, e) {
      if e.LoseCas? {
        LoseCasKeeps(w);
      } else {
        StepIsOk(w, e);
        StepOkCore(w, Step(w, e), Subject(w, e));
      }
      Remembered(w.held, Step(w, e));
    }
  }

  lemma InvIsPositive(w: World)
    requires Inv(w)
    ensures 0 < w.pageSize
  {
  }

  lemma StepOkCore(w: World, w': World, name: Name)
    requires StepOk(w, w', name)
    ensures Core(w')
  {
  }

  lemma Remembered(held: set<Manifest>, w: World)
    requires Core(w)
    ensures Inv(Remembering(held, w))
  {
    hide HoldsHead, Addressed;
    var w' := Remembering(held, w);
    forall b | IsBranch(w', b) ensures Recoverable(w', b) {
      assert Recoverable(w, b);
    }
  }
}
