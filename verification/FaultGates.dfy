/** Concurrent faults on a woken store: readers and prefetch workers, a fixed array of fault gates
    chosen by page number, and a cursor the workers share.

    Every thread has exactly one thing it can do next, so a run is the order in which threads are
    scheduled.  Taking a gate, looking in the cache, finishing a fetch and bumping the cursor are
    each one step. */
module FaultGates {
  import opened Substrate

  const PREFETCH_FANOUT: nat := 16
  const FAULT_STRIPES: nat := 1024

  function Stripe(page: PageNo): nat {
    page % FAULT_STRIPES
  }

  /** `pages` is the list to prefetch, `content` the woken head's page map, `tier` what object
      storage can serve and `warm` what the local cache held to begin with. */
  datatype Config = Config(pages: seq<PageNo>, content: PageMap, tier: set<PageId>, warm: set<PageId>)

  datatype Program = Worker | Reader(todo: seq<PageNo>)

  datatype Phase =
    | Ready
    | Wants(page: PageNo)
    | Holds(page: PageNo)
    | Fills(page: PageNo)
    | Stopped

  datatype Thread = Thread(program: Program, phase: Phase)

  /** `gates` maps a held gate to its holder; `claims` records who got which index of the work list;
      `gets` is every object fetched from the tier; `collisions` counts fetches whose rename lost. */
  datatype State = State(threads: seq<Thread>, gates: map<nat, nat>, cursor: nat, claims: seq<(nat, nat)>,
                         cache: set<PageId>, gets: seq<PageId>, collisions: nat)

  function Workers(cfg: Config): nat {
    if |cfg.pages| < PREFETCH_FANOUT then |cfg.pages| else PREFETCH_FANOUT
  }

  ghost predicate Initial(cfg: Config, s: State) {
    && Workers(cfg) <= |s.threads|
    && (forall t :: 0 <= t < |s.threads| ==>
          s.threads[t].phase == Ready && (s.threads[t].program.Worker? <==> t < Workers(cfg)))
    && s.gates == map[] && s.cursor == 0 && s.claims == []
    && s.cache == cfg.warm && s.gets == [] && s.collisions == 0
  }

  predicate Enabled(s: State, t: nat) {
    t < |s.threads| &&
    match s.threads[t].phase
    case Stopped => false
    case Wants(page) => Stripe(page) !in s.gates
    case _ => true
  }

  function SetPhase(s: State, t: nat, phase: Phase): State
    requires t < |s.threads|
  {
    s.(threads := s.threads[t := s.threads[t].(phase := phase)])
  }

  /** Ready: a worker bumps the cursor and takes that index, a reader takes its next page. */
  function Begin(cfg: Config, s: State, t: nat): State
    requires t < |s.threads|
  {
    if s.threads[t].program.Worker? then
      var i := s.cursor;
      var s' := SetPhase(s, t, if i < |cfg.pages| then Wants(cfg.pages[i]) else Stopped);
      s'.(cursor := i + 1, claims := if i < |cfg.pages| then s.claims + [(t, i)] else s.claims)
    else
      var todo := s.threads[t].program.todo;
      if todo == [] then SetPhase(s, t, Stopped)
      else s.(threads := s.threads[t := Thread(Reader(todo[1..]), Wants(todo[0]))])
  }

  function Acquire(s: State, t: nat, page: PageNo): State
    requires t < |s.threads|
  {
    SetPhase(s, t, Holds(page)).(gates := s.gates[Stripe(page) := t])
  }

  function Release(s: State, t: nat, page: PageNo): State
    requires t < |s.threads|
  {
    SetPhase(s, t, Ready).(gates := s.gates - {Stripe(page)})
  }

  /** Under the gate: a page that is not in the manifest is an error, a resident one a hit, and a
      cold one starts a fetch. */
  function Look(cfg: Config, s: State, t: nat, page: PageNo): State
    requires t < |s.threads|
  {
    if page !in cfg.content || cfg.content[page] in s.cache then Release(s, t, page)
    else SetPhase(s, t, Fills(page))
  }

  /** The fetch ends: an object the tier does not have is an error; one that another thread renamed
      into the cache meanwhile is a collision; otherwise it becomes resident. */
  function Finish(cfg: Config, s: State, t: nat, page: PageNo): State
    requires t < |s.threads| && page in cfg.content
  {
    var id := cfg.content[page];
    var s' := Release(s, t, page);
    if id !in cfg.tier then s'
    else if id in s.cache then s'.(gets := s.gets + [id], collisions := s.collisions + 1)
    else s'.(gets := s.gets + [id], cache := s.cache + {id})
  }

  function Next(cfg: Config, s: State, t: nat): State
    requires Enabled(s, t)
    requires s.threads[t].phase.Fills? ==> s.threads[t].phase.page in cfg.content
  {
    match s.threads[t].phase
    case Ready => Begin(cfg, s, t)
    case Wants(page) => Acquire(s, t, page)
    case Holds(page) => Look(cfg, s, t, page)
    case Fills(page) => Finish(cfg, s, t, page)
    case Stopped => s
  }

  // ---- What every step keeps -----------------------------------------------------------------

  predicate Inside(phase: Phase) {
    phase.Holds? || phase.Fills?
  }

  predicate Busy(phase: Phase) {
    phase.Wants? || Inside(phase)
  }

  /** A gate is held by exactly the thread that is inside it. */
  ghost predicate GatesOk(s: State) {
    && (forall g :: g in s.gates ==>
          s.gates[g] < |s.threads| && Inside(s.threads[s.gates[g]].phase)
          && Stripe(s.threads[s.gates[g]].phase.page) == g)
    && (forall t :: 0 <= t < |s.threads| && Inside(s.threads[t].phase) ==>
          Stripe(s.threads[t].phase.page) in s.gates && s.gates[Stripe(s.threads[t].phase.page)] == t)
  }

  ghost predicate FillsKnown(cfg: Config, s: State) {
    forall t :: 0 <= t < |s.threads| && s.threads[t].phase.Fills? ==> s.threads[t].phase.page in cfg.content
  }

  /** Index `k` was the `k`th to be claimed, and nothing past the cursor was. */
  ghost predicate ClaimsOk(cfg: Config, s: State) {
    && |s.claims| == (if s.cursor < |cfg.pages| then s.cursor else |cfg.pages|)
    && forall k :: 0 <= k < |s.claims| ==> s.claims[k].1 == k
  }

  /** The page is resident, if it can be. */
  predicate Settled(cfg: Config, cache: set<PageId>, page: PageNo) {
    page in cfg.content && cfg.content[page] in cfg.tier ==> cfg.content[page] in cache
  }

  ghost predicate WorkedOn(s: State, page: PageNo) {
    exists t :: 0 <= t < |s.threads| && s.threads[t].program.Worker? && WorksOn(s.threads[t].phase, page)
  }

  predicate WorksOn(phase: Phase, page: PageNo) {
    Busy(phase) && phase.page == page
  }

  /** Every claimed page is settled or still being worked on, and a worker stops only when the list
      has run out. */
  ghost predicate WorkOk(cfg: Config, s: State) {
    && (forall k :: 0 <= k < |cfg.pages| && k < s.cursor ==>
          Settled(cfg, s.cache, cfg.pages[k]) || WorkedOn(s, cfg.pages[k]))
    && (forall t :: 0 <= t < |s.threads| && s.threads[t].program.Worker? && s.threads[t].phase.Stopped? ==>
          |cfg.pages| < s.cursor)
  }

  ghost predicate Inv(cfg: Config, s: State) {
    GatesOk(s) && FillsKnown(cfg, s) && ClaimsOk(cfg, s) && WorkOk(cfg, s)
  }

  lemma InitialIsInv(cfg: Config, s: State)
    requires Initial(cfg, s)
    ensures Inv(cfg, s)
  {
  }

  lemma GatesKept(cfg: Config, s: State, t: nat)
    requires GatesOk(s) && FillsKnown(cfg, s) && Enabled(s, t)
    ensures GatesOk(Next(cfg, s, t))
  {
    hide GatesOk, Stripe, Release, Acquire;
    match s.threads[t].phase
    case Ready => OutsideKeepsGates(s, Next(cfg, s, t), t);
    case Wants(page) => AcquireKeepsGates(s, t, page);
    case Holds(page) =>
      ReleaseKeepsGates(s, t);
      FillingKeepsGates(s, t);
    case Fills(page) =>
      ReleaseKeepsGates(s, t);
      OnlyGatesMatter(Release(s, t, page), Next(cfg, s, t));
  }

  lemma OutsideKeepsGates(s: State, s': State, t: nat)
    requires GatesOk(s) && t < |s.threads| && !Inside(s.threads[t].phase)
    requires |s'.threads| == |s.threads| && s'.gates == s.gates && !Inside(s'.threads[t].phase)
    requires forall u :: 0 <= u < |s.threads| && u != t ==> s'.threads[u] == s.threads[u]
    ensures GatesOk(s')
  {
    hide Stripe;
  }

  lemma AcquireKeepsGates(s: State, t: nat, page: PageNo)
    requires GatesOk(s) && t < |s.threads| && s.threads[t].phase == Wants(page) && Stripe(page) !in s.gates
    ensures GatesOk(Acquire(s, t, page))
  {
    hide Stripe;
  }

  lemma ReleaseKeepsGates(s: State, t: nat)
    requires GatesOk(s) && t < |s.threads| && Inside(s.threads[t].phase)
    ensures GatesOk(Release(s, t, s.threads[t].phase.page))
  {
    hide Stripe;
  }

  lemma FillingKeepsGates(s: State, t: nat)
    requires GatesOk(s) && t < |s.threads| && s.threads[t].phase.Holds?
    ensures GatesOk(SetPhase(s, t, Fills(s.threads[t].phase.page)))
  {
    hide Stripe;
  }

  lemma OnlyGatesMatter(s: State, s': State)
    requires GatesOk(s) && s'.threads == s.threads && s'.gates == s.gates
    ensures GatesOk(s')
  {
  }

  lemma FillsKept(cfg: Config, s: State, t: nat)
    requires FillsKnown(cfg, s) && Enabled(s, t)
    ensures FillsKnown(cfg, Next(cfg, s, t))
  {
  }

  lemma ClaimsKept(cfg: Config, s: State, t: nat)
    requires ClaimsOk(cfg, s) && FillsKnown(cfg, s) && Enabled(s, t)
    ensures ClaimsOk(cfg, Next(cfg, s, t))
  {
  }

  /** The cache only grows, so what is settled stays settled. */
  lemma CacheGrows(cfg: Config, s: State, t: nat)
    requires FillsKnown(cfg, s) && Enabled(s, t)
    ensures s.cache <= Next(cfg, s, t).cache
    ensures s.cursor <= Next(cfg, s, t).cursor
    ensures |Next(cfg, s, t).threads| == |s.threads|
    ensures forall u :: 0 <= u < |s.threads| && u != t ==> Next(cfg, s, t).threads[u] == s.threads[u]
    ensures Next(cfg, s, t).threads[t].program.Worker? <==> s.threads[t].program.Worker?
  {
  }

  /** The thread that moves either keeps working on its page or leaves it settled. */
  lemma MoverSettles(cfg: Config, s: State, t: nat)
    requires FillsKnown(cfg, s) && Enabled(s, t) && Busy(s.threads[t].phase)
    ensures var s' := Next(cfg, s, t);
      var page := s.threads[t].phase.page;
      WorksOn(s'.threads[t].phase, page) || Settled(cfg, s'.cache, page)
  {
  }

  lemma WorkKept(cfg: Config, s: State, t: nat)
    requires WorkOk(cfg, s) && FillsKnown(cfg, s) && Enabled(s, t)
    ensures WorkOk(cfg, Next(cfg, s, t))
  {
    hide Next;
    var s' := Next(cfg, s, t);
    CacheGrows(cfg, s, t);
    CursorMoves(cfg, s, t);
    forall k | 0 <= k < |cfg.pages| && k < s'.cursor
      ensures Settled(cfg, s'.cache, cfg.pages[k]) || WorkedOn(s', cfg.pages[k])
    {
      if k < s.cursor {
        if !Settled(cfg, s.cache, cfg.pages[k]) {
          var u :| 0 <= u < |s.threads| && s.threads[u].program.Worker? && WorksOn(s.threads[u].phase, cfg.pages[k]);
          if u == t {
            MoverSettles(cfg, s, t);
          }
          assert WorksOn(s'.threads[u].phase, cfg.pages[k]) || Settled(cfg, s'.cache, cfg.pages[k]);
        }
      } else {
        assert WorksOn(s'.threads[t].phase, cfg.pages[k]);
      }
    }
  }

  /** Who can move the cursor, and what follows. */
  lemma CursorMoves(cfg: Config, s: State, t: nat)
    requires FillsKnown(cfg, s) && Enabled(s, t)
    ensures var s' := Next(cfg, s, t);
      && (s'.cursor != s.cursor ==>
            s'.cursor == s.cursor + 1 && s.threads[t].program.Worker? && s.threads[t].phase.Ready?)
      && (s'.cursor != s.cursor && s.cursor < |cfg.pages| ==> WorksOn(s'.threads[t].phase, cfg.pages[s.cursor]))
      && (s'.threads[t].program.Worker? && s'.threads[t].phase.Stopped? ==> |cfg.pages| < s'.cursor)
  {
  }

  lemma StepKeeps(cfg: Config, s: State, t: nat)
    requires Inv(cfg, s) && Enabled(s, t)
    ensures Inv(cfg, Next(cfg, s, t))
  {
    hide Next, GatesOk, FillsKnown, ClaimsOk, WorkOk;
    GatesKept(cfg, s, t);
    FillsKept(cfg, s, t);
    ClaimsKept(cfg, s, t);
    WorkKept(cfg, s, t);
  }

  // ---- Runs ----------------------------------------------------------------------------------

  /** `order` is a schedule that can be followed from `s`. */
  ghost predicate IsRun(cfg: Config, s: State, order: seq<nat>)
    requires Inv(cfg, s)
    decreases |order|
  {
    order != [] ==>
      && Enabled(s, order[0])
      && (StepKeeps(cfg, s, order[0]); IsRun(cfg, Next(cfg, s, order[0]), order[1..]))
  }

  ghost function After(cfg: Config, s: State, order: seq<nat>): State
    requires Inv(cfg, s) && IsRun(cfg, s, order)
    decreases |order|
  {
    if order == [] then s else
      StepKeeps(cfg, s, order[0]);
      After(cfg, Next(cfg, s, order[0]), order[1..])
  }

  lemma {:induction false} RunKeeps(cfg: Config, s: State, order: seq<nat>)
    requires Inv(cfg, s) && IsRun(cfg, s, order)
    ensures Inv(cfg, After(cfg, s, order))
    ensures s.cache <= After(cfg, s, order).cache
    ensures |After(cfg, s, order).threads| == |s.threads|
    ensures forall u :: 0 <= u < |s.threads| ==>
      (After(cfg, s, order).threads[u].program.Worker? <==> s.threads[u].program.Worker?)
    decreases |order|
  {
    hide Inv, Next;
    if order != [] {
      StepKeeps(cfg, s, order[0]);
      InvParts(cfg, s);
      CacheGrows(cfg, s, order[0]);
      RunKeeps(cfg, Next(cfg, s, order[0]), order[1..]);
    }
  }

  lemma InvParts(cfg: Config, s: State)
    requires Inv(cfg, s)
    ensures GatesOk(s) && FillsKnown(cfg, s) && ClaimsOk(cfg, s) && WorkOk(cfg, s)
  {
  }

  lemma GateExcludes(s: State, t: nat, u: nat)
    requires GatesOk(s) && t < |s.threads| && u < |s.threads|
    requires Inside(s.threads[t].phase) && Inside(s.threads[u].phase)
    requires Stripe(s.threads[t].phase.page) == Stripe(s.threads[u].phase.page)
    ensures t == u
  {
  }

  ghost predicate Follows(cfg: Config, s: State, order: seq<nat>) {
    Inv(cfg, s) && IsRun(cfg, s, order)
  }

  ghost function EndOf(cfg: Config, s: State, order: seq<nat>): State
    requires Follows(cfg, s, order)
  {
    After(cfg, s, order)
  }

  /** Whatever the pages contain and however many readers there are, no interleaving ever has two
      threads between the cache check and the end of the fetch on pages that share a gate; so no page
      is ever filled by two at once. */
  lemma OnePagePerFill(cfg: Config, s: State, order: seq<nat>, t: nat, u: nat)
    requires Initial(cfg, s) && Follows(cfg, s, order)
    requires t < |s.threads| && u < |s.threads| && t != u
    ensures var threads := EndOf(cfg, s, order).threads;
      && |threads| == |s.threads|
      && (Inside(threads[t].phase) && Inside(threads[u].phase) ==>
            Stripe(threads[t].phase.page) != Stripe(threads[u].phase.page))
  {
    hide Inv, IsRun, After, Stripe;
    RunKeeps(cfg, s, order);
    var end := EndOf(cfg, s, order);
    InvParts(cfg, end);
    if Inside(end.threads[t].phase) && Inside(end.threads[u].phase)
      && Stripe(end.threads[t].phase.page) == Stripe(end.threads[u].phase.page) {
      GateExcludes(end, t, u);
    }
  }

  /** Some thread can always move until all have stopped: the gates cannot deadlock. */
  lemma NoDeadlock(cfg: Config, s: State)
    requires GatesOk(s)
    requires exists t :: 0 <= t < |s.threads| && !s.threads[t].phase.Stopped?
    ensures exists t :: Enabled(s, t)
  {
    var t :| 0 <= t < |s.threads| && !s.threads[t].phase.Stopped?;
    if !Enabled(s, t) {
      var holder := s.gates[Stripe(s.threads[t].phase.page)];
      assert Enabled(s, holder);
    }
  }

  // ---- How much can go on at once ------------------------------------------------------------

  /** A thousand and twenty-four gates: pages of the same stretch of that many never share one, so two
      threads on two of them never wait for each other. */
  lemma StripesSpread(p: PageNo, q: PageNo)
    ensures Stripe(p) < 1024
    ensures p != q && p / 1024 == q / 1024 ==> Stripe(p) != Stripe(q)
  {
  }

  /** Sixteen workers, or one for each page if there are fewer. */
  lemma WorkersAre(cfg: Config)
    ensures Workers(cfg) <= 16 && Workers(cfg) <= |cfg.pages|
    ensures Workers(cfg) == 16 || Workers(cfg) == |cfg.pages|
  {
  }

  /** A thread waits only for one that is inside the very gate it wants. */
  lemma WaitsOnlyForItsGate(s: State, t: nat)
    requires GatesOk(s) && t < |s.threads| && !s.threads[t].phase.Stopped? && !Enabled(s, t)
    ensures s.threads[t].phase.Wants?
    ensures exists u :: 0 <= u < |s.threads| && Inside(s.threads[u].phase)
                        && Stripe(s.threads[u].phase.page) == Stripe(s.threads[t].phase.page)
  {
    var holder := s.gates[Stripe(s.threads[t].phase.page)];
    assert Inside(s.threads[holder].phase);
  }

  // ---- Every run ends ------------------------------------------------------------------------

  function PhaseWeight(phase: Phase): nat {
    match phase
    case Stopped => 0
    case Ready => 1
    case Fills(_) => 2
    case Holds(_) => 3
    case Wants(_) => 4
  }

  function ThreadWeight(thread: Thread): nat {
    PhaseWeight(thread.phase) + if thread.program.Reader? then 4 * |thread.program.todo| else 0
  }

  function Weights(threads: seq<Thread>): nat {
    if threads == [] then 0 else ThreadWeight(threads[0]) + Weights(threads[1..])
  }

  function Weight(cfg: Config, s: State): nat {
    Weights(s.threads) + if s.cursor < |cfg.pages| then 4 * (|cfg.pages| - s.cursor) else 0
  }

  lemma {:induction false} WeightsUpdate(threads: seq<Thread>, t: nat, thread: Thread)
    requires t < |threads|
    ensures Weights(threads[t := thread]) == Weights(threads) - ThreadWeight(threads[t]) + ThreadWeight(thread)
  {
    if t > 0 {
      WeightsUpdate(threads[1..], t - 1, thread);
      assert threads[t := thread][1..] == threads[1..][t - 1 := thread];
    }
  }

  lemma WeightDrops(cfg: Config, s: State, t: nat)
    requires FillsKnown(cfg, s) && Enabled(s, t)
    ensures Weight(cfg, Next(cfg, s, t)) < Weight(cfg, s)
  {
    hide Weights;
    var s' := Next(cfg, s, t);
    assert s'.threads == s.threads[t := s'.threads[t]];
    WeightsUpdate(s.threads, t, s'.threads[t]);
  }

  lemma {:induction false} RunsAreBounded(cfg: Config, s: State, order: seq<nat>)
    requires Inv(cfg, s) && IsRun(cfg, s, order)
    ensures |order| + Weight(cfg, After(cfg, s, order)) <= Weight(cfg, s)
    decreases |order|
  {
    hide Inv, Next, Weight;
    if order != [] {
      StepKeeps(cfg, s, order[0]);
      InvParts(cfg, s);
      WeightDrops(cfg, s, order[0]);
      RunsAreBounded(cfg, Next(cfg, s, order[0]), order[1..]);
    }
  }

  ghost predicate Returned(s: State) {
    forall t :: 0 <= t < |s.threads| && s.threads[t].program.Worker? ==> s.threads[t].phase.Stopped?
  }

  /** The prefetch's guarantee, over every interleaving with any number of readers: when it returns,
      each index was claimed exactly once and every requested page that the tier can serve is
      resident. */
  lemma PrefetchWarms(cfg: Config, s: State, order: seq<nat>)
    requires Initial(cfg, s)
    ensures Inv(cfg, s)
    ensures IsRun(cfg, s, order) && Returned(After(cfg, s, order)) ==>
      var end := After(cfg, s, order);
      && |end.claims| == |cfg.pages|
      && (forall k :: 0 <= k < |cfg.pages| ==> end.claims[k].1 == k)
      && (forall k :: 0 <= k < |cfg.pages| ==> Settled(cfg, end.cache, cfg.pages[k]))
  {
    InitialIsInv(cfg, s);
    if IsRun(cfg, s, order) && Returned(After(cfg, s, order)) {
      hide IsRun, After, Inv;
      RunKeeps(cfg, s, order);
      InvParts(cfg, After(cfg, s, order));
      if cfg.pages != [] {
        assert After(cfg, s, order).threads[0].program.Worker?;
      }
    }
  }

  /** A run that cannot go on has stopped every thread, so a fairly scheduled prefetch returns. */
  lemma StuckMeansDone(cfg: Config, s: State, order: seq<nat>)
    requires Inv(cfg, s) && IsRun(cfg, s, order)
    requires forall t :: !Enabled(After(cfg, s, order), t)
    ensures Returned(After(cfg, s, order))
  {
    hide IsRun, After, Enabled;
    RunKeeps(cfg, s, order);
    var end := After(cfg, s, order);
    if exists t :: 0 <= t < |end.threads| && !end.threads[t].phase.Stopped? {
      NoDeadlock(cfg, end);
      assert false;
    }
  }
}
