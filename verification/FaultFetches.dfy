/** What concurrent faults cost: how many objects the tier is asked for, and when two threads fetch the
    same one. */
module FaultFetches {
  import opened Substrate
  import opened FaultGates

  // ---- Objects, not pages --------------------------------------------------------------------

  /** Two pages that are one object, not resident at the start and in the tier. */
  predicate Twins(cfg: Config, p: PageNo, q: PageNo) {
    SameObject(cfg, p, q) && IsCold(cfg, p)
  }

  /** Cold pages with the same content share a gate. Distinct content for distinct pages is the
      simplest way to have it. */
  ghost predicate Aligned(cfg: Config) {
    forall p, q :: Twins(cfg, p, q) ==> Stripe(p) == Stripe(q)
  }

  /** What is being filled and can be had is not resident yet, no object was fetched twice, and the
      cache is what it started with and what was fetched. */
  ghost predicate FetchesOk(cfg: Config, s: State) {
    && (forall t :: 0 <= t < |s.threads| && s.threads[t].phase.Fills? ==>
          s.threads[t].phase.page in cfg.content && cfg.content[s.threads[t].phase.page] !in s.cache)
    && Unrepeated(s.gets)
    && s.collisions == 0
    && (forall id :: id in s.cache <==> id in cfg.warm || id in s.gets)
    && (forall id :: id in s.gets ==> id !in cfg.warm && id in cfg.tier)
  }

  lemma FetchesKept(cfg: Config, s: State, t: nat)
    requires Aligned(cfg) && FetchesOk(cfg, s) && GatesOk(s) && FillsKnown(cfg, s) && Enabled(s, t)
    ensures FetchesOk(cfg, Next(cfg, s, t))
  {
    var s' := Next(cfg, s, t);
    if s.threads[t].phase.Fills? {
      var id := cfg.content[s.threads[t].phase.page];
      if id in cfg.tier {
        forall u | 0 <= u < |s'.threads| && s'.threads[u].phase.Fills?
          ensures cfg.content[s'.threads[u].phase.page] !in s'.cache
        {
          assert u != t && s'.threads[u] == s.threads[u];
          if cfg.content[s.threads[u].phase.page] == id {
            assert Twins(cfg, s.threads[t].phase.page, s.threads[u].phase.page);
            GateExcludes(s, t, u);
          }
        }
      }
    }
  }

  lemma {:induction false} RunFetches(cfg: Config, s: State, order: seq<nat>)
    requires Inv(cfg, s) && IsRun(cfg, s, order) && Aligned(cfg) && FetchesOk(cfg, s)
    ensures FetchesOk(cfg, After(cfg, s, order))
    decreases |order|
  {
    hide Inv, Next, FetchesOk, Aligned, GatesOk, FillsKnown;
    if order != [] {
      StepKeeps(cfg, s, order[0]);
      InvParts(cfg, s);
      FetchesKept(cfg, s, order[0]);
      RunFetches(cfg, Next(cfg, s, order[0]), order[1..]);
    }
  }

  /** No interleaving, with any readers, ever makes a fetch lose its rename. */
  ghost predicate NeverCollides(cfg: Config) {
    forall s, order :: Initial(cfg, s) && Follows(cfg, s, order) ==> EndOf(cfg, s, order).collisions == 0
  }

  /** Gates chosen by page number keep fetches apart exactly when equal cold content shares a gate. */
  lemma NeverCollidesIffAligned(cfg: Config)
    ensures NeverCollides(cfg) <==> Aligned(cfg)
  {
    hide Inv, IsRun, After, Next;
    if Aligned(cfg) {
      forall s, order | Initial(cfg, s) && Follows(cfg, s, order)
        ensures EndOf(cfg, s, order).collisions == 0
      {
        RunFetches(cfg, s, order);
      }
    } else {
      var p, q :| Twins(cfg, p, q) && Stripe(p) != Stripe(q);
      var s, order := CollidingRun(cfg, p, q);
      assert EndOf(cfg, s, order).collisions == 1;
    }
  }

  lemma RunCons(cfg: Config, s: State, t: nat, rest: seq<nat>)
    requires Inv(cfg, s) && Enabled(s, t) && Follows(cfg, Next(cfg, s, t), rest)
    ensures Follows(cfg, s, [t] + rest)
    ensures EndOf(cfg, s, [t] + rest) == EndOf(cfg, Next(cfg, s, t), rest)
  {
    hide Inv, Next;
    assert ([t] + rest)[1..] == rest;
  }

  /** Two readers, one page each, both past the cache check before either fetch ends. */
  lemma CollidingRun(cfg: Config, p: PageNo, q: PageNo) returns (s: State, order: seq<nat>)
    requires Twins(cfg, p, q) && Stripe(p) != Stripe(q)
    ensures Initial(cfg, s) && Follows(cfg, s, order) && EndOf(cfg, s, order).collisions == 1
  {
    var n := Workers(cfg);
    var threads := seq(n, i => Thread(Worker, Ready)) + [Thread(Reader([p]), Ready), Thread(Reader([q]), Ready)];
    s := State(threads, map[], 0, [], cfg.warm, [], 0);
    InitialIsInv(cfg, s);
    var s4 := BothInside(cfg, s, n, n + 1, p, q);
    order := BothFill(cfg, s4, n, n + 1, p, q);
    var s1 := Next(cfg, s, n);
    StepKeeps(cfg, s, n);
    var s2 := Next(cfg, s1, n + 1);
    StepKeeps(cfg, s1, n + 1);
    var s3 := Next(cfg, s2, n);
    StepKeeps(cfg, s2, n);
    assert s4 == Next(cfg, s3, n + 1);
    RunCons(cfg, s3, n + 1, order);
    RunCons(cfg, s2, n, [n + 1] + order);
    RunCons(cfg, s1, n + 1, [n] + ([n + 1] + order));
    RunCons(cfg, s, n, [n + 1] + ([n] + ([n + 1] + order)));
    order := [n] + ([n + 1] + ([n] + ([n + 1] + order)));
  }

  /** Two pages of the same bytes, one object in the tier and none in the cache. */
  const ALIASED := Config([0, 1], map[0 := PageId([7]), 1 := PageId([7])], {PageId([7])}, {})

  /** Nothing rules such a store out, and in it some run makes a fetch lose its rename: both threads ask
      the tier for the one object. */
  lemma AliasedPagesCollide()
    ensures !NeverCollides(ALIASED)
  {
    hide NeverCollides;
    assert Twins(ALIASED, 0, 1) && Stripe(0) != Stripe(1);
    NeverCollidesIffAligned(ALIASED);
  }

  /** Both readers ask for their page and take its gate. */
  lemma BothInside(cfg: Config, s: State, a: nat, b: nat, p: PageNo, q: PageNo) returns (end: State)
    requires Inv(cfg, s) && s.gates == map[] && Stripe(p) != Stripe(q)
    requires a < |s.threads| && b < |s.threads| && a != b
    requires s.threads[a] == Thread(Reader([p]), Ready) && s.threads[b] == Thread(Reader([q]), Ready)
    ensures Enabled(s, a) && FillsKnown(cfg, s)
    ensures var s1 := Next(cfg, s, a);
      && Enabled(s1, b) && FillsKnown(cfg, s1)
      && var s2 := Next(cfg, s1, b);
      && Enabled(s2, a) && FillsKnown(cfg, s2)
      && var s3 := Next(cfg, s2, a);
      && Enabled(s3, b) && FillsKnown(cfg, s3)
      && end == Next(cfg, s3, b)
    ensures Inv(cfg, end) && end.cache == s.cache && end.collisions == s.collisions
    ensures |end.threads| == |s.threads|
    ensures end.threads[a] == Thread(Reader([]), Holds(p)) && end.threads[b] == Thread(Reader([]), Holds(q))
  {
    hide Inv, GatesOk, Stripe;
    assert [p][1..] == [] && [q][1..] == [];
    InvParts(cfg, s);
    var s1 := Next(cfg, s, a);
    StepKeeps(cfg, s, a);
    InvParts(cfg, s1);
    var s2 := Next(cfg, s1, b);
    StepKeeps(cfg, s1, b);
    InvParts(cfg, s2);
    var s3 := Next(cfg, s2, a);
    StepKeeps(cfg, s2, a);
    InvParts(cfg, s3);
    end := Next(cfg, s3, b);
    StepKeeps(cfg, s3, b);
  }

  /** Both find their page cold, and both fetch it. */
  lemma BothFill(cfg: Config, s: State, a: nat, b: nat, p: PageNo, q: PageNo) returns (order: seq<nat>)
    requires Inv(cfg, s) && Twins(cfg, p, q) && cfg.content[p] !in s.cache
    requires a < |s.threads| && b < |s.threads| && a != b
    requires s.threads[a].phase == Holds(p) && s.threads[b].phase == Holds(q)
    ensures Follows(cfg, s, order)
    ensures EndOf(cfg, s, order).collisions == s.collisions + 1
  {
    hide Inv, IsRun, After, GatesOk, Stripe;
    InvParts(cfg, s);
    var s1 := Next(cfg, s, a);
    StepKeeps(cfg, s, a);
    InvParts(cfg, s1);
    var s2 := Next(cfg, s1, b);
    StepKeeps(cfg, s1, b);
    InvParts(cfg, s2);
    var s3 := Next(cfg, s2, a);
    StepKeeps(cfg, s2, a);
    InvParts(cfg, s3);
    var end := Next(cfg, s3, b);
    StepKeeps(cfg, s3, b);
    EmptyRun(cfg, end);
    RunCons(cfg, s3, b, []);
    RunCons(cfg, s2, a, [b] + []);
    RunCons(cfg, s1, b, [a] + ([b] + []));
    RunCons(cfg, s, a, [b] + ([a] + ([b] + [])));
    order := [a] + ([b] + ([a] + ([b] + [])));
  }

  lemma EmptyRun(cfg: Config, s: State)
    requires Inv(cfg, s)
    ensures Follows(cfg, s, []) && EndOf(cfg, s, []) == s
  {
  }

  // ---- How many fetches ----------------------------------------------------------------------

  /** Everything any thread has asked for, is asking for or will ask for is among `pages`. */
  ghost predicate Within(cfg: Config, s: State, pages: set<PageNo>) {
    && (forall k :: 0 <= k < |cfg.pages| ==> cfg.pages[k] in pages)
    && (forall t :: 0 <= t < |s.threads| && Busy(s.threads[t].phase) ==> s.threads[t].phase.page in pages)
    && (forall t :: 0 <= t < |s.threads| && s.threads[t].program.Reader? ==>
          forall p :: p in s.threads[t].program.todo ==> p in pages)
    && (forall id :: id in s.gets ==> id in IdsOf(cfg, pages))
  }

  function IdsOf(cfg: Config, pages: set<PageNo>): set<PageId> {
    set p | p in pages && p in cfg.content :: cfg.content[p]
  }

  /** The objects behind `pages` that start out cold and can be fetched. */
  function Cold(cfg: Config, pages: set<PageNo>): set<PageId> {
    set id | id in IdsOf(cfg, pages) && id in cfg.tier && id !in cfg.warm
  }

  lemma WithinKept(cfg: Config, s: State, t: nat, pages: set<PageNo>)
    requires Within(cfg, s, pages) && FillsKnown(cfg, s) && Enabled(s, t)
    ensures Within(cfg, Next(cfg, s, t), pages)
  {
    hide IdsOf;
    var phase := s.threads[t].phase;
    if phase.Fills? {
      IdAmong(cfg, pages, phase.page);
    }
  }

  lemma IdAmong(cfg: Config, pages: set<PageNo>, p: PageNo)
    requires p in pages && p in cfg.content
    ensures cfg.content[p] in IdsOf(cfg, pages)
  {
  }

  lemma {:induction false} RunWithin(cfg: Config, s: State, order: seq<nat>, pages: set<PageNo>)
    requires Inv(cfg, s) && IsRun(cfg, s, order) && Within(cfg, s, pages)
    ensures Within(cfg, After(cfg, s, order), pages)
    decreases |order|
  {
    hide Inv, Next, Within, FillsKnown;
    if order != [] {
      StepKeeps(cfg, s, order[0]);
      InvParts(cfg, s);
      WithinKept(cfg, s, order[0], pages);
      RunWithin(cfg, Next(cfg, s, order[0]), order[1..], pages);
    }
  }

  /** When the prefetch returns, and readers read nothing else, the tier was asked for exactly the
      cold objects behind the requested pages, each once. */
  lemma PrefetchFetchesColdOnce(cfg: Config, s: State, order: seq<nat>, pages: set<PageNo>)
    requires Initial(cfg, s) && Aligned(cfg) && Within(cfg, s, pages)
    requires forall p :: p in pages ==> p in cfg.pages
    requires Follows(cfg, s, order) && Returned(EndOf(cfg, s, order))
    ensures var end := EndOf(cfg, s, order);
      && Elements(end.gets) == Cold(cfg, pages)
      && |end.gets| == |Cold(cfg, pages)|
  {
    hide IsRun, After, Inv;
    var end := After(cfg, s, order);
    PrefetchWarms(cfg, s, order);
    RunFetches(cfg, s, order);
    RunWithin(cfg, s, order, pages);
    ColdWereFetched(cfg, end, pages);
    DistinctCount(end.gets);
  }

  lemma ColdWereFetched(cfg: Config, s: State, pages: set<PageNo>)
    requires FetchesOk(cfg, s) && Within(cfg, s, pages)
    requires forall p :: p in pages ==> p in cfg.pages
    requires forall k :: 0 <= k < |cfg.pages| ==> Settled(cfg, s.cache, cfg.pages[k])
    ensures Elements(s.gets) == Cold(cfg, pages)
  {
    forall id | id in Cold(cfg, pages) ensures id in s.gets {
      var p :| p in pages && p in cfg.content && cfg.content[p] == id;
      var k :| 0 <= k < |cfg.pages| && cfg.pages[k] == p;
      assert Settled(cfg, s.cache, cfg.pages[k]);
    }
  }

  /** With distinct content behind distinct pages, objects are pages: the count is the number of
      requested pages that started cold. */
  lemma {:induction false} ColdObjectsAreColdPages(cfg: Config, pages: set<PageNo>)
    requires forall p, q :: p in pages && q in pages && SameObject(cfg, p, q) ==> p == q
    ensures |Cold(cfg, pages)| == |set p | p in pages && p in cfg.content && IsCold(cfg, p)|
    decreases pages
  {
    if pages != {} {
      var p :| p in pages;
      var rest := pages - {p};
      ColdObjectsAreColdPages(cfg, rest);
      var all := set q | q in pages && q in cfg.content && IsCold(cfg, q);
      var some := set q | q in rest && q in cfg.content && IsCold(cfg, q);
      if p in cfg.content && IsCold(cfg, p) {
        var id := cfg.content[p];
        assert all == some + {p};
        assert Cold(cfg, pages) == Cold(cfg, rest) + {id};
        assert id !in Cold(cfg, rest);
      } else {
        assert all == some;
        assert Cold(cfg, pages) == Cold(cfg, rest);
      }
    }
  }

  predicate SameObject(cfg: Config, p: PageNo, q: PageNo) {
    p in cfg.content && q in cfg.content && cfg.content[p] == cfg.content[q]
  }

  predicate IsCold(cfg: Config, p: PageNo)
    requires p in cfg.content
  {
    cfg.content[p] in cfg.tier && cfg.content[p] !in cfg.warm
  }

  /** What is being fetched now is not there to be had. */
  ghost predicate NothingComing(cfg: Config, s: State, pages: set<PageNo>) {
    && Within(cfg, s, pages)
    && (forall p :: p in pages ==> Settled(cfg, s.cache, p))
    && (forall t :: 0 <= t < |s.threads| && s.threads[t].phase.Fills? ==>
          s.threads[t].phase.page in cfg.content && cfg.content[s.threads[t].phase.page] !in cfg.tier)
  }

  lemma QuietStep(cfg: Config, s: State, t: nat, pages: set<PageNo>)
    requires NothingComing(cfg, s, pages) && FillsKnown(cfg, s) && Enabled(s, t)
    ensures NothingComing(cfg, Next(cfg, s, t), pages) && Next(cfg, s, t).gets == s.gets
  {
    hide IdsOf;
    WithinKept(cfg, s, t, pages);
  }

  /** Once a set of pages is settled, reading only those pages asks the tier for nothing, however
      the readers are interleaved. */
  lemma {:induction false} WarmReadsFetchNothing(cfg: Config, s: State, order: seq<nat>, pages: set<PageNo>)
    requires Follows(cfg, s, order) && NothingComing(cfg, s, pages)
    ensures EndOf(cfg, s, order).gets == s.gets
    decreases |order|
  {
    hide Inv, Next, NothingComing, FillsKnown;
    if order != [] {
      StepKeeps(cfg, s, order[0]);
      InvParts(cfg, s);
      QuietStep(cfg, s, order[0], pages);
      WarmReadsFetchNothing(cfg, Next(cfg, s, order[0]), order[1..], pages);
    }
  }

  /** After the prefetch, nothing: once it has returned, however the readers that were beside it and any
      reads of the requested pages go on, the tier is not asked for another object. */
  lemma PrefetchedReadsFetchNothing(cfg: Config, s: State, order: seq<nat>, pages: set<PageNo>, more: seq<nat>)
    requires Initial(cfg, s) && Aligned(cfg) && Within(cfg, s, pages)
    requires forall p :: p in pages ==> p in cfg.pages
    requires Follows(cfg, s, order) && Returned(EndOf(cfg, s, order))
    requires Follows(cfg, EndOf(cfg, s, order), more)
    ensures EndOf(cfg, EndOf(cfg, s, order), more).gets == EndOf(cfg, s, order).gets
  {
    hide IsRun, After, Inv;
    var end := EndOf(cfg, s, order);
    PrefetchWarms(cfg, s, order);
    RunFetches(cfg, s, order);
    RunWithin(cfg, s, order, pages);
    NothingIsComing(cfg, end, pages);
    WarmReadsFetchNothing(cfg, end, more, pages);
  }

  lemma NothingIsComing(cfg: Config, s: State, pages: set<PageNo>)
    requires FetchesOk(cfg, s) && Within(cfg, s, pages)
    requires forall p :: p in pages ==> p in cfg.pages
    requires forall k :: 0 <= k < |cfg.pages| ==> Settled(cfg, s.cache, cfg.pages[k])
    ensures NothingComing(cfg, s, pages)
  {
    forall p | p in pages ensures Settled(cfg, s.cache, p) {
      var k :| 0 <= k < |cfg.pages| && cfg.pages[k] == p;
      assert Settled(cfg, s.cache, cfg.pages[k]);
    }
    assert forall t :: 0 <= t < |s.threads| && s.threads[t].phase.Fills? ==>
      Busy(s.threads[t].phase) && Settled(cfg, s.cache, s.threads[t].phase.page);
  }
}
