/** The wake scheduler: record which pages a query faults, remember them per database up to a cap,
    and prefetch them on the next cold wake. */
module Scheduler {
  import opened Substrate
  import opened PageSources
  import opened ReadPath

  const WARM_SET_CAP: nat := 8192

  type DbId = string

  /** What a warm set amounts to: its pages, and whether one was ever dropped. */
  datatype Warm = Warm(pages: set<PageNo>, saturated: bool)

  const NOTHING_LEARNED := Warm({}, false)

  function LearnOne(w: Warm, page: PageNo): Warm {
    if page in w.pages then w
    else if |w.pages| >= WARM_SET_CAP then w.(saturated := true)
    else w.(pages := w.pages + {page})
  }

  function LearnAll(w: Warm, touched: seq<PageNo>): Warm {
    if touched == [] then w
    else LearnOne(LearnAll(w, touched[..|touched| - 1]), touched[|touched| - 1])
  }

  ghost predicate Sorted(pages: seq<PageNo>) {
    forall i, j :: 0 <= i < j < |pages| ==> pages[i] < pages[j]
  }

  /** Where `page` is in a sorted list, or where it would go. */
  method BinarySearch(pages: seq<PageNo>, page: PageNo) returns (found: bool, index: nat)
    requires Sorted(pages)
    ensures index <= |pages|
    ensures found <==> page in pages
    ensures found ==> index < |pages| && pages[index] == page
    ensures !found ==> forall i :: 0 <= i < |pages| ==> pages[i] != page && (pages[i] < page <==> i < index)
  {
    var lo, hi := 0, |pages|;
    while lo < hi
      invariant 0 <= lo <= hi <= |pages|
      invariant forall i :: 0 <= i < lo ==> pages[i] < page
      invariant forall i :: hi <= i < |pages| ==> page < pages[i]
    {
      var mid := lo + (hi - lo) / 2;
      if pages[mid] == page {
        return true, mid;
      } else if pages[mid] < page {
        lo := mid + 1;
      } else {
        hi := mid;
      }
    }
    return false, lo;
  }

  lemma {:induction false} SortedCount(pages: seq<PageNo>)
    requires Sorted(pages)
    ensures |Elements(pages)| == |pages|
  {
    if pages != [] {
      var n := |pages| - 1;
      SortedCount(pages[..n]);
      assert pages == pages[..n] + [pages[n]];
      assert Elements(pages) == Elements(pages[..n]) + {pages[n]};
    }
  }

  class WarmSet {
    var pages: seq<PageNo>
    var saturated: bool

    ghost predicate Valid()
      reads this
    {
      Sorted(pages) && |pages| <= WARM_SET_CAP
    }

    ghost function Value(): Warm
      reads this
    {
      Warm(Elements(pages), saturated)
    }

    constructor ()
      ensures Valid() && Value() == NOTHING_LEARNED
    {
      pages := [];
      saturated := false;
    }

    /** Fold a trace in: sorted insertion of each new page, until the cap drops what is left. */
    method Learn(touched: seq<PageNo>)
      requires Valid()
      modifies this
      ensures Valid() && Value() == LearnAll(old(Value()), touched)
    {
      ghost var before := Value();
      assert touched[..0] == [];
      for k := 0 to |touched|
        invariant Valid() && Value() == LearnAll(before, touched[..k])
      {
        assert touched[..k + 1][..k] == touched[..k];
        SortedCount(pages);
        var page := touched[k];
        var found, index := BinarySearch(pages, page);
        if !found {
          if |pages| >= WARM_SET_CAP {
            saturated := true;
            continue;
          }
          ghost var was := pages;
          pages := pages[..index] + [page] + pages[index..];
          InsertKeepsSorted(was, page, index);
        }
      }
      assert touched[..|touched|] == touched;
    }
  }

  lemma InsertKeepsSorted(pages: seq<PageNo>, page: PageNo, index: nat)
    requires Sorted(pages) && index <= |pages|
    requires forall i :: 0 <= i < |pages| ==> pages[i] != page && (pages[i] < page <==> i < index)
    ensures Sorted(pages[..index] + [page] + pages[index..])
    ensures Elements(pages[..index] + [page] + pages[index..]) == Elements(pages) + {page}
  {
    var r := pages[..index] + [page] + pages[index..];
    forall p | p in pages ensures p in r {
      var i :| 0 <= i < |pages| && pages[i] == p;
      assert r[if i < index then i else i + 1] == p;
    }
    assert r[index] == page;
  }

  // ---- What learning amounts to --------------------------------------------------------------

  /** The distinct pages of a trace in order of first observation. */
  function Firsts(trace: seq<PageNo>): (firsts: seq<PageNo>)
    ensures forall p :: p in firsts <==> p in trace
  {
    if trace == [] then [] else
      var n := |trace| - 1;
      var before := Firsts(trace[..n]);
      assert trace == trace[..n] + [trace[n]];
      if trace[n] in before then before else before + [trace[n]]
  }

  lemma {:induction false} FirstsDistinct(trace: seq<PageNo>)
    ensures Unrepeated(Firsts(trace))
  {
    if trace != [] {
      FirstsDistinct(trace[..|trace| - 1]);
    }
  }

  function Take(s: seq<PageNo>, n: nat): seq<PageNo> {
    if |s| <= n then s else s[..n]
  }

  /** A warm set is the first 8192 distinct pages ever observed, and it is saturated exactly when
      there were more. */
  lemma {:induction false} LearnsFirsts(trace: seq<PageNo>)
    ensures var w := LearnAll(NOTHING_LEARNED, trace);
      && w.pages == Elements(Take(Firsts(trace), 8192))
      && (w.saturated <==> |Firsts(trace)| > 8192)
  {
    if trace != [] {
      var n := |trace| - 1;
      LearnsFirsts(trace[..n]);
      FirstsDistinct(trace[..n]);
      LearnNext(LearnAll(NOTHING_LEARNED, trace[..n]), Firsts(trace[..n]), trace[n]);
    }
  }

  lemma LearnNext(w: Warm, firsts: seq<PageNo>, page: PageNo)
    requires Unrepeated(firsts)
    requires w.pages == Elements(Take(firsts, WARM_SET_CAP)) && (w.saturated <==> |firsts| > WARM_SET_CAP)
    ensures var firsts' := if page in firsts then firsts else firsts + [page];
      var w' := LearnOne(w, page);
      && w'.pages == Elements(Take(firsts', WARM_SET_CAP))
      && (w'.saturated <==> |firsts'| > WARM_SET_CAP)
  {
    var kept := Take(firsts, WARM_SET_CAP);
    DistinctCount(kept);
    TakeNext(firsts, page);
  }

  lemma TakeNext(firsts: seq<PageNo>, page: PageNo)
    ensures Elements(Take(firsts + [page], WARM_SET_CAP)) ==
      Elements(Take(firsts, WARM_SET_CAP)) + if |firsts| < WARM_SET_CAP then {page} else {}
    ensures |firsts| <= WARM_SET_CAP ==> Elements(Take(firsts, WARM_SET_CAP)) == Elements(firsts)
    ensures page in Elements(Take(firsts, WARM_SET_CAP)) ==> page in firsts
  {
    if |firsts| >= WARM_SET_CAP {
      assert Take(firsts + [page], WARM_SET_CAP) == Take(firsts, WARM_SET_CAP);
    }
  }

  /** Splitting a trace changes nothing. */
  lemma {:induction false} LearnSplits(w: Warm, a: seq<PageNo>, b: seq<PageNo>)
    ensures LearnAll(w, a + b) == LearnAll(LearnAll(w, a), b)
  {
    if b == [] {
      assert a + b == a;
    } else {
      var n := |b| - 1;
      assert (a + b)[..|a + b| - 1] == a + b[..n];
      LearnSplits(w, a, b[..n]);
    }
  }

  /** Learning only adds, and a page that was offered is either in or was dropped at the cap. */
  lemma {:induction false} LearnKeeps(w: Warm, trace: seq<PageNo>)
    ensures var w' := LearnAll(w, trace);
      && w.pages <= w'.pages
      && (w.saturated ==> w'.saturated)
      && forall p :: p in trace ==> p in w'.pages || (w'.saturated && |w'.pages| >= WARM_SET_CAP)
  {
    if trace != [] {
      var n := |trace| - 1;
      LearnKeeps(w, trace[..n]);
      assert trace == trace[..n] + [trace[n]];
      GrowsTo(LearnAll(w, trace[..n]), trace[n]);
    }
  }

  lemma GrowsTo(w: Warm, page: PageNo)
    ensures var w' := LearnOne(w, page);
      w.pages <= w'.pages && |w.pages| <= |w'.pages| && (w.saturated ==> w'.saturated)
  {
  }

  /** Learning a trace again is a no-op, from any state. */
  lemma {:induction false} RelearnIsNoop(w: Warm, trace: seq<PageNo>, again: seq<PageNo>)
    requires forall p :: p in again ==> p in trace
    ensures LearnAll(LearnAll(w, trace), again) == LearnAll(w, trace)
  {
    if again != [] {
      var n := |again| - 1;
      RelearnIsNoop(w, trace, again[..n]);
      LearnKeeps(w, trace);
      assert again[n] in trace;
    }
  }

  // ---- The scheduler -------------------------------------------------------------------------

  class WakeScheduler {
    var warm: map<DbId, WarmSet>

    /** Every database has a warm set of its own. */
    ghost predicate Valid()
      reads this, warm.Values
    {
      && (forall db :: db in warm ==> warm[db].Valid())
      && (forall a, b :: a in warm && b in warm && a != b ==> warm[a] != warm[b])
    }

    ghost function Learned(): map<DbId, Warm>
      reads this, warm.Values
    {
      map db | db in warm :: warm[db].Value()
    }

    constructor ()
      ensures Valid() && Learned() == map[]
    {
      warm := map[];
    }

    /** The database's warm set, an empty one if it had none. */
    method Entry(db: DbId) returns (set': WarmSet)
      requires Valid()
      modifies this
      ensures Valid() && db in warm && warm[db] == set'
      ensures db in old(warm) ==> warm == old(warm)
      ensures db !in old(warm) ==> fresh(set') && warm == old(warm)[db := set']
      ensures Learned() == old(Learned())[db := KnownOf(old(Learned()), db)]
    {
      hide Elements, Sorted;
      if db !in warm {
        var untaught := new WarmSet();
        warm := warm[db := untaught];
      }
      return warm[db];
    }

    /** Fold a trace into one database's warm set, and nobody else's. */
    method Observe(db: DbId, touched: seq<PageNo>)
      requires Valid()
      modifies this, if db in warm then {warm[db]} else {}
      ensures Valid()
      ensures Learned() == old(Learned())[db := LearnAll(KnownOf(old(Learned()), db), touched)]
    {
      hide LearnAll, Elements, Sorted, KnownOf, WarmSet.Value, WarmSet.Valid;
      var entry := Entry(db);
      ghost var before := Learned();
      label Present:
      entry.Learn(touched);
      forall other | other in warm && other != db
        ensures warm[other].Valid() && warm[other].Value() == before[other]
      {
        assert warm[other] != entry;
        assert unchanged@Present(warm[other]);
      }
      OnlyOneLearned(before, db, Learned(), entry.Value());
    }

    /** Hand one database's warm set to a freshly woken source's prefetch. */
    method Prewarm(db: DbId, source: PageSource) returns (count: nat)
      requires Valid() && source.Valid()
      modifies source
      ensures source.Valid()
      ensures Learned() == old(Learned()) && Valid()
      ensures |source.asked| == |old(source.asked)| + count && old(source.asked) <= source.asked
      ensures var prefetched := source.asked[|old(source.asked)|..];
        Sorted(prefetched) && Elements(prefetched) == KnownOf(Learned(), db).pages
    {
      var pages: seq<PageNo> := if db in warm then warm[db].pages else [];
      source.Prefetch(pages);
      return |pages|;
    }
  }

  lemma OnlyOneLearned(before: map<DbId, Warm>, db: DbId, now: map<DbId, Warm>, w: Warm)
    requires db in before && now.Keys == before.Keys && now[db] == w
    requires forall other :: other in now && other != db ==> now[other] == before[other]
    ensures now == before[db := w]
  {
  }

  function KnownOf(learned: map<DbId, Warm>, db: DbId): Warm {
    if db in learned then learned[db] else NOTHING_LEARNED
  }

  // ---- Observe, then prewarm -----------------------------------------------------------------

  datatype Request = Request(offset: U64, len: nat)

  /** A source that answers from `pages`, always. */
  function Answering(pages: PageNo -> Option<Bytes>): Answers {
    (_: nat, p: PageNo) => pages(p)
  }

  function FaultsOf(pages: PageNo -> Option<Bytes>, pageSize: nat, totalLen: U64, r: Request): seq<PageNo> {
    ReadRange(Answering(pages), pageSize, totalLen, r.offset, r.len, 0).faults
  }

  /** Every page a sequence of reads asks a steady source for, in order. */
  function Trace(pages: PageNo -> Option<Bytes>, pageSize: nat, totalLen: U64, requests: seq<Request>): seq<PageNo> {
    if requests == [] then [] else
      var n := |requests| - 1;
      Trace(pages, pageSize, totalLen, requests[..n]) + FaultsOf(pages, pageSize, totalLen, requests[n])
  }

  /** What a read of a steady source does depends only on its pages. */
  lemma {:induction false} SteadyServesAlike(a: Answers, b: Answers, pages: PageNo -> Option<Bytes>, pageSize: nat,
                                              offset: nat, done: nat, want: nat, i: nat, j: nat)
    requires Steady(a, pages) && Steady(b, pages)
    requires 0 < pageSize && done <= want
    ensures Serve(a, pageSize, offset, done, want, i) == Serve(b, pageSize, offset, done, want, j)
    decreases want - done
  {
    hide Serve, Piece, PageOf, OffsetIn;
    if done == want {
      ServeEnd(a, pageSize, offset, want, i);
      ServeEnd(b, pageSize, offset, want, j);
    } else {
      ServeStep(a, pageSize, offset, done, want, i);
      ServeStep(b, pageSize, offset, done, want, j);
      var pageNo := PageOf(offset + done, pageSize);
      assert a(i, pageNo) == pages(pageNo) == b(j, pageNo);
      var piece := Piece(pages(pageNo), pageSize, pageNo, OffsetIn(offset + done, pageSize), want - done);
      if piece.Ok? {
        SteadyServesAlike(a, b, pages, pageSize, offset, done + |piece.value|, want, i + 1, j + 1);
      }
    }
  }

  lemma SteadyFaults(src: Answers, pages: PageNo -> Option<Bytes>, pageSize: nat, totalLen: U64, r: Request, asked: nat)
    requires Steady(src, pages)
    ensures ReadRange(src, pageSize, totalLen, r.offset, r.len, asked).faults == FaultsOf(pages, pageSize, totalLen, r)
  {
    hide Serve;
    var want := Clamp(totalLen, r.offset, r.len);
    if pageSize > 0 {
      SteadyServesAlike(src, Answering(pages), pages, pageSize, r.offset, 0, want, asked, 0);
    }
  }

  /** Serve each request in turn, through the recorder if there is one. */
  method ReadEach(src: PageSource, rec: RecordingSource?, totalLen: U64, requests: seq<Request>,
                  ghost pages: PageNo -> Option<Bytes>)
    requires src.Valid() && (rec != null ==> rec.inner == src)
    requires Steady(src.answers, pages)
    modifies src, if rec == null then {} else {rec}
    ensures src.Valid()
    ensures src.asked == old(src.asked) + Trace(pages, src.pageSize, totalLen, requests)
    ensures rec != null ==> rec.recorded == old(rec.recorded) + Trace(pages, src.pageSize, totalLen, requests)
  {
    hide ReadRange, CacheAfter, Steady, FaultsOf;
    for k := 0 to |requests|
      invariant src.Valid()
      invariant src.asked == old(src.asked) + Trace(pages, src.pageSize, totalLen, requests[..k])
      invariant rec != null ==>
        rec.recorded == old(rec.recorded) + Trace(pages, src.pageSize, totalLen, requests[..k])
    {
      assert requests[..k + 1][..k] == requests[..k];
      var r := requests[k];
      SteadyFaults(src.answers, pages, src.pageSize, totalLen, r, |src.asked|);
      var buf := new Byte[r.len];
      var _ := ServeRead(src, rec, totalLen, r.offset, buf, 0, r.len);
    }
    assert requests[..|requests|] == requests;
  }

  /** One wake, recorded and observed. */
  method ObservedWake(sched: WakeScheduler, db: DbId, src: PageSource, totalLen: U64, requests: seq<Request>,
                      ghost pages: PageNo -> Option<Bytes>)
    requires sched.Valid() && src.Valid() && Steady(src.answers, pages)
    modifies sched, src, if db in sched.warm then {sched.warm[db]} else {}
    ensures sched.Valid() && src.Valid()
    ensures sched.Learned() == old(sched.Learned())[db := LearnAll(KnownOf(old(sched.Learned()), db),
                                 TouchedBy(Trace(pages, src.pageSize, totalLen, requests)))]
  {
    hide CacheAfter, Steady, Trace, LearnAll, TouchedBy;
    var touched := RecordedWake(src, totalLen, requests, pages);
    assert sched.Valid() && sched.Learned() == old(sched.Learned());
    sched.Observe(db, touched);
  }

  method RecordedWake(src: PageSource, totalLen: U64, requests: seq<Request>, ghost pages: PageNo -> Option<Bytes>)
    returns (touched: seq<PageNo>)
    requires src.Valid() && Steady(src.answers, pages)
    modifies src
    ensures src.Valid()
    ensures touched == TouchedBy(Trace(pages, src.pageSize, totalLen, requests))
  {
    hide CacheAfter, Steady, Trace, TouchedBy;
    var rec := new RecordingSource(src);
    ReadEach(src, rec, totalLen, requests, pages);
    assert [] + Trace(pages, src.pageSize, totalLen, requests) == Trace(pages, src.pageSize, totalLen, requests);
    touched := rec.Touched();
  }

  /** A later wake on a cold cache: prewarm, then the reads. The result is what the reads had to fetch
      that the prewarm had not. */
  method PrewarmedWake(sched: WakeScheduler, db: DbId, src: PageSource, totalLen: U64, requests: seq<Request>,
                       ghost pages: PageNo -> Option<Bytes>)
    returns (refetched: seq<PageNo>)
    requires sched.Valid() && src.Valid() && Steady(src.answers, pages) && src.asked == []
    modifies src
    ensures sched.Valid() && sched.Learned() == old(sched.Learned()) && src.Valid()
    ensures var known := KnownOf(sched.Learned(), db).pages;
      var trace := Trace(pages, src.pageSize, totalLen, requests);
      && (forall p :: p in refetched <==> p in trace && pages(p).Some? && p !in known)
      && ((forall p :: p in trace && pages(p).Some? ==> p in known) ==> refetched == [])
  {
    hide CacheAfter, Steady, Trace;
    var _ := sched.Prewarm(db, src);
    var prewarmed := |src.fetched|;
    ghost var before := src.asked;
    ReadEach(src, null, totalLen, requests, pages);
    SteadyFetchesMore(src.answers, pages, before, Trace(pages, src.pageSize, totalLen, requests));
    refetched := src.fetched[prewarmed..];
    PrewarmedPages(before, KnownOf(sched.Learned(), db).pages);
  }

  lemma PrewarmedPages(asked: seq<PageNo>, known: set<PageNo>)
    requires Elements(asked) == known
    ensures forall p :: p in asked <==> p in known
  {
    forall p ensures p in asked <==> p in known {
      assert p in asked <==> p in Elements(asked);
    }
  }

  /** Record one wake, observe it, prewarm the next cold wake and replay the reads. They fetch exactly
      the existing pages the warm set does not hold: none at all while it is not saturated, and, for a
      database observed for the first time, those the cap dropped from the end of the sorted fault set.
      No other database's set is touched. */
  method WakeTwice(sched: WakeScheduler, db: DbId, first: PageSource, second: PageSource, totalLen: U64,
                   requests: seq<Request>, ghost pages: PageNo -> Option<Bytes>)
    returns (refetched: seq<PageNo>)
    requires sched.Valid() && first.Valid() && second.Valid() && first != second
    requires first.pageSize == second.pageSize && second.asked == []
    requires Steady(first.answers, pages) && Steady(second.answers, pages)
    modifies sched, first, second, if db in sched.warm then {sched.warm[db]} else {}
    ensures sched.Valid()
    ensures var trace := Trace(pages, first.pageSize, totalLen, requests);
      var warm := LearnAll(KnownOf(old(sched.Learned()), db), TouchedBy(trace));
      && sched.Learned() == old(sched.Learned())[db := warm]
      && (forall p :: p in refetched <==> p in trace && pages(p).Some? && p !in warm.pages)
      && (!warm.saturated ==> refetched == [])
      && (db !in old(sched.Learned()) ==> forall p ::
            p in refetched <==> p in trace && pages(p).Some? && p !in Take(TouchedBy(trace), WARM_SET_CAP))
  {
    hide CacheAfter, Steady, Trace, LearnAll, Take, TouchedBy;
    ghost var known := KnownOf(sched.Learned(), db);
    ghost var trace := Trace(pages, first.pageSize, totalLen, requests);
    ObservedWake(sched, db, first, totalLen, requests, pages);
    refetched := PrewarmedWake(sched, db, second, totalLen, requests, pages);
    if !LearnAll(known, TouchedBy(trace)).saturated {
      UnsaturatedCovers(known, trace);
    }
    CapDropsTheEnd(trace);
  }

  /** A set that was not saturated by a trace holds all of it. */
  lemma UnsaturatedCovers(known: Warm, trace: seq<PageNo>)
    requires !LearnAll(known, TouchedBy(trace)).saturated
    ensures forall p :: p in trace ==> p in LearnAll(known, TouchedBy(trace)).pages
  {
    hide LearnAll, Ascending;
    LearnKeeps(known, TouchedBy(trace));
    forall p | p in trace ensures p in LearnAll(known, TouchedBy(trace)).pages {
      assert p in Elements(trace) && p in TouchedBy(trace);
    }
  }

  /** What a first observation keeps is the low end of the sorted fault set, up to the cap. */
  lemma CapDropsTheEnd(trace: seq<PageNo>)
    ensures forall p ::
      p in LearnAll(NOTHING_LEARNED, TouchedBy(trace)).pages <==> p in Take(TouchedBy(trace), WARM_SET_CAP)
  {
    hide LearnAll, Ascending, Firsts;
    var touched := TouchedBy(trace);
    LearnsFirsts(touched);
    FirstsOfUnrepeated(touched);
    assert forall p :: p in Elements(Take(touched, WARM_SET_CAP)) <==> p in Take(touched, WARM_SET_CAP);
  }

  lemma {:induction false} FirstsOfUnrepeated(trace: seq<PageNo>)
    requires Unrepeated(trace)
    ensures Firsts(trace) == trace
  {
    if trace != [] {
      var n := |trace| - 1;
      FirstsOfUnrepeated(trace[..n]);
      assert trace == trace[..n] + [trace[n]];
    }
  }
}
