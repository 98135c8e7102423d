/** Where pages come from: a source with a local cache, and the recorder the wake scheduler puts
    around it. */
module PageSources {
  import opened Substrate

  /** What the source answers, given how many pages were asked for before and which one is asked for
      now. It may answer anything, and answer the same question differently each time. */
  type Answers = (nat, PageNo) -> Option<Bytes>

  /** The pages that are resident, and every page that had to be fetched, in order. */
  datatype Cache = Cache(resident: set<PageNo>, fetched: seq<PageNo>)

  /** The cache of a source that started cold and was asked for `asked`. A page that does not exist is
      an error, not a fetch. */
  function CacheAfter(src: Answers, asked: seq<PageNo>): Cache {
    if asked == [] then Cache({}, []) else
      var n := |asked| - 1;
      AskOne(CacheAfter(src, asked[..n]), asked[n], src(n, asked[n]))
  }

  function AskOne(cache: Cache, page: PageNo, answer: Option<Bytes>): Cache {
    if answer.None? || page in cache.resident then cache
    else Cache(cache.resident + {page}, cache.fetched + [page])
  }

  class PageSource {
    const pageSize: nat
    const answers: Answers
    var asked: seq<PageNo>
    var resident: set<PageNo>
    var fetched: seq<PageNo>

    ghost predicate Valid()
      reads this
    {
      Cache(resident, fetched) == CacheAfter(answers, asked)
    }

    constructor (pageSize: nat, answers: Answers)
      ensures this.pageSize == pageSize && this.answers == answers
      ensures Valid() && asked == []
    {
      this.pageSize := pageSize;
      this.answers := answers;
      asked := [];
      resident := {};
      fetched := [];
    }

    method ReadPage(pageNo: PageNo) returns (page: Option<Bytes>)
      requires Valid()
      modifies this
      ensures Valid()
      ensures page == answers(|old(asked)|, pageNo)
      ensures asked == old(asked) + [pageNo]
    {
      page := answers(|asked|, pageNo);
      if page.Some? && pageNo !in resident {
        resident := resident + {pageNo};
        fetched := fetched + [pageNo];
      }
      ghost var before := asked;
      asked := asked + [pageNo];
      assert asked[..|asked| - 1] == before;
    }

    /** The default prefetch: ask for each page and drop what goes wrong. */
    method Prefetch(pages: seq<PageNo>)
      requires Valid()
      modifies this
      ensures Valid()
      ensures asked == old(asked) + pages
    {
      for k := 0 to |pages|
        invariant Valid() && asked == old(asked) + pages[..k]
      {
        var _ := ReadPage(pages[k]);
      }
      assert pages[..|pages|] == pages;
    }
  }

  /** A source that writes down every page asked for on its way to the real one, a prefetch's pages
      included. */
  class RecordingSource {
    const inner: PageSource
    var recorded: seq<PageNo>

    constructor (inner: PageSource)
      ensures this.inner == inner && recorded == []
    {
      this.inner := inner;
      recorded := [];
    }

    method ReadPage(pageNo: PageNo) returns (page: Option<Bytes>)
      requires inner.Valid()
      modifies this, inner
      ensures inner.Valid()
      ensures recorded == old(recorded) + [pageNo]
      ensures inner.asked == old(inner.asked) + [pageNo]
      ensures page == inner.answers(|old(inner.asked)|, pageNo)
    {
      recorded := recorded + [pageNo];
      page := inner.ReadPage(pageNo);
    }

    method Prefetch(pages: seq<PageNo>)
      requires inner.Valid()
      modifies this, inner
      ensures inner.Valid()
      ensures recorded == old(recorded) + pages
      ensures inner.asked == old(inner.asked) + pages
    {
      for k := 0 to |pages|
        invariant inner.Valid() && recorded == old(recorded) + pages[..k] && inner.asked == old(inner.asked)
      {
        recorded := recorded + [pages[k]];
      }
      assert pages[..|pages|] == pages;
      inner.Prefetch(pages);
    }

    /** The fault set: sorted, without repeats. */
    method Touched() returns (pages: seq<PageNo>)
      ensures pages == TouchedBy(recorded)
      ensures Elements(pages) == Elements(recorded)
      ensures forall i, j :: 0 <= i < j < |pages| ==> pages[i] < pages[j]
    {
      hide Ascending;
      pages := TouchedBy(recorded);
    }
  }

  function TouchedBy(recorded: seq<PageNo>): seq<PageNo> {
    Ascending(Elements(recorded))
  }

  // ---- A steady source -----------------------------------------------------------------------

  /** A source that answers the same question the same way every time. */
  ghost predicate Steady(src: Answers, pages: PageNo -> Option<Bytes>) {
    forall i, p :: src(i, p) == pages(p)
  }

  /** What a steady source has fetched is every page asked for that exists, each once; and that is what
      is resident. */
  lemma {:induction false} SteadyCache(src: Answers, pages: PageNo -> Option<Bytes>, asked: seq<PageNo>)
    requires Steady(src, pages)
    ensures var cache := CacheAfter(src, asked);
      && (forall p :: p in cache.resident <==> p in asked && pages(p).Some?)
      && (forall p :: p in cache.fetched <==> p in cache.resident)
      && Unrepeated(cache.fetched)
  {
    if asked != [] {
      var n := |asked| - 1;
      SteadyCache(src, pages, asked[..n]);
      assert asked == asked[..n] + [asked[n]];
      assert src(n, asked[n]) == pages(asked[n]);
    }
  }

  /** Asking for more only adds to what was fetched: the existing pages not asked for before. */
  lemma SteadyFetchesMore(src: Answers, pages: PageNo -> Option<Bytes>, before: seq<PageNo>, more: seq<PageNo>)
    requires Steady(src, pages)
    ensures var was, now := CacheAfter(src, before).fetched, CacheAfter(src, before + more).fetched;
      && was <= now
      && (forall p :: p in now[|was|..] <==> p in more && p !in before && pages(p).Some?)
      && ((forall p :: p in more && pages(p).Some? ==> p in before) ==> now == was)
  {
    hide CacheAfter, Steady;
    FetchedGrows(src, before, more);
    SteadyCache(src, pages, before);
    SteadyCache(src, pages, before + more);
    NewOnes(CacheAfter(src, before).fetched, CacheAfter(src, before + more).fetched);
  }

  /** What an unrepeated sequence has past a prefix is what it has and the prefix has not. */
  lemma NewOnes(was: seq<PageNo>, now: seq<PageNo>)
    requires was <= now && Unrepeated(now)
    ensures forall p :: p in now[|was|..] <==> p in now && p !in was
    ensures (forall p :: p in now ==> p in was) ==> now == was
  {
    var added := now[|was|..];
    assert now == was + added;
    forall p | p in added ensures p !in was {
      var j :| 0 <= j < |added| && added[j] == p;
      assert now[|was| + j] == p;
    }
    assert |added| > 0 ==> added[0] in added;
  }

  lemma {:induction false} FetchedGrows(src: Answers, before: seq<PageNo>, more: seq<PageNo>)
    ensures CacheAfter(src, before).fetched <= CacheAfter(src, before + more).fetched
  {
    var all := before + more;
    if more == [] {
      assert all == before;
    } else {
      var n := |more| - 1;
      FetchedGrows(src, before, more[..n]);
      assert all[..|all| - 1] == before + more[..n];
    }
  }
}
