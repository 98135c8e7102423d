/** Putting a database to sleep: everything its head can reach, and nothing else, goes to the bucket. */
module SleepClosure {
  import opened Substrate
  import opened Paging
  import opened Pool

  datatype SleepError =
    | SnapshotFailed(error: FlockError)
    | MissingManifest(manifest: Manifest)
    | MissingPage(page: PageId)
    | UploadFailed

  datatype WakeToken = WakeToken(head: Manifest, pageSize: nat)

  /** Resolving against a store: every manifest on the overlay chain has to be in it. */
  function ResolveIn(manifests: set<Manifest>, m: Manifest): Option<PageMap> {
    if m !in manifests then None else
    match m
    case Root(_) => Some(map[])
    case Full(pages, _, _) => Some(pages)
    case Overlay(base, _, changes, _) =>
      var below := ResolveIn(manifests, base);
      if below.None? then None else Some(ApplyChanges(below.value, changes))
  }

  /** The storage edges alone: what has to be there to resolve a manifest. */
  function Chain(m: Manifest): set<Manifest> {
    if m.Overlay? then {m} + Chain(m.base) else {m}
  }

  lemma {:induction false} ResolvesIffChain(manifests: set<Manifest>, m: Manifest)
    ensures ResolveIn(manifests, m).Some? <==> Chain(m) <= manifests
    ensures ResolveIn(manifests, m).Some? ==> ResolveIn(manifests, m).value == Resolve(m)
  {
    hide ApplyChanges;
    if m.Overlay? {
      ResolvesIffChain(manifests, m.base);
    }
  }

  lemma {:induction false} ChainIsAncestry(m: Manifest)
    ensures m in Chain(m) && Chain(m) <= Ancestry(m)
  {
    if m.Overlay? {
      ChainIsAncestry(m.base);
    }
  }

  /** The edges of the graph: the storage edge, then the history edge. */
  function Edges(m: Manifest): seq<Manifest> {
    match m
    case Root(_) => []
    case Full(_, parent, _) => [parent]
    case Overlay(base, parent, _, _) => [base, parent]
  }

  /** Everything reachable from a manifest, itself included. */
  function Ancestry(m: Manifest): set<Manifest> {
    match m
    case Root(_) => {m}
    case Full(_, parent, _) => {m} + Ancestry(parent)
    case Overlay(base, parent, _, _) => {m} + Ancestry(base) + Ancestry(parent)
  }

  /** Every page any of `ms` resolves to. */
  function PagesOfAll(ms: set<Manifest>): set<PageId> {
    set m, p | m in ms && p in Resolve(m).Keys :: Resolve(m)[p]
  }

  /** What a walk found: the manifests it staged and the pages they need. */
  datatype Closure = Closure(manifests: set<Manifest>, pages: set<PageId>)

  /** The worklist: a stack, a set of what has been seen, and the pages gathered so far. */
  method Walk(manifests: set<Manifest>, head: Manifest) returns (r: Result<Closure, SleepError>)
    ensures r.Ok? <==> Ancestry(head) <= manifests
    ensures r.Ok? ==> r.value == Reachable(head)
    ensures r.Err? ==>
      && r.error.MissingManifest? && r.error.manifest in Ancestry(head)
      && ResolveIn(manifests, r.error.manifest).None?
  {
    hide Ancestry, Chain, Resolve, ResolveIn;
    var seen: set<Manifest>, stack, pages: set<PageId> := {}, [head], {};
    HeadIsReachable(head);
    while stack != []
      invariant seen <= Ancestry(head) && forall m :: m in stack ==> m in Ancestry(head)
      invariant head in seen || head in stack
      invariant EdgesCovered(seen, stack)
      invariant seen <= manifests
      invariant pages == PagesOfAll(seen)
      decreases Ancestry(head) - seen, |stack|
    {
      var top := |stack| - 1;
      var id := stack[top];
      ghost var was := stack;
      stack := stack[..top];
      assert was == stack + [id];
      if id in seen {
        continue;
      }
      ChainIsReachable(head, id, manifests);
      ResolvesIffChain(manifests, id);
      ChainIsAncestry(id);
      var resolved := ResolveIn(manifests, id);
      if id !in manifests || resolved.None? {
        return Err(MissingManifest(id));
      }
      pages := pages + resolved.value.Values;
      OneMore(seen, id);
      EdgesAreReachable(head, id);
      ghost var unseen := Ancestry(head) - seen;
      seen := seen + {id};
      stack := stack + Edges(id);
      assert Ancestry(head) - seen < unseen by {
        assert id in unseen;
      }
    }
    ClosedIsAll(seen, head);
    return Ok(Closure(seen, pages));
  }

  ghost predicate EdgesCovered(seen: set<Manifest>, stack: seq<Manifest>) {
    forall m :: m in seen ==> forall e :: e in Edges(m) ==> e in seen || e in stack
  }

  lemma HeadIsReachable(head: Manifest)
    ensures head in Ancestry(head)
  {
  }

  lemma {:induction false} EdgesAreReachable(m: Manifest, a: Manifest)
    requires a in Ancestry(m)
    ensures forall e :: e in Edges(a) ==> e in Ancestry(m)
  {
    forall e | e in Edges(a) ensures e in Ancestry(m) {
      HeadIsReachable(e);
      if a != m {
        var next :| next in Edges(m) && a in Ancestry(next) && Ancestry(next) <= Ancestry(m) && (next < m);
        EdgesAreReachable(next, a);
      }
    }
  }

  lemma {:induction false} AncestryIsTransitive(m: Manifest, a: Manifest)
    requires a in Ancestry(m)
    ensures Ancestry(a) <= Ancestry(m)
  {
    if a != m {
      match m
      case Full(_, parent, _) => AncestryIsTransitive(parent, a);
      case Overlay(base, parent, _, _) =>
        if a in Ancestry(base) { AncestryIsTransitive(base, a); } else { AncestryIsTransitive(parent, a); }
    }
  }

  /** Every manifest of a head's history is reachable, and everything it resolves through. */
  lemma {:induction false} HistoryIsReachable(m: Manifest, a: Manifest)
    requires Descends(m, a)
    ensures a in Ancestry(m) && Chain(a) <= Ancestry(m)
  {
    if m == a {
      ChainIsAncestry(m);
    } else {
      HistoryIsReachable(m.parent, a);
    }
  }

  /** A set closed under both edges that contains the head contains everything reachable. */
  lemma {:induction false} ClosedIsAll(seen: set<Manifest>, m: Manifest)
    requires m in seen && EdgesCovered(seen, [])
    ensures Ancestry(m) <= seen
  {
    forall e | e in Edges(m) ensures e in seen {
    }
    match m
    case Root(_) =>
    case Full(_, parent, _) =>
      assert parent in Edges(m);
      ClosedIsAll(seen, parent);
    case Overlay(base, parent, _, _) =>
      assert Edges(m)[0] == base && Edges(m)[1] == parent;
      ClosedIsAll(seen, base);
      ClosedIsAll(seen, parent);
  }

  lemma OneMore(seen: set<Manifest>, id: Manifest)
    ensures PagesOfAll(seen + {id}) == PagesOfAll(seen) + Resolve(id).Values
  {
    hide Resolve;
    var all := PagesOfAll(seen + {id});
    forall page | page in Resolve(id).Values ensures page in all {
      var p :| p in Resolve(id) && Resolve(id)[p] == page;
    }
  }

  lemma AncestryResolves(manifests: set<Manifest>, m: Manifest)
    requires Ancestry(m) <= manifests
    ensures ResolveIn(manifests, m) == Some(Resolve(m))
  {
    hide Ancestry, Chain, ResolveIn, Resolve;
    ChainIsAncestry(m);
    ResolvesIffChain(manifests, m);
  }

  /** A reachable manifest resolves when everything reachable is there. */
  lemma ChainIsReachable(head: Manifest, id: Manifest, manifests: set<Manifest>)
    requires id in Ancestry(head)
    ensures Ancestry(head) <= manifests ==> id in manifests && ResolveIn(manifests, id).Some?
  {
    if Ancestry(head) <= manifests {
      AncestryIsTransitive(head, id);
      AncestryResolves(manifests, id);
    }
  }

  // ---- The bucket ----------------------------------------------------------------------------

  /** What a bucket holds. */
  datatype Contents = Contents(manifests: set<Manifest>, pages: Cas)

  class Bucket {
    var manifests: set<Manifest>
    var pages: Cas

    ghost function Holding(): Contents
      reads this
    {
      Contents(manifests, pages)
    }

    constructor ()
      ensures Holding() == Contents({}, map[])
    {
      manifests := {};
      pages := map[];
    }
  }

  /** The page files the walk asked for, copied one by one in no particular order. */
  method CopyPages(src: Cas, ids: set<PageId>) returns (r: Result<Cas, SleepError>)
    ensures r.Ok? <==> ids <= src.Keys
    ensures r.Ok? ==> r.value == map id | id in ids :: src[id]
    ensures r.Err? ==> r.error.MissingPage? && r.error.page in ids - src.Keys
  {
    var staged: Cas := map[];
    var rest := ids;
    while rest != {}
      invariant rest <= ids && ids - rest <= src.Keys
      invariant staged.Keys == ids - rest
      invariant forall id :: id in staged ==> staged[id] == src[id]
      decreases rest
    {
      var id :| id in rest;
      if id !in src {
        return Err(MissingPage(id));
      }
      staged := staged[id := src[id]];
      rest := rest - {id};
    }
    return Ok(staged);
  }

  /** The pages of `ids` that `cas` holds. */
  function Only(cas: Cas, ids: set<PageId>): Cas {
    map id | id in ids && id in cas :: cas[id]
  }

  /** The bucket once `sent` was uploaded from a pool's pages. */
  function Received(bucket: Contents, poolPages: Cas, sent: Closure): Contents {
    Contents(bucket.manifests + sent.manifests, bucket.pages + Only(poolPages, sent.pages))
  }

  /** Everything a head can reach, and the pages that takes. */
  function Reachable(head: Manifest): Closure {
    Closure(Ancestry(head), PagesOfAll(Ancestry(head)))
  }

  /** How the upload goes: the pages first, then the manifests. */
  datatype Upload =
    | Completes
    | StopsInPages(pages: set<PageId>)
    | StopsInManifests(manifests: set<Manifest>)

  /** What an upload of `closure` leaves in the bucket. */
  function Uploaded(upload: Upload, closure: Closure): Closure {
    match upload
    case Completes => closure
    case StopsInPages(pages) => Closure({}, closure.pages * pages)
    case StopsInManifests(manifests) => Closure(closure.manifests * manifests, closure.pages)
  }

  /** Snapshot, walk, stage a copy, upload the copy. The pool keeps everything it had. Nothing reaches
      the bucket unless the walk and the staging went through, and an upload that stops leaves what had
      been sent. */
  method Sleep(db: Db, bucket: Bucket, nowMs: nat, upload: Upload) returns (r: Result<WakeToken, SleepError>)
    requires db.Valid()
    modifies db.pool, db.pool.cas, db.store, bucket
    ensures db.Valid() && old(db.pool.cas.pages.Keys) <= db.pool.cas.pages.Keys
    ensures old(db.pool.manifests) <= db.pool.manifests
    ensures r.Err? && r.error.SnapshotFailed? <==>
      !Readable(old(db.pool.cas.pages), Resolve(old(db.store.head)), Chunks(db.file, db.pool.pageSize))
    ensures !(r.Err? && r.error.SnapshotFailed?) ==>
      (db.pool.OnDisk(), db.InMemory())
        == Snapshotted(old(db.pool.OnDisk()), db.pool.pageSize, db.name, old(db.InMemory()), nowMs)
    ensures !(r.Err? && r.error.SnapshotFailed?) ==>
      var reachable := Reachable(db.store.head);
      var complete := reachable.manifests <= db.pool.manifests && reachable.pages <= db.pool.cas.pages.Keys;
      && (r.Ok? <==> complete && upload.Completes?)
      && (r.Ok? ==> r.value == WakeToken(db.store.head, db.pool.pageSize))
      && (r == Err(UploadFailed) <==> complete && !upload.Completes?)
      && (complete ==>
            bucket.Holding() == Received(old(bucket.Holding()), db.pool.cas.pages, Uploaded(upload, reachable)))
    ensures r.Ok? ==>
      && bucket.manifests == old(bucket.manifests) + Ancestry(r.value.head)
      && bucket.pages.Keys == old(bucket.pages.Keys) + PagesOfAll(Ancestry(r.value.head))
      && (forall id :: id in PagesOfAll(Ancestry(r.value.head)) ==>
            id in db.pool.cas.pages && bucket.pages[id] == db.pool.cas.pages[id])
    ensures r == Err(UploadFailed) ==>
      && bucket.manifests == old(bucket.manifests) +
           (if upload.StopsInManifests? then Ancestry(db.store.head) * upload.manifests else {})
      && bucket.pages.Keys == old(bucket.pages.Keys) +
           (if upload.StopsInPages? then PagesOfAll(Ancestry(db.store.head)) * upload.pages
            else PagesOfAll(Ancestry(db.store.head)))
    ensures r.Err? && !r.error.UploadFailed? ==> bucket.Holding() == old(bucket.Holding())
  {
    hide Ancestry, PagesOfAll, Readable, Chunks, Resolve, Snapshotted, Only;
    var taken := db.Snapshot(nowMs);
    if taken.Err? {
      return Err(SnapshotFailed(taken.error));
    }
    var closure := Walk(db.pool.manifests, taken.value);
    if closure.Err? {
      return Err(closure.error);
    }
    var staged := CopyPages(db.pool.cas.pages, closure.value.pages);
    if staged.Err? {
      return Err(staged.error);
    }
    var sent := Uploaded(upload, closure.value);
    SentAreStaged(db.pool.cas.pages, staged.value, closure.value.pages, sent.pages);
    SentArrives(bucket.Holding(), db.pool.cas.pages, upload, taken.value);
    bucket.pages := bucket.pages + Only(staged.value, sent.pages);
    bucket.manifests := bucket.manifests + sent.manifests;
    return if upload.Completes? then Ok(WakeToken(taken.value, db.pool.pageSize)) else Err(UploadFailed);
  }

  lemma SentAreStaged(cas: Cas, staged: Cas, ids: set<PageId>, sent: set<PageId>)
    requires sent <= ids <= cas.Keys && staged == map id | id in ids :: cas[id]
    ensures Only(staged, sent) == Only(cas, sent)
  {
  }

  /** What that is: all of it, or nothing but some of the pages, or all the pages and some manifests. */
  lemma SentArrives(bucket: Contents, poolPages: Cas, upload: Upload, head: Manifest)
    requires PagesOfAll(Ancestry(head)) <= poolPages.Keys
    ensures var sent := Uploaded(upload, Reachable(head));
      var after := Received(bucket, poolPages, sent);
      && sent.pages <= PagesOfAll(Ancestry(head))
      && after.manifests == bucket.manifests +
           (if upload.Completes? then Ancestry(head)
            else if upload.StopsInManifests? then Ancestry(head) * upload.manifests else {})
      && after.pages.Keys == bucket.pages.Keys +
           (if upload.StopsInPages? then PagesOfAll(Ancestry(head)) * upload.pages else PagesOfAll(Ancestry(head)))
      && (forall id :: id in sent.pages ==> after.pages[id] == poolPages[id])
      && (upload.Completes? ==> sent.pages == PagesOfAll(Ancestry(head)))
  {
    hide Ancestry, PagesOfAll;
  }

  // ---- After a wake --------------------------------------------------------------------------

  /** A woken store is the bucket: the head and every ancestor id resolve there to the page map they
      had in the pool, every one of those pages is there, and each hydrates to the same bytes. */
  lemma WokenAncestryIsIntact(pool: set<Manifest>, poolPages: Cas, bucket: Contents, head: Manifest, id: Manifest,
                              pageSize: nat)
    requires Ancestry(head) <= pool && PagesOfAll(Ancestry(head)) <= poolPages.Keys
    requires Addressed(poolPages) && Addressed(bucket.pages)
    requires id in Ancestry(head)
    ensures var woken := Received(bucket, poolPages, Reachable(head));
      && ResolveIn(woken.manifests, id) == ResolveIn(pool, id) == Some(Resolve(id))
      && Stored(woken.pages, id) && Stored(poolPages, id)
      && Hydrated(woken.pages, id, pageSize) == Hydrated(poolPages, id, pageSize)
  {
    hide Ancestry, Resolve, ResolveIn, Hydrated;
    var woken := Received(bucket, poolPages, Reachable(head));
    AncestryIsTransitive(head, id);
    AncestryResolves(pool, id);
    AncestryResolves(woken.manifests, id);
    forall p | p in Resolve(id) ensures Resolve(id)[p] in woken.pages && Resolve(id)[p] in poolPages {
      assert Resolve(id)[p] in PagesOfAll(Ancestry(head));
    }
    assert Addressed(woken.pages);
    SameHydration(woken.pages, poolPages, id, pageSize);
  }

  lemma SameHydration(a: Cas, b: Cas, m: Manifest, pageSize: nat)
    requires Addressed(a) && Addressed(b) && Stored(a, m) && Stored(b, m)
    ensures Hydrated(a, m, pageSize) == Hydrated(b, m, pageSize)
  {
    hide Resolve, Ascending;
    SameKeys(a, b, m, Ascending(Resolve(m).Keys), pageSize);
  }

  lemma {:induction false} SameKeys(a: Cas, b: Cas, m: Manifest, keys: seq<PageNo>, pageSize: nat)
    requires Addressed(a) && Addressed(b) && Stored(a, m) && Stored(b, m)
    requires forall k :: k in keys ==> k in Resolve(m)
    ensures HydrateKeys(a, m, keys, pageSize) == HydrateKeys(b, m, keys, pageSize)
  {
    hide Resolve;
    if keys != [] {
      var n := |keys| - 1;
      SameKeys(a, b, m, keys[..n], pageSize);
      var id := Resolve(m)[keys[n]];
      assert HashPage(a[id]) == id == HashPage(b[id]);
    }
  }

  // ---- Sleep, then wake ----------------------------------------------------------------------

  datatype WakeError = NotInBucket(head: Manifest) | Unhydrated(error: KernelError)

  /** What a wake finds: the bucket, and the token's head. */
  function Woken(bucket: Contents, name: Name, head: Manifest): Disk {
    Disk(bucket.pages, bucket.manifests, map[name := head])
  }

  /** A store over the bucket at the token's head, and a scratch file hydrated from it. */
  method Wake(bucket: Bucket, name: Name, token: WakeToken) returns (r: Result<Db, WakeError>)
    requires 0 < token.pageSize && Addressed(bucket.pages)
    ensures var hydrated := Hydrated(bucket.pages, token.head, token.pageSize);
      && (r.Ok? <==> ResolveIn(bucket.manifests, token.head).Some? && hydrated.Ok?)
      && (r.Ok? ==>
            && fresh(r.value) && r.value.Valid() && r.value.name == name
            && r.value.pool.OnDisk() == Woken(bucket.Holding(), name, token.head)
            && r.value.pool.pageSize == token.pageSize
            && r.value.InMemory() == Session(token.head, FileOf(hydrated.value)))
  {
    hide Resolve, Hydrated, ResolveIn;
    if ResolveIn(bucket.manifests, token.head).None? {
      return Err(NotInBucket(token.head));
    }
    var pool := new PoolRoot(token.pageSize);
    pool.cas.pages := bucket.pages;
    pool.manifests := bucket.manifests;
    pool.heads := map[name := token.head];
    var store := new PageStore(token.pageSize, pool.cas, token.head);
    var hydrated := store.Hydrate(token.head);
    if hydrated.Err? {
      return Err(Unhydrated(hydrated.error));
    }
    var db := new Db(name, pool, store, FileOf(hydrated.value));
    return Ok(db);
  }

  lemma SnapshotIsFile(pageSize: nat, s: Session, nowMs: nat)
    requires 0 < pageSize
    ensures Resolve(NextHead(pageSize, s, nowMs)) == FileMap(Chunks(s.file, pageSize))
  {
    hide Chunks, Resolve, FileMap;
    PersistedHead(s.head, Chunks(s.file, pageSize), nowMs);
  }

  lemma SentIsAddressed(bucket: Contents, poolPages: Cas, sent: Closure)
    requires Addressed(bucket.pages) && Addressed(poolPages)
    ensures Addressed(Received(bucket, poolPages, sent).pages)
  {
  }

  /** A store with all of a head's history has the file the head is. */
  lemma SleptIsWhole(store: Contents, head: Manifest, file: Bytes, pageSize: nat)
    requires 0 < pageSize && Addressed(store.pages) && Resolve(head) == FileMap(Chunks(file, pageSize))
    requires Ancestry(head) <= store.manifests && PagesOfAll(Ancestry(head)) <= store.pages.Keys
    ensures ResolveIn(store.manifests, head).Some? && head in store.manifests
    ensures Hydrated(store.pages, head, pageSize).Ok?
    ensures FileOf(Hydrated(store.pages, head, pageSize).value) == file
  {
    hide Ancestry, Resolve, ResolveIn, Hydrated, FileMap, Chunks;
    HeadIsReachable(head);
    AncestryResolves(store.manifests, head);
    forall p | p in Resolve(head) ensures Resolve(head)[p] in store.pages {
      assert Resolve(head)[p] in PagesOfAll(Ancestry(head));
    }
    HydrateIsFile(store.pages, head, file, pageSize);
  }

  lemma RestoringKeeps(store: Contents, name: Name, head: Manifest, file: Bytes, pageSize: nat)
    requires head in store.manifests && Hydrated(store.pages, head, pageSize).Ok?
    requires FileOf(Hydrated(store.pages, head, pageSize).value) == file
    ensures Restored(Woken(store, name, head), pageSize, name, Session(head, file), head)
         == (Woken(store, name, head), Session(head, file), None)
  {
    hide Hydrated;
    assert map[name := head][name := head] == map[name := head];
  }

  /** The point of sleeping: whatever was in the database, snapshotted or not, is there after the wake,
      from the bucket alone, and restoring the token's head there keeps it. The only ways to fail are
      those of the snapshot and of a pool that has lost part of the head's history. */
  method SleepThenWake(db: Db, bucket: Bucket, name: Name, nowMs: nat) returns (r: Result<Db, SleepError>)
    requires db.Valid() && Addressed(bucket.pages)
    modifies db.pool, db.pool.cas, db.store, bucket
    ensures r.Ok? <==>
      && Readable(old(db.pool.cas.pages), Resolve(old(db.store.head)), Chunks(db.file, db.pool.pageSize))
      && Ancestry(db.store.head) <= db.pool.manifests
      && PagesOfAll(Ancestry(db.store.head)) <= db.pool.cas.pages.Keys
    ensures r.Ok? ==>
      && fresh(r.value) && r.value.Valid() && r.value.InMemory() == Session(db.store.head, old(db.file))
      && Restored(r.value.pool.OnDisk(), db.pool.pageSize, name, r.value.InMemory(), db.store.head)
           == (r.value.pool.OnDisk(), r.value.InMemory(), None)
  {
    hide Ancestry, PagesOfAll, Readable, Chunks, Resolve, Hydrated, FileMap, Restored, Received, NextHead, ResolveIn;
    var token := Sleep(db, bucket, nowMs, Completes);
    if token.Err? {
      return Err(token.error);
    }
    ghost var head, pageSize := token.value.head, db.pool.pageSize;
    SnapshotIsFile(pageSize, old(db.InMemory()), nowMs);
    SentIsAddressed(old(bucket.Holding()), db.pool.cas.pages, Reachable(head));
    SleptIsWhole(bucket.Holding(), head, db.file, pageSize);
    var woken := Wake(bucket, name, token.value);
    RestoringKeeps(bucket.Holding(), name, head, db.file, pageSize);
    return Ok(woken.value);
  }
}
