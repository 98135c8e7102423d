/** A pool: one shared content-addressed store, one private durable head per database, and the
    steps that open, write, snapshot, fork, restore and crash. */
module Pool {
  import opened Substrate
  import opened Paging

  type Name = string

  datatype FlockError =
    | NameTaken(name: Name)
    | UnknownSnapshot(manifest: Manifest)
    | Kernel(error: KernelError)

  /** What survives a crash: the shared pages and manifests, and for each database directory the
      head that recovery restores. */
  datatype Disk = Disk(pages: Cas, manifests: set<Manifest>, heads: map<Name, Manifest>)

  /** What an open handle holds in memory: its installed head and its scratch file. */
  datatype Session = Session(head: Manifest, file: Bytes)

  /** The bytes of a hydrated database; one with no pages is no file, which is no bytes. */
  function FileOf(hydrated: Option<Bytes>): Bytes {
    if hydrated.Some? then hydrated.value else []
  }

  function Filed(ids: set<PageId>): Cas {
    map id | id in ids :: id.content
  }

  function HeadOf(disk: Disk, pageSize: nat, name: Name): Manifest {
    if name in disk.heads then disk.heads[name] else Root(pageSize)
  }

  /** The manifest a snapshot of `s` commits. */
  function NextHead(pageSize: nat, s: Session, nowMs: nat): Manifest
    requires 0 < pageSize
  {
    CommitTo(s.head, Diff(Resolve(s.head), FileMap(Chunks(s.file, pageSize))), nowMs)
  }

  /** Recovery, then hydration of whatever head it found. */
  function Opened(disk: Disk, pageSize: nat, name: Name): (Disk, Result<Session, FlockError>) {
    var head := HeadOf(disk, pageSize, name);
    var disk' := disk.(heads := disk.heads[name := head], manifests := disk.manifests + {head});
    var file := Hydrated(disk.pages, head, pageSize);
    (disk', if file.Err? then Err(Kernel(file.error)) else Ok(Session(head, FileOf(file.value))))
  }

  /** Pages into the store, the commit record, the installed head. */
  function Snapshotted(disk: Disk, pageSize: nat, name: Name, s: Session, nowMs: nat): (Disk, Session)
    requires 0 < pageSize
  {
    var head := NextHead(pageSize, s, nowMs);
    (Disk(disk.pages + Filed(HashAll(Chunks(s.file, pageSize))), disk.manifests + {head}, disk.heads[name := head]),
     s.(head := head))
  }

  /** A fork snapshots its parent, then starts a directory of its own at that head. A directory that
      already exists is refused before anything happens. */
  function Forked(disk: Disk, pageSize: nat, name: Name, s: Session, fork: Name, nowMs: nat)
    : (Disk, Session, Result<Session, FlockError>)
    requires 0 < pageSize
  {
    if fork in disk.heads then (disk, s, Err(NameTaken(fork))) else
      var (disk', s') := Snapshotted(disk, pageSize, name, s, nowMs);
      var file := Hydrated(disk'.pages, s'.head, pageSize);
      (disk'.(heads := disk'.heads[fork := s'.head]), s',
       if file.Err? then Err(Kernel(file.error)) else Ok(Session(s'.head, FileOf(file.value))))
  }

  /** Moving the head comes before rebuilding the scratch file, and is durable even if that fails. */
  function Restored(disk: Disk, pageSize: nat, name: Name, s: Session, to: Manifest)
    : (Disk, Session, Option<FlockError>)
  {
    if to !in disk.manifests then (disk, s, Some(UnknownSnapshot(to))) else
      var disk' := disk.(heads := disk.heads[name := to]);
      var file := Hydrated(disk.pages, to, pageSize);
      if file.Err? then (disk', s.(head := to), Some(Kernel(file.error)))
      else (disk', Session(to, FileOf(file.value)), None)
  }

  // ---- The handles ---------------------------------------------------------------------------

  class PoolRoot {
    const pageSize: nat
    const cas: PageCas
    var manifests: set<Manifest>
    var heads: map<Name, Manifest>

    constructor (pageSize: nat)
      requires 0 < pageSize
      ensures this.pageSize == pageSize && fresh(cas)
      ensures OnDisk() == Disk(map[], {}, map[])
    {
      this.pageSize := pageSize;
      cas := new PageCas();
      manifests := {};
      heads := map[];
    }

    ghost function OnDisk(): Disk
      reads this, cas
    {
      Disk(cas.pages, manifests, heads)
    }
  }

  class Db {
    const name: Name
    const pool: PoolRoot
    const store: PageStore
    var file: Bytes

    ghost predicate Valid()
      reads this, pool, pool.cas
    {
      && store.cas == pool.cas && store.pageSize == pool.pageSize && 0 < pool.pageSize
      && Addressed(pool.cas.pages)
    }

    ghost function InMemory(): Session
      reads this, store
    {
      Session(store.head, file)
    }

    constructor (name: Name, pool: PoolRoot, store: PageStore, file: Bytes)
      ensures this.name == name && this.pool == pool && this.store == store && this.file == file
    {
      this.name := name;
      this.pool := pool;
      this.store := store;
      this.file := file;
    }

    method Execute(bytes: Bytes)
      modifies this
      ensures file == bytes
    {
      file := bytes;
    }

    /** A snapshot of a database whose head is all there never fails. */
    method Snapshot(nowMs: nat) returns (r: Result<Manifest, FlockError>)
      requires Valid()
      modifies pool, pool.cas, store
      ensures Valid() && old(pool.cas.pages.Keys) <= pool.cas.pages.Keys && old(pool.manifests) <= pool.manifests
      ensures r.Ok? <==>
        Readable(old(pool.cas.pages), Resolve(old(store.head)), Chunks(file, pool.pageSize))
      ensures r.Ok? ==>
        && (pool.OnDisk(), InMemory()) == Snapshotted(old(pool.OnDisk()), pool.pageSize, name, old(InMemory()), nowMs)
        && r.value == store.head
      ensures r.Err? ==>
        && r.error.Kernel?
        && InMemory() == old(InMemory()) && pool.heads == old(pool.heads) && pool.manifests == old(pool.manifests)
    {
      hide Resolve, Chunks, CommitTo, Diff, FileMap, Readable;
      var head := store.Persist(file, nowMs);
      if head.Err? {
        return Err(Kernel(head.error));
      }
      FiledIsAll(old(pool.cas.pages), pool.cas.pages, HashAll(Chunks(file, pool.pageSize)));
      pool.heads := pool.heads[name := head.value];
      pool.manifests := pool.manifests + {head.value};
      return Ok(head.value);
    }

    /** Fork under a new name, or refuse a name whose directory exists. The parent is snapshotted first;
        if that fails there is no directory, and nobody's head has moved. */
    method Fork(fork: Name, nowMs: nat) returns (r: Result<Db, FlockError>)
      requires Valid()
      modifies pool, pool.cas, store
      ensures Valid()
      ensures var readable := Readable(old(pool.cas.pages), Resolve(old(store.head)), Chunks(file, pool.pageSize));
        var (disk, s, forked) := Forked(old(pool.OnDisk()), pool.pageSize, name, old(InMemory()), fork, nowMs);
        fork in old(pool.heads) || readable ==>
          && pool.OnDisk() == disk && InMemory() == s
          && (r.Ok? <==> forked.Ok?)
          && (r.Ok? ==> fresh(r.value) && fresh(r.value.store) && r.value.Valid() && r.value.pool == pool
                        && r.value.name == fork && r.value.InMemory() == forked.value)
          && (r.Err? ==> r.error == forked.error)
      ensures var readable := Readable(old(pool.cas.pages), Resolve(old(store.head)), Chunks(file, pool.pageSize));
        fork !in old(pool.heads) && !readable ==>
          && r.Err? && r.error.Kernel?
          && InMemory() == old(InMemory()) && pool.heads == old(pool.heads) && pool.manifests == old(pool.manifests)
          && old(pool.cas.pages.Keys) <= pool.cas.pages.Keys
    {
      hide Resolve, Chunks, CommitTo, Diff, FileMap, Readable, Hydrated;
      if fork in pool.heads {
        return Err(NameTaken(fork));
      }
      var taken := Snapshot(nowMs);
      if taken.Err? {
        return Err(taken.error);
      }
      pool.heads := pool.heads[fork := taken.value];
      var forked := new PageStore(pool.pageSize, pool.cas, taken.value);
      var hydrated := forked.Hydrate(taken.value);
      if hydrated.Err? {
        return Err(Kernel(hydrated.error));
      }
      var db := new Db(fork, pool, forked, FileOf(hydrated.value));
      return Ok(db);
    }

    /** Go back to a manifest the pool has seen. */
    method Restore(to: Manifest) returns (r: Result<(), FlockError>)
      requires Valid()
      modifies pool, store, this
      ensures Valid()
      ensures var (disk, s, error) := Restored(old(pool.OnDisk()), pool.pageSize, name, old(InMemory()), to);
        && pool.OnDisk() == disk && InMemory() == s
        && r == if error.Some? then Err(error.value) else Ok(())
    {
      hide Resolve, Hydrated;
      if to !in pool.manifests {
        return Err(UnknownSnapshot(to));
      }
      store.head := to;
      pool.heads := pool.heads[name := to];
      var hydrated := store.Hydrate(to);
      if hydrated.Err? {
        return Err(Kernel(hydrated.error));
      }
      file := FileOf(hydrated.value);
      return Ok(());
    }
  }

  /** Recover the head first, then build the kernel over it. */
  method OpenDb(pool: PoolRoot, name: Name) returns (r: Result<Db, FlockError>)
    requires 0 < pool.pageSize && Addressed(pool.cas.pages)
    modifies pool
    ensures var (disk, found) := Opened(old(pool.OnDisk()), pool.pageSize, name);
      && pool.OnDisk() == disk
      && (r.Ok? <==> found.Ok?)
      && (r.Ok? ==> fresh(r.value) && fresh(r.value.store) && r.value.Valid() && r.value.pool == pool
                    && r.value.name == name && r.value.InMemory() == found.value)
      && (r.Err? ==> r.error == found.error)
  {
    hide Resolve, Hydrated;
    var head := if name in pool.heads then pool.heads[name] else Root(pool.pageSize);
    pool.heads := pool.heads[name := head];
    pool.manifests := pool.manifests + {head};
    var store := new PageStore(pool.pageSize, pool.cas, head);
    var hydrated := store.Hydrate(head);
    if hydrated.Err? {
      return Err(Kernel(hydrated.error));
    }
    var db := new Db(name, pool, store, FileOf(hydrated.value));
    return Ok(db);
  }

  // ---- When a head cannot be read ------------------------------------------------------------

  /** Opening fails when the recovered head cannot be hydrated, and by then the directory is there. */
  lemma OpenedUnreadable(disk: Disk, pageSize: nat, name: Name)
    ensures var head := if name in disk.heads then disk.heads[name] else Root(pageSize);
      var (disk', r) := Opened(disk, pageSize, name);
      && disk' == Disk(disk.pages, disk.manifests + {head}, disk.heads[name := head])
      && (r.Err? <==> Hydrated(disk.pages, head, pageSize).Err?)
      && (r.Err? ==> r.error == Kernel(Hydrated(disk.pages, head, pageSize).error))
  {
  }

  /** A known manifest that cannot be hydrated: the head has moved for good, the scratch file has not. */
  lemma RestoredUnreadable(disk: Disk, pageSize: nat, name: Name, s: Session, to: Manifest)
    requires to in disk.manifests && Hydrated(disk.pages, to, pageSize).Err?
    ensures Restored(disk, pageSize, name, s, to) ==
      (Disk(disk.pages, disk.manifests, disk.heads[name := to]), Session(to, s.file),
       Some(Kernel(Hydrated(disk.pages, to, pageSize).error)))
  {
  }

  lemma FiledIsAll(before: Cas, after: Cas, ids: set<PageId>)
    requires Addressed(before) && Addressed(after)
    requires before.Keys <= after.Keys <= before.Keys + ids && ids <= after.Keys
    ensures after == before + Filed(ids)
  {
    forall id | id in after ensures after[id] == (before + Filed(ids))[id] {
      assert HashPage(after[id]) == id;
      if id in before {
        assert HashPage(before[id]) == id;
      }
    }
  }
}
