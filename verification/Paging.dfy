/** The file <-> pages marshalling: chunk a file into pages and commit only what changed; put the
    pages back together into a file. */
module Paging {
  import opened Substrate
  import opened Arith

  datatype KernelError =
    | CorruptLayout(manifest: Manifest, pageNo: PageNo, expectedOffset: nat, actualOffset: nat)
    | Store(pageNo: PageNo)

  /** Consecutive pieces of `size` bytes, the last one shorter if the length is not a multiple. */
  function Chunks(bytes: Bytes, size: nat): (chunks: seq<Bytes>)
    requires 0 < size
    decreases |bytes|
  {
    if bytes == [] then []
    else if |bytes| <= size then [bytes]
    else [bytes[..size]] + Chunks(bytes[size..], size)
  }

  function Lookup(pages: PageMap, p: PageNo): Option<PageId> {
    if p in pages then Some(pages[p]) else None
  }

  /** The page map of a file: logical page `i` is its `i`th chunk. */
  function FileMap(chunks: seq<Bytes>): PageMap {
    map i | 0 <= i < |chunks| :: HashPage(chunks[i])
  }

  /** Exactly the pages that differ, and what they become. */
  function Diff(before: PageMap, after: PageMap): Changes {
    map p | p in before.Keys + after.Keys && Lookup(before, p) != Lookup(after, p) :: Lookup(after, p)
  }

  /** The pages below `n`. */
  function Kept(pages: PageMap, n: nat): PageMap {
    map p | p in pages && p < n :: pages[p]
  }

  /** `txn` with a removal for each of `keys` from number `end` on. */
  ghost function RemoveKeys(txn: Changes, keys: seq<PageNo>, end: nat): (r: Changes)
    ensures forall p :: p in r <==> p in txn || (p in keys && end <= p)
    ensures forall p :: p in r ==> r[p] == if p in keys && end <= p then None else txn[p]
  {
    if keys == [] then txn else
      var n := |keys| - 1;
      var r := RemoveKeys(txn, keys[..n], end);
      assert keys == keys[..n] + [keys[n]];
      if keys[n] >= end then r[keys[n] := None] else r
  }

  function HashAll(chunks: seq<Bytes>): set<PageId> {
    set i | 0 <= i < |chunks| :: HashPage(chunks[i])
  }

  ghost predicate Holds(cas: Cas, chunks: seq<Bytes>) {
    HashAll(chunks) <= cas.Keys
  }

  ghost predicate Climbs(keys: seq<nat>) {
    forall i, j :: 0 <= i < j < |keys| ==> keys[i] < keys[j]
  }

  /** The numbers below `n`, ascending. */
  function Range(n: nat): (r: seq<nat>)
    ensures |r| == n && forall i :: 0 <= i < n ==> r[i] == i
  {
    if n == 0 then [] else Range(n - 1) + [n - 1]
  }

  /** The first `i` pages, end to end, or the reason they cannot be. */
  function HydrateKeys(cas: Cas, m: Manifest, keys: seq<PageNo>, size: nat): Result<Bytes, KernelError>
    requires forall k :: k in keys ==> k in Resolve(m)
  {
    if keys == [] then Ok([]) else
      var n := |keys| - 1;
      match HydrateKeys(cas, m, keys[..n], size)
      case Err(e) => Err(e)
      case Ok(file) =>
        if |file| != keys[n] * size then Err(CorruptLayout(m, keys[n], keys[n] * size, |file|))
        else if Resolve(m)[keys[n]] !in cas then Err(Store(keys[n]))
        else Ok(file + cas[Resolve(m)[keys[n]]])
  }

  /** A hydrated database: no file at all for an empty one. */
  function Hydrated(cas: Cas, m: Manifest, size: nat): Result<Option<Bytes>, KernelError> {
    match HydrateKeys(cas, m, Ascending(Resolve(m).Keys), size)
    case Err(e) => Err(e)
    case Ok(file) => Ok(if file == [] then None else Some(file))
  }

  /** Page `i` of the head is missing from the store and no earlier chunk has just put it back. */
  ghost predicate Unreadable(cas: Cas, pages: PageMap, chunks: seq<Bytes>, i: nat) {
    && i < |chunks| && i in pages && pages[i] !in cas
    && forall j :: 0 <= j < i ==> HashPage(chunks[j]) != pages[i]
  }

  ghost predicate Readable(cas: Cas, pages: PageMap, chunks: seq<Bytes>) {
    forall i :: !Unreadable(cas, pages, chunks, i)
  }

  /** The content-addressed store of a pool. Every database in the pool shares it. */
  class PageCas {
    var pages: Cas

    constructor ()
      ensures pages == map[]
    {
      pages := map[];
    }

    /** Put a chunk in the store for every page of `resolved` that does not already hold it. */
    method StageChunks(resolved: PageMap, chunks: seq<Bytes>) returns (r: Result<Changes, KernelError>)
      requires Addressed(pages)
      modifies this
      ensures Addressed(pages) && old(pages.Keys) <= pages.Keys <= old(pages.Keys) + HashAll(chunks)
      ensures r.Ok? <==> Readable(old(pages), resolved, chunks)
      ensures r.Ok? ==> Holds(pages, chunks)
      ensures r.Ok? ==> r.value == Diff(Kept(resolved, |chunks|), FileMap(chunks))
    {
      hide Kept, Diff, FileMap, StagedUpTo;
      var txn: Changes := map[];
      NothingStaged(resolved, chunks);
      for i := 0 to |chunks|
        invariant Addressed(pages) && old(pages.Keys) <= pages.Keys
        invariant Holds(pages, chunks[..i])
        invariant forall id :: id in pages ==> id in old(pages) || id in HashAll(chunks[..i])
        invariant forall j :: 0 <= j < i ==> !Unreadable(old(pages), resolved, chunks, j)
        invariant txn == StagedUpTo(resolved, chunks, i)
      {
        StageNext(resolved, chunks, i);
        assert chunks[..i + 1] == chunks[..i] + [chunks[i]];
        UnreadableAt(old(pages), pages, resolved, chunks, i);
        if i in resolved {
          if resolved[i] !in pages {
            return Err(Store(i));
          }
          assert HashPage(pages[resolved[i]]) == resolved[i];
          if pages[resolved[i]] == chunks[i] {
            continue;
          }
        }
        pages := pages[HashPage(chunks[i]) := chunks[i]];
        txn := txn[i := Some(HashPage(chunks[i]))];
      }
      assert chunks[..|chunks|] == chunks;
      StagedIsDiff(resolved, chunks);
      return Ok(txn);
    }
  }

  /** One database's view of the shared store: a head of its own. */
  class PageStore {
    const pageSize: nat
    const cas: PageCas
    var head: Manifest

    constructor (pageSize: nat, cas: PageCas, head: Manifest)
      ensures this.pageSize == pageSize && this.cas == cas && this.head == head
    {
      this.pageSize := pageSize;
      this.cas := cas;
      this.head := head;
    }

    /** Pages to file. */
    method Hydrate(manifest: Manifest) returns (r: Result<Option<Bytes>, KernelError>)
      ensures r == Hydrated(cas.pages, manifest, pageSize)
    {
      var file := Assemble(manifest, Ascending(Resolve(manifest).Keys));
      if file.Err? {
        return Err(file.error);
      }
      return Ok(if file.value == [] then None else Some(file.value));
    }

    /** The pages of `keys`, end to end, refusing a hole in the numbering and a missing page. */
    method Assemble(manifest: Manifest, keys: seq<PageNo>) returns (r: Result<Bytes, KernelError>)
      requires forall k :: k in keys ==> k in Resolve(manifest)
      ensures r == HydrateKeys(cas.pages, manifest, keys, pageSize)
    {
      hide Resolve;
      var file: Bytes := [];
      for i := 0 to |keys|
        invariant HydrateKeys(cas.pages, manifest, keys[..i], pageSize) == Ok(file)
      {
        assert keys[..i + 1][..i] == keys[..i];
        var expected := keys[i] * pageSize;
        if |file| != expected {
          HydrateStopsAtError(cas.pages, manifest, keys, i + 1, pageSize);
          return Err(CorruptLayout(manifest, keys[i], expected, |file|));
        }
        var id := Resolve(manifest)[keys[i]];
        if id !in cas.pages {
          HydrateStopsAtError(cas.pages, manifest, keys, i + 1, pageSize);
          return Err(Store(keys[i]));
        }
        file := file + cas.pages[id];
      }
      assert keys[..|keys|] == keys;
      return Ok(file);
    }

    /** File to pages: stage the chunks that differ and remove every page past the new end, then
        commit. Nothing is staged for an unchanged page. */
    method Persist(bytes: Bytes, nowMs: nat) returns (r: Result<Manifest, KernelError>)
      requires 0 < pageSize
      requires Addressed(cas.pages)
      modifies this, cas
      ensures Addressed(cas.pages)
      ensures old(cas.pages.Keys) <= cas.pages.Keys <= old(cas.pages.Keys) + HashAll(Chunks(bytes, pageSize))
      ensures r.Ok? <==> Readable(old(cas.pages), Resolve(old(head)), Chunks(bytes, pageSize))
      ensures r.Err? ==> head == old(head)
      ensures r.Ok? ==> r.value == head
      ensures r.Ok? ==>
        head == CommitTo(old(head), Diff(Resolve(old(head)), FileMap(Chunks(bytes, pageSize))), nowMs)
      ensures r.Ok? ==> Resolve(head) == FileMap(Chunks(bytes, pageSize)) && Stored(cas.pages, head)
      ensures r.Ok? ==> Holds(cas.pages, Chunks(bytes, pageSize))
    {
      hide Ascending, Resolve, Chunks, RemoveKeys, CommitTo, Diff, FileMap;
      var resolved := Resolve(head);
      var chunks := Chunks(bytes, pageSize);
      var staged := cas.StageChunks(resolved, chunks);
      if staged.Err? {
        return Err(staged.error);
      }
      var keys := Ascending(resolved.Keys);
      var txn := StageRemovals(keys, |chunks|, staged.value);
      DiffSplits(resolved, chunks, keys);
      PersistedHead(head, chunks, nowMs);
      head := CommitTo(head, txn, nowMs);
      FileStored(cas.pages, chunks);
      return Ok(head);
    }
  }

  /** Add a removal for every one of `keys` from number `end` on. */
  method StageRemovals(keys: seq<PageNo>, end: nat, staged: Changes) returns (txn: Changes)
    ensures txn == RemoveKeys(staged, keys, end)
  {
    txn := staged;
    for k := 0 to |keys|
      invariant txn == RemoveKeys(staged, keys[..k], end)
    {
      assert keys[..k + 1][..k] == keys[..k];
      if keys[k] >= end {
        txn := txn[keys[k] := None];
      }
    }
    assert keys[..|keys|] == keys;
  }

  lemma DiffSplits(resolved: PageMap, chunks: seq<Bytes>, keys: seq<PageNo>)
    requires forall k :: k in keys <==> k in resolved
    ensures Diff(resolved, FileMap(chunks))
         == RemoveKeys(Diff(Kept(resolved, |chunks|), FileMap(chunks)), keys, |chunks|)
  {
    hide RemoveKeys;
  }

  /** The first `i` chunks that differ from the pages under their numbers. */
  function StagedUpTo(resolved: PageMap, chunks: seq<Bytes>, i: nat): Changes
    requires i <= |chunks|
  {
    map p | 0 <= p < i && Lookup(resolved, p) != Some(HashPage(chunks[p])) :: Some(HashPage(chunks[p]))
  }

  lemma NothingStaged(resolved: PageMap, chunks: seq<Bytes>)
    ensures StagedUpTo(resolved, chunks, 0) == map[]
  {
  }

  lemma StageNext(resolved: PageMap, chunks: seq<Bytes>, i: nat)
    requires i < |chunks|
    ensures var before := StagedUpTo(resolved, chunks, i);
      StagedUpTo(resolved, chunks, i + 1) ==
        if Lookup(resolved, i) == Some(HashPage(chunks[i])) then before
        else before[i := Some(HashPage(chunks[i]))]
  {
  }

  lemma StagedIsDiff(resolved: PageMap, chunks: seq<Bytes>)
    ensures StagedUpTo(resolved, chunks, |chunks|) == Diff(Kept(resolved, |chunks|), FileMap(chunks))
  {
  }

  lemma FileStored(cas: Cas, chunks: seq<Bytes>)
    requires Holds(cas, chunks)
    ensures forall p :: p in FileMap(chunks) ==> FileMap(chunks)[p] in cas
  {
    forall p | p in FileMap(chunks) ensures FileMap(chunks)[p] in cas {
      assert HashPage(chunks[p]) in HashAll(chunks);
    }
  }

  lemma UnreadableAt(before: Cas, now: Cas, resolved: PageMap, chunks: seq<Bytes>, i: nat)
    requires i < |chunks| && before.Keys <= now.Keys && Holds(now, chunks[..i])
    requires forall id :: id in now ==> id in before || id in HashAll(chunks[..i])
    ensures Unreadable(before, resolved, chunks, i) <==> i in resolved && resolved[i] !in now
  {
    if i in resolved && resolved[i] !in now {
      forall j | 0 <= j < i ensures HashPage(chunks[j]) != resolved[i] {
        assert chunks[..i][j] == chunks[j];
      }
    }
    if i in resolved && resolved[i] in now && resolved[i] !in before {
      var j :| 0 <= j < i && HashPage(chunks[..i][j]) == resolved[i];
      assert chunks[..i][j] == chunks[j];
    }
  }

  lemma {:induction false} HydrateStopsAtError(cas: Cas, m: Manifest, keys: seq<PageNo>, i: nat, size: nat)
    requires forall k :: k in keys ==> k in Resolve(m)
    requires i <= |keys| && HydrateKeys(cas, m, keys[..i], size).Err?
    ensures HydrateKeys(cas, m, keys, size) == HydrateKeys(cas, m, keys[..i], size)
  {
    if i == |keys| {
      assert keys[..i] == keys;
    } else {
      var n := |keys| - 1;
      assert keys[..n][..i] == keys[..i];
      HydrateStopsAtError(cas, m, keys[..n], i, size);
    }
  }

  // ---- The change set ------------------------------------------------------------------------

  /** Applying the difference gives the new map, and the difference is empty only between equals. */
  lemma DiffApplies(before: PageMap, after: PageMap)
    ensures ApplyChanges(before, Diff(before, after)) == after
    ensures Diff(before, after) == map[] <==> before == after
    ensures forall p :: p in Diff(before, after) <==> Lookup(before, p) != Lookup(after, p)
  {
    var applied := ApplyChanges(before, Diff(before, after));
    forall p ensures Lookup(applied, p) == Lookup(after, p) {
    }
    forall p ensures p in applied <==> p in after {
      assert Lookup(applied, p) == Lookup(after, p);
    }
    forall p | p in after ensures applied[p] == after[p] {
      assert Lookup(applied, p) == Lookup(after, p);
    }
    if Diff(before, after) == map[] {
      forall p ensures Lookup(before, p) == Lookup(after, p) {
        assert p !in Diff(before, after);
      }
      forall p ensures p in before <==> p in after {
        assert Lookup(before, p) == Lookup(after, p);
      }
      forall p | p in before ensures before[p] == after[p] {
        assert Lookup(before, p) == Lookup(after, p);
      }
    }
  }

  /** Whatever the store held before -- other pages, more of them, fewer -- after a persist the head
      is the file, and the head did not move exactly when it already was. */
  lemma PersistedHead(head: Manifest, chunks: seq<Bytes>, nowMs: nat)
    ensures var m := CommitTo(head, Diff(Resolve(head), FileMap(chunks)), nowMs);
      && Resolve(m) == FileMap(chunks)
      && (m == head <==> Resolve(head) == FileMap(chunks))
  {
    DiffApplies(Resolve(head), FileMap(chunks));
    CommitResolves(head, Diff(Resolve(head), FileMap(chunks)), nowMs);
    HigherThanHead(head, Diff(Resolve(head), FileMap(chunks)), nowMs);
  }

  lemma HigherThanHead(head: Manifest, changes: Changes, nowMs: nat)
    ensures Derive(head, changes, nowMs) != head
  {
    assert Height(Derive(head, changes, nowMs)) == Height(head) + 1;
  }

  // ---- Chunks --------------------------------------------------------------------------------

  lemma ChunksStep(bytes: Bytes, size: nat)
    requires 0 < size
    ensures |bytes| > size ==> Chunks(bytes, size) == [bytes[..size]] + Chunks(bytes[size..], size)
    ensures |bytes| <= size ==> Chunks(bytes, size) == if bytes == [] then [] else [bytes]
  {
  }

  lemma ShiftSlice(bytes: Bytes, skip: nat, from: nat, to: nat)
    requires from <= to && skip + to <= |bytes|
    ensures bytes[skip..][from..to] == bytes[skip + from..skip + to]
  {
  }

  /** Chunk `i` holds bytes `i * size` on: full, except that the last is whatever is left. */
  lemma ChunkAt(bytes: Bytes, size: nat, i: nat)
    requires 0 < size && i < |Chunks(bytes, size)|
    ensures i * size < |bytes|
    ensures Chunks(bytes, size)[i] == bytes[i * size..if i * size + size <= |bytes| then i * size + size else |bytes|]
    ensures i < |Chunks(bytes, size)| - 1 ==> i * size + size <= |bytes|
  {
    hide Chunks;
    ChunkFrom(bytes, size, i);
  }

  lemma {:induction false} ChunkFrom(bytes: Bytes, size: nat, i: nat)
    requires 0 < size && i < |Chunks(bytes, size)|
    ensures var from := Times(i, size);
      && from < |bytes|
      && Chunks(bytes, size)[i] == bytes[from..if from + size <= |bytes| then from + size else |bytes|]
      && (i < |Chunks(bytes, size)| - 1 ==> from + size <= |bytes|)
    decreases |bytes|
  {
    hide Chunks, Times;
    ChunksStep(bytes, size);
    TimesStep(i, size);
    if |bytes| <= size || i == 0 {
      assert bytes[..|bytes|] == bytes;
    } else {
      var rest := bytes[size..];
      ChunkFrom(rest, size, i - 1);
      TimesStep(i - 1, size);
      var from := Times(i - 1, size);
      ShiftSlice(bytes, size, from, if from + size <= |rest| then from + size else |rest|);
    }
  }

  lemma {:induction false} ChunkCount(bytes: Bytes, size: nat)
    requires 0 < size
    ensures |bytes| <= Times(|Chunks(bytes, size)|, size)
    ensures bytes != [] ==> Chunks(bytes, size) != [] && Times(|Chunks(bytes, size)| - 1, size) < |bytes|
    decreases |bytes|
  {
    hide Chunks, Times;
    ChunksStep(bytes, size);
    TimesStep(0, size);
    if |bytes| > size {
      ChunkCount(bytes[size..], size);
      TimesStep(|Chunks(bytes[size..], size)|, size);
      TimesStep(|Chunks(bytes[size..], size)| - 1, size);
    }
  }

  // ---- Round trip ----------------------------------------------------------------------------

  /** Where the first `i` chunks of a file end. */
  function ChunksEnd(bytes: Bytes, size: nat, i: nat): (end: nat)
    ensures end <= |bytes|
  {
    if i * size <= |bytes| then i * size else |bytes|
  }

  lemma ChunkExtends(bytes: Bytes, size: nat, i: nat)
    requires 0 < size && i < |Chunks(bytes, size)|
    ensures ChunksEnd(bytes, size, i) == i * size
    ensures bytes[..ChunksEnd(bytes, size, i + 1)] == bytes[..ChunksEnd(bytes, size, i)] + Chunks(bytes, size)[i]
  {
    hide Chunks;
    ChunkAt(bytes, size, i);
    MulStep(i, size);
    SliceJoins(bytes, i * size, ChunksEnd(bytes, size, i + 1));
  }

  lemma SliceJoins(bytes: Bytes, from: nat, to: nat)
    requires from <= to <= |bytes|
    ensures bytes[..to] == bytes[..from] + bytes[from..to]
  {
  }

  lemma HydrateSnoc(cas: Cas, m: Manifest, keys: seq<PageNo>, key: PageNo, size: nat, file: Bytes)
    requires forall k :: k in keys ==> k in Resolve(m)
    requires key in Resolve(m) && Resolve(m)[key] in cas
    requires HydrateKeys(cas, m, keys, size) == Ok(file) && |file| == key * size
    ensures HydrateKeys(cas, m, keys + [key], size) == Ok(file + cas[Resolve(m)[key]])
  {
    hide Resolve;
    var all := keys + [key];
    assert all[..|keys|] == keys && all[|keys|] == key;
  }

  /** Hydrating the first `i` pages of a file gives its first `i` chunks. */
  lemma {:induction false} HydrateChunks(cas: Cas, m: Manifest, bytes: Bytes, size: nat, i: nat)
    requires 0 < size && Addressed(cas)
    requires Resolve(m) == FileMap(Chunks(bytes, size)) && Stored(cas, m)
    requires i <= |Chunks(bytes, size)|
    ensures HydrateKeys(cas, m, Range(i), size) == Ok(bytes[..ChunksEnd(bytes, size, i)])
  {
    hide Chunks, Resolve, ChunksEnd, HydrateKeys;
    if i == 0 {
      NothingHydrated(cas, m, bytes, size);
    } else {
      HydrateChunks(cas, m, bytes, size, i - 1);
      ChunkExtends(bytes, size, i - 1);
      PageIsChunk(cas, m, Chunks(bytes, size), i - 1);
      HydrateSnoc(cas, m, Range(i - 1), i - 1, size, bytes[..ChunksEnd(bytes, size, i - 1)]);
    }
  }

  lemma NothingHydrated(cas: Cas, m: Manifest, bytes: Bytes, size: nat)
    ensures HydrateKeys(cas, m, Range(0), size) == Ok(bytes[..ChunksEnd(bytes, size, 0)])
  {
  }

  lemma PageIsChunk(cas: Cas, m: Manifest, chunks: seq<Bytes>, i: nat)
    requires Addressed(cas) && Resolve(m) == FileMap(chunks) && Stored(cas, m) && i < |chunks|
    ensures i in Resolve(m) && Resolve(m)[i] in cas && cas[Resolve(m)[i]] == chunks[i]
  {
    hide Resolve;
    assert HashPage(cas[Resolve(m)[i]]) == Resolve(m)[i];
  }

  lemma {:induction false} AscendingIsRange(keys: seq<nat>, n: nat)
    requires Climbs(keys)
    requires forall k :: k in keys <==> 0 <= k < n
    ensures keys == Range(n)
  {
    assert |keys| > 0 ==> keys[0] in keys;
    if n > 0 {
      assert n - 1 in keys;
      var last := |keys| - 1;
      var j :| 0 <= j < |keys| && keys[j] == n - 1;
      assert keys[last] in keys;
      assert keys == keys[..last] + [n - 1];
      forall k: nat | k in keys[..last] ensures k < n - 1 {
        assert k in keys;
      }
      forall k: nat | k < n - 1 ensures k in keys[..last] {
        assert k in keys;
      }
      AscendingIsRange(keys[..last], n - 1);
    }
  }

  /** A manifest that is a file hydrates to that file byte for byte, and an empty one to no file. */
  lemma HydrateIsFile(cas: Cas, m: Manifest, bytes: Bytes, size: nat)
    requires 0 < size && Addressed(cas)
    requires Resolve(m) == FileMap(Chunks(bytes, size)) && Stored(cas, m)
    ensures Hydrated(cas, m, size) == Ok(if bytes == [] then None else Some(bytes))
  {
    hide Ascending, Resolve, Chunks, Range, HydrateKeys;
    var n := |Chunks(bytes, size)|;
    AscendingIsRange(Ascending(Resolve(m).Keys), n);
    hide FileMap;
    HydrateChunks(cas, m, bytes, size, n);
    ChunkCount(bytes, size);
    assert ChunksEnd(bytes, size, n) == |bytes|;
    assert bytes[..|bytes|] == bytes;
  }

  // ---- When a manifest is a file -------------------------------------------------------------

  /** Every page is there, the first begins at zero, and each ends where the next begins. */
  ghost predicate Tiled(cas: Cas, pages: PageMap, keys: seq<PageNo>, size: nat)
    requires forall k :: k in keys ==> k in pages
  {
    && (forall i :: 0 <= i < |keys| ==> pages[keys[i]] in cas)
    && (|keys| > 0 ==> keys[0] * size == 0)
    && (forall i :: 0 <= i < |keys| - 1 ==> PageEnd(cas, pages, keys[i], size) == keys[i + 1] * size)
  }

  ghost function PageEnd(cas: Cas, pages: PageMap, p: PageNo, size: nat): nat
    requires p in pages && pages[p] in cas
  {
    p * size + |cas[pages[p]]|
  }

  lemma TiledSnoc(cas: Cas, pages: PageMap, keys: seq<PageNo>, key: PageNo, size: nat)
    requires forall k :: k in keys + [key] ==> k in pages
    ensures Tiled(cas, pages, keys + [key], size) <==>
      && (forall k :: k in keys ==> k in pages) && Tiled(cas, pages, keys, size)
      && pages[key] in cas
      && key * size == if keys == [] then 0 else PageEnd(cas, pages, keys[|keys| - 1], size)
  {
    hide PageEnd;
    var all := keys + [key];
    assert all[|keys|] == key;
    assert forall i :: 0 <= i < |keys| ==> all[i] == keys[i] && keys[i] in all;
    if Tiled(cas, pages, all, size) {
      forall i | 0 <= i < |keys| - 1 ensures PageEnd(cas, pages, keys[i], size) == keys[i + 1] * size {
        assert all[i] == keys[i] && all[i + 1] == keys[i + 1];
      }
      assert keys != [] ==> all[|keys| - 1 + 1] == key;
    }
  }

  /** Hydration succeeds exactly for a tiling, and the file then ends where its last page does. */
  lemma {:induction false} HydratesTiles(cas: Cas, m: Manifest, keys: seq<PageNo>, size: nat)
    requires forall k :: k in keys ==> k in Resolve(m)
    ensures HydrateKeys(cas, m, keys, size).Ok? <==> Tiled(cas, Resolve(m), keys, size)
    ensures HydrateKeys(cas, m, keys, size).Ok? ==>
      |HydrateKeys(cas, m, keys, size).value| ==
        if keys == [] then 0 else PageEnd(cas, Resolve(m), keys[|keys| - 1], size)
  {
    hide Resolve, Tiled;
    if keys == [] {
      NothingTiled(cas, Resolve(m), size);
    } else {
      var n := |keys| - 1;
      HydratesTiles(cas, m, keys[..n], size);
      assert keys == keys[..n] + [keys[n]];
      TiledSnoc(cas, Resolve(m), keys[..n], keys[n], size);
    }
  }

  lemma NothingTiled(cas: Cas, pages: PageMap, size: nat)
    ensures Tiled(cas, pages, [], size)
  {
  }

  /** Any manifest at all, whatever sizes its pages have, hydrates if and only if its pages are all
      there and lie end to end at their own numbers; anything else is refused, never concatenated with
      bytes missing. */
  lemma HydratesIff(cas: Cas, m: Manifest, size: nat)
    ensures Hydrated(cas, m, size).Ok? <==> Tiled(cas, Resolve(m), Ascending(Resolve(m).Keys), size)
  {
    hide Ascending, Resolve, HydrateKeys, Tiled;
    HydratesTiles(cas, m, Ascending(Resolve(m).Keys), size);
  }

  /** Pages numbered from zero without a hole, every one but the last full. */
  ghost predicate Contiguous(cas: Cas, pages: PageMap, size: nat) {
    && (forall p :: p in pages ==> pages[p] in cas)
    && (forall p :: p in pages && p > 0 ==> p - 1 in pages && |cas[pages[p - 1]]| == size)
  }

  /** No page is empty or larger than the page size. */
  ghost predicate Bounded(cas: Cas, pages: PageMap, size: nat) {
    forall p :: p in pages && pages[p] in cas ==> 0 < |cas[pages[p]]| <= size
  }

  /** When no page is empty or oversize, that is a contiguous layout. */
  lemma TiledIffContiguous(cas: Cas, m: Manifest, size: nat)
    requires 0 < size && Bounded(cas, Resolve(m), size)
    ensures Tiled(cas, Resolve(m), Ascending(Resolve(m).Keys), size) <==> Contiguous(cas, Resolve(m), size)
  {
    hide Ascending, Resolve, Contiguous, Numbered, Tiled, Bounded;
    var keys := Ascending(Resolve(m).Keys);
    if Tiled(cas, Resolve(m), keys, size) {
      TiledIsNumbered(cas, Resolve(m), keys, size);
      NumberedIsContiguous(cas, Resolve(m), keys, size);
    }
    if Contiguous(cas, Resolve(m), size) {
      ContiguousIsNumbered(cas, Resolve(m), keys, size);
      NumberedIsTiled(cas, Resolve(m), keys, size);
    }
  }

  /** Page `i` of the list is page number `i`, and all but the last are full. */
  ghost predicate Numbered(cas: Cas, pages: PageMap, keys: seq<PageNo>, size: nat)
    requires forall k :: k in keys ==> k in pages
  {
    && (forall i :: 0 <= i < |keys| ==> keys[i] == i && pages[keys[i]] in cas)
    && (forall i :: 0 <= i < |keys| - 1 ==> |cas[pages[keys[i]]]| == size)
  }

  lemma ContiguousIsNumbered(cas: Cas, pages: PageMap, keys: seq<PageNo>, size: nat)
    requires forall k :: k in keys <==> k in pages
    requires Climbs(keys)
    requires Contiguous(cas, pages, size)
    ensures Numbered(cas, pages, keys, size)
  {
    hide Climbs;
    ContiguousKeys(pages, keys, |keys|);
    forall i | 0 <= i < |keys| ensures keys[i] == i && pages[keys[i]] in cas {
      assert keys[i] in keys;
    }
    forall i | 0 <= i < |keys| - 1 ensures |cas[pages[keys[i]]]| == size {
      assert keys[i + 1] == i + 1 && keys[i + 1] in keys;
      assert i + 1 in pages && keys[i] == i;
    }
  }

  lemma NumberedIsContiguous(cas: Cas, pages: PageMap, keys: seq<PageNo>, size: nat)
    requires forall k :: k in keys <==> k in pages
    requires Numbered(cas, pages, keys, size)
    ensures Contiguous(cas, pages, size)
  {
    forall p | p in pages ensures p < |keys| && pages[p] in cas {
      assert p in keys;
    }
    forall p | p in pages && p > 0 ensures p - 1 in pages && |cas[pages[p - 1]]| == size {
      assert keys[p - 1] == p - 1 && p - 1 in keys;
    }
  }

  lemma {:induction false} ContiguousKeys(pages: PageMap, keys: seq<PageNo>, n: nat)
    requires forall p :: p in pages && p > 0 ==> p - 1 in pages
    requires forall k :: k in keys <==> k in pages
    requires Climbs(keys)
    requires n <= |keys|
    ensures forall i :: 0 <= i < n ==> keys[i] == i
  {
    if n > 0 {
      ContiguousKeys(pages, keys, n - 1);
      var k := keys[n - 1];
      assert k in keys;
      assert n > 1 ==> keys[n - 2] < k;
      if k > 0 {
        assert k - 1 in keys;
        var j :| 0 <= j < |keys| && keys[j] == k - 1;
        assert j < n - 1;
      }
    }
  }

  lemma {:induction false} TiledIsNumbered(cas: Cas, pages: PageMap, keys: seq<PageNo>, size: nat)
    requires 0 < size && Bounded(cas, pages, size)
    requires forall k :: k in keys ==> k in pages
    requires Tiled(cas, pages, keys, size)
    ensures Numbered(cas, pages, keys, size)
  {
    hide Tiled, Bounded;
    if keys != [] {
      var n := |keys| - 1;
      var front, key := keys[..n], keys[n];
      assert keys == front + [key];
      TiledSnoc(cas, pages, front, key, size);
      TiledIsNumbered(cas, pages, front, size);
      NextIsNumbered(cas, pages, front, key, size);
    }
  }

  lemma NextIsNumbered(cas: Cas, pages: PageMap, keys: seq<PageNo>, key: PageNo, size: nat)
    requires 0 < size && Bounded(cas, pages, size)
    requires forall k :: k in keys + [key] ==> k in pages
    requires (forall k :: k in keys ==> k in pages) && Numbered(cas, pages, keys, size)
    requires pages[key] in cas
    requires key * size == if keys == [] then 0 else PageEnd(cas, pages, keys[|keys| - 1], size)
    ensures Numbered(cas, pages, keys + [key], size)
  {
    var n := |keys|;
    if n > 0 {
      assert keys[n - 1] == n - 1;
      KeyIsIndex(key, n, |cas[pages[keys[n - 1]]]|, size);
    } else {
      KeyIsZero(key, size);
    }
    var all := keys + [key];
    forall i | 0 <= i < |all| ensures all[i] == i && pages[all[i]] in cas {
      assert i < n ==> all[i] == keys[i];
    }
    forall i | 0 <= i < |all| - 1 ensures |cas[pages[all[i]]]| == size {
      assert all[i] == keys[i] == i;
    }
  }

  lemma KeyIsZero(key: nat, size: nat)
    requires 0 < size && key * size == 0
    ensures key == 0
  {
    if key > 0 {
      MulGap(0, key, size);
    }
  }

  /** The page after a bounded one is the next one, and that one was full. */
  lemma KeyIsIndex(key: nat, n: nat, len: nat, size: nat)
    requires 0 < n && 0 < len <= size
    requires key * size == (n - 1) * size + len
    ensures key == n && len == size
  {
    MulStep(n - 1, size);
    if key < n {
      if key < n - 1 {
        MulGap(key, n - 1, size);
      }
    } else if key > n {
      MulGap(n, key, size);
    }
  }

  lemma NumberedIsTiled(cas: Cas, pages: PageMap, keys: seq<PageNo>, size: nat)
    requires forall k :: k in keys ==> k in pages
    requires Numbered(cas, pages, keys, size)
    ensures Tiled(cas, pages, keys, size)
  {
    forall i | 0 <= i < |keys| - 1 ensures PageEnd(cas, pages, keys[i], size) == keys[i + 1] * size {
      assert keys[i] == i && keys[i + 1] == i + 1;
      MulStep(i, size);
    }
  }

  // ---- Why hydration and persisting fail -----------------------------------------------------

  /** Page `keys[i]` is the first that does not lie where the file so far ends, or is not there. */
  ghost predicate BreaksAt(cas: Cas, m: Manifest, keys: seq<PageNo>, i: nat, size: nat, error: KernelError)
    requires forall k :: k in keys ==> k in Resolve(m)
  {
    && i < |keys| && Tiled(cas, Resolve(m), keys[..i], size)
    && var end := if i == 0 then 0 else PageEnd(cas, Resolve(m), keys[i - 1], size);
    if keys[i] * size != end then error == CorruptLayout(m, keys[i], keys[i] * size, end)
    else Resolve(m)[keys[i]] !in cas && error == Store(keys[i])
  }

  /** Hydrating stops at such a page, with its error. */
  lemma {:induction false} HydrateBreaksAt(cas: Cas, m: Manifest, keys: seq<PageNo>, size: nat) returns (i: nat)
    requires forall k :: k in keys ==> k in Resolve(m)
    requires HydrateKeys(cas, m, keys, size).Err?
    ensures BreaksAt(cas, m, keys, i, size, HydrateKeys(cas, m, keys, size).error)
  {
    hide Resolve, Tiled;
    var n := |keys| - 1;
    if HydrateKeys(cas, m, keys[..n], size).Err? {
      i := HydrateBreaksAt(cas, m, keys[..n], size);
      assert keys[..n][..i] == keys[..i];
    } else {
      i := n;
      HydratesTiles(cas, m, keys[..n], size);
    }
  }

  /** Exactly which refusals a persist makes: a page of the head that has to be compared is not in the
      store, and no chunk before it has just put the same bytes back. */
  lemma ReadableIff(cas: Cas, pages: PageMap, chunks: seq<Bytes>)
    ensures Readable(cas, pages, chunks) <==>
      forall i :: 0 <= i < |chunks| && i in pages ==> pages[i] in cas || pages[i] in HashAll(chunks[..i])
  {
    if Readable(cas, pages, chunks) {
      forall i | 0 <= i < |chunks| && i in pages ensures pages[i] in cas || pages[i] in HashAll(chunks[..i]) {
        assert !Unreadable(cas, pages, chunks, i);
        if pages[i] !in cas {
          var j :| 0 <= j < i && HashPage(chunks[j]) == pages[i];
          assert chunks[..i][j] == chunks[j];
        }
      }
    } else {
      var i: nat :| Unreadable(cas, pages, chunks, i);
      assert pages[i] !in HashAll(chunks[..i]);
    }
  }
}
