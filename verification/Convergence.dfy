/** A follower equals the primary: when a shipment is accepted and when it is refused, where catching
    up and restoring end, and for which followers. */
module Convergence {
  import opened Substrate
  import opened WalFrames
  import opened WalReader
  import opened WalSource
  import opened LogHistory
  import opened Replica

  // ---- When a shipment is accepted ---------------------------------------------------------

  /** The change set a list of writes amounts to: the last writer of each page wins. */
  function LastWriter(writes: seq<PageWrite>): Changes {
    if writes == [] then map[] else
      var n := |writes| - 1;
      LastWriter(writes[..n])[writes[n].pageNo := writes[n].page]
  }

  /** The last write to a page is what counts, and pages not written are not changed. */
  lemma {:induction false} LastWriterIs(writes: seq<PageWrite>, i: nat, p: PageNo)
    ensures i < |writes| && writes[i].pageNo == p && (forall j :: i < j < |writes| ==> writes[j].pageNo != p) ==>
      p in LastWriter(writes) && LastWriter(writes)[p] == writes[i].page
    ensures (forall j :: 0 <= j < |writes| ==> writes[j].pageNo != p) ==> p !in LastWriter(writes)
  {
    if writes != [] {
      var n := |writes| - 1;
      LastWriterIs(writes[..n], i, p);
    }
  }

  /** Every page the writes set comes with bytes that hash to the id claimed for them. */
  predicate Intact(s: Shipment, writes: seq<PageWrite>) {
    forall w :: w in writes ==> Backed(s, w)
  }

  predicate Backed(s: Shipment, w: PageWrite) {
    w.page.Some? ==>
      && s.BytesFor(w.page.value).Some?
      && HashPage(s.BytesFor(w.page.value).value) == w.page.value
  }

  ghost predicate Resident(cas: Cas, txn: Changes) {
    forall p :: p in txn && txn[p].Some? ==> txn[p].value in cas
  }

  lemma StageOneMeaning(pages: Cas, txn: Changes, s: Shipment, w: PageWrite)
    requires Addressed(pages) && Resident(pages, txn)
    ensures var st := StageOne(pages, txn, s, w);
      && Addressed(st.pages) && pages.Keys <= st.pages.Keys
      && (st.Staged? <==> Backed(s, w))
      && (st.Staged? ==> st.txn == txn[w.pageNo := w.page] && Resident(st.pages, st.txn))
      && (st.Refused? ==> st.error.MissingPage? || st.error.PageHashMismatch?)
  {
  }

  lemma {:induction false} StageMeaning(pages: Cas, s: Shipment, i: nat)
    requires i <= |s.writes| && Addressed(pages)
    ensures var st := Stage(pages, s, i);
      && Addressed(st.pages) && pages.Keys <= st.pages.Keys
      && (st.Staged? <==> Intact(s, s.writes[..i]))
      && (st.Staged? ==> st.txn == LastWriter(s.writes[..i]) && Resident(st.pages, st.txn))
      && (st.Refused? ==> st.error.MissingPage? || st.error.PageHashMismatch?)
  {
    hide StageOne, Addressed, Resident, Backed;
    if i > 0 {
      StageMeaning(pages, s, i - 1);
      var before := Stage(pages, s, i - 1);
      if before.Staged? {
        StageOneMeaning(before.pages, before.txn, s, s.writes[i - 1]);
      }
      assert s.writes[..i][..i - 1] == s.writes[..i - 1];
      assert s.writes[..i] == s.writes[..i - 1] + [s.writes[i - 1]];
    } else {
      NothingStaged(pages);
    }
  }

  lemma NothingStaged(pages: Cas)
    ensures Resident(pages, map[])
  {
  }

  /** The first write whose page does not come with bytes of its hash. */
  predicate FirstUnbacked(s: Shipment, i: nat) {
    i < |s.writes| && !Backed(s, s.writes[i]) && Intact(s, s.writes[..i])
  }

  /** No blob is carried for it, or one with the wrong bytes. */
  predicate IsAbsent(s: Shipment, i: nat)
    requires FirstUnbacked(s, i)
  {
    s.BytesFor(s.writes[i].page.value).None?
  }

  function Refusal(s: Shipment, i: nat): SyncError
    requires FirstUnbacked(s, i)
  {
    var w := s.writes[i];
    if IsAbsent(s, i) then MissingPage(s.commitLsn, w.pageNo, w.page.value)
    else PageHashMismatch(w.pageNo, w.page.value, HashPage(s.BytesFor(w.page.value).value))
  }

  lemma {:induction false} StageRefuses(pages: Cas, s: Shipment, i: nat, k: nat)
    requires k < i <= |s.writes| && Addressed(pages) && FirstUnbacked(s, k)
    ensures Stage(pages, s, i).Refused? && Stage(pages, s, i).error == Refusal(s, k)
  {
    if k < i - 1 {
      StageRefuses(pages, s, i - 1, k);
    } else {
      StageMeaning(pages, s, k);
    }
  }

  lemma {:induction false} SomeIsFirst(s: Shipment, n: nat) returns (k: nat)
    requires n <= |s.writes| && !Intact(s, s.writes[..n])
    ensures k < n && FirstUnbacked(s, k)
  {
    hide Backed;
    assert s.writes[..n] == s.writes[..n - 1] + [s.writes[n - 1]];
    if Intact(s, s.writes[..n - 1]) {
      k := n - 1;
    } else {
      k := SomeIsFirst(s, n - 1);
    }
  }

  /** Exactly when a shipment advances the follower, and what every other outcome leaves behind.
      A gap, an absent blob or wrong bytes is refused with the head where it was, and it is the first
      write that is not backed that decides which; a divergence is noticed only after the commit, so the
      head has moved to a manifest nobody shipped. */
  lemma ApplyOutcome(f: Follower, s: Shipment)
    requires Addressed(f.pages)
    ensures var step := ApplyTo(f, s);
      var derived := CommitTo(f.head, LastWriter(s.writes), s.createdAtMs);
      var follows := f.head != s.manifest && f.head == s.base;
      && (step.result == Ok(AlreadyPresent) <==> f.head == s.manifest)
      && (step.result == Ok(Advanced) <==> follows && Intact(s, s.writes) && derived == s.manifest)
      && (step.result == Err(OutOfOrder(s.commitLsn, s.base, f.head)) <==> f.head != s.manifest && f.head != s.base)
      && (step.result == Err(Diverged(s.commitLsn, s.manifest, derived))
          <==> follows && Intact(s, s.writes) && derived != s.manifest)
      && (step.result.Err? && step.result.error.MissingPage?
          <==> follows && exists k :: FirstUnbacked(s, k) && IsAbsent(s, k))
      && (step.result.Err? && step.result.error.PageHashMismatch?
          <==> follows && exists k :: FirstUnbacked(s, k) && !IsAbsent(s, k))
      && (forall k :: follows && FirstUnbacked(s, k) ==> step.result == Err(Refusal(s, k)))
      && (Intact(s, s.writes) <==> forall k :: !FirstUnbacked(s, k))
      && step.follower.head == (if follows && Intact(s, s.writes) then derived else f.head)
  {
    hide Backed;
    var n := |s.writes|;
    StageMeaning(f.pages, s, n);
    assert s.writes[..n] == s.writes;
    forall k | FirstUnbacked(s, k)
      ensures Stage(f.pages, s, n).Refused? && Stage(f.pages, s, n).error == Refusal(s, k)
    {
      StageRefuses(f.pages, s, n, k);
    }
    if !Intact(s, s.writes) {
      var k := SomeIsFirst(s, n);
    }
  }

  /** The position a follower remembers: the highest of what it had and what a repeat tells it, the
      commit it advanced to, and nothing new from a refusal. */
  lemma AppliedLsnIs(f: Follower, s: Shipment)
    ensures var step := ApplyTo(f, s);
      var now := step.follower.appliedLsn;
      && (step.result == Ok(AlreadyPresent) ==>
            && step.follower == f.(appliedLsn := now) && now.Some? && s.commitLsn <= now.value
            && (f.appliedLsn.Some? ==> f.appliedLsn.value <= now.value)
            && (now == f.appliedLsn || now.value == s.commitLsn))
      && (step.result == Ok(Advanced) ==> now == Some(s.commitLsn))
      && (step.result.Err? ==> now == f.appliedLsn)
      && (step.result.Err? && step.result.error.OutOfOrder? ==> step.follower == f)
  {
    hide Stage, CommitTo;
    if f.head != s.manifest && f.head == s.base {
      StageErrors(f.pages, s, |s.writes|);
    }
  }

  lemma {:induction false} StageErrors(pages: Cas, s: Shipment, i: nat)
    requires i <= |s.writes|
    ensures Stage(pages, s, i).Refused? ==>
      Stage(pages, s, i).error.MissingPage? || Stage(pages, s, i).error.PageHashMismatch?
  {
    if i > 0 {
      StageErrors(pages, s, i - 1);
    }
  }

  /** Pages staged before a refusal stay in the store. */
  lemma StagedPagesStay(f: Follower, s: Shipment, k: nat)
    requires Addressed(f.pages) && f.head != s.manifest && f.head == s.base
    requires k < |s.writes| && Intact(s, s.writes[..k + 1]) && s.writes[k].page.Some?
    ensures s.writes[k].page.value in ApplyTo(f, s).follower.pages
  {
    hide Intact, Addressed, Resident, CommitTo, StageOne;
    StageMeaning(f.pages, s, k + 1);
    LastWriterIs(s.writes[..k + 1], k, s.writes[k].pageNo);
    ResidentHas(Stage(f.pages, s, k + 1).pages, LastWriter(s.writes[..k + 1]), s.writes[k].pageNo);
    StageGrows(f.pages, s, k + 1, |s.writes|);
  }

  lemma ResidentHas(cas: Cas, txn: Changes, p: PageNo)
    requires Resident(cas, txn) && p in txn && txn[p].Some?
    ensures txn[p].value in cas
  {
  }

  lemma {:induction false} StageGrows(pages: Cas, s: Shipment, i: nat, j: nat)
    requires i <= j <= |s.writes|
    ensures Stage(pages, s, i).pages.Keys <= Stage(pages, s, j).pages.Keys
  {
    if i < j {
      StageGrows(pages, s, i, j - 1);
    }
  }

  /** Whatever is delivered, pages are only ever added and only under their own names, and the head
      only ever moves to a descendant of itself, all of whose pages are there if they were before. */
  lemma ApplyKeepsStore(f: Follower, s: Shipment)
    requires Addressed(f.pages)
    ensures var f' := ApplyTo(f, s).follower;
      && Addressed(f'.pages)
      && (forall id :: id in f.pages ==> id in f'.pages)
      && Descends(f'.head, f.head)
      && (Stored(f.pages, f.head) ==> Stored(f'.pages, f'.head))
  {
    StageMeaning(f.pages, s, |s.writes|);
    var st := Stage(f.pages, s, |s.writes|);
    if st.Staged? {
      CommitResolves(f.head, st.txn, s.createdAtMs);
    }
  }

  // ---- Where a run of shipments stops ------------------------------------------------------

  /** What the `i`th shipment meets, after those before it. */
  function ResultAt(f: Follower, ss: seq<Shipment>, i: nat): Result<Applied, SyncError>
    requires i < |ss|
  {
    ApplyTo(ApplyAll(f, ss[..i]).follower, ss[i]).result
  }

  /** The first shipment that is refused. */
  predicate StopsAt(f: Follower, ss: seq<Shipment>, i: nat, error: SyncError) {
    i < |ss| && ResultAt(f, ss, i) == Err(error) && AllTaken(f, ss, i)
  }

  predicate AllTaken(f: Follower, ss: seq<Shipment>, n: nat)
    requires n <= |ss|
  {
    forall i :: 0 <= i < n ==> ResultAt(f, ss, i).Ok?
  }

  /** The shipments among the first `n` that moved the head. */
  function Advances(f: Follower, ss: seq<Shipment>, n: nat): set<nat>
    requires n <= |ss|
  {
    set i: nat | i < n && ResultAt(f, ss, i) == Ok(Advanced)
  }

  lemma {:induction false} ApplyAllFront(f: Follower, ss: seq<Shipment>)
    requires ss != []
    ensures var n := |ss| - 1;
      && (forall i :: 0 <= i < n ==> ResultAt(f, ss, i) == ResultAt(f, ss[..n], i))
      && AllTaken(f, ss, n) == AllTaken(f, ss[..n], n)
      && Advances(f, ss, n) == Advances(f, ss[..n], n)
  {
    hide ApplyTo, ApplyAll;
    var n := |ss| - 1;
    forall i | 0 <= i < n ensures ResultAt(f, ss, i) == ResultAt(f, ss[..n], i) {
      assert ss[..n][..i] == ss[..i];
    }
  }

  /** What the last shipment adds. */
  lemma {:induction false} ApplyAllLast(f: Follower, ss: seq<Shipment>)
    requires ss != []
    ensures var n := |ss| - 1;
      var p, q, last := ApplyAll(f, ss[..n]), ApplyAll(f, ss), ResultAt(f, ss, n);
      && q.error == (if p.error.Some? then p.error else if last.Err? then Some(last.error) else None)
      && q.advanced == p.advanced + (if p.error.None? && last == Ok(Advanced) then 1 else 0)
  {
    hide ApplyTo;
  }

  lemma AllTakenNext(f: Follower, ss: seq<Shipment>, n: nat)
    requires n < |ss|
    ensures AllTaken(f, ss, n + 1) <==> AllTaken(f, ss, n) && ResultAt(f, ss, n).Ok?
    ensures |Advances(f, ss, n + 1)| == |Advances(f, ss, n)| + (if ResultAt(f, ss, n) == Ok(Advanced) then 1 else 0)
  {
    hide ResultAt;
    assert Advances(f, ss, n + 1) == Advances(f, ss, n) + (if ResultAt(f, ss, n) == Ok(Advanced) then {n} else {});
  }

  lemma NothingTaken(f: Follower)
    ensures ApplyAll(f, []) == Progress(f, 0, None) && AllTaken(f, [], 0) && Advances(f, [], 0) == {}
  {
  }

  /** All of them go through, and the count is of those that moved the head; or the first that is
      refused decides the error, the count, and where the follower is left. */
  lemma {:induction false} ApplyAllMeaning(f: Follower, ss: seq<Shipment>)
    ensures var p := ApplyAll(f, ss);
      && (p.error.None? <==> AllTaken(f, ss, |ss|))
      && (p.error.None? ==> p.advanced == |Advances(f, ss, |ss|)|)
      && (p.error.Some? ==> exists i: nat :: StopsAt(f, ss, i, p.error.value))
  {
    hide ApplyTo, ApplyAll, ResultAt, AllTaken, Advances;
    if ss == [] {
      NothingTaken(f);
    } else {
      var n := |ss| - 1;
      ApplyAllMeaning(f, ss[..n]);
      ApplyAllFront(f, ss);
      ApplyAllLast(f, ss);
      AllTakenNext(f, ss, n);
      var p := ApplyAll(f, ss[..n]);
      if p.error.Some? {
        var i: nat :| StopsAt(f, ss[..n], i, p.error.value);
        StopsInFront(f, ss, i, p.error.value);
      } else if ResultAt(f, ss, n).Err? {
        assert StopsAt(f, ss, n, ResultAt(f, ss, n).error);
      }
    }
  }

  lemma StopsInFront(f: Follower, ss: seq<Shipment>, i: nat, error: SyncError)
    requires ss != [] && StopsAt(f, ss[..|ss| - 1], i, error)
    ensures StopsAt(f, ss, i, error)
  {
    hide ResultAt;
    ApplyAllFront(f, ss);
  }

  lemma StopsOnce(f: Follower, ss: seq<Shipment>, i: nat, a: SyncError, j: nat, b: SyncError)
    requires StopsAt(f, ss, i, a) && StopsAt(f, ss, j, b)
    ensures i == j && a == b
  {
    hide ResultAt;
  }

  /** Against any source: once there is something to apply, catching up is refused exactly when some
      shipment is, and restoring exactly when that one is at or below the target -- with that
      shipment's own error. Otherwise catching up returns how many moved the head. */
  lemma RefusalIsReported(f: Follower, src: Source, target: Lsn, e: SyncError)
    requires Progresses(src.codec) && Missing(src, f.head).Ok?
    ensures var ss := Missing(src, f.head).value;
      var wanted := UpTo(ss, target);
      && (CatchUpFrom(f, src).Outcome() == Err(e) <==> exists i: nat :: StopsAt(f, ss, i, e))
      && (CatchUpFrom(f, src).Outcome().Ok? ==> CatchUpFrom(f, src).Outcome().value == |Advances(f, ss, |ss|)|)
      && (RestoreFrom(f, src, target).error == Some(e) <==> exists i: nat :: StopsAt(f, wanted, i, e))
  {
    hide ApplyAll, UpTo, Missing, StopsAt;
    var ss := Missing(src, f.head).value;
    RefusedAt(f, ss, e);
    RefusedAt(f, UpTo(ss, target), e);
    assert RestoreFrom(f, src, target) == ApplyAll(f, UpTo(ss, target));
    ApplyAllMeaning(f, ss);
  }

  lemma RefusedAt(f: Follower, ss: seq<Shipment>, e: SyncError)
    ensures ApplyAll(f, ss).error == Some(e) <==> exists i: nat :: StopsAt(f, ss, i, e)
  {
    hide ApplyAll, ResultAt;
    ApplyAllMeaning(f, ss);
    if i: nat :| StopsAt(f, ss, i, e) {
      assert !AllTaken(f, ss, |ss|);
      var j: nat :| StopsAt(f, ss, j, ApplyAll(f, ss).error.value);
      StopsOnce(f, ss, i, e, j, ApplyAll(f, ss).error.value);
    }
  }

  // ---- What the primary ships --------------------------------------------------------------

  /** A commit whose pages are all in the store. */
  ghost predicate Available(cas: Cas, c: LoggedCommit) {
    forall p :: p in c.changes && c.changes[p].Some? ==> c.changes[p].value in cas
  }

  /** A commit as an honest primary logs it, with its pages still in the primary's store. */
  ghost predicate Sound(cas: Cas, c: LoggedCommit) {
    Genuine(c) && Available(cas, c)
  }

  lemma {:induction false} FindBlobSnoc(blobs: seq<PageBlob>, b: PageBlob, id: PageId)
    ensures FindBlob(blobs + [b], id) ==
      if FindBlob(blobs, id).Some? then FindBlob(blobs, id)
      else if b.id == id then Some(b.bytes) else None
  {
    if blobs != [] {
      FindBlobSnoc(blobs[1..], b, id);
      assert (blobs + [b])[1..] == blobs[1..] + [b];
    }
  }

  ghost predicate Carries(cas: Cas, changes: Changes, keys: seq<PageNo>, parcel: Parcel) {
    && |parcel.writes| == |keys|
    && (forall i :: 0 <= i < |keys| ==>
          keys[i] in changes && parcel.writes[i] == PageWrite(keys[i], changes[keys[i]]))
    && (forall id :: FindBlob(parcel.blobs, id).Some? ==> id in cas && FindBlob(parcel.blobs, id).value == cas[id])
    && (forall i :: 0 <= i < |keys| && changes[keys[i]].Some? ==> FindBlob(parcel.blobs, changes[keys[i]].value).Some?)
  }

  /** A shipment can be built exactly when every page it sets is in the store, and then it carries
      each change once, in page order, and the store's bytes for every page it sets. */
  lemma {:induction false} AssembleMeaning(cas: Cas, changes: Changes, keys: seq<PageNo>, lsn: Lsn)
    requires forall k :: k in keys ==> k in changes
    ensures var r := Assemble(cas, changes, keys, lsn);
      && (r.Ok? <==> forall k :: k in keys && changes[k].Some? ==> changes[k].value in cas)
      && (r.Ok? ==> Carries(cas, changes, keys, r.value))
  {
    if keys != [] {
      var n := |keys| - 1;
      AssembleMeaning(cas, changes, keys[..n], lsn);
      assert keys == keys[..n] + [keys[n]];
      var front := Assemble(cas, changes, keys[..n], lsn);
      var page := changes[keys[n]];
      if front.Ok? && page.Some? && page.value in cas {
        forall id {
          FindBlobSnoc(front.value.blobs, PageBlob(page.value, cas[page.value]), id);
        }
      }
    }
  }

  ghost predicate EachOnce(blobs: seq<PageBlob>) {
    forall i, j :: 0 <= i < j < |blobs| ==> blobs[i].id != blobs[j].id
  }

  /** However many pages share some content, it is carried once. */
  lemma {:induction false} AssembleCarriesOnce(cas: Cas, changes: Changes, keys: seq<PageNo>, lsn: Lsn)
    requires forall k :: k in keys ==> k in changes
    ensures Assemble(cas, changes, keys, lsn).Ok? ==> EachOnce(Assemble(cas, changes, keys, lsn).value.blobs)
  {
    if keys != [] {
      var n := |keys| - 1;
      AssembleCarriesOnce(cas, changes, keys[..n], lsn);
      var front := Assemble(cas, changes, keys[..n], lsn);
      if front.Ok? && changes[keys[n]].Some? {
        FindBlobIsFirst(front.value.blobs, changes[keys[n]].value);
      }
    }
  }

  lemma ShipmentCarriesOnce(cas: Cas, c: LoggedCommit)
    ensures Build(cas, c).Ok? ==> EachOnce(Build(cas, c).value.pages)
  {
    hide Assemble, EachOnce;
    AssembleCarriesOnce(cas, c.changes, Ascending(c.changes.Keys), c.lsn);
  }

  lemma {:induction false} WritesInOrder(changes: Changes, keys: seq<PageNo>, writes: seq<PageWrite>)
    requires |writes| == |keys|
    requires forall i :: 0 <= i < |keys| ==> keys[i] in changes && writes[i] == PageWrite(keys[i], changes[keys[i]])
    ensures LastWriter(writes) == map k | k in keys :: changes[k]
  {
    if keys != [] {
      var n := |keys| - 1;
      WritesInOrder(changes, keys[..n], writes[..n]);
      assert keys == keys[..n] + [keys[n]];
    }
  }

  /** What a primary ships is whole, and says exactly what its log says of the commit. */
  lemma BuiltShipment(cas: Cas, c: LoggedCommit)
    requires Addressed(cas) && Available(cas, c)
    ensures Build(cas, c).Ok?
    ensures var s := Build(cas, c).value;
      && s.base == c.base && s.manifest == c.manifest
      && s.commitLsn == c.lsn && s.createdAtMs == c.createdAtMs
      && Intact(s, s.writes)
      && LastWriter(s.writes) == c.changes
  {
    hide Genuine, Ascending, Assemble, LastWriter;
    var keys := Ascending(c.changes.Keys);
    AssembleMeaning(cas, c.changes, keys, c.lsn);
    var s := Build(cas, c).value;
    WritesInOrder(c.changes, keys, s.writes);
    assert c.changes == map k | k in keys :: c.changes[k];
  }

  /** So an untampered shipment applied at its base always advances, to the primary's manifest. */
  lemma UntamperedAdvances(f: Follower, cas: Cas, c: LoggedCommit)
    requires Addressed(f.pages) && Addressed(cas) && Sound(cas, c)
    requires f.head == c.base
    ensures Build(cas, c).Ok?
    ensures var step := ApplyTo(f, Build(cas, c).value);
      && step.result == Ok(Advanced)
      && step.follower.head == c.manifest
      && step.follower.appliedLsn == Some(c.lsn)
  {
    hide Build, Intact, LastWriter, Addressed, CommitTo, Stage;
    BuiltShipment(cas, c);
    ApplyOutcome(f, Build(cas, c).value);
    AdvancingRecordsPosition(f, Build(cas, c).value);
  }

  lemma AdvancingRecordsPosition(f: Follower, s: Shipment)
    ensures ApplyTo(f, s).result == Ok(Advanced) ==> ApplyTo(f, s).follower.appliedLsn == Some(s.commitLsn)
  {
  }

  // ---- Positions along a chain --------------------------------------------------------------

  /** A source that serves exactly these commits, from `start`, with every page available. */
  ghost predicate Serves(src: Source, start: Manifest, commits: seq<LoggedCommit>) {
    && Progresses(src.codec)
    && src.StartHead() == start
    && Commits(src) == commits
    && Addressed(src.cas)
    && Chained(start, commits)
    && (forall c :: c in commits ==> Sound(src.cas, c))
    && (forall i, j :: 0 <= i < j < |commits| ==> commits[i].lsn < commits[j].lsn)
  }

  lemma {:induction false} HeightsClimb(start: Manifest, commits: seq<LoggedCommit>, cas: Cas, i: nat)
    requires Chained(start, commits) && i <= |commits|
    requires forall c :: c in commits ==> Sound(cas, c)
    ensures Height(HeadAfter(start, commits, i)) == Height(start) + i
  {
    if i > 0 {
      HeightsClimb(start, commits, cas, i - 1);
      assert commits[i - 1] in commits;
    }
  }

  /** No manifest occurs twice along a chain of commits. */
  lemma PositionsDistinct(start: Manifest, commits: seq<LoggedCommit>, cas: Cas, i: nat, j: nat)
    requires Chained(start, commits) && i <= |commits| && j <= |commits|
    requires forall c :: c in commits ==> Sound(cas, c)
    ensures HeadAfter(start, commits, i) == HeadAfter(start, commits, j) <==> i == j
  {
    HeightsClimb(start, commits, cas, i);
    HeightsClimb(start, commits, cas, j);
  }

  lemma {:induction false} BuildAllMeaning(cas: Cas, commits: seq<LoggedCommit>)
    requires Addressed(cas)
    requires forall c :: c in commits ==> Sound(cas, c)
    ensures BuildAll(cas, commits).Ok?
    ensures var ss := BuildAll(cas, commits).value;
      |ss| == |commits| && forall i :: 0 <= i < |commits| ==> Build(cas, commits[i]) == Ok(ss[i])
  {
    hide Genuine, Available, Build;
    if commits != [] {
      var n := |commits| - 1;
      BuildAllMeaning(cas, commits[..n]);
      assert commits[n] in commits;
      BuiltShipment(cas, commits[n]);
    }
  }

  lemma {:induction false} FromSuffix(commits: seq<LoggedCommit>, k: nat, from: Lsn)
    requires k <= |commits|
    requires forall i :: 0 <= i < |commits| ==> (commits[i].lsn >= from <==> i >= k)
    ensures From(commits, from) == commits[k..]
  {
    if k == |commits| {
      FromAll(commits, from);
    } else {
      var n := |commits| - 1;
      FromSuffix(commits[..n], k, from);
      assert commits[k..] == commits[..n][k..] + [commits[n]];
    }
  }

  /** The shipments carry the commits' manifests and sequence numbers, one for one. */
  ghost predicate Mirrors(ss: seq<Shipment>, commits: seq<LoggedCommit>) {
    && |ss| == |commits|
    && forall i :: 0 <= i < |ss| ==> ss[i].manifest == commits[i].manifest && ss[i].commitLsn == commits[i].lsn
  }

  lemma ShipmentsMirror(cas: Cas, commits: seq<LoggedCommit>)
    requires Addressed(cas) && forall c :: c in commits ==> Sound(cas, c)
    ensures BuildAll(cas, commits).Ok? && Mirrors(BuildAll(cas, commits).value, commits)
  {
    hide Genuine, Available, Build, BuildAll, LastWriter, Intact;
    BuildAllMeaning(cas, commits);
    forall i | 0 <= i < |commits|
      ensures BuildAll(cas, commits).value[i].manifest == commits[i].manifest
      ensures BuildAll(cas, commits).value[i].commitLsn == commits[i].lsn
    {
      assert commits[i] in commits;
      BuiltShipment(cas, commits[i]);
    }
  }

  lemma {:induction false} PositionFound(commits: seq<LoggedCommit>, ss: seq<Shipment>, j: nat, k: nat, head: Manifest)
    requires Mirrors(ss, commits) && j <= k < |ss|
    requires forall i :: j <= i <= k ==> (commits[i].manifest == head <==> i == k)
    ensures Position(ss[j..], head) == Some(commits[k].lsn + 1)
    decreases k - j
  {
    PositionStep(ss, j, head);
    if j < k {
      PositionFound(commits, ss, j + 1, k, head);
    }
  }

  lemma {:induction false} PositionAbsent(commits: seq<LoggedCommit>, ss: seq<Shipment>, j: nat, head: Manifest)
    requires Mirrors(ss, commits) && j <= |ss|
    requires forall i :: j <= i < |ss| ==> commits[i].manifest != head
    ensures Position(ss[j..], head) == None
    decreases |ss| - j
  {
    if j < |ss| {
      PositionStep(ss, j, head);
      PositionAbsent(commits, ss, j + 1, head);
    }
  }

  lemma WholeServes(src: Source, start: Manifest, commits: seq<LoggedCommit>)
    requires Serves(src, start, commits)
    ensures Shipments(src, 0) == BuildAll(src.cas, commits)
    ensures BuildAll(src.cas, commits).Ok? && Mirrors(BuildAll(src.cas, commits).value, commits)
  {
    hide Commits, Sound, BuildAll, Chained, Addressed, Mirrors;
    FromAll(commits, 0);
    ShipmentsMirror(src.cas, commits);
  }

  /** A follower's manifest is its position. */
  lemma ResumesAtPosition(src: Source, start: Manifest, commits: seq<LoggedCommit>, k: nat)
    requires Serves(src, start, commits) && k <= |commits|
    ensures Resume(src, HeadAfter(start, commits, k)) == Ok(if k == 0 then 0 else commits[k - 1].lsn + 1)
  {
    hide Commits, Sound, BuildAll, Shipments, Addressed, Chained;
    var head := HeadAfter(start, commits, k);
    PositionsDistinct(start, commits, src.cas, 0, k);
    if k > 0 {
      WholeServes(src, start, commits);
      var ss := BuildAll(src.cas, commits).value;
      forall i | 0 <= i <= k - 1 ensures commits[i].manifest == head <==> i == k - 1 {
        PositionsDistinct(start, commits, src.cas, i + 1, k);
      }
      PositionFound(commits, ss, 0, k - 1, head);
      assert ss[0..] == ss;
    }
  }

  /** Everything a follower at position `k` is missing, and nothing else. */
  lemma MissingFromPosition(src: Source, start: Manifest, commits: seq<LoggedCommit>, k: nat)
    requires Serves(src, start, commits) && k <= |commits|
    ensures Missing(src, HeadAfter(start, commits, k)) == BuildAll(src.cas, commits[k..])
  {
    hide Commits, Sound, BuildAll, Resume, Chained, Addressed, From;
    ResumesAtPosition(src, start, commits, k);
    FromSuffix(commits, k, if k == 0 then 0 else commits[k - 1].lsn + 1);
  }

  /** A head that is neither the start nor any shipped manifest is unknown. */
  lemma UnknownFromNowhere(src: Source, start: Manifest, commits: seq<LoggedCommit>, head: Manifest)
    requires Serves(src, start, commits)
    requires forall i :: 0 <= i <= |commits| ==> HeadAfter(start, commits, i) != head
    ensures Missing(src, head) == Err(FollowerUnknown(head))
  {
    hide Commits, Sound, BuildAll, Shipments, Chained, Addressed;
    assert HeadAfter(start, commits, 0) != head;
    WholeServes(src, start, commits);
    var ss := BuildAll(src.cas, commits).value;
    forall i | 0 <= i < |ss| ensures commits[i].manifest != head {
      assert HeadAfter(start, commits, i + 1) != head;
    }
    PositionAbsent(commits, ss, 0, head);
    assert ss[0..] == ss;
  }

  /** Applying the next `n` commits from position `k` advances through each of them. */
  lemma {:induction false} ApplyStretch(f: Follower, cas: Cas, start: Manifest, commits: seq<LoggedCommit>, k: nat,
                                        ss: seq<Shipment>)
    requires Addressed(f.pages) && Addressed(cas)
    requires Chained(start, commits) && (forall c :: c in commits ==> Sound(cas, c))
    requires k + |ss| <= |commits| && f.head == HeadAfter(start, commits, k)
    requires forall i :: 0 <= i < |ss| ==> Build(cas, commits[k + i]) == Ok(ss[i])
    ensures var p := ApplyAll(f, ss);
      && p.error == None && p.advanced == |ss|
      && p.follower.head == HeadAfter(start, commits, k + |ss|)
      && Addressed(p.follower.pages)
      && (Stored(f.pages, f.head) ==> Stored(p.follower.pages, p.follower.head))
  {
    hide ApplyTo, Sound, Build, Stored;
    if ss != [] {
      var n := |ss| - 1;
      ApplyStretch(f, cas, start, commits, k, ss[..n]);
      var p := ApplyAll(f, ss[..n]);
      assert commits[k + n] in commits;
      UntamperedAdvances(p.follower, cas, commits[k + n]);
      ApplyKeepsStore(p.follower, ss[n]);
    }
  }

  // ---- Catching up and restoring -------------------------------------------------------------

  /** From position `k`, catching up ends at the last commit and reports exactly the commits it
      advanced through. */
  lemma CatchUpExact(f: Follower, src: Source, start: Manifest, commits: seq<LoggedCommit>, k: nat)
    requires Serves(src, start, commits) && k <= |commits|
    requires Addressed(f.pages) && f.head == HeadAfter(start, commits, k)
    ensures var p := CatchUpFrom(f, src);
      && p.Outcome() == Ok(|commits| - k)
      && p.follower.head == HeadAfter(start, commits, |commits|)
      && (Stored(f.pages, f.head) ==> Stored(p.follower.pages, p.follower.head))
  {
    hide Commits, Sound, Build, BuildAll, Missing, ApplyAll, Stored;
    MissingFromPosition(src, start, commits, k);
    BuildAllMeaning(src.cas, commits[k..]);
    ApplyStretch(f, src.cas, start, commits, k, BuildAll(src.cas, commits[k..]).value);
  }

  /** It fails with `FollowerUnknown`, changing nothing, exactly for a head that is not a position. */
  lemma CatchUpUnknownIff(f: Follower, src: Source, start: Manifest, commits: seq<LoggedCommit>)
    requires Serves(src, start, commits) && Addressed(f.pages)
    ensures var p := CatchUpFrom(f, src);
      && (p.Outcome() == Err(FollowerUnknown(f.head))
          <==> forall i :: 0 <= i <= |commits| ==> HeadAfter(start, commits, i) != f.head)
      && (p.Outcome().Err? ==> p.Outcome() == Err(FollowerUnknown(f.head)) && p.follower == f)
  {
    hide Commits, Sound, Missing, Stored;
    if k :| 0 <= k <= |commits| && HeadAfter(start, commits, k) == f.head {
      CatchUpExact(f, src, start, commits, k);
    } else {
      UnknownFromNowhere(src, start, commits, f.head);
    }
  }

  /** How many commits are at or below `lsn`. */
  function CountUpTo(commits: seq<LoggedCommit>, lsn: Lsn): (n: nat)
    ensures n <= |commits|
  {
    if commits == [] || commits[0].lsn > lsn then 0 else 1 + CountUpTo(commits[1..], lsn)
  }

  lemma {:induction false} CountUpToMeaning(commits: seq<LoggedCommit>, lsn: Lsn)
    requires forall i, j :: 0 <= i < j < |commits| ==> commits[i].lsn < commits[j].lsn
    ensures forall i :: 0 <= i < |commits| ==> (commits[i].lsn <= lsn <==> i < CountUpTo(commits, lsn))
  {
    if commits != [] {
      if commits[0].lsn <= lsn {
        CountUpToMeaning(commits[1..], lsn);
        forall i | 0 <= i < |commits|
          ensures commits[i].lsn <= lsn <==> i < CountUpTo(commits, lsn)
        {
          assert i > 0 ==> commits[i] == commits[1..][i - 1];
        }
      } else {
        assert forall i :: 0 < i < |commits| ==> commits[0].lsn < commits[i].lsn;
      }
    }
  }

  /** Restoring takes every shipment before the first one past its target, and no more, whatever order
      they come in. */
  lemma {:induction false} UpToIs(ss: seq<Shipment>, target: Lsn)
    ensures var n := |UpTo(ss, target)|;
      && n <= |ss| && UpTo(ss, target) == ss[..n]
      && (forall i :: 0 <= i < n ==> ss[i].commitLsn <= target)
      && (n < |ss| ==> target < ss[n].commitLsn)
  {
    if ss != [] && ss[0].commitLsn <= target {
      UpToIs(ss[1..], target);
    }
  }

  lemma {:induction false} UpToMeaning(ss: seq<Shipment>, target: Lsn, n: nat)
    requires n <= |ss|
    requires forall i :: 0 <= i < |ss| ==> (ss[i].commitLsn <= target <==> i < n)
    ensures UpTo(ss, target) == ss[..n]
  {
    if n > 0 {
      UpToMeaning(ss[1..], target, n - 1);
      assert ss[..n] == [ss[0]] + ss[1..][..n - 1];
    }
  }

  /** The manifest as of a sequence number is the last one that restoring to it would apply. */
  lemma {:induction false} LastIsLastApplied(ss: seq<Shipment>, target: Lsn)
    ensures var wanted := UpTo(ss, target);
      LastAtOrBefore(ss, target) == if wanted == [] then None else Some(wanted[|wanted| - 1].manifest)
  {
    if ss != [] && ss[0].commitLsn <= target {
      LastIsLastApplied(ss[1..], target);
    }
  }

  lemma {:induction false} LastMeaning(ss: seq<Shipment>, target: Lsn, n: nat)
    requires n <= |ss|
    requires forall i :: 0 <= i < |ss| ==> (ss[i].commitLsn <= target <==> i < n)
    ensures LastAtOrBefore(ss, target) == if n == 0 then None else Some(ss[n - 1].manifest)
  {
    if n > 0 {
      LastMeaning(ss[1..], target, n - 1);
    }
  }

  /** Point-in-time restore, from any position `k`: the follower ends at the last commit at or
      below the target, unless it is already past it, where it stays. So it lands on the primary's
      manifest at the target -- the start head when nothing is that early -- exactly when it began
      at or before it, however it got there. */
  lemma RestoreExact(f: Follower, src: Source, start: Manifest, commits: seq<LoggedCommit>, k: nat, target: Lsn)
    requires Serves(src, start, commits) && k <= |commits|
    requires Addressed(f.pages) && f.head == HeadAfter(start, commits, k)
    ensures var p := RestoreFrom(f, src, target);
      var n := CountUpTo(commits, target);
      var at := HeadAfter(start, commits, n);
      && p.error == None
      && AsOf(src, target) == Ok(if n == 0 then None else Some(at))
      && p.follower.head == HeadAfter(start, commits, if k <= n then n else k)
      && (p.follower.head == at <==> k <= n)
  {
    hide Commits, Sound, Missing, CountUpTo, AsOf, Addressed, Chained, RestoreFrom;
    var n := CountUpTo(commits, target);
    RestoreEnds(f, src, start, commits, k, target);
    AsOfTarget(src, start, commits, target);
    PositionsDistinct(start, commits, src.cas, if k <= n then n else k, n);
  }

  lemma RestoreEnds(f: Follower, src: Source, start: Manifest, commits: seq<LoggedCommit>, k: nat, target: Lsn)
    requires Serves(src, start, commits) && k <= |commits|
    requires Addressed(f.pages) && f.head == HeadAfter(start, commits, k)
    ensures var p := RestoreFrom(f, src, target);
      var n := CountUpTo(commits, target);
      p.error == None && p.follower.head == HeadAfter(start, commits, if k <= n then n else k)
  {
    hide Commits, Sound, Build, BuildAll, Missing, ApplyAll, Stored, CountUpTo, UpTo, Addressed, Chained, HeadAfter;
    var n := CountUpTo(commits, target);
    MissingFromPosition(src, start, commits, k);
    StretchUpTo(src.cas, commits, k, target);
    var ss := BuildAll(src.cas, commits[k..]).value;
    var m := if k <= n then n - k else 0;
    ApplyStretch(f, src.cas, start, commits, k, ss[..m]);
  }

  /** Of the commits from `k` on, the ones at or below the target are the first `n - k`. */
  lemma StretchUpTo(cas: Cas, commits: seq<LoggedCommit>, k: nat, target: Lsn)
    requires Addressed(cas) && (forall c :: c in commits ==> Sound(cas, c)) && k <= |commits|
    requires forall i, j :: 0 <= i < j < |commits| ==> commits[i].lsn < commits[j].lsn
    ensures BuildAll(cas, commits[k..]).Ok?
    ensures var ss := BuildAll(cas, commits[k..]).value;
      var n := CountUpTo(commits, target);
      var m := if k <= n then n - k else 0;
      && m <= |ss| && UpTo(ss, target) == ss[..m]
      && forall i :: 0 <= i < m ==> Build(cas, commits[k + i]) == Ok(ss[..m][i])
  {
    hide Sound, Build, BuildAll, CountUpTo, UpTo, Addressed;
    BuildAllMeaning(cas, commits[k..]);
    var n := CountUpTo(commits, target);
    CountUpToMeaning(commits, target);
    ShipmentsMirror(cas, commits[k..]);
    UpToMeaning(BuildAll(cas, commits[k..]).value, target, if k <= n then n - k else 0);
  }

  lemma AsOfTarget(src: Source, start: Manifest, commits: seq<LoggedCommit>, target: Lsn)
    requires Serves(src, start, commits)
    ensures var n := CountUpTo(commits, target);
      AsOf(src, target) == Ok(if n == 0 then None else Some(HeadAfter(start, commits, n)))
  {
    hide Commits, Sound, BuildAll, CountUpTo, Shipments, Chained, Addressed;
    CountUpToMeaning(commits, target);
    WholeServes(src, start, commits);
    LastMeaning(BuildAll(src.cas, commits).value, target, CountUpTo(commits, target));
  }

  // ---- At an input ---------------------------------------------------------------------------

  /** A shipment with intact pages and a manifest its writes do not derive: it is refused as diverged,
      and the follower's durable head is already somewhere nobody shipped. */
  lemma DivergedMovesTheHead(a: Bytes, nowMs: nat)
    ensures var root := Root(1);
      var f := Follower(map[], root, None);
      var lying := Derive(root, map[0 := Some(PageId(a))], nowMs + 1);
      var s := Shipment(root, lying, 0, nowMs, [PageWrite(0, Some(PageId(a)))], [PageBlob(PageId(a), a)]);
      var got := Derive(root, map[0 := Some(PageId(a))], nowMs);
      && ApplyTo(f, s).result == Err(Diverged(0, lying, got))
      && ApplyTo(f, s).follower.head == got != root
  {
    var root := Root(1);
    var changes := map[0 := Some(PageId(a))];
    var s := Shipment(root, Derive(root, changes, nowMs + 1), 0, nowMs, [PageWrite(0, Some(PageId(a)))],
                      [PageBlob(PageId(a), a)]);
    assert s.writes[..0] == [] && LastWriter(s.writes) == changes;
    assert 0 in ApplyChanges(Resolve(root), changes);
    ApplyOutcome(Follower(map[], root, None), s);
  }

  /** After a lost rewind a follower that took the first shipment is refused the second, with its head
      where it was. */
  lemma LostRewindStopsAFollower(a: Bytes, b: Bytes)
    requires a != b
    ensures var root := Root(1);
      var cas := map[PageId(a) := a, PageId(b) := b];
      var commits := FoldLog(None, Begin(root), RewoundLog(a, b)).commits;
      && |commits| == 2 && Build(cas, commits[0]).Ok? && Build(cas, commits[1]).Ok?
      && var first := ApplyTo(Follower(map[], root, None), Build(cas, commits[0]).value);
      && var second := ApplyTo(first.follower, Build(cas, commits[1]).value);
      && first.result == Ok(Advanced) && first.follower.head == OnePage(root, a, 1)
      && second.result == Err(OutOfOrder(4, root, OnePage(root, a, 1)))
      && second.follower == first.follower
  {
    hide Build, FoldLog, RewoundLog, Stage;
    LostRewindBreaksTheChain(a, b);
    var cas := map[PageId(a) := a, PageId(b) := b];
    var commits := FoldLog(None, Begin(Root(1)), RewoundLog(a, b)).commits;
    UntamperedAdvances(Follower(map[], Root(1), None), cas, commits[0]);
    BuiltShipment(cas, commits[1]);
  }

  /** A primary whose whole log is one write and its commit, in a two-byte segment. */
  function OneCommitSource(a: Bytes): Source {
    var write, commit := Record(0, Write(0, Some(PageId(a)))), Record(1, Commit(OneCommit(a), 7));
    var codec := Codec((r: Record) => [],
                       (b: Bytes) => if b == [] then Torn else Decoded(if |b| == 2 then write else commit, 1),
                       (r: Record) => false);
    Source(codec, None, [[0, 0]], map[PageId(a) := a], 1)
  }

  function OneCommit(a: Bytes): Manifest {
    OnePage(Root(1), a, 7)
  }

  lemma OneCommitReads(a: Bytes)
    ensures var src := OneCommitSource(a);
      && Progresses(src.codec) && src.ReadCheckpoint() == None
      && ReadLog(src.codec, src.segments)
         == [Record(0, Write(0, Some(PageId(a)))), Record(1, Commit(OneCommit(a), 7))]
  {
    var src := OneCommitSource(a);
    var log := [Record(0, Write(0, Some(PageId(a)))), Record(1, Commit(OneCommit(a), 7))];
    var bytes: Bytes := [0, 0];
    assert bytes[1..] == [0] && bytes[1..][1..] == [];
    assert ReadSegment(src.codec, []) == SegmentRead([], false);
    assert ReadSegment(src.codec, bytes[1..]) == SegmentRead([log[1]], false);
    assert ReadSegment(src.codec, bytes) == SegmentRead(log, false);
    assert src.segments[1..] == [];
  }

  lemma OneCommitServes(a: Bytes)
    ensures var src := OneCommitSource(a);
      Serves(src, Root(1), [LoggedCommit(Root(1), OneCommit(a), 1, 7, map[0 := Some(PageId(a))])])
  {
    hide FoldLog, ReadLog, Straight, Genuine;
    OneCommitReads(a);
    OnePageCommits(Root(1), a, 0, 7);
  }

  /** A follower that has applied the one commit and is restored to before it stays at the commit. */
  lemma RestorePastTheTarget(a: Bytes)
    ensures var src := OneCommitSource(a);
      var p := RestoreFrom(Follower(map[PageId(a) := a], OneCommit(a), None), src, 0);
      && AsOf(src, 0) == Ok(None) && src.StartHead() == Root(1) != OneCommit(a)
      && p.error == None && p.follower.head == OneCommit(a)
  {
    hide RestoreFrom, AsOf, Serves;
    OneCommitServes(a);
    var c := LoggedCommit(Root(1), OneCommit(a), 1, 7, map[0 := Some(PageId(a))]);
    RestoreExact(Follower(map[PageId(a) := a], OneCommit(a), None), OneCommitSource(a), Root(1), [c], 1, 0);
  }
}
