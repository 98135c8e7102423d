/** The follower: apply shipped commits through the ordinary commit path under a replay clock, and
    refuse to differ from the primary. */
module Replica {
  import opened Substrate
  import opened WalFrames
  import opened WalSource

  datatype Applied = Advanced | AlreadyPresent

  /** A follower's durable pages and head, and the in-memory hint of how far it has applied. */
  datatype Follower = Follower(pages: Cas, head: Manifest, appliedLsn: Option<Lsn>)

  // ---- What one shipment does --------------------------------------------------------------

  datatype Staging = Staged(pages: Cas, txn: Changes) | Refused(pages: Cas, error: SyncError)

  function StageOne(pages: Cas, txn: Changes, s: Shipment, w: PageWrite): Staging {
    match w.page
    case None => Staged(pages, txn[w.pageNo := None])
    case Some(id) =>
      match s.BytesFor(id)
      case None => Refused(pages, MissingPage(s.commitLsn, w.pageNo, id))
      case Some(bytes) =>
        var staged := HashPage(bytes);
        var pages' := pages[staged := bytes];
        if staged != id then Refused(pages', PageHashMismatch(w.pageNo, id, staged))
        else Staged(pages', txn[w.pageNo := Some(staged)])
  }

  /** Staging the first `i` writes. */
  function Stage(pages: Cas, s: Shipment, i: nat): Staging
    requires i <= |s.writes|
  {
    if i == 0 then Staged(pages, map[]) else
      var before := Stage(pages, s, i - 1);
      if before.Refused? then before else StageOne(before.pages, before.txn, s, s.writes[i - 1])
  }

  datatype Step = Step(follower: Follower, result: Result<Applied, SyncError>)

  function Later(appliedLsn: Option<Lsn>, lsn: Lsn): Lsn {
    if appliedLsn.Some? && appliedLsn.value > lsn then appliedLsn.value else lsn
  }

  function ApplyTo(f: Follower, s: Shipment): Step {
    if f.head == s.manifest then
      Step(f.(appliedLsn := Some(Later(f.appliedLsn, s.commitLsn))), Ok(AlreadyPresent))
    else if f.head != s.base then
      Step(f, Err(OutOfOrder(s.commitLsn, s.base, f.head)))
    else
      match Stage(f.pages, s, |s.writes|)
      case Refused(pages, error) => Step(f.(pages := pages), Err(error))
      case Staged(pages, txn) =>
        var got := CommitTo(f.head, txn, s.createdAtMs);
        if got != s.manifest then
          Step(f.(pages := pages, head := got), Err(Diverged(s.commitLsn, s.manifest, got)))
        else
          Step(Follower(pages, got, Some(s.commitLsn)), Ok(Advanced))
  }

  datatype Progress = Progress(follower: Follower, advanced: nat, error: Option<SyncError>)
  {
    function Outcome(): Result<nat, SyncError> {
      if error.Some? then Err(error.value) else Ok(advanced)
    }
  }

  /** Applying shipments in order, stopping at the first refusal. */
  function ApplyAll(f: Follower, shipments: seq<Shipment>): Progress {
    if shipments == [] then Progress(f, 0, None) else
      var n := |shipments| - 1;
      var p := ApplyAll(f, shipments[..n]);
      if p.error.Some? then p else
        var step := ApplyTo(p.follower, shipments[n]);
        match step.result
        case Err(e) => Progress(step.follower, p.advanced, Some(e))
        case Ok(applied) => Progress(step.follower, p.advanced + (if applied.Advanced? then 1 else 0), None)
  }

  /** The leading shipments at or below `target`. */
  function UpTo(shipments: seq<Shipment>, target: Lsn): (prefix: seq<Shipment>)
    ensures prefix <= shipments
  {
    if shipments == [] || shipments[0].commitLsn > target then []
    else [shipments[0]] + UpTo(shipments[1..], target)
  }

  function Missing(src: Source, head: Manifest): Result<seq<Shipment>, SyncError>
    requires Progresses(src.codec)
  {
    match Resume(src, head)
    case Err(e) => Err(e)
    case Ok(from) => Shipments(src, from)
  }

  function CatchUpFrom(f: Follower, src: Source): Progress
    requires Progresses(src.codec)
  {
    match Missing(src, f.head)
    case Err(e) => Progress(f, 0, Some(e))
    case Ok(shipments) => ApplyAll(f, shipments)
  }

  function RestoreFrom(f: Follower, src: Source, target: Lsn): Progress
    requires Progresses(src.codec)
  {
    match Missing(src, f.head)
    case Err(e) => Progress(f, 0, Some(e))
    case Ok(shipments) => ApplyAll(f, UpTo(shipments, target))
  }

  // ---- The objects -------------------------------------------------------------------------

  class ReplayClock {
    var nowMs: nat

    constructor ()
      ensures nowMs == 0
    {
      nowMs := 0;
    }

    method Set(now: nat)
      modifies this
      ensures nowMs == now
    {
      nowMs := now;
    }
  }

  /** The part of the durable page store a follower drives. A commit bakes the clock's reading into
      the manifest it derives. */
  class DurableStore {
    const clock: ReplayClock
    var pages: Cas
    var head: Manifest

    constructor (clock: ReplayClock, pageSize: nat)
      ensures this.clock == clock && pages == map[] && head == Root(pageSize)
    {
      this.clock := clock;
      pages := map[];
      head := Root(pageSize);
    }

    method Write(txn: Changes, pageNo: PageNo, bytes: Bytes) returns (staged: Changes, id: PageId)
      modifies this`pages
      ensures id == HashPage(bytes)
      ensures pages == old(pages)[id := bytes]
      ensures staged == txn[pageNo := Some(id)]
    {
      id := HashPage(bytes);
      pages := pages[id := bytes];
      staged := txn[pageNo := Some(id)];
    }

    method Commit(txn: Changes) returns (manifest: Manifest)
      modifies this`head
      ensures manifest == head == CommitTo(old(head), txn, clock.nowMs)
    {
      head := CommitTo(head, txn, clock.nowMs);
      manifest := head;
    }
  }

  class Replica {
    const store: DurableStore
    const clock: ReplayClock
    var appliedLsn: Option<Lsn>

    ghost predicate Valid()
      reads this
    {
      store.clock == clock
    }

    function State(): Follower
      reads this, store
    {
      Follower(store.pages, store.head, appliedLsn)
    }

    /** Over an already-recovered store: the head is whatever was durable, the hint starts empty. */
    constructor (store: DurableStore)
      ensures Valid() && this.store == store && this.clock == store.clock
      ensures appliedLsn == None
    {
      this.store := store;
      this.clock := store.clock;
      appliedLsn := None;
    }

    method Apply(s: Shipment) returns (r: Result<Applied, SyncError>)
      requires Valid()
      modifies this, store, clock
      ensures Valid()
      ensures Step(State(), r) == ApplyTo(old(State()), s)
    {
      var head := store.head;
      if head == s.manifest {
        appliedLsn := Some(match appliedLsn
          case Some(prev) => if prev > s.commitLsn then prev else s.commitLsn
          case None => s.commitLsn);
        return Ok(AlreadyPresent);
      }
      if head != s.base {
        return Err(OutOfOrder(s.commitLsn, s.base, head));
      }
      var txn: Changes := map[];
      for i := 0 to |s.writes|
        invariant store.head == head && appliedLsn == old(appliedLsn)
        invariant Stage(old(store.pages), s, i) == Staged(store.pages, txn)
      {
        var w := s.writes[i];
        match w.page {
          case Some(id) =>
            var bytes := s.BytesFor(id);
            if bytes.None? {
              StageStopsAtRefusal(old(store.pages), s, i + 1);
              return Err(MissingPage(s.commitLsn, w.pageNo, id));
            }
            var staged;
            txn, staged := store.Write(txn, w.pageNo, bytes.value);
            if staged != id {
              StageStopsAtRefusal(old(store.pages), s, i + 1);
              return Err(PageHashMismatch(w.pageNo, id, staged));
            }
          case None =>
            txn := txn[w.pageNo := None];
        }
      }
      clock.Set(s.createdAtMs);
      var got := store.Commit(txn);
      if got != s.manifest {
        return Err(Diverged(s.commitLsn, s.manifest, got));
      }
      appliedLsn := Some(s.commitLsn);
      return Ok(Advanced);
    }

    method CatchUp(src: Source) returns (r: Result<nat, SyncError>)
      requires Valid() && Progresses(src.codec)
      modifies this, store, clock
      ensures Valid()
      ensures var p := CatchUpFrom(old(State()), src); State() == p.follower && r == p.Outcome()
    {
      var from := ResumeAfter(src, store.head);
      if from.Err? {
        return Err(from.error);
      }
      var shipments := ShipmentsFrom(src, from.value);
      if shipments.Err? {
        return Err(shipments.error);
      }
      r := ApplyEach(shipments.value);
    }

    method RestoreTo(src: Source, target: Lsn) returns (r: Result<(), SyncError>)
      requires Valid() && Progresses(src.codec)
      modifies this, store, clock
      ensures Valid()
      ensures var p := RestoreFrom(old(State()), src, target);
        && State() == p.follower
        && r == if p.error.Some? then Err(p.error.value) else Ok(())
    {
      var from := ResumeAfter(src, store.head);
      if from.Err? {
        return Err(from.error);
      }
      var shipments := ShipmentsFrom(src, from.value);
      if shipments.Err? {
        return Err(shipments.error);
      }
      r := ApplyWhile(shipments.value, target);
    }

    /** The loop of `RestoreTo`: apply in order and stop before the first commit past `target`. */
    method ApplyWhile(shipments: seq<Shipment>, target: Lsn) returns (r: Result<(), SyncError>)
      requires Valid()
      modifies this, store, clock
      ensures Valid()
      ensures var p := ApplyAll(old(State()), UpTo(shipments, target));
        && State() == p.follower
        && r == if p.error.Some? then Err(p.error.value) else Ok(())
    {
      ghost var wanted := UpTo(shipments, target);
      ghost var advanced := 0;
      for i := 0 to |shipments|
        invariant Valid()
        invariant i <= |wanted|
        invariant UpTo(shipments[i..], target) == wanted[i..]
        invariant ApplyAll(old(State()), wanted[..i]) == Progress(State(), advanced, None)
      {
        var s := shipments[i];
        assert shipments[i..][1..] == shipments[i + 1..];
        if s.commitLsn > target {
          assert wanted[..i] == wanted;
          return Ok(());
        }
        assert wanted[i..] == [s] + UpTo(shipments[i + 1..], target);
        var applied := Apply(s);
        ApplyAllStep(old(State()), wanted, i);
        if applied.Err? {
          ApplyAllStopsAtError(old(State()), wanted, i + 1);
          return Err(applied.error);
        }
        advanced := advanced + (if applied.value.Advanced? then 1 else 0);
      }
      assert wanted[..|wanted|] == wanted;
      return Ok(());
    }

    /** The loop of `CatchUp`: apply in order and count the commits that advanced the head. */
    method ApplyEach(shipments: seq<Shipment>) returns (r: Result<nat, SyncError>)
      requires Valid()
      modifies this, store, clock
      ensures Valid()
      ensures var p := ApplyAll(old(State()), shipments); State() == p.follower && r == p.Outcome()
    {
      var advanced := 0;
      for i := 0 to |shipments|
        invariant Valid()
        invariant ApplyAll(old(State()), shipments[..i]) == Progress(State(), advanced, None)
      {
        var applied := Apply(shipments[i]);
        ApplyAllStep(old(State()), shipments, i);
        if applied.Err? {
          ApplyAllStopsAtError(old(State()), shipments, i + 1);
          return Err(applied.error);
        }
        if applied.value == Advanced {
          advanced := advanced + 1;
        }
      }
      assert shipments[..|shipments|] == shipments;
      return Ok(advanced);
    }
  }

  lemma {:induction false} StageStopsAtRefusal(pages: Cas, s: Shipment, i: nat)
    requires i <= |s.writes| && Stage(pages, s, i).Refused?
    ensures Stage(pages, s, |s.writes|) == Stage(pages, s, i)
    decreases |s.writes| - i
  {
    if i < |s.writes| {
      StageStopsAtRefusal(pages, s, i + 1);
    }
  }

  lemma ApplyAllStep(f: Follower, shipments: seq<Shipment>, i: nat)
    requires i < |shipments| && ApplyAll(f, shipments[..i]).error.None?
    ensures var p := ApplyAll(f, shipments[..i]);
      var step := ApplyTo(p.follower, shipments[i]);
      ApplyAll(f, shipments[..i + 1]) ==
        if step.result.Err? then Progress(step.follower, p.advanced, Some(step.result.error))
        else Progress(step.follower, p.advanced + (if step.result.value.Advanced? then 1 else 0), None)
  {
    assert shipments[..i + 1][..i] == shipments[..i];
  }

  lemma {:induction false} ApplyAllStopsAtError(f: Follower, shipments: seq<Shipment>, i: nat)
    requires i <= |shipments| && ApplyAll(f, shipments[..i]).error.Some?
    ensures ApplyAll(f, shipments) == ApplyAll(f, shipments[..i])
  {
    hide ApplyTo;
    if i == |shipments| {
      assert shipments[..i] == shipments;
    } else {
      var n := |shipments| - 1;
      assert shipments[..n][..i] == shipments[..i];
      ApplyAllStopsAtError(f, shipments[..n], i);
    }
  }
}
