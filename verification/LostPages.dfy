/** A primary whose store has lost pages its log still names: what a follower is told. */
module LostPages {
  import opened Substrate
  import opened WalFrames
  import opened WalReader
  import opened WalSource
  import opened LogHistory
  import opened Replica
  import opened Convergence

  /** Commit `i` sets page `n` to content the store has not got, and it is the first to: every earlier
      commit is all there, and so is every lower page of this one. */
  ghost predicate FirstLost(cas: Cas, commits: seq<LoggedCommit>, i: nat, n: PageNo) {
    && i < |commits|
    && (forall j :: 0 <= j < i ==> Available(cas, commits[j]))
    && FirstLostPage(cas, commits[i].changes, n)
  }

  predicate Named(changes: Changes, n: PageNo) {
    n in changes && changes[n].Some?
  }

  predicate Lost(cas: Cas, changes: Changes, n: PageNo) {
    Named(changes, n) && changes[n].value !in cas
  }

  ghost predicate FirstLostPage(cas: Cas, changes: Changes, n: PageNo) {
    Lost(cas, changes, n) && forall m: nat :: m < n ==> !Lost(cas, changes, m)
  }

  function LostError(commits: seq<LoggedCommit>, i: nat, n: PageNo): SyncError
    requires i < |commits| && Named(commits[i].changes, n)
  {
    MissingPage(commits[i].lsn, n, commits[i].changes[n].value)
  }

  // ---- Building ------------------------------------------------------------------------------

  lemma {:induction false} AssembleStops(cas: Cas, changes: Changes, keys: seq<PageNo>, lsn: Lsn, n: PageNo)
    requires forall k :: k in keys ==> k in changes
    requires forall i, j :: 0 <= i < j < |keys| ==> keys[i] < keys[j]
    requires n in keys && FirstLostPage(cas, changes, n)
    ensures Assemble(cas, changes, keys, lsn) == Err(MissingPage(lsn, n, changes[n].value))
  {
    hide AddPage;
    var k := |keys| - 1;
    assert keys == keys[..k] + [keys[k]];
    if n in keys[..k] {
      AssembleStops(cas, changes, keys[..k], lsn, n);
    } else {
      assert keys[k] == n;
      AssembleMeaning(cas, changes, keys[..k], lsn);
      forall m | m in keys[..k] && changes[m].Some? ensures changes[m].value in cas {
        assert m < n && !Lost(cas, changes, m);
      }
      NotCarried(cas, changes, keys[..k], Assemble(cas, changes, keys[..k], lsn).value, lsn, n);
    }
  }

  lemma NotCarried(cas: Cas, changes: Changes, keys: seq<PageNo>, parcel: Parcel, lsn: Lsn, n: PageNo)
    requires Carries(cas, changes, keys, parcel) && Lost(cas, changes, n)
    ensures AddPage(cas, changes[n], n, lsn, parcel) == Err(MissingPage(lsn, n, changes[n].value))
  {
    assert FindBlob(parcel.blobs, changes[n].value).None?;
  }

  lemma BuildStops(cas: Cas, c: LoggedCommit, n: PageNo)
    requires FirstLostPage(cas, c.changes, n)
    ensures Build(cas, c) == Err(MissingPage(c.lsn, n, c.changes[n].value))
  {
    hide Assemble;
    AssembleStops(cas, c.changes, Ascending(c.changes.Keys), c.lsn, n);
  }

  lemma {:induction false} BuildAllStops(cas: Cas, commits: seq<LoggedCommit>, i: nat, n: PageNo)
    requires Addressed(cas) && FirstLost(cas, commits, i, n)
    ensures BuildAll(cas, commits) == Err(LostError(commits, i, n))
  {
    hide Build, FirstLostPage, Available;
    var last := |commits| - 1;
    if i < last {
      BuildAllStops(cas, commits[..last], i, n);
    } else {
      AvailableBuild(cas, commits[..last]);
      BuildStops(cas, commits[last], n);
      IsLost(cas, commits[last].changes, n);
    }
  }

  lemma IsLost(cas: Cas, changes: Changes, n: PageNo)
    requires FirstLostPage(cas, changes, n)
    ensures Named(changes, n)
  {
  }

  lemma {:induction false} AvailableBuild(cas: Cas, commits: seq<LoggedCommit>)
    requires Addressed(cas) && forall j :: 0 <= j < |commits| ==> Available(cas, commits[j])
    ensures BuildAll(cas, commits).Ok?
  {
    hide Build, Available;
    if commits != [] {
      var last := |commits| - 1;
      AvailableBuild(cas, commits[..last]);
      BuiltShipment(cas, commits[last]);
    }
  }

  // ---- What a follower is told ---------------------------------------------------------------

  /** One lost page stops everything that reads the log: every catch-up and every point-in-time restore
      of every follower, wherever it stands and whatever the target, and every question what the primary
      was at. Each reports the first page that is gone, and the follower has not moved. */
  lemma LostPageStopsAll(f: Follower, src: Source, i: nat, n: PageNo, target: Lsn)
    requires Progresses(src.codec) && Addressed(src.cas) && FirstLost(src.cas, Commits(src), i, n)
    ensures var e := LostError(Commits(src), i, n);
      && Shipments(src, 0) == Err(e)
      && CatchUpFrom(f, src) == Progress(f, 0, Some(e)) && CatchUpFrom(f, src).Outcome() == Err(e)
      && RestoreFrom(f, src, target) == Progress(f, 0, Some(e))
      && AsOf(src, target) == Err(e)
  {
    hide Commits, BuildAll, From, FirstLost;
    FromAll(Commits(src), 0);
    BuildAllStops(src.cas, Commits(src), i, n);
  }

  /** A source that serves a chain of commits, with every page there or not. */
  ghost predicate Chains(src: Source, start: Manifest, commits: seq<LoggedCommit>) {
    && Progresses(src.codec)
    && src.StartHead() == start
    && Commits(src) == commits
    && Addressed(src.cas)
    && Chained(start, commits)
    && (forall c :: c in commits ==> Genuine(c))
    && (forall i, j :: 0 <= i < j < |commits| ==> commits[i].lsn < commits[j].lsn)
  }

  /** The log names a page the store has not got. */
  ghost predicate Incomplete(cas: Cas, commits: seq<LoggedCommit>) {
    exists c :: c in commits && !Available(cas, c)
  }

  /** Exactly when a follower that stands somewhere along the chain is refused: when some commit in the
      log, after its position or before it, sets a page the store lacks. `SomeIsFirstLost` says which is
      then the first, and `LostPageStopsAll` that it is the one reported. */
  lemma RefusedIff(f: Follower, src: Source, start: Manifest, commits: seq<LoggedCommit>, k: nat, target: Lsn)
    requires Chains(src, start, commits) && k <= |commits|
    requires Addressed(f.pages) && f.head == HeadAfter(start, commits, k)
    ensures CatchUpFrom(f, src).error.Some? <==> Incomplete(src.cas, commits)
    ensures RestoreFrom(f, src, target).error.Some? <==> Incomplete(src.cas, commits)
    ensures AsOf(src, target).Err? <==> Incomplete(src.cas, commits)
  {
    hide Commits, Available, CatchUpFrom, RestoreFrom, AsOf, FirstLost, Genuine;
    if Incomplete(src.cas, commits) {
      var i, n := SomeIsFirstLost(src.cas, commits);
      LostPageStopsAll(f, src, i, n, target);
    } else {
      NothingLost(src, start, commits);
      CatchUpExact(f, src, start, commits, k);
      RestoreExact(f, src, start, commits, k, target);
    }
  }

  lemma NothingLost(src: Source, start: Manifest, commits: seq<LoggedCommit>)
    requires Chains(src, start, commits) && forall c :: c in commits ==> Available(src.cas, c)
    ensures Serves(src, start, commits)
  {
    hide Commits, Available, Genuine, Chained, Addressed;
  }

  lemma {:induction false} SomeIsFirstLost(cas: Cas, commits: seq<LoggedCommit>) returns (i: nat, n: PageNo)
    requires Incomplete(cas, commits)
    ensures FirstLost(cas, commits, i, n)
  {
    hide Available, FirstLostPage;
    var c :| c in commits && !Available(cas, c);
    var last := |commits| - 1;
    assert commits == commits[..last] + [commits[last]];
    if Incomplete(cas, commits[..last]) {
      i, n := SomeIsFirstLost(cas, commits[..last]);
    } else {
      forall j | 0 <= j < last ensures Available(cas, commits[j]) {
        assert commits[j] in commits[..last];
      }
      i := last;
      n := LeastLost(cas, commits[last]);
    }
  }

  lemma LeastLost(cas: Cas, c: LoggedCommit) returns (n: PageNo)
    requires !Available(cas, c)
    ensures FirstLostPage(cas, c.changes, n)
  {
    var lost := set p | p in c.changes.Keys && Lost(cas, c.changes, p);
    var p :| p in c.changes && c.changes[p].Some? && c.changes[p].value !in cas;
    assert p in lost;
    n := Least(lost);
    forall m: nat | m < n ensures !Lost(cas, c.changes, m) {
      assert m !in lost;
    }
  }

  /** A follower that has everything is refused as well: its own position is found by building every
      shipment from the start. */
  lemma EarlierPageRefusesAll(a: Bytes)
    ensures var src := OneCommitSource(a).(cas := map[]);
      var e := MissingPage(1, 0, PageId(a));
      && CatchUpFrom(Follower(map[], Root(1), None), src).Outcome() == Err(e)
      && CatchUpFrom(Follower(map[PageId(a) := a], OneCommit(a), None), src).Outcome() == Err(e)
      && CatchUpFrom(Follower(map[PageId(a) := a], OneCommit(a), None), OneCommitSource(a)).Outcome() == Ok(0)
  {
    hide CatchUpFrom, Genuine;
    var whole := OneCommitSource(a);
    var c := LoggedCommit(Root(1), OneCommit(a), 1, 7, map[0 := Some(PageId(a))]);
    OneCommitServes(a);
    SameCommits(whole, map[]);
    assert FirstLost(map[], [c], 0, 0);
    LostPageStopsAll(Follower(map[], Root(1), None), whole.(cas := map[]), 0, 0, 0);
    LostPageStopsAll(Follower(map[PageId(a) := a], OneCommit(a), None), whole.(cas := map[]), 0, 0, 0);
    CatchUpExact(Follower(map[PageId(a) := a], OneCommit(a), None), whole, Root(1), [c], 1);
  }

  /** What the log says does not depend on what the store has. */
  lemma SameCommits(src: Source, cas: Cas)
    requires Progresses(src.codec)
    ensures Commits(src.(cas := cas)) == Commits(src)
  {
  }
}
