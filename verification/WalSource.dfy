/** The primary side of shipping: fold a write-ahead log into one shipment per commit. */
module WalSource {
  import opened Substrate
  import opened WalFrames
  import opened WalReader

  type Lsn = nat

  datatype RecordKind =
    | Write(pageNo: PageNo, page: Option<PageId>)
    | Commit(manifest: Manifest, createdAtMs: nat)
    | Checkpoint(manifest: Manifest)

  datatype Record = Record(lsn: Lsn, kind: RecordKind)

  datatype PageWrite = PageWrite(pageNo: PageNo, page: Option<PageId>)
  datatype PageBlob = PageBlob(id: PageId, bytes: Bytes)

  datatype SyncError =
    | OutOfOrder(lsn: Lsn, expectedBase: Manifest, head: Manifest)
    | Diverged(lsn: Lsn, expected: Manifest, got: Manifest)
    | PageHashMismatch(pageNo: PageNo, claimed: PageId, actual: PageId)
    | MissingPage(lsn: Lsn, pageNo: PageNo, pageId: PageId)
    | FollowerUnknown(head: Manifest)

  /** The bytes carried for a page id: the first blob filed under it. */
  function FindBlob(blobs: seq<PageBlob>, id: PageId): Option<Bytes> {
    if blobs == [] then None
    else if blobs[0].id == id then Some(blobs[0].bytes)
    else FindBlob(blobs[1..], id)
  }

  /** That is: bytes carried for the id, before any others that claim it; and none only if none do. */
  lemma {:induction false} FindBlobIsFirst(blobs: seq<PageBlob>, id: PageId)
    ensures FindBlob(blobs, id).None? <==> forall i :: 0 <= i < |blobs| ==> blobs[i].id != id
    ensures forall i :: 0 <= i < |blobs| && blobs[i].id == id && (forall j :: 0 <= j < i ==> blobs[j].id != id) ==>
      FindBlob(blobs, id) == Some(blobs[i].bytes)
  {
    if blobs != [] {
      FindBlobIsFirst(blobs[1..], id);
      assert forall i :: 0 < i < |blobs| ==> blobs[i] == blobs[1..][i - 1];
      forall i | 0 <= i < |blobs| && blobs[i].id == id && (forall j :: 0 <= j < i ==> blobs[j].id != id)
        ensures FindBlob(blobs, id) == Some(blobs[i].bytes)
      {
        if i > 0 {
          assert forall j :: 0 <= j < i - 1 ==> blobs[1..][j] == blobs[j + 1];
          assert blobs[1..][i - 1].id == id;
        }
      }
    }
  }

  datatype Shipment = Shipment(
    base: Manifest,
    manifest: Manifest,
    commitLsn: Lsn,
    createdAtMs: nat,
    writes: seq<PageWrite>,
    pages: seq<PageBlob>)
  {
    function BytesFor(id: PageId): Option<Bytes> {
      FindBlob(pages, id)
    }
  }

  datatype Marker = Marker(manifest: Manifest, lsn: Lsn)

  /** A read-only view of a primary: its log directory and its content-addressed store. */
  datatype Source = Source(
    codec: Codec<Record>,
    checkpointFile: Option<Bytes>,
    segments: seq<Bytes>,
    cas: Cas,
    pageSize: nat)
  {
    /** The durable checkpoint marker. A torn marker, or one holding another kind of record, is
        ignored. */
    function ReadCheckpoint(): Option<Marker> {
      match checkpointFile
      case None => None
      case Some(bytes) =>
        match codec.decode(bytes)
        case Decoded(Record(lsn, Checkpoint(manifest)), _) => Some(Marker(manifest, lsn))
        case _ => None
    }

    function StartHead(): Manifest {
      match ReadCheckpoint()
      case Some(marker) => marker.manifest
      case None => Root(pageSize)
    }

    function CheckpointLsn(): Option<Lsn> {
      match ReadCheckpoint()
      case Some(marker) => Some(marker.lsn)
      case None => None
    }
  }

  /** What counts as a durable marker: a file that decodes, to a checkpoint record. */
  lemma ReadCheckpointIff(src: Source, manifest: Manifest, lsn: Lsn)
    ensures src.ReadCheckpoint() == Some(Marker(manifest, lsn)) <==>
      && src.checkpointFile.Some?
      && var read := src.codec.decode(src.checkpointFile.value);
      && read.Decoded? && read.record == Record(lsn, Checkpoint(manifest))
    ensures src.ReadCheckpoint() == None ==> src.StartHead() == Root(src.pageSize) && src.CheckpointLsn() == None
    ensures src.ReadCheckpoint() == Some(Marker(manifest, lsn)) ==>
      src.StartHead() == manifest && src.CheckpointLsn() == Some(lsn)
  {
  }

  /** One commit as the log describes it: what it builds on, what it produced, what it changed. */
  datatype LoggedCommit = LoggedCommit(
    base: Manifest,
    manifest: Manifest,
    lsn: Lsn,
    createdAtMs: nat,
    changes: Changes)

  datatype Fold = Fold(base: Manifest, pending: Changes, commits: seq<LoggedCommit>)

  predicate Covers(checkpoint: Option<Lsn>, r: Record) {
    checkpoint.Some? && r.lsn <= checkpoint.value
  }

  function FoldRecord(st: Fold, r: Record): Fold {
    match r.kind
    case Write(pageNo, page) => st.(pending := st.pending[pageNo := page])
    case Commit(manifest, createdAtMs) =>
      Fold(manifest, map[],
        st.commits + [LoggedCommit(st.base, manifest, r.lsn, createdAtMs, st.pending)])
    case Checkpoint(manifest) => Fold(manifest, map[], st.commits)
  }

  function FoldLog(checkpoint: Option<Lsn>, st: Fold, records: seq<Record>): Fold {
    if records == [] then st else
      var n := |records| - 1;
      var before := FoldLog(checkpoint, st, records[..n]);
      if Covers(checkpoint, records[n]) then before else FoldRecord(before, records[n])
  }

  function Begin(base: Manifest): Fold {
    Fold(base, map[], [])
  }

  /** Everything the source can ship, in commit order. */
  function Commits(src: Source): seq<LoggedCommit>
    requires Progresses(src.codec)
  {
    FoldLog(src.CheckpointLsn(), Begin(src.StartHead()), ReadLog(src.codec, src.segments)).commits
  }

  function From(commits: seq<LoggedCommit>, from: Lsn): seq<LoggedCommit> {
    if commits == [] then [] else
      var n := |commits| - 1;
      From(commits[..n], from) + (if commits[n].lsn >= from then [commits[n]] else [])
  }

  datatype Parcel = Parcel(writes: seq<PageWrite>, blobs: seq<PageBlob>)

  function AddPage(cas: Cas, page: Option<PageId>, pageNo: PageNo, lsn: Lsn, parcel: Parcel)
    : Result<Parcel, SyncError>
  {
    var writes := parcel.writes + [PageWrite(pageNo, page)];
    if page.None? || FindBlob(parcel.blobs, page.value).Some? then Ok(Parcel(writes, parcel.blobs))
    else if page.value in cas then
      Ok(Parcel(writes, parcel.blobs + [PageBlob(page.value, cas[page.value])]))
    else Err(MissingPage(lsn, pageNo, page.value))
  }

  function Assemble(cas: Cas, changes: Changes, keys: seq<PageNo>, lsn: Lsn): Result<Parcel, SyncError>
    requires forall k :: k in keys ==> k in changes
  {
    if keys == [] then Ok(Parcel([], [])) else
      var n := |keys| - 1;
      match Assemble(cas, changes, keys[..n], lsn)
      case Err(e) => Err(e)
      case Ok(parcel) => AddPage(cas, changes[keys[n]], keys[n], lsn, parcel)
  }

  function Build(cas: Cas, c: LoggedCommit): Result<Shipment, SyncError> {
    match Assemble(cas, c.changes, Ascending(c.changes.Keys), c.lsn)
    case Err(e) => Err(e)
    case Ok(parcel) =>
      Ok(Shipment(c.base, c.manifest, c.lsn, c.createdAtMs, parcel.writes, parcel.blobs))
  }

  function BuildAll(cas: Cas, commits: seq<LoggedCommit>): Result<seq<Shipment>, SyncError> {
    if commits == [] then Ok([]) else
      var n := |commits| - 1;
      match BuildAll(cas, commits[..n])
      case Err(e) => Err(e)
      case Ok(shipped) =>
        match Build(cas, commits[n])
        case Err(e) => Err(e)
        case Ok(s) => Ok(shipped + [s])
  }

  function Shipments(src: Source, from: Lsn): Result<seq<Shipment>, SyncError>
    requires Progresses(src.codec)
  {
    BuildAll(src.cas, From(Commits(src), from))
  }

  // ---- The loops, proved against the fold -------------------------------------------------

  method BuildShipment(cas: Cas, base: Manifest, manifest: Manifest, lsn: Lsn, createdAtMs: nat, writes: Changes)
    returns (r: Result<Shipment, SyncError>)
    ensures r == Build(cas, LoggedCommit(base, manifest, lsn, createdAtMs, writes))
  {
    hide Ascending, Assemble;
    var parcel := Gather(cas, writes, Ascending(writes.Keys), lsn);
    if parcel.Err? {
      return Err(parcel.error);
    }
    return Ok(Shipment(base, manifest, lsn, createdAtMs, parcel.value.writes, parcel.value.blobs));
  }

  method Gather(cas: Cas, writes: Changes, keys: seq<PageNo>, lsn: Lsn) returns (r: Result<Parcel, SyncError>)
    requires forall k :: k in keys ==> k in writes
    ensures r == Assemble(cas, writes, keys, lsn)
  {
    var pageWrites: seq<PageWrite> := [];
    var blobs: seq<PageBlob> := [];
    for i := 0 to |keys|
      invariant Assemble(cas, writes, keys[..i], lsn) == Ok(Parcel(pageWrites, blobs))
    {
      AssembleStep(cas, writes, keys, i, lsn);
      match AddPage(cas, writes[keys[i]], keys[i], lsn, Parcel(pageWrites, blobs)) {
        case Ok(parcel) =>
          pageWrites, blobs := parcel.writes, parcel.blobs;
        case Err(e) =>
          AssembleStopsAtError(cas, writes, keys, i + 1, lsn);
          return Err(e);
      }
    }
    assert keys[..|keys|] == keys;
    return Ok(Parcel(pageWrites, blobs));
  }

  lemma AssembleStep(cas: Cas, changes: Changes, keys: seq<PageNo>, i: nat, lsn: Lsn)
    requires forall k :: k in keys ==> k in changes
    requires i < |keys| && Assemble(cas, changes, keys[..i], lsn).Ok?
    ensures Assemble(cas, changes, keys[..i + 1], lsn)
         == AddPage(cas, changes[keys[i]], keys[i], lsn, Assemble(cas, changes, keys[..i], lsn).value)
  {
    assert keys[..i + 1][..i] == keys[..i];
  }

  lemma {:induction false} AssembleStopsAtError(cas: Cas, changes: Changes, keys: seq<PageNo>, i: nat, lsn: Lsn)
    requires forall k :: k in keys ==> k in changes
    requires i <= |keys|
    requires Assemble(cas, changes, keys[..i], lsn).Err?
    ensures Assemble(cas, changes, keys, lsn) == Assemble(cas, changes, keys[..i], lsn)
  {
    if i == |keys| {
      assert keys[..i] == keys;
    } else {
      var n := |keys| - 1;
      assert keys[..n][..i] == keys[..i];
      AssembleStopsAtError(cas, changes, keys[..n], i, lsn);
    }
  }

  method ShipmentsFrom(src: Source, from: Lsn) returns (r: Result<seq<Shipment>, SyncError>)
    requires Progresses(src.codec)
    ensures r == Shipments(src, from)
  {
    var records := Records(src.codec, src.segments);
    r := FoldRecords(src.cas, src.CheckpointLsn(), src.StartHead(), records, from);
  }

  /** The fold itself: `base` and `pending` follow every record the checkpoint does not cover;
      `from` gates only what is emitted. */
  method FoldRecords(cas: Cas, checkpointLsn: Option<Lsn>, startHead: Manifest, records: seq<Record>, from: Lsn)
    returns (r: Result<seq<Shipment>, SyncError>)
    ensures r == BuildAll(cas, From(FoldLog(checkpointLsn, Begin(startHead), records).commits, from))
  {
    hide FoldLog, BuildAll, From;
    var base := startHead;
    var pending: Changes := map[];
    var out: seq<Shipment> := [];
    ghost var commits: seq<LoggedCommit> := [];
    NothingFolded(cas, checkpointLsn, startHead, from);
    assert records[..0] == [];
    for i := 0 to |records|
      invariant FoldLog(checkpointLsn, Begin(startHead), records[..i]) == Fold(base, pending, commits)
      invariant BuildAll(cas, From(commits, from)) == Ok(out)
    {
      var record := records[i];
      FoldStep(checkpointLsn, Begin(startHead), records, i);
      if checkpointLsn.Some? && record.lsn <= checkpointLsn.value {
        continue;
      }
      match record.kind {
        case Write(pageNo, page) =>
          pending := pending[pageNo := page];
        case Commit(manifest, createdAtMs) =>
          var writes := pending;
          pending := map[];
          var commit := LoggedCommit(base, manifest, record.lsn, createdAtMs, writes);
          var emitted := Emit(cas, commit, from, out, commits);
          commits := commits + [commit];
          if emitted.Err? {
            ShippingStopsAtError(cas, checkpointLsn, Begin(startHead), records, i + 1, from);
            return emitted;
          }
          out := emitted.value;
          base := manifest;
        case Checkpoint(manifest) =>
          base := manifest;
          pending := map[];
      }
    }
    assert records[..|records|] == records;
    return Ok(out);
  }

  lemma NothingFolded(cas: Cas, checkpoint: Option<Lsn>, startHead: Manifest, from: Lsn)
    ensures FoldLog(checkpoint, Begin(startHead), []) == Fold(startHead, map[], [])
    ensures BuildAll(cas, From([], from)) == Ok([])
  {
  }

  /** Emit one commit, if it is wanted. */
  method Emit(cas: Cas, c: LoggedCommit, from: Lsn, out: seq<Shipment>, ghost before: seq<LoggedCommit>)
    returns (r: Result<seq<Shipment>, SyncError>)
    requires BuildAll(cas, From(before, from)) == Ok(out)
    ensures r == BuildAll(cas, From(before + [c], from))
  {
    ShipStep(cas, before, c, from, out);
    if c.lsn >= from {
      var built := BuildShipment(cas, c.base, c.manifest, c.lsn, c.createdAtMs, c.changes);
      if built.Err? {
        return Err(built.error);
      }
      return Ok(out + [built.value]);
    }
    return Ok(out);
  }

  lemma {:induction false} ShipStep(cas: Cas, commits: seq<LoggedCommit>, c: LoggedCommit, from: Lsn,
                                    out: seq<Shipment>)
    requires BuildAll(cas, From(commits, from)) == Ok(out)
    ensures BuildAll(cas, From(commits + [c], from)) ==
      if c.lsn < from then Ok(out)
      else if Build(cas, c).Err? then Err(Build(cas, c).error)
      else Ok(out + [Build(cas, c).value])
  {
    hide From, BuildAll, Build;
    FromSnoc(commits, c, from);
    BuildAllSnoc(cas, From(commits, from), c);
    assert From(commits, from) + [] == From(commits, from);
  }

  lemma {:induction false} FoldStep(checkpoint: Option<Lsn>, st: Fold, records: seq<Record>, i: nat)
    requires i < |records|
    ensures var before := FoldLog(checkpoint, st, records[..i]);
      FoldLog(checkpoint, st, records[..i + 1])
      == if Covers(checkpoint, records[i]) then before else FoldRecord(before, records[i])
  {
    assert records[..i + 1][..i] == records[..i];
  }

  lemma {:induction false} FromSnoc(commits: seq<LoggedCommit>, c: LoggedCommit, from: Lsn)
    ensures From(commits + [c], from) == From(commits, from) + (if c.lsn >= from then [c] else [])
  {
    assert (commits + [c])[..|commits|] == commits;
  }

  lemma {:induction false} BuildAllSnoc(cas: Cas, commits: seq<LoggedCommit>, c: LoggedCommit)
    requires BuildAll(cas, commits).Ok?
    ensures BuildAll(cas, commits + [c]) ==
      if Build(cas, c).Err? then Err(Build(cas, c).error)
      else Ok(BuildAll(cas, commits).value + [Build(cas, c).value])
  {
    hide Build;
    assert (commits + [c])[..|commits|] == commits;
  }

  lemma {:induction false} FoldGrows(checkpoint: Option<Lsn>, st: Fold, records: seq<Record>, i: nat)
    requires i <= |records|
    ensures FoldLog(checkpoint, st, records[..i]).commits <= FoldLog(checkpoint, st, records).commits
  {
    if i == |records| {
      assert records[..i] == records;
    } else {
      var n := |records| - 1;
      assert records[..n][..i] == records[..i];
      FoldGrows(checkpoint, st, records[..n], i);
    }
  }

  lemma {:induction false} FromGrows(commits: seq<LoggedCommit>, i: nat, from: Lsn)
    requires i <= |commits|
    ensures From(commits[..i], from) <= From(commits, from)
  {
    if i == |commits| {
      assert commits[..i] == commits;
    } else {
      var n := |commits| - 1;
      assert commits[..n][..i] == commits[..i];
      FromGrows(commits[..n], i, from);
    }
  }

  lemma {:induction false} BuildAllPrefix(cas: Cas, commits: seq<LoggedCommit>, i: nat)
    requires i <= |commits|
    ensures BuildAll(cas, commits[..i]).Err? ==> BuildAll(cas, commits) == BuildAll(cas, commits[..i])
    ensures BuildAll(cas, commits).Ok? ==>
      BuildAll(cas, commits[..i]).Ok? && BuildAll(cas, commits[..i]).value <= BuildAll(cas, commits).value
  {
    if i == |commits| {
      assert commits[..i] == commits;
    } else {
      var n := |commits| - 1;
      assert commits[..n][..i] == commits[..i];
      BuildAllPrefix(cas, commits[..n], i);
    }
  }

  lemma ShippingStopsAtError(cas: Cas, checkpoint: Option<Lsn>, st: Fold, records: seq<Record>, i: nat, from: Lsn)
    requires i <= |records|
    requires BuildAll(cas, From(FoldLog(checkpoint, st, records[..i]).commits, from)).Err?
    ensures BuildAll(cas, From(FoldLog(checkpoint, st, records).commits, from))
         == BuildAll(cas, From(FoldLog(checkpoint, st, records[..i]).commits, from))
  {
    var some := FoldLog(checkpoint, st, records[..i]).commits;
    var all := FoldLog(checkpoint, st, records).commits;
    FoldGrows(checkpoint, st, records, i);
    FromGrows(all, |some|, from);
    assert all[..|some|] == some;
    var wanted := From(all, from);
    BuildAllPrefix(cas, wanted, |From(some, from)|);
    assert wanted[..|From(some, from)|] == From(some, from);
  }

  function Position(shipments: seq<Shipment>, head: Manifest): Option<Lsn> {
    if shipments == [] then None
    else if shipments[0].manifest == head then Some(shipments[0].commitLsn + 1)
    else Position(shipments[1..], head)
  }

  /** Past the first shipment that made the head, if one did. */
  lemma {:induction false} PositionIsPastFirst(shipments: seq<Shipment>, head: Manifest, i: nat)
    requires i <= |shipments| && forall j :: 0 <= j < i ==> shipments[j].manifest != head
    requires i < |shipments| ==> shipments[i].manifest == head
    ensures Position(shipments, head) == if i < |shipments| then Some(shipments[i].commitLsn + 1) else None
  {
    if i > 0 {
      assert forall j :: 0 <= j < i - 1 ==> shipments[1..][j] == shipments[j + 1];
      PositionIsPastFirst(shipments[1..], head, i - 1);
    }
  }

  function Resume(src: Source, head: Manifest): Result<Lsn, SyncError>
    requires Progresses(src.codec)
  {
    if head == src.StartHead() then Ok(0) else
      match Shipments(src, 0)
      case Err(e) => Err(e)
      case Ok(shipments) =>
        match Position(shipments, head)
        case Some(lsn) => Ok(lsn)
        case None => Err(FollowerUnknown(head))
  }

  method ResumeAfter(src: Source, head: Manifest) returns (r: Result<Lsn, SyncError>)
    requires Progresses(src.codec)
    ensures r == Resume(src, head)
  {
    hide Shipments, Position;
    if head == src.StartHead() {
      return Ok(0);
    }
    var shipments := ShipmentsFrom(src, 0);
    if shipments.Err? {
      return Err(shipments.error);
    }
    var position := Scan(shipments.value, head);
    if position.None? {
      return Err(FollowerUnknown(head));
    }
    return Ok(position.value);
  }

  method Scan(shipments: seq<Shipment>, head: Manifest) returns (position: Option<Lsn>)
    ensures position == Position(shipments, head)
  {
    for i := 0 to |shipments|
      invariant Position(shipments, head) == Position(shipments[i..], head)
    {
      PositionStep(shipments, i, head);
      if shipments[i].manifest == head {
        return Some(shipments[i].commitLsn + 1);
      }
    }
    return None;
  }

  lemma PositionStep(shipments: seq<Shipment>, i: nat, head: Manifest)
    requires i < |shipments|
    ensures Position(shipments[i..], head) ==
      if shipments[i].manifest == head then Some(shipments[i].commitLsn + 1)
      else Position(shipments[i + 1..], head)
  {
    assert shipments[i..][1..] == shipments[i + 1..];
  }

  /** The manifest as of `lsn`, scanning in order and stopping at the first later commit. */
  function LastAtOrBefore(shipments: seq<Shipment>, lsn: Lsn): Option<Manifest> {
    if shipments == [] || shipments[0].commitLsn > lsn then None else
      match LastAtOrBefore(shipments[1..], lsn)
      case Some(m) => Some(m)
      case None => Some(shipments[0].manifest)
  }

  function AsOf(src: Source, lsn: Lsn): Result<Option<Manifest>, SyncError>
    requires Progresses(src.codec)
  {
    match Shipments(src, 0)
    case Err(e) => Err(e)
    case Ok(shipments) => Ok(LastAtOrBefore(shipments, lsn))
  }

  method ManifestAt(src: Source, lsn: Lsn) returns (r: Result<Option<Manifest>, SyncError>)
    requires Progresses(src.codec)
    ensures r == AsOf(src, lsn)
  {
    var shipments := ShipmentsFrom(src, 0);
    if shipments.Err? {
      return Err(shipments.error);
    }
    var at: Option<Manifest> := None;
    for i := 0 to |shipments.value|
      invariant var rest := LastAtOrBefore(shipments.value[i..], lsn);
        LastAtOrBefore(shipments.value, lsn) == if rest.Some? then rest else at
    {
      var s := shipments.value[i];
      assert shipments.value[i..][1..] == shipments.value[i + 1..];
      if s.commitLsn <= lsn {
        at := Some(s.manifest);
      } else {
        break;
      }
    }
    return Ok(at);
  }
}
