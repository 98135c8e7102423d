/** The vocabulary FlockDB borrows from the page store underneath it: pages named by their
    content, manifests named by everything that is in them, and the algebra of change sets.

    A page id is a content hash and a manifest id is the hash of the manifest's bytes.  Both are
    modelled as injective: a page id is its content, a manifest id is the manifest value. */
module Substrate {

  newtype Byte = b: int | 0 <= b < 256
  type Bytes = seq<Byte>
  type PageNo = nat

  datatype Option<+T> = None | Some(value: T)
  datatype Result<+T, +E> = Ok(value: T) | Err(error: E)

  datatype PageId = PageId(content: Bytes)

  function HashPage(bytes: Bytes): PageId {
    PageId(bytes)
  }

  /** A content-addressed store, as a partial map from page id to the bytes filed under it. */
  type Cas = map<PageId, Bytes>

  /** Every page is filed under the name its bytes hash to. */
  ghost predicate Addressed(cas: Cas) {
    forall id :: id in cas ==> HashPage(cas[id]) == id
  }

  type PageMap = map<PageNo, PageId>
  type Changes = map<PageNo, Option<PageId>>

  /** `Overlay` resolves through `base` (the storage edge); `parent` is the history edge. */
  datatype Manifest =
    | Root(pageSize: nat)
    | Full(pages: PageMap, parent: Manifest, createdAtMs: nat)
    | Overlay(base: Manifest, parent: Manifest, changes: Changes, createdAtMs: nat)

  function ApplyChanges(pages: PageMap, changes: Changes): PageMap {
    map p | p in pages.Keys + changes.Keys && (p in changes ==> changes[p].Some?)
      :: if p in changes then changes[p].value else pages[p]
  }

  function Resolve(m: Manifest): PageMap {
    match m
    case Root(_) => map[]
    case Full(pages, _, _) => pages
    case Overlay(base, _, changes, _) => ApplyChanges(Resolve(base), changes)
  }

  function Derive(head: Manifest, changes: Changes, nowMs: nat): Manifest {
    Overlay(head, head, changes, nowMs)
  }

  /** The head after committing `changes` on `head`: a transaction that changes no page is not a
      commit and leaves the head where it was. */
  function CommitTo(head: Manifest, changes: Changes, nowMs: nat): Manifest {
    if ApplyChanges(Resolve(head), changes) == Resolve(head) then head
    else Derive(head, changes, nowMs)
  }

  /** The length of a manifest's history. Ids cannot repeat along a chain of commits. */
  function Height(m: Manifest): nat {
    match m
    case Root(_) => 0
    case Full(_, parent, _) => Height(parent) + 1
    case Overlay(_, parent, _, _) => Height(parent) + 1
  }

  /** `a` is `m` or one of the manifests in its history. */
  predicate Descends(m: Manifest, a: Manifest) {
    m == a || (!m.Root? && Descends(m.parent, a))
  }

  /** Every page the manifest resolves to is filed in the store. */
  ghost predicate Stored(cas: Cas, m: Manifest) {
    forall p :: p in Resolve(m) ==> Resolve(m)[p] in cas
  }

  /** What reading logical page `p` as of manifest `m` yields. */
  function ReadPage(cas: Cas, m: Manifest, p: PageNo): Option<Bytes> {
    var pages := Resolve(m);
    if p in pages && pages[p] in cas then Some(cas[pages[p]]) else None
  }

  /** The least element of a non-empty set, and the set in ascending order: the iteration order
      of an ordered map. */
  function Least(s: set<nat>): (least: nat)
    requires s != {}
    ensures least in s && forall x :: x in s ==> least <= x
  {
    LeastExists(s);
    var least :| least in s && forall x :: x in s ==> least <= x;
    least
  }

  lemma LeastExists(s: set<nat>)
    requires s != {}
    ensures exists x :: x in s && forall y :: y in s ==> x <= y
  {
    var x :| x in s;
    while exists y :: y in s && y < x
      invariant x in s
      decreases x
    {
      var y :| y in s && y < x;
      x := y;
    }
  }

  function Ascending(s: set<nat>): (keys: seq<nat>)
    ensures |keys| == |s|
    ensures forall x :: x in keys <==> x in s
    ensures forall i, j :: 0 <= i < j < |keys| ==> keys[i] < keys[j]
  {
    if s == {} then [] else
      var least := Least(s);
      var rest := Ascending(s - {least});
      AscendingStep(s, least, rest);
      [least] + rest
  }

  lemma AscendingStep(s: set<nat>, least: nat, rest: seq<nat>)
    requires least in s && forall x :: x in s ==> least <= x
    requires |rest| == |s - {least}|
    requires forall x :: x in rest <==> x in s - {least}
    requires forall i, j :: 0 <= i < j < |rest| ==> rest[i] < rest[j]
    ensures |[least] + rest| == |s|
    ensures forall x :: x in [least] + rest <==> x in s
    ensures forall i, j :: 0 <= i < j < |[least] + rest| ==> ([least] + rest)[i] < ([least] + rest)[j]
  {
    forall i, j | 0 <= i < j < |[least] + rest| ensures ([least] + rest)[i] < ([least] + rest)[j] {
      if i == 0 {
        assert rest[j - 1] in rest;
      }
    }
  }

  function Elements<T(==)>(s: seq<T>): set<T> {
    set x | x in s
  }

  ghost predicate Unrepeated<T>(s: seq<T>) {
    forall i, j :: 0 <= i < j < |s| ==> s[i] != s[j]
  }

  lemma {:induction false} DistinctCount<T>(s: seq<T>)
    requires Unrepeated(s)
    ensures |Elements(s)| == |s|
  {
    if s != [] {
      var n := |s| - 1;
      DistinctCount(s[..n]);
      assert s == s[..n] + [s[n]];
      assert Elements(s) == Elements(s[..n]) + {s[n]};
    }
  }

  lemma DescendsTransitive(m: Manifest, a: Manifest, b: Manifest)
    requires Descends(m, a) && Descends(a, b)
    ensures Descends(m, b)
  {
    if m != a {
      DescendsTransitive(m.parent, a, b);
    }
  }

  lemma CommitResolves(head: Manifest, changes: Changes, nowMs: nat)
    ensures Resolve(CommitTo(head, changes, nowMs)) == ApplyChanges(Resolve(head), changes)
    ensures Descends(CommitTo(head, changes, nowMs), head)
  {
  }

  lemma StoredGrows(cas: Cas, cas': Cas, m: Manifest)
    requires Stored(cas, m) && cas.Keys <= cas'.Keys
    ensures Stored(cas', m)
  {
  }

  /** Two honest stores that both hold a manifest's pages read it identically. */
  lemma ReadsAgree(a: Cas, b: Cas, m: Manifest, p: PageNo)
    requires Addressed(a) && Addressed(b) && Stored(a, m) && Stored(b, m)
    ensures ReadPage(a, m, p) == ReadPage(b, m, p)
    ensures ReadPage(a, m, p).Some? <==> p in Resolve(m)
  {
    if p in Resolve(m) {
      var id := Resolve(m)[p];
      assert HashPage(a[id]) == id == HashPage(b[id]);
    }
  }
}
