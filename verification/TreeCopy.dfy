/** Adopting a tree of immutable, hash-named files: a plain copy with no merge and no conflict. */
module TreeCopy {
  import opened Substrate

  // ---- A flat list of files ------------------------------------------------------------------

  /** What copying a file makes of the destination: one that is there stays as it is. */
  function CopyOne<K, V>(dst: map<K, V>, name: K, file: V): map<K, V> {
    if name in dst then dst else dst[name := file]
  }

  function Wrote<K, V>(dst: map<K, V>, name: K): nat {
    if name in dst then 0 else 1
  }

  /** What copying files in listing order makes of the destination, and how many were written. */
  function CopyFiles<K, V>(files: seq<(K, V)>, dst: map<K, V>): (map<K, V>, nat) {
    if files == [] then (dst, 0) else
      var (after, copied) := CopyFiles(files[..|files| - 1], dst);
      var (name, file) := files[|files| - 1];
      (CopyOne(after, name, file), copied + Wrote(after, name))
  }

  /** The first of `files` with this name. */
  function FirstNamed<K(==), V>(files: seq<(K, V)>, name: K): Option<V> {
    if files == [] then None
    else if FirstNamed(files[..|files| - 1], name).Some? then FirstNamed(files[..|files| - 1], name)
    else if files[|files| - 1].0 == name then Some(files[|files| - 1].1)
    else None
  }

  function Find<K, V>(files: map<K, V>, name: K): Option<V> {
    if name in files then Some(files[name]) else None
  }

  lemma {:induction false} CopyFilesSnoc<K, V>(files: seq<(K, V)>, name: K, file: V, dst: map<K, V>)
    ensures var (after, copied) := CopyFiles(files, dst);
      CopyFiles(files + [(name, file)], dst) == (CopyOne(after, name, file), copied + Wrote(after, name))
  {
    var all := files + [(name, file)];
    assert all[..|files|] == files && all[|files|] == (name, file);
  }

  /** Under any name, the destination ends with what it had, or else the first of the files so named. */
  lemma {:induction false} CopyFinds<K, V>(files: seq<(K, V)>, dst: map<K, V>, name: K)
    ensures Find(CopyFiles(files, dst).0, name) ==
      if name in dst then Some(dst[name]) else FirstNamed(files, name)
  {
    if files != [] {
      CopyFinds(files[..|files| - 1], dst, name);
    }
  }

  /** It grows by exactly the number of files written. */
  lemma {:induction false} CopyCounts<K, V>(files: seq<(K, V)>, dst: map<K, V>)
    ensures var (after, copied) := CopyFiles(files, dst);
      |after| == |dst| + copied
  {
    if files != [] {
      CopyCounts(files[..|files| - 1], dst);
      var (name, file) := files[|files| - 1];
      OneMoreKey(CopyFiles(files[..|files| - 1], dst).0, name, file);
    }
  }

  lemma OneMoreKey<K, V>(dst: map<K, V>, name: K, file: V)
    ensures |CopyOne(dst, name, file)| == |dst| + Wrote(dst, name)
  {
    if name !in dst {
      assert dst[name := file].Keys == dst.Keys + {name};
    }
  }

  lemma {:induction false} CopyFilesConcat<K, V>(a: seq<(K, V)>, b: seq<(K, V)>, dst: map<K, V>)
    ensures var (middle, first) := CopyFiles(a, dst);
      var (after, second) := CopyFiles(b, middle);
      CopyFiles(a + b, dst) == (after, first + second)
  {
    if b == [] {
      assert a + b == a;
    } else {
      var n := |b| - 1;
      CopyFilesConcat(a, b[..n], dst);
      assert (a + b)[..|a| + n] == a + b[..n];
    }
  }

  // ---- A tree of directories -----------------------------------------------------------------

  type Path = seq<string>

  datatype Node = File(bytes: Bytes) | Dir(entries: seq<Entry>)
  datatype Entry = Entry(name: string, node: Node)

  /** Every file of a listing, depth first, under its path. */
  function Listed(entries: seq<Entry>, at: Path): seq<(Path, Bytes)> {
    if entries == [] then [] else
      var last := entries[|entries| - 1];
      Listed(entries[..|entries| - 1], at) + FilesOf(last.node, at + [last.name])
  }

  function FilesOf(node: Node, at: Path): seq<(Path, Bytes)> {
    match node
    case File(bytes) => [(at, bytes)]
    case Dir(entries) => Listed(entries, at)
  }

  /** Copy a directory: nothing for a source that is not one, and directories inside it in turn. */
  method CopyTree(src: Option<Node>, at: Path, dst: map<Path, Bytes>) returns (copied: nat, after: map<Path, Bytes>)
    ensures src.Some? && src.value.Dir? ==> (after, copied) == CopyFiles(FilesOf(src.value, at), dst)
    ensures src.None? || src.value.File? ==> (after, copied) == (dst, 0)
  {
    if src.None? || src.value.File? {
      return 0, dst;
    }
    copied, after := CopyEntries(src.value.entries, at, dst);
  }

  method CopyEntries(entries: seq<Entry>, at: Path, dst: map<Path, Bytes>)
    returns (copied: nat, after: map<Path, Bytes>)
    ensures (after, copied) == CopyFiles(Listed(entries, at), dst)
    decreases entries
  {
    hide CopyFiles, FilesOf, Listed;
    copied, after := 0, dst;
    NothingListed(at, dst);
    assert entries[..0] == [];
    for k := 0 to |entries|
      invariant (after, copied) == CopyFiles(Listed(entries[..k], at), dst)
    {
      var entry := entries[k];
      ListedSnoc(entries, at, k);
      FilesOfNode(entry.node, at + [entry.name]);
      CopyFilesConcat(Listed(entries[..k], at), FilesOf(entry.node, at + [entry.name]), dst);
      if entry.node.Dir? {
        var more, grown := CopyEntries(entry.node.entries, at + [entry.name], after);
        copied, after := copied + more, grown;
        continue;
      }
      OneFile(at + [entry.name], entry.node.bytes, after);
      if at + [entry.name] !in after {
        after := after[at + [entry.name] := entry.node.bytes];
        copied := copied + 1;
      }
    }
    assert entries[..|entries|] == entries;
  }

  lemma NothingListed(at: Path, dst: map<Path, Bytes>)
    ensures CopyFiles(Listed([], at), dst) == (dst, 0)
  {
  }

  lemma FilesOfNode(node: Node, at: Path)
    ensures FilesOf(node, at) == if node.File? then [(at, node.bytes)] else Listed(node.entries, at)
  {
  }

  lemma ListedSnoc(entries: seq<Entry>, at: Path, k: nat)
    requires k < |entries|
    ensures Listed(entries[..k + 1], at)
         == Listed(entries[..k], at) + FilesOf(entries[k].node, at + [entries[k].name])
  {
    assert entries[..k + 1][..k] == entries[..k];
  }

  lemma OneFile<K, V>(name: K, file: V, dst: map<K, V>)
    ensures CopyFiles([(name, file)], dst) == (CopyOne(dst, name, file), Wrote(dst, name))
  {
    CopyFilesSnoc([], name, file, dst);
    assert [] + [(name, file)] == [(name, file)];
  }

  // ---- What a listing lists ------------------------------------------------------------------

  /** No directory has two entries of one name. */
  ghost predicate Proper(node: Node) {
    node.Dir? ==> ProperEntries(node.entries)
  }

  ghost predicate ProperEntries(entries: seq<Entry>) {
    && (forall i, j :: 0 <= i < j < |entries| ==> entries[i].name != entries[j].name)
    && (forall i :: 0 <= i < |entries| ==> Proper(entries[i].node))
  }

  /** The file at a path, if there is one: one name after another, down the directories. */
  function FileAt(node: Node, path: Path): Option<Bytes>
    decreases |path|
  {
    if path == [] then (if node.File? then Some(node.bytes) else None)
    else if node.File? then None
    else
      var entry := EntryNamed(node.entries, path[0]);
      if entry.None? then None else FileAt(entry.value, path[1..])
  }

  function EntryNamed(entries: seq<Entry>, name: string): Option<Node> {
    if entries == [] then None
    else if entries[0].name == name then Some(entries[0].node)
    else EntryNamed(entries[1..], name)
  }

  lemma {:induction false} FirstNamedConcat(a: seq<(Path, Bytes)>, b: seq<(Path, Bytes)>, name: Path)
    ensures FirstNamed(a + b, name) == if FirstNamed(a, name).Some? then FirstNamed(a, name) else FirstNamed(b, name)
  {
    if b == [] {
      assert a + b == a;
    } else {
      var n := |b| - 1;
      FirstNamedConcat(a, b[..n], name);
      assert (a + b)[..|a + b| - 1] == a + b[..n];
    }
  }

  lemma {:induction false} FirstNamedIsThere(files: seq<(Path, Bytes)>, name: Path)
    ensures FirstNamed(files, name).Some? ==> exists k :: 0 <= k < |files| && files[k].0 == name
  {
    if files != [] {
      FirstNamedIsThere(files[..|files| - 1], name);
    }
  }

  lemma {:induction false} FilesAreUnder(node: Node, at: Path)
    ensures forall k :: 0 <= k < |FilesOf(node, at)| ==> at <= FilesOf(node, at)[k].0
    decreases node, 0
  {
    if node.Dir? {
      EntriesAreUnder(node.entries, at);
    }
  }

  lemma {:induction false} EntriesAreUnder(entries: seq<Entry>, at: Path)
    ensures forall k :: 0 <= k < |Listed(entries, at)| ==> at < Listed(entries, at)[k].0
    decreases entries, 1
  {
    if entries != [] {
      var last := entries[|entries| - 1];
      EntriesAreUnder(entries[..|entries| - 1], at);
      FilesAreUnder(last.node, at + [last.name]);
    }
  }

  /** Copying a tree puts every file of it under its own path, and nothing else. */
  lemma {:induction false} ListingFinds(node: Node, at: Path, path: Path)
    requires Proper(node)
    ensures FirstNamed(FilesOf(node, at), at + path) == FileAt(node, path)
    decreases node, 0
  {
    if node.Dir? {
      EntriesFind(node.entries, at, path);
    } else {
      OneFileNamed(at, node.bytes, at + path);
      assert at + path == at <==> path == [];
    }
  }

  lemma OneFileNamed(at: Path, bytes: Bytes, name: Path)
    ensures FirstNamed([(at, bytes)], name) == if at == name then Some(bytes) else None
  {
    assert [(at, bytes)][..0] == [];
  }

  lemma {:induction false} EntriesFind(entries: seq<Entry>, at: Path, path: Path)
    requires ProperEntries(entries)
    ensures FirstNamed(Listed(entries, at), at + path) ==
      if path == [] || EntryNamed(entries, path[0]).None? then None
      else FileAt(EntryNamed(entries, path[0]).value, path[1..])
    decreases entries, 1
  {
    if path == [] {
      EntriesAreUnder(entries, at);
      FirstNamedIsThere(Listed(entries, at), at + path);
      assert at + path == at;
    } else if entries != [] {
      var n := |entries| - 1;
      var last := entries[n];
      EntriesFind(entries[..n], at, path);
      FirstNamedConcat(Listed(entries[..n], at), FilesOf(last.node, at + [last.name]), at + path);
      EntryNamedSnoc(entries, path[0]);
      if last.name == path[0] {
        ListingFinds(last.node, at + [last.name], path[1..]);
        assert at + path == at + [last.name] + path[1..];
        NotNamedBefore(entries, path[0]);
      } else {
        FilesAreUnder(last.node, at + [last.name]);
        FirstNamedIsThere(FilesOf(last.node, at + [last.name]), at + path);
        assert (at + path)[|at|] == path[0] && (at + [last.name])[|at|] == last.name;
      }
    }
  }

  lemma {:induction false} EntryNamedSnoc(entries: seq<Entry>, name: string)
    requires entries != []
    ensures var n := |entries| - 1;
      EntryNamed(entries, name) ==
        if EntryNamed(entries[..n], name).Some? then EntryNamed(entries[..n], name)
        else if entries[n].name == name then Some(entries[n].node) else None
  {
    if |entries| > 1 {
      EntryNamedSnoc(entries[1..], name);
      assert entries[1..][..|entries| - 2] == entries[..|entries| - 1][1..];
    }
  }

  lemma {:induction false} NotNamedBefore(entries: seq<Entry>, name: string)
    requires entries != [] && entries[|entries| - 1].name == name
    requires forall i, j :: 0 <= i < j < |entries| ==> entries[i].name != entries[j].name
    ensures EntryNamed(entries[..|entries| - 1], name).None?
  {
    NoneNamed(entries[..|entries| - 1], name);
  }

  lemma {:induction false} NoneNamed(entries: seq<Entry>, name: string)
    requires forall i :: 0 <= i < |entries| ==> entries[i].name != name
    ensures EntryNamed(entries, name).None?
  {
    if entries != [] {
      NoneNamed(entries[1..], name);
    }
  }

  /** After a copy a path holds what it held, or else the file the tree has there. */
  lemma CopiedTreeHas(node: Node, at: Path, dst: map<Path, Bytes>, path: Path)
    requires Proper(node)
    ensures Find(CopyFiles(FilesOf(node, at), dst).0, at + path) ==
      if at + path in dst then Some(dst[at + path]) else FileAt(node, path)
  {
    hide CopyFiles, FilesOf, FileAt, FirstNamed;
    CopyFinds(FilesOf(node, at), dst, at + path);
    ListingFinds(node, at, path);
  }
}
