/** The command line's view of a pool: which branches there are, and which of them can be named. */
module Workspace {
  import opened Substrate

  // ---- Sorted listings -----------------------------------------------------------------------

  /** The order strings sort in. */
  predicate Less(a: string, b: string) {
    b != [] && (a == [] || a[0] < b[0] || (a[0] == b[0] && Less(a[1..], b[1..])))
  }

  lemma {:induction false} LessIsTotal(a: string, b: string)
    ensures a == b || Less(a, b) || Less(b, a)
    ensures !(Less(a, b) && Less(b, a)) && !Less(a, a)
  {
    if a == [] || b == [] {
      if a != [] { LessIsTotal(a[1..], a[1..]); }
    } else {
      LessIsTotal(a[1..], b[1..]);
      assert a == [a[0]] + a[1..] && b == [b[0]] + b[1..];
    }
  }

  lemma {:induction false} LessIsTransitive(a: string, b: string, c: string)
    requires Less(a, b) && Less(b, c)
    ensures Less(a, c)
  {
    if a != [] && a[0] == b[0] && b[0] == c[0] {
      LessIsTransitive(a[1..], b[1..], c[1..]);
    }
  }

  /** The strings agree before `i`, and `a` has the lesser character there. */
  predicate LessAt(a: string, b: string, i: nat) {
    i < |a| && i < |b| && a[..i] == b[..i] && a[i] < b[i]
  }

  /** The order strings sort in: by the first place where they differ, a string before its extensions. */
  lemma {:induction false} LessIff(a: string, b: string)
    ensures Less(a, b) <==> a < b || exists i: nat :: LessAt(a, b, i)
  {
    if a != [] && b != [] {
      assert a == [a[0]] + a[1..] && b == [b[0]] + b[1..];
      if a[0] == b[0] {
        LessIff(a[1..], b[1..]);
        LessAtTail(a, b);
      } else {
        assert a[0] < b[0] ==> LessAt(a, b, 0);
        assert forall i: nat :: LessAt(a, b, i) ==> i == 0;
      }
    }
  }

  lemma LessAtTail(a: string, b: string)
    requires a != [] && b != [] && a[0] == b[0]
    ensures a < b <==> a[1..] < b[1..]
    ensures (exists i: nat :: LessAt(a, b, i)) <==> exists i: nat :: LessAt(a[1..], b[1..], i)
  {
    assert a == [a[0]] + a[1..] && b == [b[0]] + b[1..];
    if i: nat :| LessAt(a[1..], b[1..], i) {
      assert a[..i + 1] == [a[0]] + a[1..][..i] && b[..i + 1] == [b[0]] + b[1..][..i];
      assert LessAt(a, b, i + 1);
    }
    if i: nat :| LessAt(a, b, i) {
      assert i > 0;
      assert a[1..][..i - 1] == a[..i][1..] && b[1..][..i - 1] == b[..i][1..];
      assert LessAt(a[1..], b[1..], i - 1);
    }
  }

  ghost predicate Ascends(names: seq<string>) {
    forall i, j :: 0 <= i < j < |names| ==> Less(names[i], names[j])
  }

  /** Put a new name where it belongs. */
  method Insert(names: seq<string>, name: string) returns (r: seq<string>)
    requires Ascends(names) && name !in names
    ensures Ascends(r) && Elements(r) == Elements(names) + {name}
  {
    hide Less;
    var at := |names|;
    while at > 0 && Less(name, names[at - 1])
      invariant 0 <= at <= |names|
      invariant forall i :: at <= i < |names| ==> Less(name, names[i])
    {
      at := at - 1;
    }
    forall i | 0 <= i < at ensures Less(names[i], name) {
      LessIsTotal(names[at - 1], name);
      if i < at - 1 {
        LessIsTransitive(names[i], names[at - 1], name);
      }
    }
    r := names[..at] + [name] + names[at..];
    InsertedElements(names, name, at);
  }

  lemma InsertedElements(names: seq<string>, name: string, at: nat)
    requires at <= |names|
    ensures Elements(names[..at] + [name] + names[at..]) == Elements(names) + {name}
  {
    var r := names[..at] + [name] + names[at..];
    assert names == names[..at] + names[at..];
    forall n ensures n in Elements(r) <==> n in Elements(names) + {name} {
      assert n in r <==> n in names[..at] || n == name || n in names[at..];
      assert n in names <==> n in names[..at] || n in names[at..];
    }
  }

  method Sort(names: seq<string>) returns (sorted: seq<string>)
    requires Unrepeated(names)
    ensures Ascends(sorted) && Elements(sorted) == Elements(names)
  {
    hide Less;
    sorted := [];
    for k := 0 to |names|
      invariant Ascends(sorted) && Elements(sorted) == Elements(names[..k])
    {
      assert names[..k + 1] == names[..k] + [names[k]];
      assert names[k] !in Elements(names[..k]);
      assert forall n :: n in sorted <==> n in Elements(sorted);
      sorted := Insert(sorted, names[k]);
      ElementsSnoc(names[..k], names[k]);
    }
    assert names[..|names|] == names;
  }

  lemma ElementsSnoc(names: seq<string>, name: string)
    ensures Elements(names + [name]) == Elements(names) + {name}
  {
  }

  /** There is one ascending listing of a set of names. */
  lemma {:induction false} AscendingListingIsUnique(a: seq<string>, b: seq<string>)
    requires Ascends(a) && Ascends(b) && Elements(a) == Elements(b)
    ensures a == b
  {
    hide Less;
    assert (a != [] ==> a[0] in Elements(a)) && (b != [] ==> b[0] in Elements(b));
    if a != [] && b != [] {
      var m, n := |a| - 1, |b| - 1;
      GreatestIsLast(a, b);
      DropGreatest(a);
      DropGreatest(b);
      AscendingListingIsUnique(a[..m], b[..n]);
      assert a == a[..m] + [a[m]] && b == b[..n] + [b[n]];
    }
  }

  lemma GreatestIsLast(a: seq<string>, b: seq<string>)
    requires Ascends(a) && Ascends(b) && Elements(a) == Elements(b) && a != [] && b != []
    ensures a[|a| - 1] == b[|b| - 1]
  {
    hide Less;
    var m, n := |a| - 1, |b| - 1;
    assert a[m] in Elements(b) && b[n] in Elements(a);
    var i :| 0 <= i < |b| && b[i] == a[m];
    var j :| 0 <= j < |a| && a[j] == b[n];
    LessIsTotal(a[m], b[n]);
  }

  lemma DropGreatest(a: seq<string>)
    requires Ascends(a) && a != []
    ensures Elements(a[..|a| - 1]) == Elements(a) - {a[|a| - 1]}
  {
    hide Less;
    var m := |a| - 1;
    assert a == a[..m] + [a[m]];
    LessIsTotal(a[m], a[m]);
    assert forall i :: 0 <= i < m ==> Less(a[i], a[m]);
  }

  // ---- Which branches there are --------------------------------------------------------------

  const JSON := ".json"

  predicate EndsWithJson(name: string) {
    |JSON| <= |name| && name[|name| - |JSON|..] == JSON
  }

  function StripJson(name: string): string {
    if EndsWithJson(name) then name[..|name| - |JSON|] else name
  }

  /** What listing the two directories gives: the suffix comes off entries of both. */
  function Listed(dirs: set<string>, asleep: set<string>): set<string> {
    (set d | d in dirs :: StripJson(d)) + (set b | b in asleep :: StripJson(b + JSON))
  }

  /** List branch directories, then sleep records, keeping each name once, and sort. */
  method Branches(dirs: seq<string>, asleep: seq<string>) returns (names: seq<string>)
    ensures Elements(names) == Listed(Elements(dirs), Elements(asleep))
    ensures Ascends(names)
    ensures forall n :: n in names <==> n in asleep || (n in dirs && !EndsWithJson(n)) || n + JSON in dirs
  {
    hide Listed, StripJson, Elements, Less, EndsWithJson;
    ListNone();
    names := [];
    for k := 0 to |dirs|
      invariant Elements(names) == Listed(Elements(dirs[..k]), {}) && Unrepeated(names)
    {
      ListOneMore(Elements(dirs[..k]), {}, dirs[k]);
      assert dirs[..k + 1] == dirs[..k] + [dirs[k]];
      ElementsSnoc(dirs[..k], dirs[k]);
      names := Push(names, StripJson(dirs[k]));
    }
    assert dirs[..|dirs|] == dirs;
    for k := 0 to |asleep|
      invariant Elements(names) == Listed(Elements(dirs), Elements(asleep[..k])) && Unrepeated(names)
    {
      ListOneMore(Elements(dirs), Elements(asleep[..k]), asleep[k]);
      assert asleep[..k + 1] == asleep[..k] + [asleep[k]];
      ElementsSnoc(asleep[..k], asleep[k]);
      names := Push(names, StripJson(asleep[k] + JSON));
    }
    assert asleep[..|asleep|] == asleep;
    names := Sort(names);
    EachListed(names, dirs, asleep);
  }

  lemma EachListed(names: seq<string>, dirs: seq<string>, asleep: seq<string>)
    requires Elements(names) == Listed(Elements(dirs), Elements(asleep))
    ensures forall n :: n in names <==> n in asleep || (n in dirs && !EndsWithJson(n)) || n + JSON in dirs
  {
    hide Listed, EndsWithJson;
    forall n ensures n in names <==> n in asleep || (n in dirs && !EndsWithJson(n)) || n + JSON in dirs {
      ListedIff(Elements(dirs), Elements(asleep), n);
      assert n in names <==> n in Elements(names);
    }
  }

  method Push(names: seq<string>, name: string) returns (r: seq<string>)
    requires Unrepeated(names)
    ensures Unrepeated(r) && Elements(r) == Elements(names) + {name}
  {
    r := if name in names then names else names + [name];
  }

  lemma ListNone()
    ensures Listed({}, {}) == {}
    ensures forall names: seq<string> :: names == [] ==> Elements(names) == {}
  {
  }

  lemma ListOneMore(dirs: set<string>, asleep: set<string>, name: string)
    ensures Listed(dirs + {name}, asleep) == Listed(dirs, asleep) + {StripJson(name)}
    ensures Listed(dirs, asleep + {name}) == Listed(dirs, asleep) + {StripJson(name + JSON)}
  {
  }

  lemma StripUndoesSuffix(name: string)
    ensures StripJson(name + JSON) == name && EndsWithJson(name + JSON)
  {
    assert (name + JSON)[|name|..] == JSON;
    assert (name + JSON)[..|name|] == name;
  }

  /** `Workspace::resolve`: known, and not asleep. */
  predicate Resolves(dirs: set<string>, asleep: set<string>, name: string) {
    name in Listed(dirs, asleep) && name !in asleep
  }

  /** Exactly which names are listed. */
  lemma ListedIff(dirs: set<string>, asleep: set<string>, name: string)
    ensures name in Listed(dirs, asleep) <==>
      name in asleep || (name in dirs && !EndsWithJson(name)) || name + JSON in dirs
  {
    StripUndoesSuffix(name);
    forall b | b in asleep ensures StripJson(b + JSON) == b {
      StripUndoesSuffix(b);
    }
    forall d | d in dirs && EndsWithJson(d) ensures d == StripJson(d) + JSON {
      assert d == d[..|d| - |JSON|] + d[|d| - |JSON|..];
    }
  }

  /** Exactly which names resolve. A directory whose own name ends in `.json` is listed without the
      suffix: it cannot be named itself, and it makes the shorter name resolve. */
  lemma ResolvesIff(dirs: set<string>, asleep: set<string>, name: string)
    ensures Resolves(dirs, asleep, name) <==>
      name !in asleep && ((name in dirs && !EndsWithJson(name)) || name + JSON in dirs)
    ensures (forall d :: d in dirs ==> !EndsWithJson(d)) ==>
      (Resolves(dirs, asleep, name) <==> name in dirs && name !in asleep)
  {
    hide Listed;
    ListedIff(dirs, asleep, name);
    StripUndoesSuffix(name);
  }

  /** Such a directory cannot be named, and a name with no directory resolves in its stead. */
  lemma JsonDirectoryMisleads()
    ensures !Resolves({"a.json"}, {}, "a.json") && Resolves({"a.json"}, {}, "a")
  {
    ResolvesIff({"a.json"}, {}, "a.json");
    ResolvesIff({"a.json"}, {}, "a");
    StripUndoesSuffix("a");
    StripUndoesSuffix("a.json");
    assert "a" + JSON == "a.json" && |"a.json" + JSON| == 11;
  }
}
