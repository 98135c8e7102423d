/** `flock://<pool>/<manifest>?remote=..&cache=..&page_size=..&len=..`: how the file system reads it,
    and which paths it claims. */
module FlockUri {
  import opened Substrate

  const SCHEME := "flock:"
  const WAL_SUFFIX := ".wal"
  const ULLONG_MAX: nat := 0xFFFF_FFFF_FFFF_FFFF

  datatype Uri = Uri(pool: string, manifest: string, remote: string, cache: string, pageSize: nat, totalLen: nat)

  datatype UriError =
    | NotFlock
    | NoQuery
    | NoManifest
    | MissingParameter(key: string)
    | InvalidNumber
    | NumberOutOfRange

  // ---- Finding and splitting -----------------------------------------------------------------

  /** The first index of `c`, or the length if there is none. */
  function Find(s: string, c: char): (i: nat)
    ensures i <= |s| && c !in s[..i] && (i < |s| ==> s[i] == c)
  {
    if s == [] then 0
    else if s[0] == c then 0
    else
      var i := Find(s[1..], c);
      assert s[..i + 1] == [s[0]] + s[1..][..i];
      i + 1
  }

  function StripSlashes(s: string): (r: string)
    ensures r == [] || r[0] != '/'
  {
    if s != [] && s[0] == '/' then StripSlashes(s[1..]) else s
  }

  type Params = map<string, string>

  /** One `key=value` pair; a piece without `=` is ignored. */
  function PairOf(pair: string): Params {
    var eq := Find(pair, '=');
    if eq == |pair| then map[] else map[pair[..eq] := pair[eq + 1..]]
  }

  /** The query's pairs, left to right, a later key overriding an earlier one. */
  function ParamsOf(query: string): Params
    decreases |query|
  {
    if query == [] then map[] else
      var amp := Find(query, '&');
      PairOf(query[..amp]) + (if amp == |query| then map[] else ParamsOf(query[amp + 1..]))
  }

  // ---- Numbers -------------------------------------------------------------------------------

  predicate IsSpace(c: char) {
    c == ' ' || c == '\t' || c == '\n' || c == '\r' || c == '\U{000B}' || c == '\U{000C}'
  }

  predicate IsDigit(c: char) {
    '0' <= c <= '9'
  }

  function DigitValue(c: char): nat
    requires IsDigit(c)
  {
    c as nat - '0' as nat
  }

  function SkipSpaces(s: string): string {
    if s != [] && IsSpace(s[0]) then SkipSpaces(s[1..]) else s
  }

  function DigitPrefix(s: string): (r: string)
    ensures forall c :: c in r ==> IsDigit(c)
  {
    if s != [] && IsDigit(s[0]) then [s[0]] + DigitPrefix(s[1..]) else []
  }

  function ValueOf(digits: string): nat
    requires forall c :: c in digits ==> IsDigit(c)
  {
    if digits == [] then 0
    else ValueOf(digits[..|digits| - 1]) * 10 + DigitValue(digits[|digits| - 1])
  }

  /** `std::stoull`: leading space, an optional sign, as many digits as there are; what follows them
      is ignored, and a minus sign wraps. */
  function Stoull(s: string): Result<nat, UriError> {
    var t := SkipSpaces(s);
    var negative := t != [] && t[0] == '-';
    var digits := DigitPrefix(if t != [] && (t[0] == '-' || t[0] == '+') then t[1..] else t);
    if digits == [] then Err(InvalidNumber)
    else if ValueOf(digits) > ULLONG_MAX then Err(NumberOutOfRange)
    else Ok(if negative then (ULLONG_MAX + 1 - ValueOf(digits)) % (ULLONG_MAX + 1) else ValueOf(digits))
  }

  // ---- Parsing -------------------------------------------------------------------------------

  function Require(params: Params, key: string): Result<string, UriError> {
    if key !in params || params[key] == [] then Err(MissingParameter(key)) else Ok(params[key])
  }

  /** What the parameters and the two path segments make. The required keys are looked up, and the
      numbers read, in this order. */
  function Assembled(pool: string, manifest: string, params: Params): Result<Uri, UriError> {
    var remote := Require(params, "remote");
    if remote.Err? then Err(remote.error) else
    var cache := Require(params, "cache");
    if cache.Err? then Err(cache.error) else
    var pageSize := Require(params, "page_size");
    if pageSize.Err? then Err(pageSize.error) else
    var pageSizeValue := Stoull(pageSize.value);
    if pageSizeValue.Err? then Err(pageSizeValue.error) else
    var len := Require(params, "len");
    if len.Err? then Err(len.error) else
    var lenValue := Stoull(len.value);
    if lenValue.Err? then Err(lenValue.error) else
    Ok(Uri(pool, manifest, remote.value, cache.value, pageSizeValue.value, lenValue.value))
  }

  predicate CanHandle(path: string) {
    SCHEME <= path
  }

  function Parsed(path: string): Result<Uri, UriError> {
    if !CanHandle(path) then Err(NotFlock) else Located(StripSlashes(path[|SCHEME|..]))
  }

  /** What follows the scheme and its slashes. */
  function Located(rest: string): Result<Uri, UriError> {
    var q := Find(rest, '?');
    if q == |rest| then Err(NoQuery) else
    var authority := rest[..q];
    var slash := Find(authority, '/');
    if slash == |authority| then Err(NoManifest)
    else Assembled(authority[..slash], authority[slash + 1..], ParamsOf(rest[q + 1..]))
  }

  /** Scan for the scheme, erase slashes one at a time, cut at the separators, and fill the map pair
      by pair. */
  method ParseFlockUri(path: string) returns (r: Result<Uri, UriError>)
    ensures r == Parsed(path)
  {
    hide ParamsOf, Assembled, Find;
    if !(SCHEME <= path) {
      return Err(NotFlock);
    }
    var rest := path[|SCHEME|..];
    while rest != [] && rest[0] == '/'
      invariant StripSlashes(rest) == StripSlashes(path[|SCHEME|..])
      decreases |rest|
    {
      rest := rest[1..];
    }
    var q := Find(rest, '?');
    if q == |rest| {
      return Err(NoQuery);
    }
    var authority, query := rest[..q], rest[q + 1..];
    var slash := Find(authority, '/');
    if slash == |authority| {
      return Err(NoManifest);
    }
    var params := ParseQuery(query);
    return Assembled(authority[..slash], authority[slash + 1..], params);
  }

  method ParseQuery(query: string) returns (kv: Params)
    ensures kv == ParamsOf(query)
  {
    hide ParamsOf, Find;
    kv := map[];
    var i := 0;
    while i < |query|
      invariant 0 <= i <= |query|
      invariant kv + ParamsOf(query[i..]) == ParamsOf(query)
    {
      var rest := query[i..];
      ParamsStep(rest);
      var amp := Find(rest, '&');
      var pair := rest[..amp];
      ghost var before, later := kv, if amp == |rest| then map[] else ParamsOf(rest[amp + 1..]);
      kv := Record(kv, pair);
      MergeAssociates(before, PairOf(pair), later);
      if amp == |rest| {
        return;
      }
      assert rest[amp + 1..] == query[i + amp + 1..];
      i := i + amp + 1;
    }
    ParamsStep(query[i..]);
  }

  method Record(kv: Params, pair: string) returns (r: Params)
    ensures r == kv + PairOf(pair)
  {
    var eq := Find(pair, '=');
    r := if eq != |pair| then kv[pair[..eq] := pair[eq + 1..]] else kv;
  }

  lemma {:induction false} ParamsStep(query: string)
    ensures query == [] ==> ParamsOf(query) == map[]
    ensures query != [] ==>
      var amp := Find(query, '&');
      ParamsOf(query) == PairOf(query[..amp]) + (if amp == |query| then map[] else ParamsOf(query[amp + 1..]))
  {
    hide PairOf, Find;
  }

  lemma MergeAssociates(a: Params, b: Params, c: Params)
    ensures (a + b) + c == a + (b + c)
  {
  }

  /** Any number of slashes after the scheme reads the same. */
  lemma {:induction false} SlashesDoNotMatter(n: nat, rest: string)
    ensures Parsed(SCHEME + Slashes(n) + rest) == Parsed(SCHEME + rest)
  {
    hide Located, StripSlashes, Slashes;
    SlashesStrip(n, rest);
    assert (SCHEME + Slashes(n) + rest)[|SCHEME|..] == Slashes(n) + rest;
    assert (SCHEME + rest)[|SCHEME|..] == rest;
    assert (SCHEME + Slashes(n) + rest)[..|SCHEME|] == SCHEME == (SCHEME + rest)[..|SCHEME|];
  }

  function Slashes(n: nat): string {
    if n == 0 then "" else "/" + Slashes(n - 1)
  }

  lemma {:induction false} SlashesStrip(n: nat, rest: string)
    ensures StripSlashes(Slashes(n) + rest) == StripSlashes(rest)
  {
    if n == 0 {
      assert Slashes(0) + rest == rest;
    } else {
      SlashesStrip(n - 1, rest);
      assert Slashes(n) == "/" + Slashes(n - 1);
      assert (Slashes(n) + rest)[1..] == Slashes(n - 1) + rest;
    }
  }

  // ---- Queries -------------------------------------------------------------------------------

  lemma {:induction false} FindAfter(a: string, c: char, b: string)
    requires c !in a
    ensures Find(a + [c] + b, c) == |a|
  {
    if a != [] {
      assert (a + [c] + b)[1..] == a[1..] + [c] + b;
      assert a[0] in a;
      FindAfter(a[1..], c, b);
    }
  }

  lemma FindNone(s: string, c: char)
    requires c !in s
    ensures Find(s, c) == |s|
  {
  }

  /** Joining two queries is merging their parameters: the last duplicate wins. */
  lemma {:induction false} LaterWins(a: string, b: string)
    ensures ParamsOf(a + "&" + b) == ParamsOf(a) + ParamsOf(b)
    decreases |a|
  {
    hide ParamsOf, Find, PairOf;
    var q := a + "&" + b;
    var amp := Find(a, '&');
    ParamsStep(q);
    ParamsStep(a);
    if amp == |a| {
      assert a == a[..amp];
      FindAfter(a, '&', b);
      assert q[..|a|] == a && q[|a| + 1..] == b;
      EmptyPair();
    } else {
      var rest := a[amp + 1..];
      assert q == a[..amp] + "&" + (rest + "&" + b);
      FindAfter(a[..amp], '&', rest + "&" + b);
      assert q[..amp] == a[..amp] && q[amp + 1..] == rest + "&" + b;
      LaterWins(rest, b);
      MergeAssociates(PairOf(a[..amp]), ParamsOf(rest), ParamsOf(b));
    }
  }

  lemma EmptyPair()
    ensures PairOf("") == map[]
  {
  }

  lemma OnePair(key: string, value: string)
    requires '=' !in key && '&' !in key && '&' !in value
    ensures ParamsOf(key + "=" + value) == map[key := value]
  {
    var pair := key + "=" + value;
    FindNone(pair, '&');
    FindAfter(key, '=', value);
    assert pair[..|pair|] == pair;
    assert pair[..|key|] == key && pair[|key| + 1..] == value;
  }

  // ---- Round trip ----------------------------------------------------------------------------

  function Digit(n: nat): char
    requires n < 10
  {
    '0' + n as char
  }

  function Decimal(n: nat): string {
    if n < 10 then [Digit(n)] else Decimal(n / 10) + [Digit(n % 10)]
  }

  lemma {:induction false} DecimalDigits(n: nat)
    ensures Decimal(n) != [] && forall c :: c in Decimal(n) ==> IsDigit(c)
    ensures ValueOf(Decimal(n)) == n
  {
    if n >= 10 {
      DecimalDigits(n / 10);
      var d := Decimal(n);
      assert d[..|d| - 1] == Decimal(n / 10);
    }
  }

  lemma {:induction false} AllDigits(s: string)
    requires forall c :: c in s ==> IsDigit(c)
    ensures DigitPrefix(s) == s
  {
    if s != [] {
      assert s[0] in s;
      AllDigits(s[1..]);
    }
  }

  lemma StoullOfDecimal(n: nat)
    requires n <= ULLONG_MAX
    ensures Stoull(Decimal(n)) == Ok(n)
  {
    var s := Decimal(n);
    DecimalDigits(n);
    assert s[0] in s;
    AllDigits(s);
  }

  /** The documented form. */
  function Rendered(u: Uri): string {
    SCHEME + "//" + u.pool + "/" + u.manifest + "?" + Query(u)
  }

  function Query(u: Uri): string {
    "remote=" + u.remote + "&" + ("cache=" + u.cache + "&"
      + ("page_size=" + Decimal(u.pageSize) + "&" + ("len=" + Decimal(u.totalLen))))
  }

  predicate WellFormed(u: Uri) {
    && u.pool != [] && '/' !in u.pool && '?' !in u.pool
    && '?' !in u.manifest
    && u.remote != [] && '&' !in u.remote
    && u.cache != [] && '&' !in u.cache
    && u.pageSize <= ULLONG_MAX && u.totalLen <= ULLONG_MAX
  }

  lemma QueryParams(u: Uri)
    requires '&' !in u.remote && '&' !in u.cache
    ensures ParamsOf(Query(u)) == map["remote" := u.remote, "cache" := u.cache,
                                      "page_size" := Decimal(u.pageSize), "len" := Decimal(u.totalLen)]
  {
    hide ParamsOf, Decimal;
    var len := "len=" + Decimal(u.totalLen);
    var size := "page_size=" + Decimal(u.pageSize);
    DecimalDigits(u.pageSize);
    DecimalDigits(u.totalLen);
    assert "len" + "=" == "len=" && "page_size" + "=" == "page_size=";
    assert "cache" + "=" == "cache=" && "remote" + "=" == "remote=";
    OnePair("len", Decimal(u.totalLen));
    OnePair("page_size", Decimal(u.pageSize));
    OnePair("cache", u.cache);
    OnePair("remote", u.remote);
    LaterWins(size, len);
    LaterWins("cache=" + u.cache, size + "&" + len);
    LaterWins("remote=" + u.remote, "cache=" + u.cache + "&" + (size + "&" + len));
    assert Query(u) == "remote=" + u.remote + "&" + ("cache=" + u.cache + "&" + (size + "&" + len));
    FourParams(u.remote, u.cache, Decimal(u.pageSize), Decimal(u.totalLen));
  }

  lemma FourParams(remote: string, cache: string, size: string, len: string)
    ensures map["remote" := remote] + (map["cache" := cache] + (map["page_size" := size] + map["len" := len]))
         == map["remote" := remote, "cache" := cache, "page_size" := size, "len" := len]
  {
  }

  lemma ParsesRendered(u: Uri)
    requires WellFormed(u)
    ensures Parsed(Rendered(u)) == Ok(u)
  {
    hide ParamsOf, Query, Decimal, Stoull, Find, StripSlashes, Assembled;
    var authority := u.pool + "/" + u.manifest;
    var rest := authority + "?" + Query(u);
    RenderedRest(u);
    FindAfter(authority, '?', Query(u));
    assert rest[..|authority|] == authority && rest[|authority| + 1..] == Query(u);
    FindAfter(u.pool, '/', u.manifest);
    assert authority[..|u.pool|] == u.pool && authority[|u.pool| + 1..] == u.manifest;
    QueryParams(u);
    RenderedParams(u);
  }

  lemma RenderedRest(u: Uri)
    requires u.pool != [] && '/' !in u.pool
    ensures CanHandle(Rendered(u))
    ensures StripSlashes(Rendered(u)[|SCHEME|..]) == u.pool + "/" + u.manifest + "?" + Query(u)
  {
    hide Query;
    var rest := u.pool + "/" + u.manifest + "?" + Query(u);
    assert Rendered(u)[..|SCHEME|] == SCHEME;
    TwoSlashes();
    assert Rendered(u)[|SCHEME|..] == Slashes(2) + rest;
    SlashesStrip(2, rest);
    assert rest[0] == u.pool[0] && u.pool[0] in u.pool;
  }

  lemma TwoSlashes()
    ensures Slashes(2) == "//"
  {
    assert Slashes(1) == "/" + Slashes(0);
  }

  lemma RenderedParams(u: Uri)
    requires u.remote != [] && u.cache != [] && u.pageSize <= ULLONG_MAX && u.totalLen <= ULLONG_MAX
    ensures Assembled(u.pool, u.manifest, map["remote" := u.remote, "cache" := u.cache,
                      "page_size" := Decimal(u.pageSize), "len" := Decimal(u.totalLen)]) == Ok(u)
  {
    hide Decimal, Stoull;
    DecimalDigits(u.pageSize);
    DecimalDigits(u.totalLen);
    StoullOfDecimal(u.pageSize);
    StoullOfDecimal(u.totalLen);
  }

  lemma {:induction false} ParamsHaveNoSeparators(query: string, key: string)
    requires key in ParamsOf(query)
    ensures '&' !in ParamsOf(query)[key]
    decreases |query|
  {
    var amp := Find(query, '&');
    var first := PairOf(query[..amp]);
    if amp < |query| && key in ParamsOf(query[amp + 1..]) {
      ParamsHaveNoSeparators(query[amp + 1..], key);
    } else {
      var pair := query[..amp];
      var eq := Find(pair, '=');
      assert key in first;
      forall c | c in pair[eq + 1..] ensures c in pair {
      }
    }
  }

  lemma StoullBounded(s: string)
    ensures Stoull(s).Ok? ==> Stoull(s).value <= ULLONG_MAX
  {
  }

  /** Whatever parses has the shape the documented form can say. */
  lemma ParsedIsWellFormed(path: string)
    requires Parsed(path).Ok?
    ensures WellFormed(Parsed(path).value)
  {
    hide ParamsOf, Stoull;
    var rest := StripSlashes(path[|SCHEME|..]);
    var q := Find(rest, '?');
    var authority := rest[..q];
    var slash := Find(authority, '/');
    var params := ParamsOf(rest[q + 1..]);
    ParamsHaveNoSeparators(rest[q + 1..], "remote");
    ParamsHaveNoSeparators(rest[q + 1..], "cache");
    StoullBounded(params["page_size"]);
    StoullBounded(params["len"]);
    assert authority[0] == rest[0];
    forall c | c in authority[..slash] ensures c in authority {
    }
    forall c | c in authority[slash + 1..] ensures c in authority {
    }
  }

  /** Parsing undoes rendering exactly when no field contains its own separator, nothing required is
      empty and the numbers fit. */
  lemma RoundTripsIff(u: Uri)
    ensures Parsed(Rendered(u)) == Ok(u) <==> WellFormed(u)
  {
    hide Parsed, Rendered;
    if WellFormed(u) {
      ParsesRendered(u);
    }
    if Parsed(Rendered(u)) == Ok(u) {
      ParsedIsWellFormed(Rendered(u));
    }
  }

  // ---- Which paths ---------------------------------------------------------------------------

  function Bare(path: string): string {
    path[..Find(path, '?')]
  }

  predicate IsWalPath(path: string) {
    var bare := Bare(path);
    |WAL_SUFFIX| <= |bare| && bare[|bare| - |WAL_SUFFIX|..] == WAL_SUFFIX
  }

  predicate FileExists(path: string) {
    CanHandle(path) && !IsWalPath(path)
  }

  /** `path` is the log of `p`, with or without a query. */
  predicate IsLogOf(path: string, p: string) {
    path == p + WAL_SUFFIX || p + WAL_SUFFIX + "?" <= path
  }

  /** Exactly which paths are logs: those ending in `.wal` up to their query, if they have one. */
  lemma IsWalPathIff(path: string)
    ensures IsWalPath(path) <==> exists p: string :: '?' !in p && IsLogOf(path, p)
  {
    var q := Find(path, '?');
    var bare := path[..q];
    if IsWalPath(path) {
      var p := bare[..|bare| - |WAL_SUFFIX|];
      assert bare == p + WAL_SUFFIX;
      assert forall c :: c in p ==> c in bare;
      assert q < |path| ==> path[..q + 1] == bare + "?";
      assert path[..|path|] == path;
      assert IsLogOf(path, p);
    }
    if p: string :| '?' !in p && IsLogOf(path, p) {
      LogIsLog(path, p);
    }
  }

  lemma LogIsLog(path: string, p: string)
    requires '?' !in p && IsLogOf(path, p)
    ensures IsWalPath(path)
  {
    var log := p + WAL_SUFFIX;
    if path == log {
      FindNone(path, '?');
    } else {
      FindAfter(log, '?', path[|log| + 1..]);
      assert path == log + ['?'] + path[|log| + 1..];
    }
    assert path[..|log|] == log && log[|p|..] == WAL_SUFFIX;
  }

  /** A path is present exactly when it has the scheme and is nobody's log, and a query makes no
      difference. */
  lemma FileExistsIff(p: string, query: string)
    requires '?' !in p
    ensures FileExists(p) <==> SCHEME <= p && !(exists d: string :: p == d + WAL_SUFFIX)
    ensures FileExists(p + "?" + query) <==> SCHEME <= p && !(exists d: string :: p == d + WAL_SUFFIX)
  {
    hide IsWalPath, CanHandle;
    WalIgnoresQuery(p, query);
    SchemeIgnoresQuery(p, query);
    IsLogIff(p);
    CanHandleIff(p);
  }

  lemma {:induction false} CanHandleIff(path: string)
    ensures CanHandle(path) <==> SCHEME <= path
  {
  }

  lemma {:induction false} IsLogIff(p: string)
    requires '?' !in p
    ensures IsWalPath(p) <==> exists d: string :: p == d + WAL_SUFFIX
  {
    hide Find;
    FindNone(p, '?');
    assert p[..|p|] == p;
    if IsWalPath(p) {
      assert p == p[..|p| - |WAL_SUFFIX|] + WAL_SUFFIX;
    }
  }

  lemma {:induction false} SchemeIgnoresQuery(p: string, query: string)
    requires '?' !in p
    ensures CanHandle(p + "?" + query) == CanHandle(p)
  {
    var full := p + "?" + query;
    assert full[|p|] == '?';
    if |SCHEME| <= |p| {
      assert full[..|SCHEME|] == p[..|SCHEME|];
    } else if |SCHEME| <= |full| {
      assert full[..|SCHEME|][|p|] == '?' && SCHEME[|p|] != '?';
    }
  }

  lemma WalIgnoresQuery(path: string, query: string)
    requires '?' !in path
    ensures IsWalPath(path + "?" + query) == IsWalPath(path)
  {
    FindAfter(path, '?', query);
    FindNone(path, '?');
    assert (path + "?" + query)[..|path|] == path == path[..|path|];
  }

  /** The existence probe comes with the query string stripped and the open with it: both get the same
      answer, for the database and for its log. */
  lemma QueryDoesNotMatter(path: string, query: string)
    requires '?' !in path && CanHandle(path)
    ensures IsWalPath(path + "?" + query) == IsWalPath(path)
    ensures FileExists(path + "?" + query) == FileExists(path)
  {
    WalIgnoresQuery(path, query);
    assert (path + "?" + query)[..|SCHEME|] == path[..|SCHEME|];
  }

  /** Whatever the path, with or without a query, its `.wal` sibling is absent. */
  lemma LogIsAbsent(path: string, query: string)
    requires '?' !in path
    ensures !FileExists(path + WAL_SUFFIX) && !FileExists(path + WAL_SUFFIX + "?" + query)
  {
    var log := path + WAL_SUFFIX;
    FindNone(log, '?');
    assert log[..|log|] == log;
    assert log[|log| - |WAL_SUFFIX|..] == WAL_SUFFIX;
    WalIgnoresQuery(log, query);
  }

  // ---- What the pieces mean ------------------------------------------------------------------

  /** A pair is cut at its first `=`. */
  lemma PairIs(key: string, value: string)
    requires '=' !in key
    ensures PairOf(key + "=" + value) == map[key := value] && PairOf(key) == map[]
  {
    FindAfter(key, '=', value);
    FindNone(key, '=');
    var pair := key + ['='] + value;
    assert pair == key + "=" + value && pair[..|key|] == key && pair[|key| + 1..] == value;
  }

  predicate IsSign(sign: string) {
    sign == "" || sign == "+" || sign == "-"
  }

  /** What a number is read from: leading space, a sign, digits, and anything that is not a digit. */
  lemma StoullIs(spaces: string, sign: string, digits: string, rest: string)
    requires (forall c :: c in spaces ==> IsSpace(c)) && IsSign(sign)
    requires digits != [] && (forall c :: c in digits ==> IsDigit(c)) && (rest == [] || !IsDigit(rest[0]))
    ensures Stoull(spaces + sign + digits + rest) ==
      if ULLONG_MAX < ValueOf(digits) then Err(NumberOutOfRange)
      else if sign == "-" && ValueOf(digits) != 0 then Ok(ULLONG_MAX + 1 - ValueOf(digits))
      else Ok(ValueOf(digits))
  {
    hide ValueOf;
    var number := sign + digits + rest;
    assert spaces + sign + digits + rest == spaces + number;
    assert digits[0] in digits;
    assert number[0] == if sign == "" then digits[0] else sign[0];
    SpacesSkipped(spaces, number);
    DigitsTaken(digits, rest);
    assert sign != "" ==> number[1..] == digits + rest;
    assert sign == "" ==> number == digits + rest;
  }

  /** No digit there, no number. */
  lemma StoullRefuses(spaces: string, sign: string, rest: string)
    requires (forall c :: c in spaces ==> IsSpace(c)) && IsSign(sign)
    requires rest == [] || (!IsDigit(rest[0]) && !IsSpace(rest[0]) && rest[0] != '+' && rest[0] != '-')
    ensures Stoull(spaces + sign + rest) == Err(InvalidNumber)
  {
    var number := sign + rest;
    assert spaces + sign + rest == spaces + number;
    SpacesSkipped(spaces, number);
    assert sign != "" ==> number[1..] == rest;
    assert sign == "" ==> number == rest;
  }

  lemma {:induction false} SpacesSkipped(spaces: string, s: string)
    requires (forall c :: c in spaces ==> IsSpace(c)) && (s == [] || !IsSpace(s[0]))
    ensures SkipSpaces(spaces + s) == s
  {
    if spaces == [] {
      assert spaces + s == s;
    } else {
      assert spaces[0] in spaces;
      SpacesSkipped(spaces[1..], s);
      assert (spaces + s)[1..] == spaces[1..] + s;
    }
  }

  lemma {:induction false} DigitsTaken(digits: string, rest: string)
    requires (forall c :: c in digits ==> IsDigit(c)) && (rest == [] || !IsDigit(rest[0]))
    ensures DigitPrefix(digits + rest) == digits
  {
    if digits == [] {
      assert digits + rest == rest;
    } else {
      assert digits[0] in digits;
      DigitsTaken(digits[1..], rest);
      assert (digits + rest)[1..] == digits[1..] + rest;
    }
  }

  /** The parameter is there and not empty. */
  predicate Given(params: Params, key: string) {
    key in params && params[key] != ""
  }

  /** Exactly what a path with a pool, a manifest and a query gives: which parameter is missed first, or
      which number cannot be read, or the fields. Parameters of other names make no difference. */
  lemma ParsedIs(n: nat, pool: string, manifest: string, query: string)
    requires '?' !in pool && '/' !in pool && pool != "" && '?' !in manifest
    ensures var r := Parsed(SCHEME + Slashes(n) + pool + "/" + manifest + "?" + query);
      var p := ParamsOf(query);
      var paths := Given(p, "remote") && Given(p, "cache");
      && (r == Err(MissingParameter("remote")) <==> !Given(p, "remote"))
      && (r == Err(MissingParameter("cache")) <==> Given(p, "remote") && !Given(p, "cache"))
      && (r == Err(MissingParameter("page_size")) <==> paths && !Given(p, "page_size"))
      && (r == Err(MissingParameter("len")) <==>
            paths && Given(p, "page_size") && Stoull(p["page_size"]).Ok? && !Given(p, "len"))
      && (forall e :: e == InvalidNumber || e == NumberOutOfRange ==>
            (r == Err(e) <==>
               && paths && Given(p, "page_size")
               && (Stoull(p["page_size"]) == Err(e)
                   || (Stoull(p["page_size"]).Ok? && Given(p, "len") && Stoull(p["len"]) == Err(e)))))
      && (r.Ok? <==> paths && Given(p, "page_size") && Given(p, "len")
                     && Stoull(p["page_size"]).Ok? && Stoull(p["len"]).Ok?)
      && (r.Ok? ==> r.value == Uri(pool, manifest, p["remote"], p["cache"], Stoull(p["page_size"]).value,
                                   Stoull(p["len"]).value))
  {
    hide ParamsOf, Stoull, Find;
    Divided(n, pool, manifest, query);
    StoullErrors(ParamsOf(query), "page_size");
    StoullErrors(ParamsOf(query), "len");
  }

  lemma StoullErrors(params: Params, key: string)
    ensures key in params && Stoull(params[key]).Err? ==>
      Stoull(params[key]).error == InvalidNumber || Stoull(params[key]).error == NumberOutOfRange
  {
  }

  lemma {:induction false} Divided(n: nat, pool: string, manifest: string, query: string)
    requires '?' !in pool && '/' !in pool && pool != "" && '?' !in manifest
    ensures Parsed(SCHEME + Slashes(n) + pool + "/" + manifest + "?" + query)
         == Assembled(pool, manifest, ParamsOf(query))
  {
    hide Parsed, Located, Assembled, ParamsOf, Slashes;
    var rest := pool + "/" + manifest + "?" + query;
    assert SCHEME + Slashes(n) + pool + "/" + manifest + "?" + query == SCHEME + Slashes(n) + rest;
    assert rest[0] == pool[0] && pool[0] in pool;
    ParsedIsLocated(n, rest);
    LocatedIs(pool, manifest, query);
  }

  lemma {:induction false} ParsedIsLocated(n: nat, rest: string)
    requires rest == "" || rest[0] != '/'
    ensures Parsed(SCHEME + Slashes(n) + rest) == Located(rest)
  {
    hide Located, Slashes;
    SlashesDoNotMatter(n, rest);
    assert (SCHEME + rest)[|SCHEME|..] == rest;
  }

  lemma {:induction false} LocatedIs(pool: string, manifest: string, query: string)
    requires '?' !in pool && '/' !in pool && '?' !in manifest
    ensures Located(pool + "/" + manifest + "?" + query) == Assembled(pool, manifest, ParamsOf(query))
  {
    hide ParamsOf, Assembled, Find;
    var authority := pool + "/" + manifest;
    var rest := authority + "?" + query;
    FindAfter(authority, '?', query);
    assert authority + ['?'] + query == rest;
    assert rest[..|authority|] == authority && rest[|authority| + 1..] == query;
    FindAfter(pool, '/', manifest);
    assert pool + ['/'] + manifest == authority;
    assert authority[..|pool|] == pool && authority[|pool| + 1..] == manifest;
  }

  /** And the paths that are refused before their query is looked at. */
  lemma ParsedRefuses(path: string)
    ensures Parsed(path) == Err(NotFlock) <==> !(SCHEME <= path)
    ensures Parsed(path) == Err(NoQuery) <==> SCHEME <= path && '?' !in path
  {
    hide ParamsOf, Assembled, Find;
    if SCHEME <= path {
      var rest := StripSlashes(path[|SCHEME|..]);
      assert path == SCHEME + path[|SCHEME|..];
      StrippedHas(path[|SCHEME|..], '?');
      var q := Find(rest, '?');
      assert q == |rest| ==> rest[..q] == rest;
      if q < |rest| {
        var authority := rest[..q];
        var slash := Find(authority, '/');
        if slash < |authority| {
          AssembledErrors(authority[..slash], authority[slash + 1..], ParamsOf(rest[q + 1..]));
        }
      }
    }
  }

  lemma AssembledErrors(pool: string, manifest: string, params: Params)
    ensures var r := Assembled(pool, manifest, params);
      r.Err? ==> r.error.MissingParameter? || r.error.InvalidNumber? || r.error.NumberOutOfRange?
  {
    hide Stoull;
    StoullErrors(params, "page_size");
    StoullErrors(params, "len");
  }

  lemma {:induction false} NoManifestRefused(n: nat, pool: string, query: string)
    requires '?' !in pool && '/' !in pool
    ensures Parsed(SCHEME + Slashes(n) + pool + "?" + query) == Err(NoManifest)
  {
    hide Parsed, Slashes, ParamsOf, Assembled, Find;
    var rest := pool + ['?'] + query;
    assert SCHEME + Slashes(n) + pool + "?" + query == SCHEME + Slashes(n) + rest;
    assert pool != "" ==> rest[0] == pool[0] && pool[0] in pool;
    ParsedIsLocated(n, rest);
    FindAfter(pool, '?', query);
    assert rest[..|pool|] == pool;
    FindNone(pool, '/');
  }

  lemma {:induction false} StrippedHas(s: string, c: char)
    requires c != '/'
    ensures c in StripSlashes(s) <==> c in s
  {
    if s != [] && s[0] == '/' {
      StrippedHas(s[1..], c);
      assert s == [s[0]] + s[1..];
    }
  }
}
