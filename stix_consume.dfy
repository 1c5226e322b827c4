/** The consume direction of `StixIndicator`: the three handlers that turn the
    listener's `(path, value)` pairs into platform indicator mappings, and
    `consume_mappings`, which walks a pattern and concatenates their results
    in the order default, IP, file. */
module StixConsume {
  import opened Wrappers
  import opened PyStr
  import opened StixPattern

  /** The placeholder every confidence field carries. */
  const ConfidencePlaceholder := "@.confidence"

  /** A platform indicator mapping `{'type': ..., 'summary': ...}`, with
      `'confidence'` present when `confidence` is `Some`. */
  datatype Mapping = Mapping(indicatorType: string, summary: string, confidence: Option<string>)

  /** The results `one` gives for each pair, concatenated in the order of the
      pairs: the shape of every handler loop, which looks at one pair at a
      time and appends what it makes of it. */
  function Each<R>(pairs: seq<Pair>, one: Pair -> seq<R>): seq<R> {
    if pairs == [] then [] else one(pairs[0]) + Each(pairs[1..], one)
  }

  /** A handler maps consecutive stretches of pairs independently and keeps
      their order. */
  lemma {:induction false} EachAppend<R>(a: seq<Pair>, b: seq<Pair>, one: Pair -> seq<R>)
    ensures Each(a + b, one) == Each(a, one) + Each(b, one)
  {
    if a == [] {
      assert a + b == b;
    } else {
      assert (a + b)[0] == a[0];
      assert (a + b)[1..] == a[1..] + b;
      EachAppend(a[1..], b, one);
    }
  }

  lemma EachSnoc<R>(pairs: seq<Pair>, i: nat, one: Pair -> seq<R>)
    requires i < |pairs|
    ensures Each(pairs[..i + 1], one) == Each(pairs[..i], one) + one(pairs[i])
  {
    EachAppend(pairs[..i], [pairs[i]], one);
    assert pairs[..i + 1] == pairs[..i] + [pairs[i]];
    assert [pairs[i]][1..] == [];
  }

  // ---------------------------------------------------------------------
  // _default_consume_handler

  /** `type_map` of `_default_consume_handler`. */
  function DefaultType(path: string): Option<string> {
    if path == "url:value" then Some("URL")
    else if path == "email-addr:value" then Some("EmailAddress")
    else if path == "domain-name:value" then Some("Host")
    else if path == "autonomous-system:name" then Some("ASN")
    else None
  }

  /** The mapping the default handler makes of one pair, if any. */
  function DefaultOne(p: Pair): seq<Mapping> {
    match DefaultType(p.path)
    case Some(t) => [Mapping(t, p.value, Some(ConfidencePlaceholder))]
    case None => []
  }

  /** What `_default_consume_handler` returns for `pairs`. */
  function DefaultMappings(pairs: seq<Pair>): seq<Mapping> {
    Each(pairs, DefaultOne)
  }

  /** Pairs whose paths are all in the vocabulary give exactly one mapping each,
      in order, carrying the mapped type, the pair's value and the placeholder
      confidence. */
  lemma {:induction false} DefaultMappingsOnePerPair(pairs: seq<Pair>)
    requires forall k :: 0 <= k < |pairs| ==> DefaultType(pairs[k].path).Some?
    ensures |DefaultMappings(pairs)| == |pairs|
    ensures forall k :: 0 <= k < |pairs| ==>
      DefaultMappings(pairs)[k] == Mapping(DefaultType(pairs[k].path).value, pairs[k].value, Some(ConfidencePlaceholder))
  {
    if pairs != [] {
      DefaultMappingsOnePerPair(pairs[1..]);
    }
  }

  /** Pairs outside the vocabulary give no mapping at all. */
  lemma {:induction false} DefaultMappingsIgnoresOthers(pairs: seq<Pair>)
    requires forall k :: 0 <= k < |pairs| ==> DefaultType(pairs[k].path).None?
    ensures DefaultMappings(pairs) == []
  {
    if pairs != [] {
      DefaultMappingsIgnoresOthers(pairs[1..]);
    }
  }

  /** `_default_consume_handler` */
  method DefaultConsumeHandler(indicators: seq<Pair>) returns (mappings: seq<Mapping>)
    ensures mappings == DefaultMappings(indicators)
  {
    mappings := [];
    var i := 0;
    while i < |indicators|
      invariant 0 <= i <= |indicators|
      invariant mappings == DefaultMappings(indicators[..i])
    {
      var path, value := indicators[i].path, indicators[i].value;
      var indicatorType := DefaultType(path);
      if indicatorType.Some? {
        mappings := mappings + [Mapping(indicatorType.value, value, Some(ConfidencePlaceholder))];
      }
      EachSnoc(indicators, i, DefaultOne);
      i := i + 1;
    }
    assert indicators[..i] == indicators;
  }

  // ---------------------------------------------------------------------
  // _ip_consume_handler

  predicate IsIpPath(path: string) {
    path == "ipv4-addr:value" || path == "ipv6-addr:value"
  }

  /** The prefix length that denotes a single host: 32 for IPv4, 128 for IPv6. */
  function HostPrefix(path: string): string {
    if path == "ipv4-addr:value" then "32" else "128"
  }

  /** `value.split('/')[1]` for a value that holds a `/`. */
  function AfterFirstSlash(value: string): string
    requires Contains(value, "/")
  {
    SplitFirst(value, "/");
    Split(value, "/")[1]
  }

  /** The mapping `_ip_consume_handler` builds for one IPv4 or IPv6 pair. */
  function IpMapping(path: string, value: string): Mapping
    requires IsIpPath(path)
  {
    var m :=
      if Contains(value, "/") && AfterFirstSlash(value) != HostPrefix(path) then Mapping("CIDR", value, None)
      else Mapping("Address", Split(value, "/")[0], None);
    if path == "ipv6-addr:value" then m.(confidence := Some(ConfidencePlaceholder)) else m
  }

  /** The mapping the IP handler makes of one pair, if any. */
  function IpOne(p: Pair): seq<Mapping> {
    if IsIpPath(p.path) then [IpMapping(p.path, p.value)] else []
  }

  /** What `_ip_consume_handler` returns for `pairs`. */
  function IpMappings(pairs: seq<Pair>): seq<Mapping> {
    Each(pairs, IpOne)
  }

  /** Every IP mapping is a `CIDR` that keeps the whole value, which holds a
      `/`, or an `Address` whose summary is the value up to its first `/` and
      holds no `/`; only IPv6 mappings carry a confidence. */
  lemma IpMappingShape(path: string, value: string)
    requires IsIpPath(path)
    ensures var m := IpMapping(path, value);
      && (m.indicatorType == "CIDR" || m.indicatorType == "Address")
      && (m.indicatorType == "CIDR" ==> m.summary == value && Contains(value, "/"))
      && (m.indicatorType == "Address" ==> !Contains(m.summary, "/") && (Contains(value, "/") ==> m.summary == value[..Find(value, "/").value]))
      && (m.indicatorType == "Address" && !Contains(value, "/") ==> m.summary == value)
      && (m.confidence.Some? <==> path == "ipv6-addr:value")
      && (m.confidence.Some? ==> m.confidence.value == ConfidencePlaceholder)
  {
    SplitFirst(value, "/");
    FindSpec(value, "/");
    if Contains(value, "/") {
      var i := Find(value, "/").value;
      FindSpec(value[..i], "/");
      forall j | 0 <= j < i ensures !OccursAt(value[..i], "/", j) {
        assert !OccursAt(value, "/", j);
        assert value[..i][j..j + 1] == value[j..j + 1];
      }
    }
  }

  /** A value `a/n` with `n` the host prefix length (`/32`, `/128`) is an
      `Address` with summary `a`; any other prefix length makes it a `CIDR`
      with the whole value. */
  lemma IpPrefixBoundary(path: string, a: string, n: string)
    requires IsIpPath(path)
    requires '/' !in a && '/' !in n
    ensures n == HostPrefix(path) ==>
      IpMapping(path, a + "/" + n).indicatorType == "Address" && IpMapping(path, a + "/" + n).summary == a
    ensures n != HostPrefix(path) ==>
      IpMapping(path, a + "/" + n).indicatorType == "CIDR" && IpMapping(path, a + "/" + n).summary == a + "/" + n
  {
    var v := a + "/" + n;
    assert Join([a, n], "/") == v;
    SplitJoin([a, n], '/');
    FindCharAfter(a, '/', n);
  }

  /** `_ip_consume_handler` */
  method IpConsumeHandler(indicators: seq<Pair>) returns (mappings: seq<Mapping>)
    ensures mappings == IpMappings(indicators)
  {
    mappings := [];
    var i := 0;
    while i < |indicators|
      invariant 0 <= i <= |indicators|
      invariant mappings == IpMappings(indicators[..i])
    {
      var path, value := indicators[i].path, indicators[i].value;
      if path == "ipv4-addr:value" || path == "ipv6-addr:value" {
        var parseMap: Mapping;
        SplitFirst(value, "/");
        if path == "ipv4-addr:value" {
          if Contains(value, "/") && Split(value, "/")[1] != "32" {
            parseMap := Mapping("CIDR", value, None);
          } else {
            parseMap := Mapping("Address", Split(value, "/")[0], None);
          }
        } else {
          if Contains(value, "/") && Split(value, "/")[1] != "128" {
            parseMap := Mapping("CIDR", value, None);
          } else {
            parseMap := Mapping("Address", Split(value, "/")[0], None);
          }
          parseMap := parseMap.(confidence := Some(ConfidencePlaceholder));
        }
        mappings := mappings + [parseMap];
      }
      EachSnoc(indicators, i, IpOne);
      i := i + 1;
    }
    assert indicators[..i] == indicators;
  }

  // ---------------------------------------------------------------------
  // _file_consume_handler

  /** The path tests of the file handler: `'file:hashes' in path`, and
      `token in path.upper()` for its sub-groups. */
  datatype PathTest = FileHashes | UpperHas(token: string)

  predicate Passes(test: PathTest, p: Pair) {
    match test
    case FileHashes => Contains(p.path, "file:hashes")
    case UpperHas(token) => Contains(Upper(p.path), token)
  }

  /** The three sub-groups, with the tokens the handler looks for. */
  const Sha156 := UpperHas("SHA-156")
  const Sha1 := UpperHas("SHA-1")
  const Md5 := UpperHas("MD5")

  /** The pair itself when it passes the test, nothing otherwise. */
  function Keep(test: PathTest): Pair -> seq<Pair> {
    p => if Passes(test, p) then [p] else []
  }

  /** `list(filter(lambda p: test, pairs))` */
  function Select(pairs: seq<Pair>, test: PathTest): seq<Pair> {
    Each(pairs, Keep(test))
  }

  /** `[v.get('value') for v in pairs]` */
  function Values(pairs: seq<Pair>): (r: seq<string>)
    ensures |r| == |pairs|
    ensures forall k :: 0 <= k < |pairs| ==> r[k] == pairs[k].value
  {
    seq(|pairs|, k requires 0 <= k < |pairs| => pairs[k].value)
  }

  function FileMapping(summary: string): Mapping {
    Mapping("File", summary, Some(ConfidencePlaceholder))
  }

  /** One `File` per hash, summary the hash value, in order. */
  function SeparateFiles(files: seq<Pair>): (r: seq<Mapping>)
    ensures |r| == |files|
    ensures forall k :: 0 <= k < |files| ==> r[k] == FileMapping(files[k].value)
  {
    seq(|files|, k requires 0 <= k < |files| => FileMapping(files[k].value))
  }

  lemma SeparateFilesSnoc(files: seq<Pair>, f: Pair)
    ensures SeparateFiles(files + [f]) == SeparateFiles(files) + [FileMapping(f.value)]
  {
  }

  /** The condition under which the file hashes are one file: at most three
      hashes and at most one in each of the `SHA-156`, `SHA-1` and `MD5`
      sub-groups. */
  predicate Consolidates(files: seq<Pair>) {
    && |files| <= 3
    && |Select(files, Sha156)| <= 1
    && |Select(files, Sha1)| <= 1
    && |Select(files, Md5)| <= 1
  }

  /** What `_file_consume_handler` returns for `pairs`. */
  function FileMappings(pairs: seq<Pair>): seq<Mapping> {
    FilesToMappings(Select(pairs, FileHashes))
  }

  function FilesToMappings(files: seq<Pair>): seq<Mapping> {
    if |files| <= 0 then []
    else if Consolidates(files) then [FileMapping(Join(Values(files), " : "))]
    else SeparateFiles(files)
  }

  /** No file-hash pair, no mapping; few enough hashes, distinct in their
      sub-groups, make one `File` whose summary joins all their values with
      `" : "` in order; otherwise every hash is its own `File`. Every mapping
      is a `File` with the placeholder confidence. */
  lemma FileMappingsCases(pairs: seq<Pair>)
    ensures var files := Select(pairs, FileHashes);
      var r := FileMappings(pairs);
      && (files == [] ==> r == [])
      && (files != [] && Consolidates(files) ==> r == [FileMapping(Join(Values(files), " : "))])
      && (files != [] && !Consolidates(files) ==>
            |r| == |files| && forall k :: 0 <= k < |files| ==> r[k].summary == files[k].value)
      && forall k :: 0 <= k < |r| ==> r[k].indicatorType == "File" && r[k].confidence == Some(ConfidencePlaceholder)
  {
  }

  /** Because the sub-group test looks for `SHA-156`, hashes whose paths name
      none of the three tokens (such as `SHA-256`) never count against the
      one-per-sub-group limit: two or three of them still become one `File`. */
  lemma UngroupedHashesConsolidate(pairs: seq<Pair>)
    requires 1 <= |pairs| <= 3
    requires forall k :: 0 <= k < |pairs| ==> Passes(FileHashes, pairs[k]) && !Passes(Sha156, pairs[k]) && !Passes(Sha1, pairs[k]) && !Passes(Md5, pairs[k])
    ensures FileMappings(pairs) == [FileMapping(Join(Values(pairs), " : "))]
  {
    SelectAll(pairs, FileHashes);
    SelectNone(pairs, Sha156);
    SelectNone(pairs, Sha1);
    SelectNone(pairs, Md5);
  }

  lemma {:induction false} SelectAll(pairs: seq<Pair>, test: PathTest)
    requires forall k :: 0 <= k < |pairs| ==> Passes(test, pairs[k])
    ensures Select(pairs, test) == pairs
  {
    if pairs != [] {
      SelectAll(pairs[1..], test);
    }
  }

  lemma {:induction false} SelectNone(pairs: seq<Pair>, test: PathTest)
    requires forall k :: 0 <= k < |pairs| ==> !Passes(test, pairs[k])
    ensures Select(pairs, test) == []
  {
    if pairs != [] {
      SelectNone(pairs[1..], test);
    }
  }

  lemma PrefixSnoc<T>(s: seq<T>, k: nat)
    requires k < |s|
    ensures s[..k + 1] == s[..k] + [s[k]]
  {
  }

  /** `_file_consume_handler` */
  method FileConsumeHandler(indicators: seq<Pair>) returns (mappings: seq<Mapping>)
    ensures mappings == FileMappings(indicators)
  {
    var fileIndicators: seq<Pair> := [];
    var i := 0;
    while i < |indicators|
      invariant 0 <= i <= |indicators|
      invariant fileIndicators == Select(indicators[..i], FileHashes)
    {
      if Passes(FileHashes, indicators[i]) {
        fileIndicators := fileIndicators + [indicators[i]];
      }
      EachSnoc(indicators, i, Keep(FileHashes));
      i := i + 1;
    }
    assert indicators[..i] == indicators;

    var sha256Indicators: seq<Pair> := [];
    var sha2Indicators: seq<Pair> := [];
    var md5Indicators: seq<Pair> := [];
    var j := 0;
    while j < |fileIndicators|
      invariant 0 <= j <= |fileIndicators|
      invariant sha256Indicators == Select(fileIndicators[..j], Sha156)
      invariant sha2Indicators == Select(fileIndicators[..j], Sha1)
      invariant md5Indicators == Select(fileIndicators[..j], Md5)
    {
      var f := fileIndicators[j];
      if Passes(Sha156, f) {
        sha256Indicators := sha256Indicators + [f];
      }
      if Passes(Sha1, f) {
        sha2Indicators := sha2Indicators + [f];
      }
      if Passes(Md5, f) {
        md5Indicators := md5Indicators + [f];
      }
      EachSnoc(fileIndicators, j, Keep(Sha156));
      EachSnoc(fileIndicators, j, Keep(Sha1));
      EachSnoc(fileIndicators, j, Keep(Md5));
      j := j + 1;
    }
    assert fileIndicators[..j] == fileIndicators;

    if |fileIndicators| <= 0 {
      return [];
    }
    mappings := [];
    if |fileIndicators| <= 3 && |sha256Indicators| <= 1 && |sha2Indicators| <= 1 && |md5Indicators| <= 1 {
      var value := Join(Values(fileIndicators), " : ");
      mappings := mappings + [FileMapping(value)];
    } else {
      var k := 0;
      while k < |fileIndicators|
        invariant 0 <= k <= |fileIndicators|
        invariant mappings == SeparateFiles(fileIndicators[..k])
      {
        SeparateFilesSnoc(fileIndicators[..k], fileIndicators[k]);
        PrefixSnoc(fileIndicators, k);
        mappings := mappings + [FileMapping(fileIndicators[k].value)];
        k := k + 1;
      }
      assert fileIndicators[..k] == fileIndicators;
    }
  }

  // ---------------------------------------------------------------------
  // consume_mappings

  /** What `consume_mappings` returns for a pattern whose comparison nodes, in
      walk order, are `nodes`: the default, IP and file mappings of the
      extracted pairs, concatenated in that order, or the exception a listener
      callback raised. */
  function ConsumeSpec(nodes: seq<PatternNode>): Result<seq<Mapping>, ListenerError> {
    match WalkPairs(nodes)
    case Failure(e) => Failure(e)
    case Success(pairs) => Success(DefaultMappings(pairs) + IpMappings(pairs) + FileMappings(pairs))
  }

  lemma ThenExtend(acc: seq<Pair>, node: Result<seq<Pair>, ListenerError>, rest: Result<seq<Pair>, ListenerError>)
    requires node.Success?
    ensures Then(Success(acc), Then(node, rest)) == Then(Success(acc + node.value), rest)
  {
    if rest.Success? {
      assert acc + (node.value + rest.value) == (acc + node.value) + rest.value;
    }
  }

  /** One node further into the walk, when the node's callback succeeds. */
  lemma WalkStep(acc: seq<Pair>, nodes: seq<PatternNode>, i: nat)
    requires i < |nodes| && NodePairs(nodes[i]).Success?
    ensures Then(Success(acc), WalkPairs(nodes[i..]))
         == Then(Success(acc + NodePairs(nodes[i]).value), WalkPairs(nodes[i + 1..]))
  {
    assert nodes[i..][0] == nodes[i];
    assert nodes[i..][1..] == nodes[i + 1..];
    ThenExtend(acc, NodePairs(nodes[i]), WalkPairs(nodes[i + 1..]));
  }

  /** The walk stops at the first node whose callback raises. */
  lemma WalkStepFails(acc: seq<Pair>, nodes: seq<PatternNode>, i: nat)
    requires i < |nodes| && NodePairs(nodes[i]).Failure?
    ensures Then(Success(acc), WalkPairs(nodes[i..])) == NodePairs(nodes[i])
  {
    assert nodes[i..][0] == nodes[i];
    assert nodes[i..][1..] == nodes[i + 1..];
  }

  /** At the end of the walk the pairs collected are the walk's pairs. */
  lemma WalkDone(acc: seq<Pair>, nodes: seq<PatternNode>)
    requires Then(Success(acc), WalkPairs(nodes[|nodes|..])) == WalkPairs(nodes)
    ensures WalkPairs(nodes) == Success(acc)
  {
    assert nodes[|nodes|..] == [];
    var none: seq<Pair> := [];
    assert acc + none == acc;
  }

  lemma ConsumeOfFailure(nodes: seq<PatternNode>, e: ListenerError)
    requires WalkPairs(nodes) == Failure(e)
    ensures ConsumeSpec(nodes) == Failure(e)
  {
  }

  lemma ThenFromEmpty(rest: Result<seq<Pair>, ListenerError>)
    ensures Then(Success([]), rest) == rest
  {
    if rest.Success? {
      var none: seq<Pair> := [];
      assert none + rest.value == rest.value;
    }
  }

  /** `consume_mappings`: walk the pattern with a fresh listener, then run the
      three handlers over the pairs it collected. */
  method ConsumeMappings(nodes: seq<PatternNode>) returns (r: Result<seq<Mapping>, ListenerError>)
    ensures r == ConsumeSpec(nodes)
  {
    var s := new StixListener();
    var i := 0;
    assert nodes[i..] == nodes;
    ThenFromEmpty(WalkPairs(nodes));
    while i < |nodes|
      invariant 0 <= i <= |nodes|
      invariant Then(Success(s.indicators), WalkPairs(nodes[i..])) == WalkPairs(nodes)
      decreases |nodes| - i
    {
      ghost var before := s.indicators;
      var err := s.Enter(nodes[i]);
      if err.Some? {
        WalkStepFails(before, nodes, i);
        ConsumeOfFailure(nodes, err.value);
        return Failure(err.value);
      }
      WalkStep(before, nodes, i);
      i := i + 1;
    }
    WalkDone(s.indicators, nodes);
    ConsumeOfPairs(nodes, s.indicators);
    var defaultMappings := DefaultConsumeHandler(s.indicators);
    var ipMappings := IpConsumeHandler(s.indicators);
    var fileMappings := FileConsumeHandler(s.indicators);
    r := Success(defaultMappings + ipMappings + fileMappings);
  }

  /** A pattern made only of comparisons the listener has no callback for
      (`<`, `LIKE`, `MATCHES`, ...) yields no mapping and no error. */
  lemma ConsumeUnsupportedOnly(nodes: seq<PatternNode>)
    requires forall k :: 0 <= k < |nodes| ==> nodes[k].OtherPropTest?
    ensures ConsumeSpec(nodes) == Success([])
  {
    WalkUnsupportedOnly(nodes);
    var none: seq<Mapping> := [];
    assert none + none + none == none;
  }

  /** A single `=` comparison on a path of the default vocabulary becomes the
      one mapping of that type, whatever its value. */
  lemma ConsumeSingleDefault(path: string, value: string)
    requires DefaultType(path).Some?
    ensures ConsumeSpec([PropTestEqual(path + "='" + value + "'")])
         == Success([Mapping(DefaultType(path).value, value, Some(ConfidencePlaceholder))])
  {
    DefaultPathPlain(path);
    DefaultPathOnlyDefault(path);
    WalkSingleEqual(path, value);
    var pairs := [Pair(path, value)];
    ConsumeOfPairs([PropTestEqual(path + "='" + value + "'")], pairs);
    var m := Mapping(DefaultType(path).value, value, Some(ConfidencePlaceholder));
    assert DefaultMappings(pairs) == [m] by {
      DefaultMappingsOnePerPair(pairs);
    }
    NeitherIpNorFile(pairs[0]);
    var none: seq<Mapping> := [];
    assert [m] + none + none == [m];
  }

  lemma NeitherIpNorFile(p: Pair)
    requires !IsIpPath(p.path) && !Passes(FileHashes, p)
    ensures IpMappings([p]) == [] && FileMappings([p]) == []
  {
    var none: seq<Mapping> := [];
    var noPairs: seq<Pair> := [];
    assert [p][0] == p && [p][1..] == noPairs;
    assert Each(noPairs, IpOne) == none;
    assert Each([p], IpOne) == IpOne(p) + none;
    assert Each(noPairs, Keep(FileHashes)) == noPairs;
    assert Each([p], Keep(FileHashes)) == Keep(FileHashes)(p) + noPairs;
  }

  lemma ConsumeOfPairs(nodes: seq<PatternNode>, pairs: seq<Pair>)
    requires WalkPairs(nodes) == Success(pairs)
    ensures ConsumeSpec(nodes) == Success(DefaultMappings(pairs) + IpMappings(pairs) + FileMappings(pairs))
  {
  }

  lemma WalkSingleEqual(path: string, value: string)
    requires path != [] && '=' !in path
    requires !IsSpace(path[0]) && !IsSpace(path[|path| - 1])
    ensures WalkPairs([PropTestEqual(path + "='" + value + "'")]) == Success([Pair(path, value)])
  {
    EqualRoundTrip(path, value);
    var nodes := [PropTestEqual(path + "='" + value + "'")];
    assert nodes[1..] == [];
    var none: seq<Pair> := [];
    assert [Pair(path, value)] + none == [Pair(path, value)];
  }

  /** `sub` cannot occur in a string that lacks its first character. */
  lemma AbsentFirstChar(s: string, sub: string)
    requires |sub| > 0 && sub[0] !in s
    ensures !Contains(s, sub)
  {
    FindSpec(s, sub);
    forall j | 0 <= j ensures !OccursAt(s, sub, j) {
      if j + |sub| <= |s| {
        assert s[j..j + |sub|][0] == s[j];
      }
    }
  }

  /** The default vocabulary's paths have no `=` and no surrounding
      whitespace. */
  lemma DefaultPathPlain(path: string)
    requires DefaultType(path).Some?
    ensures path != [] && '=' !in path && !IsSpace(path[0]) && !IsSpace(path[|path| - 1])
  {
  }

  /** The default vocabulary's paths are not IP paths and name no file hash. */
  lemma DefaultPathOnlyDefault(path: string)
    requires DefaultType(path).Some?
    ensures !IsIpPath(path) && !Contains(path, "file:hashes")
  {
    assert 'f' !in path;
    AbsentFirstChar(path, "file:hashes");
  }

  /** A negated hash test `file:hashes...!='v'` reaches the equality callback,
      which keeps the `!` on the path; the path still names `file:hashes`, so
      the hash the pattern excludes is imported as a `File`. */
  lemma NegatedHashBecomesFile(path: string, value: string)
    requires '=' !in path && |path| >= 11 && path[..11] == "file:hashes"
    ensures ConsumeSpec([PropTestEqual(path + "!='" + value + "'")]) == Success([FileMapping(value)])
  {
    var bang := path + "!";
    var nodes := [PropTestEqual(path + "!='" + value + "'")];
    NegatedEqualKeepsBang(path, value);
    SingleNodeWalk(nodes[0], Pair(bang, value));
    ConsumeOfPairs(nodes, [Pair(bang, value)]);
    assert bang[..11] == path[..11];
    OnlyFileHash(Pair(bang, value));
  }

  lemma SingleNodeWalk(node: PatternNode, p: Pair)
    requires NodePairs(node) == Success([p])
    ensures WalkPairs([node]) == Success([p])
  {
    assert [node][1..] == [];
    var none: seq<Pair> := [];
    assert [p] + none == [p];
  }

  /** A lone pair on a `file:hashes` path ending in `!` is one `File`. */
  lemma OnlyFileHash(p: Pair)
    requires |p.path| >= 11 && p.path[..11] == "file:hashes" && p.path[|p.path| - 1] == '!'
    ensures DefaultMappings([p]) + IpMappings([p]) + FileMappings([p]) == [FileMapping(p.value)]
  {
    var none: seq<Mapping> := [];
    assert [p][1..] == [];
    assert DefaultType(p.path).None? && !IsIpPath(p.path);
    assert DefaultMappings([p]) == DefaultOne(p) + DefaultMappings([]) == none;
    assert IpMappings([p]) == IpOne(p) + IpMappings([]) == none;
    assert OccursAt(p.path, "file:hashes", 0);
    FindSpec(p.path, "file:hashes");
    assert Passes(FileHashes, p);
    assert Select([p], FileHashes) == Keep(FileHashes)(p) + Select([], FileHashes) == [p];
    SelectOne(p, Sha156);
    SelectOne(p, Sha1);
    SelectOne(p, Md5);
  }

  lemma SelectOne(p: Pair, test: PathTest)
    ensures |Select([p], test)| <= 1
  {
    assert [p][1..] == [];
    assert Select([p], test) == Keep(test)(p) + Select([], test);
  }
}
