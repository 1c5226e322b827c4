/** `STIXListener`: the visitor that walks a parsed STIX 2.1 pattern
    (section 9 of STIX 2.1) and pulls a `(path, value)` pair out of every
    equality comparison `path = 'v'` and every set comparison
    `path IN ('v1', 'v2', ...)`, in the order the walk enters them.

    Parsing the pattern and walking its tree belong to an external grammar
    library; the model receives the text `ctx.getText()` returns for each
    comparison node. */
module StixPattern {
  import opened Wrappers
  import opened PyStr

  /** One extracted comparison, `{'path': ..., 'value': ...}`. */
  datatype Pair = Pair(path: string, value: string)

  /** The exceptions the two callbacks raise. */
  datatype ListenerError =
    | NoEqualsSign            // `test.index('=')` finds no `=`
    | NotTwoParts(count: nat) // `path, values = text.split('IN')` gets `count` parts

  /** A comparison node of the parsed pattern, with its text. */
  datatype PatternNode =
    | PropTestEqual(text: string)
    | PropTestSet(text: string)
    | OtherPropTest(text: string)   // `<`, `LIKE`, `MATCHES`, `EXISTS`, ...: no callback

  /** The pairs `enterPropTestEqual` appends for a node with this text (the
      grammar's `propTestEqual` rule covers `=` and `!=`, and `propTestSet`
      covers `IN`, each also with a leading `NOT`): split at
      the first `=`, path is the stripped left side, value the stripped right
      side less its first and last character; an `=` at position 0 appends
      nothing, a text without `=` raises. */
  function EqualPairs(text: string): Result<seq<Pair>, ListenerError> {
    match Find(text, "=")
    case None => Failure(NoEqualsSign)
    case Some(i) =>
      if i == 0 then Success([])
      else Success([Pair(Strip(text[..i]), DropEnds(Strip(text[i + 1..])))])
  }

  /** `[v.strip()[1:-1] for v in values.split(',')]` */
  function SetValues(values: string): (r: seq<string>)
    ensures |r| == |Split(values, ",")|
  {
    var pieces := Split(values, ",");
    seq(|pieces|, k requires 0 <= k < |pieces| => DropEnds(Strip(pieces[k])))
  }

  /** One pair per value, all with the same path. */
  function WithPath(path: string, values: seq<string>): (r: seq<Pair>)
    ensures |r| == |values|
    ensures forall k :: 0 <= k < |values| ==> r[k] == Pair(path, values[k])
  {
    seq(|values|, k requires 0 <= k < |values| => Pair(path, values[k]))
  }

  lemma WithPathSnoc(path: string, values: seq<string>, v: string)
    ensures WithPath(path, values + [v]) == WithPath(path, values) + [Pair(path, v)]
  {
  }

  /** The pairs `enterPropTestSet` appends for a node with this text. */
  function SetPairs(text: string): Result<seq<Pair>, ListenerError> {
    var parts := Split(text, "IN");
    if |parts| != 2 then Failure(NotTwoParts(|parts|))
    else Success(WithPath(Strip(parts[0]), SetValues(DropEnds(parts[1]))))
  }

  function NodePairs(node: PatternNode): Result<seq<Pair>, ListenerError> {
    match node
    case PropTestEqual(t) => EqualPairs(t)
    case PropTestSet(t) => SetPairs(t)
    case OtherPropTest(_) => Success([])
  }

  /** The pairs of a node followed by those of the nodes after it; the first
      exception wins. */
  function Then(first: Result<seq<Pair>, ListenerError>, rest: Result<seq<Pair>, ListenerError>): Result<seq<Pair>, ListenerError> {
    if first.Failure? then first
    else if rest.Failure? then rest
    else Success(first.value + rest.value)
  }

  /** The listener's `indicators` after a walk over `nodes`, or the first
      exception a callback raises. */
  function WalkPairs(nodes: seq<PatternNode>): Result<seq<Pair>, ListenerError> {
    if nodes == [] then Success([]) else Then(NodePairs(nodes[0]), WalkPairs(nodes[1..]))
  }

  class StixListener {
    /** `_indicators`, read through the `indicators` property. */
    var indicators: seq<Pair>

    constructor ()
      ensures indicators == []
    {
      indicators := [];
    }

    /** `enterPropTestEqual`: appends the pair of an equality node, or raises
        and leaves the pairs as they were. */
    method EnterPropTestEqual(text: string) returns (err: Option<ListenerError>)
      modifies this
      ensures EqualPairs(text).Success? ==> err.None? && indicators == old(indicators) + EqualPairs(text).value
      ensures EqualPairs(text).Failure? ==> err == Some(EqualPairs(text).error) && indicators == old(indicators)
    {
      var eqIndex := Find(text, "=");
      if eqIndex.None? {
        return Some(NoEqualsSign);
      }
      err := None;
      if eqIndex.value != 0 {
        var path, value := text[..eqIndex.value], text[eqIndex.value + 1..];
        indicators := indicators + [Pair(Strip(path), DropEnds(Strip(value)))];
      }
    }

    /** `enterPropTestSet`: appends one pair per listed value, in order, or
        raises and leaves the pairs as they were. */
    method EnterPropTestSet(text: string) returns (err: Option<ListenerError>)
      modifies this
      ensures SetPairs(text).Success? ==> err.None? && indicators == old(indicators) + SetPairs(text).value
      ensures SetPairs(text).Failure? ==> err == Some(SetPairs(text).error) && indicators == old(indicators)
    {
      var parts := Split(text, "IN");
      if |parts| != 2 {
        return Some(NotTwoParts(|parts|));
      }
      var path := Strip(parts[0]);
      var values := SetValues(DropEnds(parts[1]));
      var i := 0;
      while i < |values|
        invariant 0 <= i <= |values|
        invariant indicators == old(indicators) + WithPath(path, values[..i])
      {
        WithPathSnoc(path, values[..i], values[i]);
        assert values[..i + 1] == values[..i] + [values[i]];
        indicators := indicators + [Pair(path, values[i])];
        i := i + 1;
      }
      assert values[..i] == values;
      err := None;
    }

    /** What the tree walker does on entering a comparison node: it calls the
        listener's callback for that kind of node, if there is one. */
    method Enter(node: PatternNode) returns (err: Option<ListenerError>)
      modifies this
      ensures NodePairs(node).Success? ==> err.None? && indicators == old(indicators) + NodePairs(node).value
      ensures NodePairs(node).Failure? ==> err == Some(NodePairs(node).error) && indicators == old(indicators)
    {
      match node {
        case PropTestEqual(t) => err := EnterPropTestEqual(t);
        case PropTestSet(t) => err := EnterPropTestSet(t);
        case OtherPropTest(_) =>
          err := None;
          assert indicators + [] == indicators;
      }
    }
  }

  /** A `!=` comparison reaches the same callback as `=`: the split at the
      first `=` leaves the `!` on the path, and the value is taken as if the
      test were an equality. */
  lemma NegatedEqualKeepsBang(path: string, value: string)
    requires path != [] && '=' !in path && !IsSpace(path[0])
    ensures EqualPairs(path + "!='" + value + "'") == Success([Pair(path + "!", value)])
  {
    assert path + "!='" + value + "'" == (path + "!") + "='" + value + "'";
    EqualRoundTrip(path + "!", value);
  }

  /** An equality node rendered as `ctx.getText()` renders it (whitespace is
      not part of the text), with a path free of `=` and of surrounding
      whitespace, gives back exactly its path and value, whatever the value. */
  lemma EqualRoundTrip(path: string, value: string)
    requires path != [] && '=' !in path
    requires !IsSpace(path[0]) && !IsSpace(path[|path| - 1])
    ensures EqualPairs(path + "='" + value + "'") == Success([Pair(path, value)])
  {
    var quoted := "'" + value + "'";
    var text := path + "='" + value + "'";
    assert text == path + ['='] + quoted;
    FindCharAfter(path, '=', quoted);
    assert text[..|path|] == path;
    assert text[|path| + 1..] == quoted;
    StripUnchanged(path);
    StripUnchanged(quoted);
  }

  /** An `=` at position 0 is found but ignored: nothing is appended. */
  lemma EqualSignFirstIgnored(text: string)
    requires |text| > 0 && text[0] == '='
    ensures EqualPairs(text) == Success([])
  {
    FindSpec(text, "=");
    assert OccursAt(text, "=", 0);
  }

  /** A text with no `=` makes the callback raise. */
  lemma EqualWithoutSignRaises(text: string)
    requires '=' !in text
    ensures EqualPairs(text) == Failure(NoEqualsSign)
  {
    NotContainsChar(text, '=');
  }

  function Quote(v: string): string {
    "'" + v + "'"
  }

  /** When `IN` occurs in neither part, `p + "IN" + b` splits into `[p, b]`. */
  lemma SplitAtIn(p: string, b: string)
    requires !Contains(p, "IN") && !Contains(b, "IN")
    ensures Split(p + "IN" + b, "IN") == [p, b]
  {
    var s := p + "IN" + b;
    FindSpec(s, "IN");
    FindSpec(p, "IN");
    assert s[|p|..|p| + 2] == "IN";
    assert OccursAt(s, "IN", |p|);
    forall j | 0 <= j < |p| ensures !OccursAt(s, "IN", j) {
      if j + 2 <= |p| {
        assert s[j..j + 2] == p[j..j + 2];
        assert !OccursAt(p, "IN", j);
      } else {
        assert j + 1 == |p| && s[j + 1] == 'I';
        assert j + 2 <= |s| ==> s[j..j + 2][1] == 'I';
      }
    }
    assert Find(s, "IN") == Some(|p|);
    assert s[..|p|] == p;
    assert s[|p| + 2..] == b;
    assert Split(b, "IN") == [b];
  }

  function QuoteAll(values: seq<string>): (r: seq<string>)
    ensures |r| == |values|
    ensures forall k :: 0 <= k < |values| ==> r[k] == Quote(values[k])
  {
    seq(|values|, k requires 0 <= k < |values| => Quote(values[k]))
  }

  /** The parenthesised, comma-separated list of quoted values of a set node. */
  function SetBody(values: seq<string>): string {
    "(" + Join(QuoteAll(values), ",") + ")"
  }

  /** Splitting a comma-joined list of quoted values and unquoting each piece
      gives the values back when none holds a comma. */
  lemma SetValuesQuoted(values: seq<string>)
    requires |values| >= 1
    requires forall k :: 0 <= k < |values| ==> ',' !in values[k]
    ensures SetValues(Join(QuoteAll(values), ",")) == values
  {
    var quoted := QuoteAll(values);
    forall k | 0 <= k < |quoted| ensures ',' !in quoted[k] {
      assert quoted[k] == "'" + values[k] + "'";
    }
    SplitJoin(quoted, ',');
    var got := SetValues(Join(quoted, ","));
    forall k | 0 <= k < |values| ensures got[k] == values[k] {
      StripUnchanged(quoted[k]);
    }
  }

  /** A set node rendered as `ctx.getText()` renders it gives back one pair per
      listed value, in order, all with the node's path, provided the path has
      no surrounding whitespace, no value holds a comma, and `IN` occurs only
      as the operator. */
  lemma SetRoundTrip(path: string, values: seq<string>)
    requires path != [] && !IsSpace(path[0]) && !IsSpace(path[|path| - 1])
    requires |values| >= 1
    requires forall k :: 0 <= k < |values| ==> ',' !in values[k]
    requires !Contains(path, "IN") && !Contains(SetBody(values), "IN")
    ensures SetPairs(path + "IN" + SetBody(values)) == Success(WithPath(path, values))
  {
    var body := SetBody(values);
    SplitAtIn(path, body);
    StripUnchanged(path);
    assert DropEnds(body) == Join(QuoteAll(values), ",");
    SetValuesQuoted(values);
  }

  /** A pattern whose comparisons are all of kinds the listener has no callback
      for yields no pairs and no error. */
  lemma {:induction false} WalkUnsupportedOnly(nodes: seq<PatternNode>)
    requires forall k :: 0 <= k < |nodes| ==> nodes[k].OtherPropTest?
    ensures WalkPairs(nodes) == Success([])
  {
    if nodes != [] {
      assert forall k :: 0 <= k < |nodes[1..]| ==> nodes[1..][k] == nodes[k + 1];
      WalkUnsupportedOnly(nodes[1..]);
      var none: seq<Pair> := [];
      assert none + none == none;
    }
  }
}
