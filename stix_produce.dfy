/** The produce direction of `StixIndicator`: one STIX 2.1 Indicator (section
    4.7 of STIX 2.1) per platform indicator record whose type is known.

    The type-to-pattern-builder map, the security-label map and the
    threat-rating map belong to the model base class and are parameters here,
    as is `uuid.uuid5(NAMESPACE_X500, .)`. */
module StixProduce {
  import opened Wrappers
  import opened PyStr
  import opened StixTime

  /** `{'name': ...}` of a record's `tag` list. */
  datatype Tag = Tag(name: string)

  /** `{'name': ...}` of a record's `securityLabel` list; `None` when the key is
      absent, which reads as `''`. */
  datatype LabelRef = LabelRef(name: Option<string>)

  /** `{'type', 'value', 'lastModified', 'displayed'}` of a record's `attribute`
      list; an absent `type` or `lastModified` is `None`. */
  datatype Attribute = Attribute(attrType: Option<string>, value: string, lastModified: Option<string>, displayed: bool)

  /** A platform indicator record. `rating` is the result of `int(rating)`,
      `None` where that raises (the key is absent or holds no number). */
  datatype NativeRecord = NativeRecord(
    indicatorType: Option<string>,
    summary: string,
    dateAdded: Option<string>,
    lastModified: Option<string>,
    confidence: Option<int>,
    rating: Option<int>,
    active: Option<bool>,
    ownerName: Option<string>,
    tags: seq<Tag>,
    securityLabels: seq<LabelRef>,
    attributes: seq<Attribute>)

  /** `tc_data`: one record or a list of them. */
  datatype TcData = One(record: NativeRecord) | Many(records: seq<NativeRecord>)

  /** The three maps of the model base: lower-cased type to pattern builder,
      lower-cased security-label name to marking reference, rating text to
      label. */
  datatype Registry = Registry(
    typeDetails: map<string, NativeRecord -> string>,
    securityLabelMap: map<string, string>,
    threatRatingMap: map<string, string>)

  /** The dict `produce` yields. `revoked` stands for the key being present
      (it is only ever set to `True`); `labels` and `objectMarkingRefs` are
      `None` when the key is absent. */
  datatype Indicator = Indicator(
    patternType: string,
    lang: string,
    patternVersion: string,
    objType: string,
    created: string,
    validFrom: string,
    modified: string,
    name: string,
    pattern: string,
    description: string,
    indicatorTypes: seq<string>,
    confidence: int,
    revoked: bool,
    labels: Option<seq<string>>,
    objectMarkingRefs: Option<seq<string>>,
    id: string)

  /** The exceptions that end the generator. */
  datatype ProduceError =
    | MissingType                 // `_type.lower()` on `None`
    | MissingDateAdded            // `_add_milliseconds(None)`
    | MissingLastModified
    | AttributeWithoutType        // `attribute.get('type').lower()` on `None`
    | BadAttributeTimestamp       // `strptime` raises on the attribute's `lastModified`
    | MissingOwnerName            // `data.get('ownerName').lower()` on `None`

  // ---------------------------------------------------------------------
  // One record

  /** `kwargs.get('indicator_type') or data.get('type')`: a non-empty override
      wins. */
  function ResolveType(override: Option<string>, rec: NativeRecord): Option<string> {
    if override.Some? && override.value != "" then override else rec.indicatorType
  }

  function TagNames(tags: seq<Tag>): seq<string> {
    seq(|tags|, k requires 0 <= k < |tags| => tags[k].name)
  }

  /** `labels` after the tag loop: absent without tags. */
  function TagLabels(tags: seq<Tag>): (r: Option<seq<string>>)
    ensures r.None? <==> tags == []
    ensures r.Some? ==> |r.value| == |tags| && forall k :: 0 <= k < |tags| ==> r.value[k] == tags[k].name
  {
    if tags == [] then None else Some(TagNames(tags))
  }

  /** `security_label.get('name', '').strip().lower()` */
  function LabelKey(l: LabelRef): string {
    Lower(Strip(l.name.GetOr("")))
  }

  /** The images under `m` of the keys of `xs` that `m` holds, in order. */
  function Mapped<T>(xs: seq<T>, key: T -> string, m: map<string, string>): seq<string> {
    if xs == [] then []
    else
      Mapped(xs[..|xs| - 1], key, m)
      + (var k := key(xs[|xs| - 1]); if k in m then [m[k]] else [])
  }

  /** `object_marking_refs`: the marking references of the labels whose key is
      in the map, in order; present only when some label is mapped. */
  function MarkingRefs(ls: seq<LabelRef>, m: map<string, string>): Option<seq<string>> {
    var refs := Mapped(ls, LabelKey, m);
    if refs == [] then None else Some(refs)
  }

  /** One step of the security-label loop. */
  lemma MarkingRefsSnoc(ls: seq<LabelRef>, j: nat, m: map<string, string>)
    requires j < |ls|
    ensures LabelKey(ls[j]) in m ==>
      MarkingRefs(ls[..j + 1], m) == Some(MarkingRefs(ls[..j], m).GetOr([]) + [m[LabelKey(ls[j])]])
    ensures LabelKey(ls[j]) !in m ==> MarkingRefs(ls[..j + 1], m) == MarkingRefs(ls[..j], m)
  {
    MappedSnoc(ls, j, LabelKey, m);
  }

  lemma MappedSnoc<T>(xs: seq<T>, j: nat, key: T -> string, m: map<string, string>)
    requires j < |xs|
    ensures key(xs[j]) in m ==> Mapped(xs[..j + 1], key, m) == Mapped(xs[..j], key, m) + [m[key(xs[j])]]
    ensures key(xs[j]) !in m ==> Mapped(xs[..j + 1], key, m) == Mapped(xs[..j], key, m)
  {
    var prefix := xs[..j + 1];
    assert prefix[..|prefix| - 1] == xs[..j];
    var before := Mapped(xs[..j], key, m);
    assert before + [] == before;
  }

  /** `labels` after the rating step: `setdefault('labels', [])` runs before
      the lookup, so a rating without a map entry still makes `labels`
      present. */
  function RatingLabels(labels: Option<seq<string>>, rating: Option<int>, m: map<string, string>): (r: Option<seq<string>>)
    ensures r.None? <==> labels.None? && rating.None?
    ensures r.Some? ==> labels.GetOr([]) <= r.value
    ensures r.Some? ==> |r.value| == |labels.GetOr([])| + (if rating.Some? && IntToString(rating.value) in m then 1 else 0)
    ensures r.Some? && rating.Some? && IntToString(rating.value) in m ==>
      r.value == labels.GetOr([]) + [m[IntToString(rating.value)]]
    ensures r.Some? && (rating.None? || IntToString(rating.value) !in m) ==> r.value == labels.GetOr([])
  {
    match rating
    case None => labels
    case Some(r) =>
      var current := labels.GetOr([]);
      var key := IntToString(r);
      Some(if key in m then current + [m[key]] else current)
  }

  /** `datetime.strptime(attribute.get('lastModified'), ...)`, `None` where it
      raises. */
  function AttributeTime(a: Attribute): Option<DateTime> {
    match a.lastModified
    case None => None
    case Some(s) => ParseTimestamp(s)
  }

  predicate IsDescription(a: Attribute)
    requires a.attrType.Some?
  {
    Lower(a.attrType.value) == "description"
  }

  /** The attribute loop from the state `(description, latest)`: the first
      displayed description ends the loop, otherwise a strictly later
      `lastModified` replaces the description; a missing type or an
      unparseable timestamp of a description raises. */
  function ScanDescription(attrs: seq<Attribute>, description: string, latest: Option<DateTime>): Result<string, ProduceError> {
    if attrs == [] then Success(description)
    else
      var a := attrs[0];
      if a.attrType.None? then Failure(AttributeWithoutType)
      else if !IsDescription(a) then ScanDescription(attrs[1..], description, latest)
      else match AttributeTime(a)
        case None => Failure(BadAttributeTimestamp)
        case Some(t) =>
          if a.displayed then Success(a.value)
          else if latest.None? || Before(latest.value, t) then ScanDescription(attrs[1..], a.value, Some(t))
          else ScanDescription(attrs[1..], description, latest)
  }

  /** `'indicator--' + uuid5(owner.lower() + '-' + type.lower() + '-' + summary)` */
  function IndicatorId(owner: string, indicatorType: string, summary: string, uuid5: string -> string): string {
    "indicator--" + uuid5(Lower(owner) + "-" + Lower(indicatorType) + "-" + summary)
  }

  /** The dict `produce` yields for a record of known type `t`, or the
      exception it raises first. */
  function BuildIndicator(rec: NativeRecord, t: string, reg: Registry, uuid5: string -> string): Result<Indicator, ProduceError>
    requires Lower(t) in reg.typeDetails
  {
    if rec.dateAdded.None? then Failure(MissingDateAdded)
    else if rec.lastModified.None? then Failure(MissingLastModified)
    else match ScanDescription(rec.attributes, "", None)
      case Failure(e) => Failure(e)
      case Success(description) =>
        if rec.ownerName.None? then Failure(MissingOwnerName)
        else Success(Indicator(
          patternType := "stix",
          lang := "en",
          patternVersion := "2.1",
          objType := "indicator",
          created := AddMilliseconds(rec.dateAdded.value),
          validFrom := AddMilliseconds(rec.dateAdded.value),
          modified := AddMilliseconds(rec.lastModified.value),
          name := rec.summary,
          pattern := reg.typeDetails[Lower(t)](rec),
          description := description,
          indicatorTypes := ["malicious-activity"],
          confidence := rec.confidence.GetOr(0),
          revoked := rec.active == Some(false),
          labels := RatingLabels(TagLabels(rec.tags), rec.rating, reg.threatRatingMap),
          objectMarkingRefs := MarkingRefs(rec.securityLabels, reg.securityLabelMap),
          id := IndicatorId(rec.ownerName.value, t, rec.summary, uuid5)))
  }

  /** What a built dict holds, and when building raises. */
  lemma IndicatorFields(rec: NativeRecord, t: string, reg: Registry, uuid5: string -> string)
    requires Lower(t) in reg.typeDetails
    ensures var r := BuildIndicator(rec, t, reg, uuid5);
      && (r.Failure? <==>
            rec.dateAdded.None? || rec.lastModified.None? || ScanDescription(rec.attributes, "", None).Failure? || rec.ownerName.None?)
      && (r.Success? ==>
            var ind := r.value;
            && ind.patternType == "stix" && ind.lang == "en" && ind.patternVersion == "2.1" && ind.objType == "indicator"
            && ind.indicatorTypes == ["malicious-activity"]
            && ind.name == rec.summary
            && ind.pattern == reg.typeDetails[Lower(t)](rec)
            && ind.confidence == rec.confidence.GetOr(0)
            && ind.created == ind.validFrom == AddMilliseconds(rec.dateAdded.value)
            && ind.modified == AddMilliseconds(rec.lastModified.value)
            && (ind.revoked <==> rec.active == Some(false))
            && ind.description == ScanDescription(rec.attributes, "", None).value
            && (ind.labels.None? <==> rec.tags == [] && rec.rating.None?)
            && (ind.labels.Some? ==> TagNames(rec.tags) <= ind.labels.value)
            && ind.labels == RatingLabels(TagLabels(rec.tags), rec.rating, reg.threatRatingMap)
            && ind.objectMarkingRefs == MarkingRefs(rec.securityLabels, reg.securityLabelMap)
            && ind.id == IndicatorId(rec.ownerName.value, t, rec.summary, uuid5)
            && |ind.id| >= 11 && ind.id[..11] == "indicator--")
  {
  }

  /** The `id` depends only on the lower-cased owner, the lower-cased type and
      the summary. */
  lemma IdDeterministic(rec1: NativeRecord, t1: string, rec2: NativeRecord, t2: string, reg: Registry, uuid5: string -> string)
    requires Lower(t1) in reg.typeDetails && Lower(t2) in reg.typeDetails
    requires BuildIndicator(rec1, t1, reg, uuid5).Success? && BuildIndicator(rec2, t2, reg, uuid5).Success?
    requires Lower(rec1.ownerName.value) == Lower(rec2.ownerName.value)
    requires Lower(t1) == Lower(t2) && rec1.summary == rec2.summary
    ensures BuildIndicator(rec1, t1, reg, uuid5).value.id == BuildIndicator(rec2, t2, reg, uuid5).value.id
  {
  }

  /** The tag loop: `kwargs.setdefault('labels', []).append(tag.get('name'))`
      for each tag. */
  method CollectTagLabels(tags: seq<Tag>) returns (labels: Option<seq<string>>)
    ensures labels == TagLabels(tags)
  {
    labels := None;
    var i := 0;
    while i < |tags|
      invariant 0 <= i <= |tags|
      invariant labels == TagLabels(tags[..i])
    {
      assert TagNames(tags[..i + 1]) == TagNames(tags[..i]) + [tags[i].name];
      labels := Some(labels.GetOr([]) + [tags[i].name]);
      i := i + 1;
    }
    assert tags[..i] == tags;
  }

  /** The security-label loop: the mapped reference of every label whose
      stripped, lower-cased name is in the map is appended to
      `object_marking_refs`. */
  method CollectMarkingRefs(securityLabels: seq<LabelRef>, m: map<string, string>) returns (refs: Option<seq<string>>)
    ensures refs == MarkingRefs(securityLabels, m)
  {
    refs := None;
    var j := 0;
    while j < |securityLabels|
      invariant 0 <= j <= |securityLabels|
      invariant refs == MarkingRefs(securityLabels[..j], m)
    {
      var key := LabelKey(securityLabels[j]);
      MarkingRefsSnoc(securityLabels, j, m);
      if key in m {
        refs := Some(refs.GetOr([]) + [m[key]]);
      }
      j := j + 1;
    }
    assert securityLabels[..j] == securityLabels;
  }

  /** The attribute loop, from `description = ''` and `latest = None`. */
  method SelectDescription(attrs: seq<Attribute>) returns (r: Result<string, ProduceError>)
    ensures r == ScanDescription(attrs, "", None)
  {
    var description := "";
    var latest: Option<DateTime> := None;
    var k := 0;
    while k < |attrs|
      invariant 0 <= k <= |attrs|
      invariant ScanDescription(attrs, "", None) == ScanDescription(attrs[k..], description, latest)
    {
      var a := attrs[k];
      assert attrs[k..][0] == a && attrs[k..][1..] == attrs[k + 1..];
      if a.attrType.None? {
        return Failure(AttributeWithoutType);
      }
      if Lower(a.attrType.value) == "description" {
        var lastModified := AttributeTime(a);
        if lastModified.None? {
          return Failure(BadAttributeTimestamp);
        }
        if a.displayed {
          description := a.value;
          break;
        }
        if latest.None? || Before(latest.value, lastModified.value) {
          latest := lastModified;
          description := a.value;
        }
      }
      k := k + 1;
    }
    r := Success(description);
  }

  /** The body of `produce`'s loop for one record of known type `t`. */
  method ProduceRecord(rec: NativeRecord, t: string, reg: Registry, uuid5: string -> string)
    returns (r: Result<Indicator, ProduceError>)
    requires Lower(t) in reg.typeDetails
    ensures r == BuildIndicator(rec, t, reg, uuid5)
  {
    if rec.dateAdded.None? {
      return Failure(MissingDateAdded);
    }
    if rec.lastModified.None? {
      return Failure(MissingLastModified);
    }
    var created := AddMilliseconds(rec.dateAdded.value);
    var modified := AddMilliseconds(rec.lastModified.value);
    var pattern := reg.typeDetails[Lower(t)](rec);
    var revoked := false;
    if rec.active == Some(false) {
      revoked := true;
    }
    var labels := CollectTagLabels(rec.tags);
    var refs := CollectMarkingRefs(rec.securityLabels, reg.securityLabelMap);
    var description := SelectDescription(rec.attributes);
    if description.Failure? {
      return Failure(description.error);
    }
    if rec.ownerName.None? {
      return Failure(MissingOwnerName);
    }
    var id := IndicatorId(rec.ownerName.value, t, rec.summary, uuid5);
    if rec.rating.Some? {
      var current := labels.GetOr([]);
      var key := IntToString(rec.rating.value);
      if key in reg.threatRatingMap {
        labels := Some(current + [reg.threatRatingMap[key]]);
      } else {
        labels := Some(current);
      }
    }
    r := Success(Indicator(
      patternType := "stix", lang := "en", patternVersion := "2.1", objType := "indicator",
      created := created, validFrom := created, modified := modified,
      name := rec.summary, pattern := pattern, description := description.value,
      indicatorTypes := ["malicious-activity"], confidence := rec.confidence.GetOr(0),
      revoked := revoked, labels := labels, objectMarkingRefs := refs, id := id));
  }

  // ---------------------------------------------------------------------
  // The generator

  /** `tc_data` as a list: a single record becomes a one-element list. */
  function Records(data: TcData): (r: seq<NativeRecord>)
    ensures data.One? ==> r == [data.record]
  {
    match data
    case One(rec) => [rec]
    case Many(recs) => recs
  }

  /** What the generator yields for `records`, and the exception that ends it,
      if any. The override holds only until the first record that gets past
      the type check, because `kwargs` is rebound there. */
  function ProduceSpec(records: seq<NativeRecord>, override: Option<string>, reg: Registry, uuid5: string -> string)
    : (seq<Indicator>, Option<ProduceError>)
  {
    if records == [] then ([], None)
    else
      match ResolveType(override, records[0])
      case None => ([], Some(MissingType))
      case Some(t) =>
        if Lower(t) !in reg.typeDetails then ProduceSpec(records[1..], override, reg, uuid5)
        else match BuildIndicator(records[0], t, reg, uuid5)
          case Failure(e) => ([], Some(e))
          case Success(ind) =>
            var rest := ProduceSpec(records[1..], None, reg, uuid5);
            ([ind] + rest.0, rest.1)
  }

  /** `produce`, run to the end: the dicts it yields, in order, and the
      exception that ended it, if any. */
  method Produce(data: TcData, override: Option<string>, reg: Registry, uuid5: string -> string)
    returns (out: seq<Indicator>, err: Option<ProduceError>)
    ensures (out, err) == ProduceSpec(Records(data), override, reg, uuid5)
  {
    var records := Records(data);
    ghost var spec := ProduceSpec(records, override, reg, uuid5);
    var indicatorType := override;
    out := [];
    var i := 0;
    assert records[i..] == records;
    assert out + spec.0 == spec.0;
    while i < |records|
      invariant 0 <= i <= |records|
      invariant out + ProduceSpec(records[i..], indicatorType, reg, uuid5).0 == spec.0
      invariant ProduceSpec(records[i..], indicatorType, reg, uuid5).1 == spec.1
    {
      var rec := records[i];
      assert records[i..][0] == rec && records[i..][1..] == records[i + 1..];
      ProduceStep(records[i..], indicatorType, reg, uuid5);
      var t := ResolveType(indicatorType, rec);
      if t.None? {
        assert out + [] == out;
        return out, Some(MissingType);
      }
      if Lower(t.value) in reg.typeDetails {
        indicatorType := None;
        var r := ProduceRecord(rec, t.value, reg, uuid5);
        if r.Failure? {
          assert out + [] == out;
          return out, Some(r.error);
        }
        AppendAssoc(out, r.value, ProduceSpec(records[i + 1..], None, reg, uuid5).0);
        out := out + [r.value];
      }
      i := i + 1;
    }
    assert out + [] == out;
    err := None;
  }

  lemma AppendAssoc(out: seq<Indicator>, x: Indicator, rest: seq<Indicator>)
    ensures out + ([x] + rest) == (out + [x]) + rest
  {
  }

  // ---------------------------------------------------------------------
  // Security labels

  lemma {:induction false} MappedAppend<T>(xs: seq<T>, ys: seq<T>, key: T -> string, m: map<string, string>)
    decreases |ys|
    ensures Mapped(xs + ys, key, m) == Mapped(xs, key, m) + Mapped(ys, key, m)
  {
    if ys == [] {
      assert xs + ys == xs;
    } else {
      var last := ys[|ys| - 1];
      assert (xs + ys)[..|xs + ys| - 1] == xs + ys[..|ys| - 1];
      MappedAppend(xs, ys[..|ys| - 1], key, m);
    }
  }

  lemma {:induction false} MappedAll<T>(xs: seq<T>, key: T -> string, m: map<string, string>)
    requires forall k :: 0 <= k < |xs| ==> key(xs[k]) in m
    ensures Mapped(xs, key, m) == seq(|xs|, k requires 0 <= k < |xs| && key(xs[k]) in m => m[key(xs[k])])
  {
    if xs != [] {
      var init := xs[..|xs| - 1];
      assert forall k :: 0 <= k < |init| ==> init[k] == xs[k];
      MappedAll(init, key, m);
    }
  }

  lemma {:induction false} MappedNone<T>(xs: seq<T>, key: T -> string, m: map<string, string>)
    requires forall k :: 0 <= k < |xs| ==> key(xs[k]) !in m
    ensures Mapped(xs, key, m) == []
  {
    if xs != [] {
      var init := xs[..|xs| - 1];
      assert forall k :: 0 <= k < |init| ==> init[k] == xs[k];
      MappedNone(init, key, m);
    }
  }

  /** The references of two runs of labels are those of the first run followed
      by those of the second: the loop keeps the labels' order. */
  lemma MarkingRefsOrder(ls1: seq<LabelRef>, ls2: seq<LabelRef>, m: map<string, string>)
    ensures MarkingRefs(ls1 + ls2, m).GetOr([]) == MarkingRefs(ls1, m).GetOr([]) + MarkingRefs(ls2, m).GetOr([])
  {
    MappedAppend(ls1, ls2, LabelKey, m);
  }

  /** When no label is mapped, `object_marking_refs` is absent. */
  lemma MarkingRefsNoneMapped(ls: seq<LabelRef>, m: map<string, string>)
    requires forall k :: 0 <= k < |ls| ==> LabelKey(ls[k]) !in m
    ensures MarkingRefs(ls, m).None?
  {
    MappedNone(ls, LabelKey, m);
  }

  // ---------------------------------------------------------------------
  // Description selection

  /** Attribute `i` is a description: its type lower-cases to `description`. */
  predicate DescAt(attrs: seq<Attribute>, i: int) {
    0 <= i < |attrs| && attrs[i].attrType.Some? && IsDescription(attrs[i])
  }

  /** The scan goes past attribute `a` without stopping: it has a type and, if
      it is a description, a parseable timestamp and no `displayed` flag. */
  predicate PassesOver(a: Attribute) {
    a.attrType.Some? && (IsDescription(a) ==> AttributeTime(a).Some? && !a.displayed)
  }

  /** `(description, latest)` after the scan passes over `a`. */
  function Step(a: Attribute, d: string, l: Option<DateTime>): (string, Option<DateTime>)
    requires PassesOver(a)
  {
    if !IsDescription(a) then (d, l)
    else if l.None? || Before(l.value, AttributeTime(a).value) then (a.value, AttributeTime(a))
    else (d, l)
  }

  lemma ScanPass(attrs: seq<Attribute>, d: string, l: Option<DateTime>)
    requires attrs != [] && PassesOver(attrs[0])
    ensures ScanDescription(attrs, d, l) == ScanDescription(attrs[1..], Step(attrs[0], d, l).0, Step(attrs[0], d, l).1)
  {
  }

  lemma ScanAt(attrs: seq<Attribute>, k: nat, d: string, l: Option<DateTime>)
    requires k < |attrs| && PassesOver(attrs[k])
    ensures ScanDescription(attrs[k..], d, l) == ScanDescription(attrs[k + 1..], Step(attrs[k], d, l).0, Step(attrs[k], d, l).1)
  {
    ScanPass(attrs[k..], d, l);
    assert attrs[k..][0] == attrs[k] && attrs[k..][1..] == attrs[k + 1..];
  }

  /** Without any description attribute the description stays as it was
      (`''` from the start), whatever the other attributes hold. */
  lemma {:induction false} NoDescriptionKeepsEmpty(attrs: seq<Attribute>, d: string, l: Option<DateTime>)
    requires forall k :: 0 <= k < |attrs| ==> attrs[k].attrType.Some? && !IsDescription(attrs[k])
    ensures ScanDescription(attrs, d, l) == Success(d)
  {
    if attrs != [] {
      assert forall k :: 0 <= k < |attrs[1..]| ==> attrs[1..][k] == attrs[k + 1];
      NoDescriptionKeepsEmpty(attrs[1..], d, l);
    }
  }

  /** The first displayed description ends the scan with its value, whatever
      came before it, as long as the scan got that far. */
  lemma {:induction false} DisplayedWins(attrs: seq<Attribute>, i: nat, d: string, l: Option<DateTime>)
    requires i < |attrs|
    requires forall k :: 0 <= k < i ==> PassesOver(attrs[k])
    requires DescAt(attrs, i) && AttributeTime(attrs[i]).Some? && attrs[i].displayed
    ensures ScanDescription(attrs, d, l) == Success(attrs[i].value)
  {
    if i > 0 {
      ScanPass(attrs, d, l);
      var next := Step(attrs[0], d, l);
      assert forall k :: 0 <= k < |attrs[1..]| ==> attrs[1..][k] == attrs[k + 1];
      DisplayedWins(attrs[1..], i - 1, next.0, next.1);
    }
  }

  /** The timestamp is parsed before the `displayed` check: a description whose
      `lastModified` does not parse raises, even when it is displayed. */
  lemma {:induction false} BadTimestampRaises(attrs: seq<Attribute>, i: nat, d: string, l: Option<DateTime>)
    requires i < |attrs|
    requires forall k :: 0 <= k < i ==> PassesOver(attrs[k])
    requires DescAt(attrs, i) && AttributeTime(attrs[i]).None?
    ensures ScanDescription(attrs, d, l) == Failure(BadAttributeTimestamp)
  {
    if i > 0 {
      ScanPass(attrs, d, l);
      var next := Step(attrs[0], d, l);
      assert forall k :: 0 <= k < |attrs[1..]| ==> attrs[1..][k] == attrs[k + 1];
      BadTimestampRaises(attrs[1..], i - 1, next.0, next.1);
    }
  }

  lemma BeforeOrder(a: DateTime, b: DateTime, c: DateTime)
    ensures !Before(a, a)
    ensures a == b || Before(a, b) || Before(b, a)
    ensures Before(a, b) && Before(b, c) ==> Before(a, c)
    ensures Before(a, b) ==> !Before(b, a)
  {
  }

  /** Among the descriptions before `n`, attribute `w` has a timestamp no other
      one exceeds, and it is the first to have that timestamp. */
  predicate LatestUpTo(attrs: seq<Attribute>, n: int, w: int) {
    && 0 <= w < n <= |attrs| && DescAt(attrs, w) && AttributeTime(attrs[w]).Some?
    && (forall j :: 0 <= j < n && DescAt(attrs, j) && AttributeTime(attrs[j]).Some? ==>
          !Before(AttributeTime(attrs[w]).value, AttributeTime(attrs[j]).value))
    && (forall j :: 0 <= j < w && DescAt(attrs, j) && AttributeTime(attrs[j]).Some? ==>
          Before(AttributeTime(attrs[j]).value, AttributeTime(attrs[w]).value))
  }

  /** Attribute `w` is the winner among the first `k` attributes, or `w` is
      negative and there is no description among them. */
  predicate Leader(attrs: seq<Attribute>, k: int, w: int) {
    if w < 0 then forall j :: 0 <= j < k && j < |attrs| ==> !DescAt(attrs, j) else LatestUpTo(attrs, k, w)
  }

  predicate AllPass(attrs: seq<Attribute>) {
    forall j :: 0 <= j < |attrs| ==> PassesOver(attrs[j])
  }

  /** `(description, latest)` when attribute `w` is the current winner, or the
      initial state when `w` is negative. */
  function StateOf(attrs: seq<Attribute>, w: int): (string, Option<DateTime>)
    requires w < |attrs|
  {
    if w < 0 then ("", None) else (attrs[w].value, AttributeTime(attrs[w]))
  }

  /** One step of the latest-wins argument: passing over attribute `k` keeps
      `w` the winner, or makes `k` the winner when its timestamp is strictly
      later. */
  lemma LatestStep(attrs: seq<Attribute>, k: nat, w: int) returns (w': int)
    requires k < |attrs| && PassesOver(attrs[k])
    requires Leader(attrs, k, w)
    ensures Leader(attrs, k + 1, w')
    ensures StateOf(attrs, w') == Step(attrs[k], StateOf(attrs, w).0, StateOf(attrs, w).1)
  {
    var a := attrs[k];
    if !IsDescription(a) {
      w' := w;
    } else {
      var t := AttributeTime(a).value;
      if w < 0 {
        w' := k;
        BeforeOrder(t, t, t);
      } else {
        var tw := AttributeTime(attrs[w]).value;
        if Before(tw, t) {
          w' := k;
          forall j | 0 <= j < k + 1 && DescAt(attrs, j) && AttributeTime(attrs[j]).Some?
            ensures !Before(t, AttributeTime(attrs[j]).value)
            ensures j < k ==> Before(AttributeTime(attrs[j]).value, t)
          {
            var tj := AttributeTime(attrs[j]).value;
            BeforeOrder(tj, tw, t);
            BeforeOrder(t, tj, t);
            BeforeOrder(tw, t, tj);
          }
        } else {
          w' := w;
        }
      }
    }
  }

  lemma {:induction false} LatestFrom(attrs: seq<Attribute>, k: nat, w: int) returns (win: int)
    requires k <= |attrs|
    requires AllPass(attrs)
    requires Leader(attrs, k, w)
    decreases |attrs| - k
    ensures Leader(attrs, |attrs|, win)
    ensures ScanDescription(attrs[k..], StateOf(attrs, w).0, StateOf(attrs, w).1) == Success(StateOf(attrs, win).0)
  {
    if k == |attrs| {
      win := w;
    } else {
      var state := StateOf(attrs, w);
      ScanAt(attrs, k, state.0, state.1);
      var w' := LatestStep(attrs, k, w);
      win := LatestFrom(attrs, k + 1, w');
    }
  }

  /** With no displayed description and every timestamp parseable, the
      description is `''` when there is no description attribute, and
      otherwise the value of the one with the latest timestamp, the earliest
      of those on a tie. */
  lemma LatestWins(attrs: seq<Attribute>)
    requires forall j :: 0 <= j < |attrs| ==> PassesOver(attrs[j])
    ensures (forall j :: 0 <= j < |attrs| ==> !DescAt(attrs, j)) ==> ScanDescription(attrs, "", None) == Success("")
    ensures (exists j :: DescAt(attrs, j)) ==>
      exists w :: LatestUpTo(attrs, |attrs|, w) && ScanDescription(attrs, "", None) == Success(attrs[w].value)
  {
    assert attrs[0..] == attrs;
    var win := LatestFrom(attrs, 0, -1);
    if win >= 0 {
      assert LatestUpTo(attrs, |attrs|, win);
    }
  }

  // ---------------------------------------------------------------------
  // The generator

  /** The record names a type the registry knows (no override in force). */
  predicate KnownType(rec: NativeRecord, reg: Registry) {
    rec.indicatorType.Some? && Lower(rec.indicatorType.value) in reg.typeDetails
  }

  /** Reference definition: the dicts of the records of known type whose dict
      can be built, in input order, ignoring every exception. */
  function Emitted(records: seq<NativeRecord>, reg: Registry, uuid5: string -> string): seq<Indicator> {
    if records == [] then []
    else
      var rec := records[0];
      (if KnownType(rec, reg) && BuildIndicator(rec, rec.indicatorType.value, reg, uuid5).Success?
       then [BuildIndicator(rec, rec.indicatorType.value, reg, uuid5).value] else [])
      + Emitted(records[1..], reg, uuid5)
  }

  function CountKnown(records: seq<NativeRecord>, reg: Registry): nat {
    if records == [] then 0 else (if KnownType(records[0], reg) then 1 else 0) + CountKnown(records[1..], reg)
  }

  /** What `produce` does with the first record, under the type in force. */
  lemma ProduceStep(records: seq<NativeRecord>, override: Option<string>, reg: Registry, uuid5: string -> string)
    requires records != []
    ensures var res := ProduceSpec(records, override, reg, uuid5);
      var t := ResolveType(override, records[0]);
      && (t.None? ==> res == ([], Some(MissingType)))
      && (t.Some? && Lower(t.value) !in reg.typeDetails ==> res == ProduceSpec(records[1..], override, reg, uuid5))
      && (t.Some? && Lower(t.value) in reg.typeDetails ==>
            var b := BuildIndicator(records[0], t.value, reg, uuid5);
            var rest := ProduceSpec(records[1..], None, reg, uuid5);
            && (b.Failure? ==> res == ([], Some(b.error)))
            && (b.Success? ==> res == ([b.value] + rest.0, rest.1)))
  {
  }

  lemma EmittedHead(records: seq<NativeRecord>, reg: Registry, uuid5: string -> string)
    requires records != []
    ensures var rec := records[0];
      && (!KnownType(rec, reg) ==> Emitted(records, reg, uuid5) == Emitted(records[1..], reg, uuid5))
      && (KnownType(rec, reg) && BuildIndicator(rec, rec.indicatorType.value, reg, uuid5).Success? ==>
            Emitted(records, reg, uuid5)
              == [BuildIndicator(rec, rec.indicatorType.value, reg, uuid5).value] + Emitted(records[1..], reg, uuid5))
  {
    var e: seq<Indicator> := [];
    assert e + Emitted(records[1..], reg, uuid5) == Emitted(records[1..], reg, uuid5);
  }

  /** Without an override, `produce` yields a prefix of the reference
      sequence; when nothing raises it yields all of it, one dict per record
      of known type, and every record had a type. */
  lemma {:induction false} ProduceMatchesEmitted(records: seq<NativeRecord>, reg: Registry, uuid5: string -> string)
    ensures ProduceSpec(records, None, reg, uuid5).0 <= Emitted(records, reg, uuid5)
    ensures ProduceSpec(records, None, reg, uuid5).1.None? ==>
      && ProduceSpec(records, None, reg, uuid5).0 == Emitted(records, reg, uuid5)
      && |ProduceSpec(records, None, reg, uuid5).0| == CountKnown(records, reg)
      && forall k :: 0 <= k < |records| ==> records[k].indicatorType.Some?
  {
    if records != [] {
      ProduceMatchesEmitted(records[1..], reg, uuid5);
      ProduceStep(records, None, reg, uuid5);
      EmittedHead(records, reg, uuid5);
      var res := ProduceSpec(records, None, reg, uuid5);
      if res.1.None? {
        assert forall k :: 1 <= k < |records| ==> records[k] == records[1..][k - 1];
      }
    }
  }

  /** The record has a `type`, and building its dict does not raise when the
      registry knows that type. */
  predicate GetsPast(rec: NativeRecord, reg: Registry, uuid5: string -> string) {
    && rec.indicatorType.Some?
    && (Lower(rec.indicatorType.value) in reg.typeDetails ==>
          BuildIndicator(rec, rec.indicatorType.value, reg, uuid5).Success?)
  }

  /** Without an override, the first record without a `type` ends the
      generator with the exception `_type.lower()` raises, once the records
      before it have yielded their dicts. */
  lemma {:induction false} MissingTypeRaises(records: seq<NativeRecord>, k: nat, reg: Registry, uuid5: string -> string)
    requires k < |records| && records[k].indicatorType.None?
    requires forall j :: 0 <= j < k ==> GetsPast(records[j], reg, uuid5)
    ensures ProduceSpec(records, None, reg, uuid5) == (Emitted(records[..k], reg, uuid5), Some(MissingType))
    decreases k
  {
    ProduceStep(records, None, reg, uuid5);
    if k == 0 {
      assert records[..0] == [];
    } else {
      var tail := records[1..];
      assert forall j :: 0 <= j < k - 1 ==> tail[j] == records[j + 1];
      MissingTypeRaises(tail, k - 1, reg, uuid5);
      var front := records[..k];
      assert front[0] == records[0] && front[1..] == tail[..k - 1];
      assert GetsPast(records[0], reg, uuid5);
      EmittedHead(front, reg, uuid5);
    }
  }

  /** Records whose resolved type the registry does not know are skipped
      without error, and the override stays in force over them. */
  lemma {:induction false} ProduceSkipsUnknown(records: seq<NativeRecord>, override: Option<string>, reg: Registry, uuid5: string -> string)
    requires forall k :: 0 <= k < |records| ==>
      ResolveType(override, records[k]).Some? && Lower(ResolveType(override, records[k]).value) !in reg.typeDetails
    ensures ProduceSpec(records, override, reg, uuid5) == ([], None)
  {
    if records != [] {
      assert forall k :: 0 <= k < |records[1..]| ==> records[1..][k] == records[k + 1];
      ProduceSkipsUnknown(records[1..], override, reg, uuid5);
    }
  }

  /** A non-empty override the registry does not know skips every record,
      even those whose own type is known. */
  lemma UnknownOverrideSkipsAll(records: seq<NativeRecord>, t: string, reg: Registry, uuid5: string -> string)
    requires t != "" && Lower(t) !in reg.typeDetails
    ensures ProduceSpec(records, Some(t), reg, uuid5) == ([], None)
  {
    ProduceSkipsUnknown(records, Some(t), reg, uuid5);
  }

  /** A known override types only the first record; the records after it are
      typed by their own `type`, so with no exception the output is the first
      dict followed by the reference sequence of the rest. */
  lemma KnownOverrideFirstOnly(records: seq<NativeRecord>, t: string, reg: Registry, uuid5: string -> string)
    requires records != [] && t != "" && Lower(t) in reg.typeDetails
    requires ProduceSpec(records, Some(t), reg, uuid5).1.None?
    ensures ProduceSpec(records, Some(t), reg, uuid5).0
      == [BuildIndicator(records[0], t, reg, uuid5).value] + Emitted(records[1..], reg, uuid5)
  {
    ProduceMatchesEmitted(records[1..], reg, uuid5);
  }
}
