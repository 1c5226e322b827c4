# STIX indicator translation and the batch security label, in Dafny

This project models two pieces of the ThreatConnect exchange library.

**The STIX 2.1 indicator translator** (`StixIndicator` and `STIXListener`).

- *Produce* turns platform indicator records into STIX 2.1 Indicator objects (section 4.7 of STIX 2.1):
  - a timestamp of the form `YYYY-MM-DDTHH:MM:SS` followed by `Z` or `z` gets a `.000` millisecond part; any other text is upper-cased, loses every `Z` and gets `.000`, then `Z` again if it ended in one, so one with fractional seconds comes out malformed and one without `Z` gets no zone (`AddMillisecondsForm`);
  - the constant fields are filled in;
  - `revoked`, tag `labels` and `object_marking_refs` are derived from the record;
  - the description is chosen among the record's attributes;
  - the `id` is derived deterministically (a UUID version 5, section 4.3 of RFC 4122);
  - a threat-rating label is added on a best-effort basis.
- *Consume* turns a STIX pattern (section 9 of STIX 2.1) back into platform mappings:
  - a listener pulls `(path, value)` pairs out of each `=` and `IN (...)` comparison, in walk order;
  - three handlers classify those pairs: URL/EmailAddress/Host/ASN, Address/CIDR, and consolidated file hashes;
  - `consume_mappings` concatenates the handlers' results.

**The batch `SecurityLabel` object.** This is a label dict that always holds `name`. It optionally holds `description` and `color`, and the property setters update those in place.

Layout, one module per file:

- `wrappers.dfy` (`Wrappers`): `Option` and `Result`.
- `pystr.dfy` (`PyStr`): the Python `str` operations the code relies on, written out over `seq<char>`. These are `strip`, `lower`/`upper`, `index`/`in`, `split`, `join`, `replace`, `endswith`, `[1:-1]` and `str(int)`.
- `stix_time.dfy` (`StixTime`):
  - `_add_milliseconds`;
  - the fixed-format `strptime` parse and its inverse;
  - `datetime` ordering.
- `stix_produce.dfy` (`StixProduce`): `produce`.
  - Its loops are methods proved against specification functions.
  - `produce` itself runs to the end and returns what the generator yields together with the exception that stops it, if any.
- `stix_pattern.dfy` (`StixPattern`): the `STIXListener` class, whose `indicators` field is the accumulator its callbacks append to.
- `stix_consume.dfy` (`StixConsume`): the three handlers, each a loop proved against a specification function, and `consume_mappings`.
- `security_label.dfy` (`BatchSecurityLabel`): the `SecurityLabel` class over a `map<string, string>` field.

Quirks of the code that the model keeps as written:

- **File sub-groups.** The first sub-group test looks for `SHA-156`, so a `SHA-256` hash falls in no sub-group (`UngroupedHashesConsolidate`).
- **Negated comparisons.** The grammar's `propTestEqual` rule also covers `!=`, and both callbacks also receive `NOT`-prefixed tests. A `!=` test is taken as an equality whose path keeps the `!`; a negated `file:hashes` test is therefore imported as a `File` (`NegatedEqualKeepsBang`, `NegatedHashBecomesFile`).
- **Type override.** The `indicator_type` override holds only until the first record that passes the type check, because `kwargs` is rebound there (`KnownOverrideFirstOnly`). An override that names an unknown type makes every record be skipped (`UnknownOverrideSkipsAll`).
- **Rating.** `setdefault('labels', [])` runs before the rating lookup. So an integer rating with no entry in the map still makes `labels` present, possibly empty (`RatingLabels`).
- **Record timestamps.** `dateAdded` and `lastModified` are not parsed by `produce`. Only their absence raises. Only attribute timestamps go through `strptime`.

## Model

| member | source | states |
|---|---|---|
| StixTime.AddMillisecondsForm | tcex/stix/indicator/indicator.py:29-34 | the result ends in `.000Z` exactly when the input ends in `z`/`Z` and in `.000` otherwise; `Z` occurs at most as its last character |
| StixTime.AddMillisecondsUpper | tcex/stix/indicator/indicator.py:29-34 | the result holds no lower-case letter |
| StixTime.AddMillisecondsCanonical | tcex/stix/indicator/indicator.py:29-34 | a timestamp `strptime` accepts becomes its canonical `YYYY-MM-DDTHH:MM:SS` text followed by `.000Z` |
| StixTime.ParseTimestamp | tcex/stix/indicator/indicator.py:80 | a parsed timestamp has the fixed `%Y-%m-%dT%H:%M:%SZ` shape and valid field ranges |
| StixTime.ParseFormat | tcex/stix/indicator/indicator.py:80 | parsing the canonical text of any valid timestamp gives that timestamp back |
| StixTime.FormatParse | tcex/stix/indicator/indicator.py:80 | any text that parses is the canonical text of its value, up to the case of `T` and `Z` |
| StixProduce.Records | tcex/stix/indicator/indicator.py:45-46 | a single record is processed as a one-element list |
| StixProduce.TagLabels | tcex/stix/indicator/indicator.py:70-71 | `labels` is absent without tags; otherwise it holds the tag names in tag order |
| StixProduce.CollectTagLabels | tcex/stix/indicator/indicator.py:70-71 | the tag loop produces `TagLabels` of the record's tags |
| StixProduce.MarkingRefsOrder | tcex/stix/indicator/indicator.py:72-76 | the references of two runs of labels are those of the first run followed by those of the second |
| StixProduce.MarkingRefsNoneMapped | tcex/stix/indicator/indicator.py:72-76 | when no stripped, lower-cased label name is in the map, `object_marking_refs` is absent |
| StixProduce.MappedAll | tcex/stix/indicator/indicator.py:72-76 | when every key is mapped, the result holds one mapped value per label, in order |
| StixProduce.MappedNone | tcex/stix/indicator/indicator.py:72-76 | when no key is mapped, every label is dropped |
| StixProduce.MappedAppend | tcex/stix/indicator/indicator.py:72-76 | the selection keeps the labels' order across any split of the list |
| StixProduce.CollectMarkingRefs | tcex/stix/indicator/indicator.py:72-76 | the security-label loop produces `MarkingRefs` of the record's labels |
| StixProduce.NoDescriptionKeepsEmpty | tcex/stix/indicator/indicator.py:77-86 | without a `description` attribute (in any case) the description stays as it was, `''` at the start |
| StixProduce.DisplayedWins | tcex/stix/indicator/indicator.py:77-86 | the first displayed description ends the scan with its value, whatever precedes it |
| StixProduce.BadTimestampRaises | tcex/stix/indicator/indicator.py:77-81 | a description whose `lastModified` does not parse raises, even a displayed one, because parsing precedes the `displayed` check |
| StixProduce.LatestWins | tcex/stix/indicator/indicator.py:77-86 | with no displayed description, the description is the value with the latest timestamp, and on a tie the earliest such attribute; it is `''` when there is no description |
| StixProduce.SelectDescription | tcex/stix/indicator/indicator.py:77-86 | the attribute loop, with its `break`, computes `ScanDescription` from `''` and no latest time |
| StixProduce.RatingLabels | tcex/stix/indicator/indicator.py:111-115 | labels stay absent only without tags and without a rating; when the rating's text is in the map, the labels are the existing ones followed by that map entry; otherwise they are the existing ones, `[]` if there were none |
| StixProduce.IndicatorFields | tcex/stix/indicator/indicator.py:53-89 | what raises a record: a missing `dateAdded`, a missing `lastModified`, a failing attribute scan or a missing `ownerName`. Fields of a built dict: `pattern_type`, `lang`, `pattern_version`, `type` and `indicator_types` constants; `name` the summary; `pattern` the registry builder applied to the record; `confidence` the record's or 0; `created == valid_from`, both and `modified` through `_add_milliseconds`; `revoked` exactly when `active` is false; the selected description; tag names then the rating label as `labels`; `object_marking_refs` from the security labels; `id` the `indicator--` prefix on `uuid5` of owner, type and summary |
| StixProduce.IdDeterministic | tcex/stix/indicator/indicator.py:88-89 | the `id` depends only on the lower-cased owner, the lower-cased type and the summary |
| StixProduce.ProduceRecord | tcex/stix/indicator/indicator.py:49-117 | the loop body for one record of known type computes `BuildIndicator`, including which exception comes first |
| StixProduce.MissingTypeRaises | tcex/stix/indicator/indicator.py:48-50 | without an override, the first record without a `type` ends the generator with that exception, after the dicts of the records before it |
| StixProduce.ProduceMatchesEmitted | tcex/stix/indicator/indicator.py:47-117 | without an override, the output is a prefix of the records of known type turned into dicts, in input order; when nothing raises it is all of them, one per known record |
| StixProduce.ProduceSkipsUnknown | tcex/stix/indicator/indicator.py:49-52 | records whose resolved type is unknown are skipped without error |
| StixProduce.UnknownOverrideSkipsAll | tcex/stix/indicator/indicator.py:49-52 | a non-empty unknown override skips every record, even those of known type |
| StixProduce.KnownOverrideFirstOnly | tcex/stix/indicator/indicator.py:49-53 | a known override types only the first record; the rest are typed by their own `type` |
| StixProduce.Produce | tcex/stix/indicator/indicator.py:36-117 | the generator run to the end yields `ProduceSpec` of the records, then stops with the exception it raised, if any |
| StixPattern.SetValues | tcex/stix/indicator/indicator.py:288-289 | one value per comma-separated piece |
| StixPattern.WithPath | tcex/stix/indicator/indicator.py:291-292 | one pair per value, in order, all with the same path |
| StixPattern.StixListener.constructor | tcex/stix/indicator/indicator.py:259-262 | a fresh listener has no pairs |
| StixPattern.StixListener.EnterPropTestEqual | tcex/stix/indicator/indicator.py:264-275 | appends the pair `EqualPairs` of the node text, or raises on a text without `=` and leaves the pairs unchanged |
| StixPattern.StixListener.EnterPropTestSet | tcex/stix/indicator/indicator.py:277-292 | appends one pair per listed value, in order, or raises unless the text splits on `IN` into exactly two parts |
| StixPattern.StixListener.Enter | tcex/stix/indicator/indicator.py:128-130 | the walker's visit of one comparison node appends that node's pairs or raises; other comparison kinds append nothing |
| StixPattern.NegatedEqualKeepsBang | tcex/stix/indicator/indicator.py:270-275 | a `path!='value'` test gives the pair of `path!` and `value`, as if it were an equality |
| StixPattern.EqualRoundTrip | tcex/stix/indicator/indicator.py:270-275 | the text `path='value'` of a plain path gives back exactly that path and value |
| StixPattern.EqualSignFirstIgnored | tcex/stix/indicator/indicator.py:271-272 | an `=` at position 0 is found but nothing is appended |
| StixPattern.EqualWithoutSignRaises | tcex/stix/indicator/indicator.py:271 | a text without `=` raises |
| StixPattern.SplitAtIn | tcex/stix/indicator/indicator.py:284 | `p IN b` splits into exactly `[p, b]` when `IN` occurs in neither |
| StixPattern.SetValuesQuoted | tcex/stix/indicator/indicator.py:288-289 | splitting a comma-joined list of quoted values and unquoting each piece gives the values back |
| StixPattern.SetRoundTrip | tcex/stix/indicator/indicator.py:283-292 | the text `path IN ('v1',...,'vn')` gives one pair per value, in order, all with that path |
| StixPattern.WalkUnsupportedOnly | tcex/stix/indicator/indicator.py:264-297 | a pattern without `=` or `IN` comparisons yields no pairs |
| StixConsume.EachAppend | tcex/stix/indicator/indicator.py:241 | a per-pair handler maps consecutive runs of pairs independently and keeps their order |
| StixConsume.DefaultMappingsOnePerPair | tcex/stix/indicator/indicator.py:233-253 | pairs on the four vocabulary paths give one mapping each, in order, with the mapped type, the pair's value and the placeholder confidence |
| StixConsume.DefaultMappingsIgnoresOthers | tcex/stix/indicator/indicator.py:241 | pairs on other paths give no mapping |
| StixConsume.DefaultConsumeHandler | tcex/stix/indicator/indicator.py:223-253 | the handler loop computes `DefaultMappings` |
| StixConsume.IpMappingShape | tcex/stix/indicator/indicator.py:193-220 | an IP pair becomes a `CIDR` with the whole value, which holds `/`, or an `Address` with the value up to its first `/`; only IPv6 mappings carry a confidence |
| StixConsume.IpPrefixBoundary | tcex/stix/indicator/indicator.py:197-218 | `a/32` (IPv4) or `a/128` (IPv6) is the `Address` `a`; any other prefix length gives a `CIDR` with the whole value |
| StixConsume.IpConsumeHandler | tcex/stix/indicator/indicator.py:183-221 | the handler loop computes `IpMappings`, one mapping per IP pair, in order |
| StixConsume.FileMappingsCases | tcex/stix/indicator/indicator.py:147-181 | no hash gives no mapping; few enough hashes, at most one per sub-group, give one `File` whose summary joins all values with `" : "` in order; otherwise each hash is its own `File`; every mapping carries the placeholder confidence |
| StixConsume.UngroupedHashesConsolidate | tcex/stix/indicator/indicator.py:149-164 | up to three hashes whose paths name none of `SHA-156`, `SHA-1` or `MD5`, such as `SHA-256` ones, always become one `File` |
| StixConsume.SelectAll | tcex/stix/indicator/indicator.py:147 | a filter that every pair passes keeps them all |
| StixConsume.SelectNone | tcex/stix/indicator/indicator.py:149-153 | a filter that no pair passes keeps none |
| StixConsume.FileConsumeHandler | tcex/stix/indicator/indicator.py:138-181 | the three filters and the emitting loop compute `FileMappings` |
| StixConsume.ConsumeMappings | tcex/stix/indicator/indicator.py:119-136 | walking the nodes with a fresh listener and running the default, IP and file handlers in that order computes `ConsumeSpec`, or raises the first listener error |
| StixConsume.ConsumeUnsupportedOnly | tcex/stix/indicator/indicator.py:128-136 | a pattern of unsupported comparisons yields no mapping |
| StixConsume.ConsumeSingleDefault | tcex/stix/indicator/indicator.py:119-136 | a single `=` comparison on a vocabulary path yields exactly one mapping of that type with that value |
| StixConsume.NegatedHashBecomesFile | tcex/stix/indicator/indicator.py:119-181 | a pattern made of one `!=` test on a `file:hashes` path imports the excluded hash as one `File` |
| StixConsume.DefaultPathOnlyDefault | tcex/stix/indicator/indicator.py:147-193 | the default vocabulary's paths are neither IP paths nor file-hash paths |
| PyStr.FindSpec | tcex/stix/indicator/indicator.py:271 | `index` finds the first occurrence, and fails only when there is none |
| PyStr.SplitFirst | tcex/stix/indicator/indicator.py:198 | `split` without a separator gives the whole string; with one, the first piece precedes the first separator and a second piece exists |
| PyStr.SplitJoin | tcex/stix/indicator/indicator.py:289 | `split(',')` (and `split('/')` at line 198) undoes a join on that one-character separator when no part holds it |
| PyStr.Strip | tcex/stix/indicator/indicator.py:275 | `strip` leaves no whitespace at either end |
| PyStr.StripKeepsMiddle | tcex/stix/indicator/indicator.py:275 | `strip` returns a contiguous slice of its input and removes only whitespace, before and after it |
| BatchSecurityLabel.SecurityLabel.constructor | tcex/api/tc/v2/batch/security_label.py:12-27 | the dict holds `name` always, and `description` and `color` exactly when given, with the given values |
| BatchSecurityLabel.SecurityLabel.Color | tcex/api/tc/v2/batch/security_label.py:29-32 | the stored color, or none when the key is absent |
| BatchSecurityLabel.SecurityLabel.SetColor | tcex/api/tc/v2/batch/security_label.py:34-37 | stores the color and leaves every other key, `name` included, unchanged |
| BatchSecurityLabel.SecurityLabel.Data | tcex/api/tc/v2/batch/security_label.py:39-42 | the label dict as a value: it holds `name`, no keys beyond the three, and agrees with every getter |
| BatchSecurityLabel.SecurityLabel.Description | tcex/api/tc/v2/batch/security_label.py:44-47 | the stored description, or none when the key is absent |
| BatchSecurityLabel.SecurityLabel.SetDescription | tcex/api/tc/v2/batch/security_label.py:49-52 | stores the description and leaves every other key unchanged |
| BatchSecurityLabel.SecurityLabel.Name | tcex/api/tc/v2/batch/security_label.py:54-57 | for an object kept valid by the constructor and setters, the name given at construction |

## Left out

- **Pattern parsing and walking** (the grammar library's `Pattern`, `walk` and `ctx.getText()`) belong to an external library. `ConsumeMappings` receives the comparison nodes, with their text, in walk order.
- **`uuid.uuid5(NAMESPACE_X500, .)`** is a parameter `uuid5: string -> string`. SHA-1 hashing is not modelled.
- **The model base's maps.** `indicator_type_details`, `security_label_map` and `x_threat_rating_map` are parameters. The per-type pattern builders are uninterpreted functions that cannot raise. A type entry that is present but falsy is treated as present.
- **Fields assumed well-typed.** The model assumes the record's `summary`, tag names, attribute values and `displayed` flags are strings and booleans. A label whose `name` is `None` (rather than absent) would raise in the code and is not modelled. `Option` fields do not tell a key holding `None` from an absent key: `active: None` is falsy in the code and sets `revoked`, where the model treats it as absent; `confidence: None` yields `None` in the code, where the model gives 0.
- **Rating.** `int(data.get('rating'))` is an `Option<int>`: `None` where the key is absent or `int` raises. Float ratings are not modelled.
- **`datetime.strptime`** is modelled for the fixed-width form only: four-digit year, two-digit fields and literal `T`/`Z` in either case. The shorter field widths Python also accepts, and the non-ASCII decimal digits its `\d` accepts, are not modelled.
- **Case mapping.** `Lower`, `Upper` (and therefore `AddMilliseconds`) map ASCII letters only. Python also maps non-ASCII letters.
- **`produce` laziness.** The generator is modelled run to the end. Interleaving its consumption with other work is not modelled.
- BatchSecurityLabel.SecurityLabel.Data: returns the label dict as a value. In the code `data` returns the live `_label_data` dict, so a caller can change the label through it, and can even delete `name`. That aliasing is not modelled: `Valid()` and the `Name()` promise hold only for an object changed through the constructor and the two setters.
- **`SecurityLabel.__str__`** (JSON rendering) is not modelled.
- **Setters with `None`.** `SetColor` and `SetDescription` take strings, as annotated. Setting `None` (which would store a present-but-null key) is not modelled.
- **`STIXListener.indicators`.** The property is the class field `indicators` itself; it has no separate member.
- **Out-of-scope files.** The platform's REST mappings, the v3 task and security objects, the code generator and the logger bootstrap are not part of this model.
