/** Timestamps in the STIX indicator translation: `StixIndicator._add_milliseconds`,
    which turns a platform timestamp into the millisecond form STIX writes, and
    the `datetime.strptime(..., '%Y-%m-%dT%H:%M:%SZ')` parse and `datetime`
    ordering that description selection relies on. */
module StixTime {
  import opened Wrappers
  import opened PyStr

  /** `StixIndicator._add_milliseconds`: upper-case, drop every `Z`, append
      `.000`, and append one `Z` when the input ended in `z` or `Z`. */
  function AddMilliseconds(time: string): string {
    var newTime := RemoveChar(Upper(time), 'Z') + ".000";
    if EndsWith(Lower(time), "z") then newTime + "Z" else newTime
  }

  predicate EndsInZ(time: string) {
    |time| > 0 && (time[|time| - 1] == 'z' || time[|time| - 1] == 'Z')
  }

  predicate IsAsciiLower(c: char) {
    'a' <= c <= 'z'
  }

  /** `time.lower().endswith('z')` is `EndsInZ`. */
  lemma LowerEndsWithZ(time: string)
    ensures EndsWith(Lower(time), "z") <==> EndsInZ(time)
  {
    if |time| > 0 {
      assert Lower(time)[|time| - 1] == LowerChar(time[|time| - 1]);
      assert Lower(time)[|time| - 1..] == [Lower(time)[|time| - 1]];
    }
  }

  /** The result ends in `.000Z` exactly when the input ended in `z` or `Z`
      (otherwise in `.000`), and carries `Z` at most as its last character. */
  lemma AddMillisecondsForm(time: string)
    ensures var r := AddMilliseconds(time);
      && (EndsInZ(time) ==> EndsWith(r, ".000Z"))
      && (!EndsInZ(time) ==> EndsWith(r, ".000"))
      && 'Z' !in r[..|r| - 1]
  {
    var body := RemoveChar(Upper(time), 'Z');
    RemoveCharSpec(Upper(time), 'Z');
    LowerEndsWithZ(time);
    var r := AddMilliseconds(time);
    if EndsInZ(time) {
      assert r == body + ".000" + "Z";
      assert r[..|r| - 1] == body + ".000";
    } else {
      assert r == body + ".000";
      assert r[..|r| - 1] == body + ".00";
    }
  }

  /** Whatever the input, the result carries no lower-case letter. */
  lemma AddMillisecondsUpper(time: string)
    ensures var r := AddMilliseconds(time);
      forall k :: 0 <= k < |r| ==> !IsAsciiLower(r[k])
  {
    var u := Upper(time);
    var body := RemoveChar(u, 'Z');
    RemoveCharSpec(u, 'Z');
    forall k | 0 <= k < |body| ensures !IsAsciiLower(body[k]) {
      assert body[k] in u;
    }
    LowerEndsWithZ(time);
  }

  predicate IsDigit(c: char) {
    '0' <= c <= '9'
  }

  predicate AllDigits(s: string) {
    forall i :: 0 <= i < |s| ==> IsDigit(s[i])
  }

  /** The number a string of decimal digits spells. */
  function DigitsValue(s: string): nat
    requires AllDigits(s)
  {
    if s == [] then 0 else DigitsValue(s[..|s| - 1]) * 10 + (s[|s| - 1] as int - '0' as int)
  }

  function Pow10(w: nat): nat {
    if w == 0 then 1 else 10 * Pow10(w - 1)
  }

  /** The last `w` decimal digits of `n`, padded with zeros (`%0<w>d`). */
  function PadDigits(n: nat, w: nat): (r: string)
    ensures |r| == w && AllDigits(r)
  {
    if w == 0 then "" else PadDigits(n / 10, w - 1) + [('0' as int + n % 10) as char]
  }

  lemma {:induction false} PadDigitsValue(n: nat, w: nat)
    requires n < Pow10(w)
    ensures DigitsValue(PadDigits(n, w)) == n
  {
    if w > 0 {
      var r := PadDigits(n, w);
      assert r[..|r| - 1] == PadDigits(n / 10, w - 1);
      assert n / 10 < Pow10(w - 1);
      PadDigitsValue(n / 10, w - 1);
    }
  }

  lemma {:induction false} DigitsValuePad(s: string)
    requires AllDigits(s)
    ensures PadDigits(DigitsValue(s), |s|) == s
  {
    if s != [] {
      var init := s[..|s| - 1];
      var d := s[|s| - 1] as int - '0' as int;
      var v := DigitsValue(s);
      assert v == DigitsValue(init) * 10 + d;
      assert v / 10 == DigitsValue(init) && v % 10 == d;
      DigitsValuePad(init);
      assert s == init + [s[|s| - 1]];
    }
  }

  /** The text shape `%Y-%m-%dT%H:%M:%SZ` with every field at full width; the
      literal `T` and `Z` match in either case, as `strptime` matches literals. */
  predicate HasTimestampShape(s: string) {
    && |s| == 20
    && AllDigits(s[0..4]) && s[4] == '-' && AllDigits(s[5..7]) && s[7] == '-'
    && AllDigits(s[8..10]) && UpperChar(s[10]) == 'T' && AllDigits(s[11..13])
    && s[13] == ':' && AllDigits(s[14..16]) && s[16] == ':' && AllDigits(s[17..19])
    && UpperChar(s[19]) == 'Z'
  }

  /** A `datetime` without fractional seconds or zone. */
  datatype DateTime = DateTime(year: int, month: int, day: int, hour: int, minute: int, second: int)

  predicate IsLeapYear(y: int) {
    y % 4 == 0 && (y % 100 != 0 || y % 400 == 0)
  }

  function DaysInMonth(year: int, month: int): int {
    if month == 2 then (if IsLeapYear(year) then 29 else 28)
    else if month == 4 || month == 6 || month == 9 || month == 11 then 30
    else 31
  }

  /** The field ranges `datetime` accepts. */
  predicate ValidDateTime(d: DateTime) {
    && 1 <= d.year <= 9999 && 1 <= d.month <= 12 && 1 <= d.day <= DaysInMonth(d.year, d.month)
    && 0 <= d.hour <= 23 && 0 <= d.minute <= 59 && 0 <= d.second <= 59
  }

  /** `datetime.strptime(s, '%Y-%m-%dT%H:%M:%SZ')`, `None` where it raises. */
  function ParseTimestamp(s: string): (r: Option<DateTime>)
    ensures r.Some? ==> HasTimestampShape(s) && ValidDateTime(r.value)
  {
    if !HasTimestampShape(s) then None
    else
      var d := DateTime(DigitsValue(s[0..4]), DigitsValue(s[5..7]), DigitsValue(s[8..10]),
                        DigitsValue(s[11..13]), DigitsValue(s[14..16]), DigitsValue(s[17..19]));
      if ValidDateTime(d) then Some(d) else None
  }

  /** `d.strftime('%Y-%m-%dT%H:%M:%SZ')`: the canonical text of a timestamp. */
  function FormatTimestamp(d: DateTime): (r: string)
    requires ValidDateTime(d)
  {
    PadDigits(d.year, 4) + "-" + PadDigits(d.month, 2) + "-" + PadDigits(d.day, 2) + "T"
    + PadDigits(d.hour, 2) + ":" + PadDigits(d.minute, 2) + ":" + PadDigits(d.second, 2) + "Z"
  }

  /** Parsing the canonical text of a valid timestamp gives it back. */
  lemma ParseFormat(d: DateTime)
    requires ValidDateTime(d)
    ensures ParseTimestamp(FormatTimestamp(d)) == Some(d)
  {
    var s := FormatTimestamp(d);
    assert s[0..4] == PadDigits(d.year, 4);
    assert s[5..7] == PadDigits(d.month, 2);
    assert s[8..10] == PadDigits(d.day, 2);
    assert s[11..13] == PadDigits(d.hour, 2);
    assert s[14..16] == PadDigits(d.minute, 2);
    assert s[17..19] == PadDigits(d.second, 2);
    PadDigitsValue(d.year, 4);
    PadDigitsValue(d.month, 2);
    PadDigitsValue(d.day, 2);
    PadDigitsValue(d.hour, 2);
    PadDigitsValue(d.minute, 2);
    PadDigitsValue(d.second, 2);
  }

  /** A field of digits is its own canonical text, and upper-casing leaves it
      alone. */
  lemma PadField(s: string, lo: nat, hi: nat)
    requires lo <= hi <= |s| && AllDigits(s[lo..hi])
    ensures PadDigits(DigitsValue(s[lo..hi]), hi - lo) == Upper(s)[lo..hi]
  {
    DigitsValuePad(s[lo..hi]);
    forall i | lo <= i < hi ensures Upper(s)[i] == s[i] {
      assert IsDigit(s[lo..hi][i - lo]);
    }
  }

  /** A 20-character text is its six fields and the separators between them. */
  lemma Recompose(u: string)
    requires |u| == 20
    ensures u == u[0..4] + [u[4]] + u[5..7] + [u[7]] + u[8..10] + [u[10]] + u[11..13] + [u[13]]
      + u[14..16] + [u[16]] + u[17..19] + [u[19]]
  {
  }

  /** A text that parses is the canonical text of its value, up to the case of
      the literal `T` and `Z`. */
  lemma FormatParse(s: string)
    requires ParseTimestamp(s).Some?
    ensures FormatTimestamp(ParseTimestamp(s).value) == Upper(s)
  {
    var u := Upper(s);
    var d := ParseTimestamp(s).value;
    assert d == DateTime(DigitsValue(s[0..4]), DigitsValue(s[5..7]), DigitsValue(s[8..10]),
                         DigitsValue(s[11..13]), DigitsValue(s[14..16]), DigitsValue(s[17..19]));
    PadField(s, 0, 4);
    PadField(s, 5, 7);
    PadField(s, 8, 10);
    PadField(s, 11, 13);
    PadField(s, 14, 16);
    PadField(s, 17, 19);
    assert u[4] == '-' && u[7] == '-' && u[10] == 'T' && u[13] == ':' && u[16] == ':' && u[19] == 'Z';
    Recompose(u);
  }

  lemma FormatHasNoInnerZ(d: DateTime)
    requires ValidDateTime(d)
    ensures 'Z' !in FormatTimestamp(d)[..19]
  {
    var f := FormatTimestamp(d);
    var p4, p2a, p2b, p2c, p2d, p2e := PadDigits(d.year, 4), PadDigits(d.month, 2), PadDigits(d.day, 2),
      PadDigits(d.hour, 2), PadDigits(d.minute, 2), PadDigits(d.second, 2);
    assert f[..19] == p4 + "-" + p2a + "-" + p2b + "T" + p2c + ":" + p2d + ":" + p2e;
    forall i | 0 <= i < 19 ensures f[..19][i] != 'Z' {
      if i < 4 { assert f[i] == p4[i]; }
      else if 4 < i < 7 { assert f[i] == p2a[i - 5]; }
      else if 7 < i < 10 { assert f[i] == p2b[i - 8]; }
      else if 10 < i < 13 { assert f[i] == p2c[i - 11]; }
      else if 13 < i < 16 { assert f[i] == p2d[i - 14]; }
      else if 16 < i { assert f[i] == p2e[i - 17]; }
    }
  }

  lemma AddMillisecondsEndingZ(t: string)
    requires EndsInZ(t)
    ensures AddMilliseconds(t) == RemoveChar(Upper(t), 'Z') + ".000Z"
  {
    assert Lower(t)[|t| - 1..] == [LowerChar(t[|t| - 1])];
  }

  /** A timestamp `strptime` accepts, in either case of `T` and `Z`, becomes its
      canonical text with `.000` inserted before the final `Z`. */
  lemma AddMillisecondsCanonical(t: string)
    requires ParseTimestamp(t).Some?
    ensures AddMilliseconds(t) == FormatTimestamp(ParseTimestamp(t).value)[..19] + ".000Z"
  {
    var d := ParseTimestamp(t).value;
    var f := FormatTimestamp(d);
    assert UpperChar(t[19]) == 'Z';
    AddMillisecondsEndingZ(t);
    FormatParse(t);
    assert f == f[..19] + "Z";
    RemoveCharAppend(f[..19], "Z", 'Z');
    FormatHasNoInnerZ(d);
    RemoveCharAbsent(f[..19], 'Z');
    assert RemoveChar("Z", 'Z') == "";
  }

  /** Python's `datetime` comparison `a < b`: lexicographic on the fields. */
  predicate Before(a: DateTime, b: DateTime) {
    if a.year != b.year then a.year < b.year
    else if a.month != b.month then a.month < b.month
    else if a.day != b.day then a.day < b.day
    else if a.hour != b.hour then a.hour < b.hour
    else if a.minute != b.minute then a.minute < b.minute
    else a.second < b.second
  }
}
