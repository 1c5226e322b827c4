/** The handful of Python `str` operations the STIX translation layer relies on,
    written out over `seq<char>`: `strip`, `lower`/`upper` (ASCII letters only),
    `in`/`index` (first occurrence), `split` on a separator, `join`, `replace`
    of one character by nothing, `endswith`, the slice `s[1:-1]` and `str(int)`. */
module PyStr {
  import opened Wrappers

  /** The characters Python's `str.isspace` accepts; `str.strip()` removes them. */
  predicate IsSpace(c: char) {
    var n := c as int;
    (9 <= n <= 13) || (28 <= n <= 32) || n == 0x85 || n == 0xA0 || n == 0x1680
    || (0x2000 <= n <= 0x200A) || n == 0x2028 || n == 0x2029 || n == 0x202F
    || n == 0x205F || n == 0x3000
  }

  function LowerChar(c: char): char {
    if 'A' <= c <= 'Z' then (c as int + 32) as char else c
  }

  function UpperChar(c: char): char {
    if 'a' <= c <= 'z' then (c as int - 32) as char else c
  }

  /** `s.lower()` */
  function Lower(s: string): (r: string)
    ensures |r| == |s|
    ensures forall i :: 0 <= i < |s| ==> r[i] == LowerChar(s[i])
  {
    seq(|s|, i requires 0 <= i < |s| => LowerChar(s[i]))
  }

  /** `s.upper()` */
  function Upper(s: string): (r: string)
    ensures |r| == |s|
    ensures forall i :: 0 <= i < |s| ==> r[i] == UpperChar(s[i])
  {
    seq(|s|, i requires 0 <= i < |s| => UpperChar(s[i]))
  }

  /** `s.lstrip()` */
  function LStrip(s: string): (r: string)
    ensures |r| <= |s| && r == s[|s| - |r|..]
    ensures r == [] || !IsSpace(r[0])
  {
    if |s| > 0 && IsSpace(s[0]) then LStrip(s[1..]) else s
  }

  /** `lstrip` removes whitespace only. */
  lemma {:induction false} LStripRemovesSpaces(s: string)
    ensures forall i :: 0 <= i < |s| - |LStrip(s)| ==> IsSpace(s[i])
  {
    if |s| > 0 && IsSpace(s[0]) {
      LStripRemovesSpaces(s[1..]);
      assert forall i :: 1 <= i < |s| - |LStrip(s)| ==> s[i] == s[1..][i - 1];
    }
  }

  /** `s.rstrip()` */
  function RStrip(s: string): (r: string)
    ensures |r| <= |s| && r == s[..|r|]
    ensures r == [] || !IsSpace(r[|r| - 1])
  {
    if |s| > 0 && IsSpace(s[|s| - 1]) then RStrip(s[..|s| - 1]) else s
  }

  /** `rstrip` removes whitespace only. */
  lemma {:induction false} RStripRemovesSpaces(s: string)
    ensures forall i :: |RStrip(s)| <= i < |s| ==> IsSpace(s[i])
  {
    if |s| > 0 && IsSpace(s[|s| - 1]) {
      RStripRemovesSpaces(s[..|s| - 1]);
    }
  }

  /** `s.strip()` */
  function Strip(s: string): (r: string)
    ensures r == [] || (!IsSpace(r[0]) && !IsSpace(r[|r| - 1]))
  {
    RStrip(LStrip(s))
  }

  /** Only whitespace lies before index `i` and from index `j` on. */
  predicate SpacesOutside(s: string, i: int, j: int) {
    && 0 <= i <= j <= |s|
    && (forall k :: 0 <= k < i ==> IsSpace(s[k]))
    && (forall k :: j <= k < |s| ==> IsSpace(s[k]))
  }

  /** `strip` keeps a contiguous middle of `s` and removes whitespace only,
      from both ends. */
  lemma StripKeepsMiddle(s: string)
    ensures exists i, j :: SpacesOutside(s, i, j) && Strip(s) == s[i..j]
  {
    var i, j := StripBounds(s);
  }

  lemma StripBounds(s: string) returns (i: nat, j: nat)
    ensures SpacesOutside(s, i, j) && Strip(s) == s[i..j]
  {
    var l := LStrip(s);
    i := |s| - |l|;
    assert forall k :: 0 <= k < i ==> IsSpace(s[k]) by {
      LStripRemovesSpaces(s);
    }
    j := i + |RStrip(l)|;
    RSpacesOutside(s, i, l);
    assert Strip(s) == RStrip(l);
  }

  lemma RSpacesOutside(s: string, i: nat, l: string)
    requires i <= |s| && l == s[i..]
    ensures i + |RStrip(l)| <= |s| && RStrip(l) == s[i..i + |RStrip(l)|]
    ensures forall k :: i + |RStrip(l)| <= k < |s| ==> IsSpace(s[k])
  {
    RStripRemovesSpaces(l);
    var r := RStrip(l);
    forall k | i + |r| <= k < |s|
      ensures IsSpace(s[k])
    {
      assert s[k] == l[k - i];
    }
  }

  lemma StripUnchanged(s: string)
    requires |s| > 0 && !IsSpace(s[0]) && !IsSpace(s[|s| - 1])
    ensures Strip(s) == s
  {
    assert LStrip(s) == s;
  }

  /** The slice `s[1:-1]`: drops the first and the last character; a string of
      fewer than two characters gives the empty string. */
  function DropEnds(s: string): (r: string)
    ensures |s| >= 2 ==> r == s[1..|s| - 1]
    ensures |s| < 2 ==> r == ""
  {
    if |s| < 2 then "" else s[1..|s| - 1]
  }

  /** `s.endswith(suffix)` */
  predicate EndsWith(s: string, suffix: string) {
    |suffix| <= |s| && s[|s| - |suffix|..] == suffix
  }

  /** `s.replace(c, '')` for a single character `c`. */
  function RemoveChar(s: string, c: char): (r: string)
    ensures |r| <= |s|
  {
    if s == [] then [] else (if s[0] == c then [] else [s[0]]) + RemoveChar(s[1..], c)
  }

  /** `replace(c, '')` leaves no `c` and adds no character. */
  lemma {:induction false} RemoveCharSpec(s: string, c: char)
    ensures c !in RemoveChar(s, c)
    ensures forall x :: x in RemoveChar(s, c) ==> x in s
  {
    if s != [] {
      RemoveCharSpec(s[1..], c);
    }
  }

  lemma {:induction false} RemoveCharAppend(a: string, b: string, c: char)
    ensures RemoveChar(a + b, c) == RemoveChar(a, c) + RemoveChar(b, c)
  {
    if a == [] {
      assert a + b == b;
    } else {
      assert (a + b)[0] == a[0];
      assert (a + b)[1..] == a[1..] + b;
      RemoveCharAppend(a[1..], b, c);
    }
  }

  lemma RemoveCharAbsent(s: string, c: char)
    requires c !in s
    ensures RemoveChar(s, c) == s
  {
    if s != [] {
      assert c !in s[1..];
      RemoveCharAbsent(s[1..], c);
    }
  }

  predicate OccursAt(s: string, sub: string, j: int) {
    0 <= j && j + |sub| <= |s| && s[j..j + |sub|] == sub
  }

  function FindFrom(s: string, sub: string, i: nat): (r: Option<nat>)
    decreases |s| - i
    ensures r.Some? ==> i <= r.value && r.value + |sub| <= |s|
  {
    if i + |sub| > |s| then None
    else if s[i..i + |sub|] == sub then Some(i)
    else FindFrom(s, sub, i + 1)
  }

  /** `FindFrom` returns the first occurrence at or after `i`, and `None` only
      when there is none. */
  lemma {:induction false} FindFromSpec(s: string, sub: string, i: nat)
    decreases |s| - i
    ensures var r := FindFrom(s, sub, i);
      && (r.Some? ==> OccursAt(s, sub, r.value))
      && (r.Some? ==> forall j :: i <= j < r.value ==> !OccursAt(s, sub, j))
      && (r.None? ==> forall j :: i <= j ==> !OccursAt(s, sub, j))
  {
    if i + |sub| <= |s| && s[i..i + |sub|] != sub {
      FindFromSpec(s, sub, i + 1);
    }
  }

  /** The index of the first occurrence of `sub` in `s` (Python's `s.index(sub)`,
      which raises where this is `None`). */
  function Find(s: string, sub: string): (r: Option<nat>)
    ensures r.Some? ==> r.value + |sub| <= |s|
  {
    FindFrom(s, sub, 0)
  }

  /** `Find` returns the first occurrence, and `None` only when there is none. */
  lemma FindSpec(s: string, sub: string)
    ensures var r := Find(s, sub);
      && (r.Some? ==> OccursAt(s, sub, r.value))
      && (r.Some? ==> forall j :: 0 <= j < r.value ==> !OccursAt(s, sub, j))
      && (r.None? ==> forall j :: !OccursAt(s, sub, j))
  {
    FindFromSpec(s, sub, 0);
  }

  /** Python's `sub in s`. */
  predicate Contains(s: string, sub: string) {
    Find(s, sub).Some?
  }

  /** `s.split(sep)`: the pieces between non-overlapping occurrences of `sep`,
      scanning left to right. */
  function Split(s: string, sep: string): (r: seq<string>)
    requires |sep| > 0
    decreases |s|
    ensures |r| >= 1
  {
    match Find(s, sep)
    case None => [s]
    case Some(i) => [s[..i]] + Split(s[i + |sep|..], sep)
  }

  /** Without `sep` the split is the whole string; with it, the first piece is
      what precedes the first `sep` and at least one piece follows. */
  lemma SplitFirst(s: string, sep: string)
    requires |sep| > 0
    ensures Find(s, sep).None? ==> Split(s, sep) == [s]
    ensures Find(s, sep).Some? ==> |Split(s, sep)| >= 2 && Split(s, sep)[0] == s[..Find(s, sep).value]
  {
    match Find(s, sep)
    case None =>
    case Some(i) => assert Split(s, sep) == [s[..i]] + Split(s[i + |sep|..], sep);
  }

  /** `sep.join(parts)` */
  function Join(parts: seq<string>, sep: string): string {
    if |parts| == 0 then ""
    else if |parts| == 1 then parts[0]
    else parts[0] + sep + Join(parts[1..], sep)
  }

  lemma NotContainsChar(s: string, c: char)
    requires c !in s
    ensures Find(s, [c]).None?
  {
    FindSpec(s, [c]);
    forall j | 0 <= j < |s| ensures !OccursAt(s, [c], j) {
      assert s[j..j + 1][0] == s[j];
    }
  }

  /** In `p + [c] + rest` the first `c` is the one after `p` when `p` has none. */
  lemma FindCharAfter(p: string, c: char, rest: string)
    requires c !in p
    ensures Find(p + [c] + rest, [c]) == Some(|p|)
  {
    var s := p + [c] + rest;
    FindSpec(s, [c]);
    assert s[|p|..|p| + 1] == [c];
    assert OccursAt(s, [c], |p|);
    forall j | 0 <= j < |p| ensures !OccursAt(s, [c], j) {
      assert s[j..j + 1][0] == p[j];
    }
  }

  /** `sep.join` and `split(sep)` are inverse for a one-character separator
      that no part contains. */
  lemma {:induction false} SplitJoin(parts: seq<string>, c: char)
    requires |parts| >= 1
    requires forall k :: 0 <= k < |parts| ==> c !in parts[k]
    ensures Split(Join(parts, [c]), [c]) == parts
  {
    if |parts| == 1 {
      NotContainsChar(parts[0], c);
    } else {
      var rest := Join(parts[1..], [c]);
      var s := Join(parts, [c]);
      assert s == parts[0] + [c] + rest;
      FindCharAfter(parts[0], c, rest);
      assert s[..|parts[0]|] == parts[0];
      assert s[|parts[0]| + 1..] == rest;
      SplitJoin(parts[1..], c);
    }
  }

  /** `str(n)` for a natural number: its decimal digits. */
  function NatToString(n: nat): (r: string)
    decreases n
    ensures |r| >= 1
  {
    if n < 10 then ["0123456789"[n]] else NatToString(n / 10) + ["0123456789"[n % 10]]
  }

  /** `str(n)` for an integer. */
  function IntToString(n: int): string {
    if n < 0 then "-" + NatToString(-n) else NatToString(n)
  }
}
