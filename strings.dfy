/** The PHP string functions the modelled code relies on: the decimal
    form of an integer (`(string) $i`, `sprintf('%d', …)`), `strpos`,
    `str_replace` and the `preg_replace('/\.\d+/', '', …)` that strips
    array indexes from a field path. */
module Strings {

  predicate IsDigit(c: char) {
    '0' <= c <= '9'
  }

  predicate AllDigits(s: string) {
    forall k :: 0 <= k < |s| ==> IsDigit(s[k])
  }

  function DigitChar(d: nat): (c: char)
    requires d < 10
    ensures IsDigit(c)
  {
    ['0', '1', '2', '3', '4', '5', '6', '7', '8', '9'][d]
  }

  /** Decimal digits of `n`, without leading zeros. */
  function NatToString(n: nat): (s: string)
    ensures |s| >= 1 && AllDigits(s)
    ensures n >= 10 ==> s[0] != '0'
  {
    if n < 10 then [DigitChar(n)]
    else NatToString(n / 10) + [DigitChar(n % 10)]
  }

  /** PHP's string form of an integer. */
  function IntToString(i: int): (s: string)
    ensures |s| >= 1
    ensures i >= 0 ==> AllDigits(s)
    ensures i < 0 ==> s[0] == '-'
  {
    if i >= 0 then NatToString(i) else "-" + NatToString(-i)
  }

  predicate StartsWith(s: string, prefix: string) {
    |prefix| <= |s| && s[..|prefix|] == prefix
  }

  /** `strpos($s, $pat) !== false`. */
  predicate Contains(s: string, pat: string) {
    exists j :: 0 <= j <= |s| && StartsWith(s[j..], pat)
  }

  /** `str_replace($pat, $rep, $s)`: every occurrence, scanning left to
      right, without overlaps. */
  function ReplaceAll(s: string, pat: string, rep: string): string
    requires pat != ""
    decreases |s|
  {
    if |s| == 0 then ""
    else if StartsWith(s, pat) then rep + ReplaceAll(s[|pat|..], pat, rep)
    else [s[0]] + ReplaceAll(s[1..], pat, rep)
  }

  /** A prefix in which no occurrence of `pat` starts leaves the prefix
      untouched. */
  lemma {:induction false} ReplaceAllSkipsPrefix(p: string, q: string, pat: string, rep: string)
    requires pat != ""
    requires forall j :: 0 <= j < |p| ==> !StartsWith((p + q)[j..], pat)
    ensures ReplaceAll(p + q, pat, rep) == p + ReplaceAll(q, pat, rep)
    decreases |p|
  {
    if p != [] {
      assert !StartsWith((p + q)[0..], pat);
      assert (p + q)[0..] == p + q;
      assert (p + q)[1..] == p[1..] + q;
      forall j | 0 <= j < |p[1..]|
        ensures !StartsWith((p[1..] + q)[j..], pat)
      {
        assert (p[1..] + q)[j..] == (p + q)[j + 1..];
      }
      ReplaceAllSkipsPrefix(p[1..], q, pat, rep);
    }
  }

  lemma {:induction false} ReplaceAllAbsent(s: string, pat: string, rep: string)
    requires pat != "" && !Contains(s, pat)
    ensures ReplaceAll(s, pat, rep) == s
  {
    forall j | 0 <= j < |s|
      ensures !StartsWith((s + "")[j..], pat)
    {
      assert (s + "")[j..] == s[j..];
    }
    ReplaceAllSkipsPrefix(s, "", pat, rep);
    assert s + "" == s;
  }

  /** The path rewrite of `markAllSaved`: a member staged at
      `<path>._add<i>` moves to `<path>.<i>`, provided the parent path holds
      no `._add` of its own. */
  lemma AddPathBecomesSavedPath(path: string, i: nat)
    requires !Contains(path, "._add")
    ensures ReplaceAll(path + "._add" + NatToString(i), "._add", ".") == path + "." + NatToString(i)
  {
    var digits := NatToString(i);
    var q := "._add" + digits;
    assert path + "._add" + digits == path + q;
    forall j | 0 <= j < |path|
      ensures !StartsWith((path + q)[j..], "._add")
    {
      if j + 5 <= |path| {
        assert (path + q)[j..][..5] == path[j..][..5];
        assert !StartsWith(path[j..], "._add");
      } else {
        var k := |path| - j;
        assert (path + q)[j..][k] == q[0] == '.';
        assert "._add"[k] != '.';
      }
    }
    ReplaceAllSkipsPrefix(path, q, "._add", ".");
    assert StartsWith(q, "._add");
    assert q[5..] == digits;
    forall j | 0 <= j <= |digits|
      ensures !StartsWith(digits[j..], "._add")
    {
      if j < |digits| {
        assert digits[j..][0] == digits[j] != '.';
      }
    }
    ReplaceAllAbsent(digits, "._add", ".");
  }

  /** A `.` followed by a digit: what the pattern `\.\d+` starts with. */
  predicate IndexAt(s: string, k: int) {
    0 <= k && k + 1 < |s| && s[k] == '.' && IsDigit(s[k + 1])
  }

  /** Drops the leading run of digits. */
  function DropDigits(s: string): (r: string)
    ensures |r| <= |s|
    ensures r == [] || !IsDigit(r[0])
  {
    if |s| > 0 && IsDigit(s[0]) then DropDigits(s[1..]) else s
  }

  /** `preg_replace('/\.\d+/', '', $s)`: removes every `.` followed by a
      maximal run of digits (the array indexes of a field path). */
  function StripIndexes(s: string): string
    decreases |s|
  {
    if |s| == 0 then ""
    else if IndexAt(s, 0) then StripIndexes(DropDigits(s[1..]))
    else [s[0]] + StripIndexes(s[1..])
  }

  /** Stripping never starts the result with a digit unless the input
      started with one. */
  lemma {:induction false} StripIndexesHead(s: string)
    requires s == [] || !IsDigit(s[0])
    ensures var r := StripIndexes(s); r == [] || !IsDigit(r[0])
    decreases |s|
  {
    if |s| > 0 && IndexAt(s, 0) {
      StripIndexesHead(DropDigits(s[1..]));
    }
  }

  /** No index segment survives: the result holds no `.` followed by a
      digit. */
  lemma {:induction false} StripIndexesLeavesNone(s: string)
    ensures forall k :: !IndexAt(StripIndexes(s), k)
    decreases |s|
  {
    if |s| == 0 {
    } else if IndexAt(s, 0) {
      StripIndexesLeavesNone(DropDigits(s[1..]));
    } else {
      var r := StripIndexes(s[1..]);
      StripIndexesLeavesNone(s[1..]);
      forall k | IndexAt([s[0]] + r, k)
        ensures false
      {
        if k == 0 {
          assert s[0] == '.' && r != [] && IsDigit(r[0]);
          assert |s| > 1 && !IsDigit(s[1]);
          StripIndexesHead(s[1..]);
        } else {
          assert IndexAt(r, k - 1);
        }
      }
    }
  }

  /** A path without index segments is left as it is. */
  lemma {:induction false} StripIndexesKeepsPlain(s: string)
    requires forall k :: !IndexAt(s, k)
    ensures StripIndexes(s) == s
    decreases |s|
  {
    if |s| > 0 {
      assert !IndexAt(s, 0);
      forall k | IndexAt(s[1..], k)
        ensures false
      {
        assert IndexAt(s, k + 1);
      }
      StripIndexesKeepsPlain(s[1..]);
    }
  }

  /** Stripping twice is stripping once. */
  lemma StripIndexesIdempotent(s: string)
    ensures StripIndexes(StripIndexes(s)) == StripIndexes(s)
  {
    StripIndexesLeavesNone(s);
    StripIndexesKeepsPlain(StripIndexes(s));
  }

  /** `implode($sep, $parts)`. */
  function Join(parts: seq<string>, sep: string): string {
    if |parts| == 0 then ""
    else if |parts| == 1 then parts[0]
    else parts[0] + sep + Join(parts[1..], sep)
  }

  /** `explode($c, $s)` for a one-character separator: always at least one
      part, none containing the separator. */
  function Split(s: string, c: char): (r: seq<string>)
    ensures |r| >= 1
    ensures forall k :: 0 <= k < |r| ==> c !in r[k]
    decreases |s|
  {
    if s == [] then [""]
    else
      var rest := Split(s[1..], c);
      if s[0] == c then [""] + rest
      else
        assert forall k :: 1 <= k < |rest| ==> c !in rest[k];
        [[s[0]] + rest[0]] + rest[1..]
  }

  /** Joining the parts of a split with the separator gives the string back. */
  lemma {:induction false} JoinSplit(s: string, c: char)
    ensures Join(Split(s, c), [c]) == s
    decreases |s|
  {
    if s != [] {
      var rest := Split(s[1..], c);
      JoinSplit(s[1..], c);
      if s[0] == c {
        assert ([""] + rest)[1..] == rest;
      } else {
        var r := Split(s, c);
        assert r[1..] == rest[1..];
        if |rest| > 1 {
          assert Join(rest, [c]) == rest[0] + [c] + Join(rest[1..], [c]);
        }
      }
    }
  }

  /** A string without the separator splits into itself alone. */
  lemma {:induction false} SplitPlain(p: string, c: char)
    requires c !in p
    ensures Split(p, c) == [p]
    decreases |p|
  {
    if p != [] {
      SplitPlain(p[1..], c);
      assert [p[0]] + p[1..] == p;
    }
  }

  /** A part without the separator, then the separator, splits off that part. */
  lemma {:induction false} SplitAtSeparator(p: string, c: char, q: string)
    requires c !in p
    ensures Split(p + [c] + q, c) == [p] + Split(q, c)
    decreases |p|
  {
    if p == [] {
      assert (p + [c] + q)[1..] == q;
    } else {
      SplitAtSeparator(p[1..], c, q);
      assert (p + [c] + q)[1..] == p[1..] + [c] + q;
      assert [p[0]] + p[1..] == p;
    }
  }

  /** Splitting parts joined with a separator none of them contains gives
      the parts back. */
  lemma {:induction false} SplitJoin(parts: seq<string>, c: char)
    requires |parts| >= 1
    requires forall k :: 0 <= k < |parts| ==> c !in parts[k]
    ensures Split(Join(parts, [c]), c) == parts
    decreases |parts|
  {
    if |parts| == 1 {
      SplitPlain(parts[0], c);
    } else {
      SplitJoin(parts[1..], c);
      SplitAtSeparator(parts[0], c, Join(parts[1..], [c]));
      assert [parts[0]] + parts[1..] == parts;
    }
  }

  // ---------------------------------------------------------------------
  // Numeric strings

  /** The decimal value of a run of digits. */
  function DigitsValue(s: string): nat
    requires AllDigits(s)
    decreases |s|
  {
    if s == [] then 0 else DigitsValue(s[..|s| - 1]) * 10 + (s[|s| - 1] - '0') as int
  }

  /** The longest run of digits `s` starts with. */
  function LeadingDigits(s: string): (d: string)
    ensures d <= s && AllDigits(d)
    ensures |d| < |s| ==> !IsDigit(s[|d|])
  {
    if s != [] && IsDigit(s[0]) then [s[0]] + LeadingDigits(s[1..]) else []
  }

  /** The whitespace PHP skips around a numeric string: space, tab,
      newline, carriage return, vertical tab and form feed. */
  predicate IsSpace(c: char) {
    c == ' ' || c == '\t' || c == '\n' || c == '\r' || c == 11 as char || c == 12 as char
  }

  /** `s` without its leading whitespace. */
  function SkipSpace(s: string): (t: string)
    ensures |t| <= |s| && t == s[|s| - |t|..]
    ensures t == [] || !IsSpace(t[0])
  {
    if s != [] && IsSpace(s[0]) then SkipSpace(s[1..]) else s
  }

  /** `s` without its trailing whitespace. */
  function TrimEnd(s: string): (t: string)
    ensures t <= s
    ensures t == [] || !IsSpace(t[|t| - 1])
  {
    if s != [] && IsSpace(s[|s| - 1]) then TrimEnd(s[..|s| - 1]) else s
  }

  /** `s` after its leading whitespace and its sign. */
  function Unsigned(s: string): string {
    var t := SkipSpace(s);
    if t != [] && (t[0] == '-' || t[0] == '+') then t[1..] else t
  }

  /** The sign after the leading whitespace is a minus. */
  predicate Negative(s: string) {
    var t := SkipSpace(s);
    t != [] && t[0] == '-'
  }

  /** `(int)` of a string: its leading whitespace, sign and digits, or 0. */
  function StrToInt(s: string): int {
    var n: int := DigitsValue(LeadingDigits(Unsigned(s)));
    if Negative(s) then -n else n
  }

  /** An unsigned decimal numeral: digits with an optional fraction, or a
      fraction alone (`5`, `5.`, `5.25`, `.25`). */
  predicate IsNumeral(b: string) {
    var d := LeadingDigits(b);
    if d != [] then d == b || (b[|d|] == '.' && AllDigits(b[|d| + 1..]))
    else |b| >= 2 && b[0] == '.' && AllDigits(b[1..])
  }

  /** `is_numeric` of a string, as in PHP 8: leading whitespace, an
      optional sign, a numeral, and trailing whitespace. */
  predicate IsNumericString(s: string) {
    IsNumeral(TrimEnd(Unsigned(s)))
  }

  /** The string starts with a number as the arithmetic operators read
      it: whitespace, a sign, then a digit or a "." followed by a digit. */
  predicate HasLeadingNumber(s: string) {
    var b := Unsigned(s);
    LeadingDigits(b) != [] || (|b| >= 2 && b[0] == '.' && IsDigit(b[1]))
  }

  lemma {:induction false} DigitsValueOfNat(n: nat)
    ensures DigitsValue(NatToString(n)) == n
  {
    if n >= 10 {
      DigitsValueOfNat(n / 10);
      var s := NatToString(n);
      assert s[..|s| - 1] == NatToString(n / 10);
    }
  }

  lemma {:induction false} LeadingDigitsOfDigits(s: string)
    requires AllDigits(s)
    ensures LeadingDigits(s) == s
  {
    if s != [] {
      LeadingDigitsOfDigits(s[1..]);
    }
  }

  /** The run of digits stops where a non-digit starts. */
  lemma {:induction false} LeadingDigitsBefore(d: string, r: string)
    requires AllDigits(d) && (r == [] || !IsDigit(r[0]))
    ensures LeadingDigits(d + r) == d
  {
    if d == [] {
      assert d + r == r;
    } else {
      assert (d + r)[1..] == d[1..] + r;
      LeadingDigitsBefore(d[1..], r);
    }
  }

  predicate AllSpace(s: string) {
    forall k :: 0 <= k < |s| ==> IsSpace(s[k])
  }

  lemma {:induction false} SkipSpacePrefix(w: string, t: string)
    requires AllSpace(w) && (t == [] || !IsSpace(t[0]))
    ensures SkipSpace(w + t) == t
  {
    if w == [] {
      assert w + t == t;
    } else {
      assert (w + t)[1..] == w[1..] + t;
      SkipSpacePrefix(w[1..], t);
    }
  }

  lemma {:induction false} TrimEndSuffix(t: string, w: string)
    requires AllSpace(w) && t != [] && !IsSpace(t[|t| - 1])
    ensures TrimEnd(t + w) == t
  {
    if w == [] {
      assert t + w == t;
    } else {
      assert (t + w)[..|t + w| - 1] == t + w[..|w| - 1];
      TrimEndSuffix(t, w[..|w| - 1]);
    }
  }

  /** Past leading whitespace, the decimal form of an integer reads as
      its sign and then its digits. */
  lemma UnsignedOfPadded(w: string, i: int, v: string)
    requires AllSpace(w)
    ensures Unsigned(w + IntToString(i) + v) == NatToString(if i >= 0 then i else -i) + v
    ensures Negative(w + IntToString(i) + v) <==> i < 0
  {
    var t := IntToString(i);
    var digits := NatToString(if i >= 0 then i else -i);
    var s := w + t + v;
    assert s == w + (t + v);
    assert (t + v)[0] == t[0];
    assert !IsSpace(t[0]) by {
      if i >= 0 { assert IsDigit(t[0]); }
    }
    SkipSpacePrefix(w, t + v);
    assert SkipSpace(s) == t + v;
    if i < 0 {
      assert t + v == "-" + (digits + v);
      assert (t + v)[1..] == digits + v;
    } else {
      assert t + v == digits + v;
      assert IsDigit(digits[0]);
    }
  }

  /** Whitespace around the decimal form of an integer changes neither
      the integer it reads back as nor its being numeric: `(int) " 12 "`
      is 12 and `is_numeric(" 12 ")` holds. */
  lemma PaddedIntToString(w: string, i: int, v: string)
    requires AllSpace(w) && AllSpace(v)
    ensures StrToInt(w + IntToString(i) + v) == i
    ensures IsNumericString(w + IntToString(i) + v)
    ensures LeadingDigits(Unsigned(w + IntToString(i) + v)) == NatToString(if i >= 0 then i else -i)
    ensures v == [] || v[0] != '.'
  {
    var n: nat := if i >= 0 then i else -i;
    var digits := NatToString(n);
    UnsignedOfPadded(w, i, v);
    DigitsThenSpace(digits, v);
    DigitsValueOfNat(n);
  }

  /** Digits followed by whitespace: the digits are the leading run and
      what is left once the whitespace is trimmed, and they form a numeral. */
  lemma DigitsThenSpace(d: string, v: string)
    requires d != [] && AllDigits(d) && AllSpace(v)
    ensures LeadingDigits(d + v) == d && TrimEnd(d + v) == d && IsNumeral(d)
    ensures v == [] || v[0] != '.'
  {
    assert v == [] || (!IsDigit(v[0]) && v[0] != '.') by {
      if v != [] { assert IsSpace(v[0]); }
    }
    LeadingDigitsBefore(d, v);
    assert IsDigit(d[|d| - 1]);
    TrimEndSuffix(d, v);
    NumeralOfDigits(d);
  }

  /** A "." followed by digits is numeric, and its integer is 0. */
  lemma LeadingDotNumeral(f: string)
    requires f != [] && AllDigits(f)
    ensures IsNumericString("." + f) && StrToInt("." + f) == 0
  {
    var s := "." + f;
    SkipSpacePrefix([], s);
    assert [] + s == s;
    assert Unsigned(s) == s;
    assert LeadingDigits(s) == [];
    assert IsDigit(s[|s| - 1]);
    TrimEndSuffix(s, []);
    assert s + [] == s;
    assert s[1..] == f;
  }

  lemma NumeralOfDigits(d: string)
    requires d != [] && AllDigits(d)
    ensures IsNumeral(d)
  {
    LeadingDigitsOfDigits(d);
  }

  /** Reading back the string form of an integer gives the integer, and
      that form is numeric. */
  lemma IntToStringRoundTrip(i: int)
    ensures StrToInt(IntToString(i)) == i
    ensures IsNumericString(IntToString(i))
  {
    var t := IntToString(i);
    var w: string := [];
    assert w + t + w == t;
    PaddedIntToString(w, i, w);
  }
}
