/**
 * The minimal semantic-version parser of crates/nargo-rustc/src/semver.rs:
 * a version is `<major>.<minor>.<patch>[-<pre>][+<build>]`. The three
 * numeric parts are checked; the pre-release and build parts are only
 * required to be non-empty. A parsed version keeps its input text.
 */
module Semver {
  import opened Wrappers
  import opened Text

  /** u64::MAX + 1 */
  const U64_LIMIT: nat := 0x1_0000_0000_0000_0000

  predicate IsDigit(c: char) {
    '0' <= c <= '9'
  }

  predicate AllDigits(s: string) {
    forall i :: 0 <= i < |s| ==> IsDigit(s[i])
  }

  /** The value of a string of decimal digits. */
  function DigitsValue(s: string): nat
    requires AllDigits(s)
  {
    if s == [] then 0 else DigitsValue(s[..|s| - 1]) * 10 + (s[|s| - 1] as int - '0' as int)
  }

  function DigitChar(d: nat): (c: char)
    requires d < 10
    ensures IsDigit(c) && c as int - '0' as int == d
  {
    ('0' as int + d) as char
  }

  /** Decimal rendering of a natural number, without leading zeros. */
  function NatToString(n: nat): (r: string)
    ensures r != [] && AllDigits(r)
    ensures r[0] == '0' <==> n == 0
    ensures n == 0 ==> r == "0"
    decreases n
  {
    if n < 10 then [DigitChar(n)] else NatToString(n / 10) + [DigitChar(n % 10)]
  }

  lemma {:induction false} DigitsValueOfNatToString(n: nat)
    ensures DigitsValue(NatToString(n)) == n
    decreases n
  {
    if n >= 10 {
      var s := NatToString(n);
      assert s[..|s| - 1] == NatToString(n / 10);
      DigitsValueOfNatToString(n / 10);
    }
  }

  /** The digits `u64::from_str` reads: the input less one optional
      leading `+`. */
  function U64Digits(s: string): string {
    if s != [] && s[0] == '+' then s[1..] else s
  }

  /** `u64::from_str`: an optional `+`, then at least one ASCII digit, and a
      value that fits in 64 bits. */
  function U64FromStr(s: string): (r: Option<nat>)
    ensures r.Some? ==> r.value < U64_LIMIT
    ensures r.Some? ==> s != [] && (s[0] == '+' || IsDigit(s[0])) && (forall i :: 0 < i < |s| ==> IsDigit(s[i]))
    ensures r.Some? && s[0] == '+' ==> |s| >= 2 && r.value == DigitsValue(s[1..])
    ensures r.Some? && s[0] != '+' ==> r.value == DigitsValue(s)
    ensures s != [] && AllDigits(s) && DigitsValue(s) < U64_LIMIT ==> r == Some(DigitsValue(s))
    ensures |s| >= 2 && s[0] == '+' && AllDigits(s[1..]) && DigitsValue(s[1..]) < U64_LIMIT ==>
      r == Some(DigitsValue(s[1..]))
  {
    var d := U64Digits(s);
    if d != [] && AllDigits(d) && DigitsValue(d) < U64_LIMIT then Some(DigitsValue(d)) else None
  }

  /** Every 64-bit value's decimal form is read back, with or without a
      leading `+`; the empty string and a lone `+` are not numbers. */
  lemma U64FromStrOfNatToString(n: nat)
    requires n < U64_LIMIT
    ensures U64FromStr(NatToString(n)) == Some(n)
    ensures U64FromStr("+" + NatToString(n)) == Some(n)
    ensures U64FromStr("") == None && U64FromStr("+") == None
  {
    DigitsValueOfNatToString(n);
    assert ("+" + NatToString(n))[1..] == NatToString(n);
    assert U64Digits("+") == [];
  }

  /** The grammar's `<numeric>`: "0", or a non-zero digit followed by digits. */
  predicate IsNumeric(s: string) {
    s == "0" || (s != [] && '1' <= s[0] <= '9' && AllDigits(s))
  }

  /** `parse_numeric` as the source writes it: non-empty, `u64::from_str`,
      and a leading `0` rejected only when the value is not zero. */
  function ParseNumericAsWritten(s: string): Option<nat> {
    if s == [] then None
    else match U64FromStr(s)
      case None => None
      case Some(n) => if n != 0 && s[0] == '0' then None else Some(n)
  }

  /** As written, a sign and a run of zeros both get through, though the
      grammar admits neither. */
  lemma ParseNumericAsWrittenAcceptsNonNumeric()
    ensures ParseNumericAsWritten("+1") == Some(1) && !IsNumeric("+1")
    ensures ParseNumericAsWritten("00") == Some(0) && !IsNumeric("00")
  {
    assert U64Digits("+1") == "1";
    assert DigitsValue("1") == DigitsValue("") * 10 + 1;
    assert DigitsValue("00") == DigitsValue("0") * 10 + 0;
    assert DigitsValue("0") == DigitsValue("") * 10 + 0;
  }

  /** `parse_numeric` as the grammar above it means it: exactly the
      `<numeric>` strings whose value fits in 64 bits. */
  function ParseNumeric(s: string): (r: Option<nat>)
    ensures r.Some? <==> IsNumeric(s) && DigitsValue(s) < U64_LIMIT
    ensures r.Some? ==> r.value == DigitsValue(s)
  {
    if s == [] || s[0] == '+' || (|s| > 1 && s[0] == '0') then None
    else U64FromStr(s)
  }

  /** The corrected check only ever rejects more than the one written. */
  lemma ParseNumericRefinesAsWritten(s: string)
    ensures ParseNumeric(s).Some? ==> ParseNumericAsWritten(s) == ParseNumeric(s)
  {
    if ParseNumeric(s).Some? {
      assert U64Digits(s) == s;
      if s == "0" {
        assert DigitsValue(s) == DigitsValue("") * 10 + 0;
      }
    }
  }

  /** Every 64-bit value, rendered in decimal, parses back to itself. */
  lemma ParseNumericOfNatToString(n: nat)
    requires n < U64_LIMIT
    ensures ParseNumeric(NatToString(n)) == Some(n)
  {
    DigitsValueOfNatToString(n);
  }

  datatype Version = Version(
    original: string,
    major: string,
    minor: string,
    patch: string,
    pre: Option<string>,
    build: Option<string>)

  /** The version put back together from its parts (the unit tests'
      `display`). */
  function Render(v: Version): string {
    v.major + "." + v.minor + "." + v.patch + PreText(v.pre) + BuildText(v.build)
  }

  function PreText(pre: Option<string>): string {
    match pre
    case Some(p) => "-" + p
    case None => ""
  }

  function BuildText(build: Option<string>): string {
    match build
    case Some(b) => "+" + b
    case None => ""
  }

  /** Render undoes the three cuts the parser makes. */
  lemma RenderParts(v: Version, s1: string, s2: string, s3: string)
    requires s3 == v.patch + PreText(v.pre)
    requires s2 == s3 + BuildText(v.build)
    requires s1 == v.minor + "." + s2
    ensures Render(v) == v.major + "." + s1
  {
    var p, b := PreText(v.pre), BuildText(v.build);
    calc {
      Render(v);
      v.major + "." + v.minor + "." + v.patch + p + b;
      { assert v.major + "." + v.minor + "." + v.patch + p == v.major + "." + v.minor + "." + s3; }
      v.major + "." + v.minor + "." + s3 + b;
      { assert v.major + "." + v.minor + "." + s3 + b == v.major + "." + v.minor + "." + s2; }
      v.major + "." + v.minor + "." + s2;
      { assert v.major + "." + v.minor + "." + s2 == v.major + "." + s1; }
      v.major + "." + s1;
    }
  }

  /** Cuts off `+<build>` at the last `+`, unless the build would be empty. */
  function SplitBuild(s: string): (r: (string, Option<string>))
    ensures s == r.0 + BuildText(r.1)
    ensures r.1.Some? ==> r.1.value != [] && '+' !in r.1.value
    ensures r.1.None? ==> r.0 == s && ('+' !in s || s[|s| - 1] == '+')
  {
    match RSplitOnce(s, '+')
    case Some((rest, build)) =>
      if build != [] then (rest, Some(build))
      else
        assert s == rest + "+";
        (s, None)
    case None => (s, None)
  }

  lemma SplitBuildOf(rest: string, build: Option<string>)
    requires '+' !in rest
    requires build.Some? ==> build.value != [] && '+' !in build.value
    ensures SplitBuild(rest + BuildText(build)) == (rest, build)
  {
    match build {
      case Some(b) =>
        assert rest + BuildText(build) == rest + ['+'] + b;
        RSplitOnceAt(rest, '+', b);
      case None =>
        assert rest + BuildText(build) == rest;
    }
  }

  /** Cuts off `-<pre>` at the first `-`, unless the pre-release would be empty. */
  function SplitPre(s: string): (r: (string, Option<string>))
    ensures s == r.0 + PreText(r.1)
    ensures r.1.Some? ==> r.1.value != [] && '-' !in r.0
    ensures r.1.None? ==> r.0 == s && ('-' !in s || (s[|s| - 1] == '-' && '-' !in s[..|s| - 1]))
  {
    match SplitOnce(s, '-')
    case Some((patch, pre)) =>
      if pre != [] then
        assert PreText(Some(pre)) == ['-'] + pre;
        assert s == patch + PreText(Some(pre));
        (patch, Some(pre))
      else
        assert s == patch + ['-'];
        assert s[..|s| - 1] == patch;
        assert PreText(None) == [];
        assert s == s + PreText(None);
        (s, None)
    case None =>
      assert PreText(None) == [];
      assert s == s + PreText(None);
      (s, None)
  }

  lemma SplitPreOf(patch: string, pre: Option<string>)
    requires '-' !in patch
    requires pre.Some? ==> pre.value != []
    ensures SplitPre(patch + PreText(pre)) == (patch, pre)
  {
    match pre {
      case Some(p) =>
        assert patch + PreText(pre) == patch + ['-'] + p;
        SplitOnceAt(patch, '-', p);
      case None =>
        assert patch + PreText(pre) == patch;
    }
  }

  /** Numeric parts hold none of the characters the parser cuts at. */
  lemma NumericHasNoSeparators(s: string)
    requires IsNumeric(s)
    ensures '.' !in s && '-' !in s && '+' !in s
  {
    forall i | 0 <= i < |s| ensures s[i] != '.' && s[i] != '-' && s[i] != '+' {
      assert IsDigit(s[i]);
    }
  }

  /** A version the parser accepts: numeric core parts, non-empty pre-release
      and build, no `+` inside the build. */
  predicate WellFormed(v: Version) {
    && ParseNumeric(v.major).Some?
    && ParseNumeric(v.minor).Some?
    && ParseNumeric(v.patch).Some?
    && (v.pre.Some? ==> v.pre.value != [])
    && (v.build.Some? ==> v.build.value != [] && '+' !in v.build.value)
  }

  /** The cuts `Version::parse` makes before it checks any part: the major
      part at the first `.`, the minor part at the next, `+<build>` at the
      last `+`, then `-<pre>` at the first `-`. */
  function Cut(input: string): (r: Option<Version>)
    ensures r.Some? ==> r.value.original == input && Render(r.value) == input
    ensures r.Some? ==> '.' !in r.value.major && '.' !in r.value.minor
    ensures r.Some? && r.value.pre.Some? ==> r.value.pre.value != []
    ensures r.Some? && r.value.build.Some? ==> r.value.build.value != [] && '+' !in r.value.build.value
    ensures '.' !in input ==> r.None?
  {
    if input == [] then None
    else match SplitOnce(input, '.')
      case None => None
      case Some((major, s1)) =>
        match SplitOnce(s1, '.')
        case None => None
        case Some((minor, s2)) =>
          var (s3, build) := SplitBuild(s2);
          var (patch, pre) := SplitPre(s3);
          var v := Version(input, major, minor, patch, pre, build);
          RenderParts(v, s1, s2, s3);
          Some(v)
  }

  /** `Version::parse`, with the corrected `parse_numeric`. */
  function Parse(input: string): (r: Option<Version>)
    ensures r.Some? ==> r.value.original == input && Render(r.value) == input
    ensures r.Some? ==> WellFormed(r.value)
    ensures r.Some? ==> '.' !in r.value.major && '.' !in r.value.minor
    ensures '.' !in input ==> r.None?
  {
    match Cut(input)
    case None => None
    case Some(v) =>
      if ParseNumeric(v.major).Some? && ParseNumeric(v.minor).Some? && ParseNumeric(v.patch).Some?
      then Some(v) else None
  }

  /** `Version::parse` as the source writes it, with `parse_numeric` as
      written. */
  function ParseAsWritten(input: string): (r: Option<Version>)
    ensures r.Some? ==> r.value.original == input && Render(r.value) == input
    ensures r.Some? ==> ParseNumericAsWritten(r.value.major).Some? && ParseNumericAsWritten(r.value.minor).Some?
                        && ParseNumericAsWritten(r.value.patch).Some?
    ensures r.Some? && r.value.pre.Some? ==> r.value.pre.value != []
    ensures r.Some? && r.value.build.Some? ==> r.value.build.value != [] && '+' !in r.value.build.value
    ensures '.' !in input ==> r.None?
  {
    match Cut(input)
    case None => None
    case Some(v) =>
      if ParseNumericAsWritten(v.major).Some? && ParseNumericAsWritten(v.minor).Some?
         && ParseNumericAsWritten(v.patch).Some?
      then Some(v) else None
  }

  /** Whatever the corrected parser accepts, the written one accepts with
      the same parts. */
  lemma ParseRefinesAsWritten(s: string)
    ensures Parse(s).Some? ==> ParseAsWritten(s) == Parse(s)
  {
    if Parse(s).Some? {
      var v := Cut(s).value;
      ParseNumericRefinesAsWritten(v.major);
      ParseNumericRefinesAsWritten(v.minor);
      ParseNumericRefinesAsWritten(v.patch);
    }
  }

  /** As written, a version with a `+` in front of its major part, such as
      `+1.2.3`, parses; the corrected parser rejects it. */
  lemma ParseAsWrittenAcceptsSign(a: string, b: string, c: string)
    requires IsNumeric(a) && IsNumeric(b) && IsNumeric(c)
    requires DigitsValue(a) < U64_LIMIT && DigitsValue(b) < U64_LIMIT && DigitsValue(c) < U64_LIMIT
    ensures ParseAsWritten("+" + a + "." + b + "." + c).Some? && Parse("+" + a + "." + b + "." + c).None?
  {
    NumericHasNoSeparators(b);
    NumericHasNoSeparators(c);
    ParseNumericRefinesAsWritten(b);
    ParseNumericRefinesAsWritten(c);
    SignedPart(a);
    assert "+" + a + "." + b + "." + c == ("+" + a) + "." + b + "." + c;
    PlainParse("+" + a, b, c);
  }

  /** A numeric part behind a `+` reads as a `u64` but is not numeric. */
  lemma SignedPart(a: string)
    requires IsNumeric(a) && DigitsValue(a) < U64_LIMIT
    ensures '.' !in "+" + a
    ensures ParseNumericAsWritten("+" + a).Some? && ParseNumeric("+" + a).None?
  {
    NumericHasNoSeparators(a);
    assert ("+" + a)[1..] == a;
    assert U64FromStr("+" + a).Some?;
  }

  /** A run of zeros is all digits and worth zero. */
  lemma {:induction false} DigitsValueZeros(a: string)
    requires forall i :: 0 <= i < |a| ==> a[i] == '0'
    ensures AllDigits(a) && DigitsValue(a) == 0
    decreases |a|
  {
    if a != [] {
      DigitsValueZeros(a[..|a| - 1]);
    }
  }

  /** As written, a version whose major part is a run of two or more zeros,
      such as `00.1.2`, parses; the corrected parser rejects it. */
  lemma ParseAsWrittenAcceptsZeros(a: string, b: string, c: string)
    requires |a| >= 2 && forall i :: 0 <= i < |a| ==> a[i] == '0'
    requires IsNumeric(b) && IsNumeric(c)
    requires DigitsValue(b) < U64_LIMIT && DigitsValue(c) < U64_LIMIT
    ensures ParseAsWritten(a + "." + b + "." + c).Some? && Parse(a + "." + b + "." + c).None?
  {
    NumericHasNoSeparators(b);
    NumericHasNoSeparators(c);
    ParseNumericRefinesAsWritten(b);
    ParseNumericRefinesAsWritten(c);
    DigitsValueZeros(a);
    assert U64FromStr(a) == Some(0);
    assert ParseNumericAsWritten(a) == Some(0);
    assert |a| != |"0"|;
    assert !IsNumeric(a);
    PlainParse(a, b, c);
  }

  /** As written, the parser accepts versions the `<numeric>` grammar
      excludes: `+1.2.3` and `00.1.2` and every version of either shape.
      The corrected parser rejects them. */
  lemma ParseAsWrittenAcceptsNonNumeric(a: string, z: string, b: string, c: string)
    requires IsNumeric(a) && IsNumeric(b) && IsNumeric(c)
    requires DigitsValue(a) < U64_LIMIT && DigitsValue(b) < U64_LIMIT && DigitsValue(c) < U64_LIMIT
    requires |z| >= 2 && forall i :: 0 <= i < |z| ==> z[i] == '0'
    ensures ParseAsWritten("+" + a + "." + b + "." + c).Some? && Parse("+" + a + "." + b + "." + c).None?
    ensures ParseAsWritten(z + "." + b + "." + c).Some? && Parse(z + "." + b + "." + c).None?
  {
    ParseAsWrittenAcceptsSign(a, b, c);
    ParseAsWrittenAcceptsZeros(z, b, c);
  }

  /** Both parsers on `a.b.c` with a plain patch `c`: the version exactly
      when each check accepts the three parts. */
  lemma PlainParse(a: string, b: string, c: string)
    requires '.' !in a && '.' !in b && '-' !in c && '+' !in c
    ensures ParseAsWritten(a + "." + b + "." + c).Some? <==>
      ParseNumericAsWritten(a).Some? && ParseNumericAsWritten(b).Some? && ParseNumericAsWritten(c).Some?
    ensures Parse(a + "." + b + "." + c).Some? <==>
      ParseNumeric(a).Some? && ParseNumeric(b).Some? && ParseNumeric(c).Some?
  {
    PlainCut(a, b, c);
  }

  /** The cuts of `a.b.c` with a plain patch `c`. */
  lemma PlainCut(a: string, b: string, c: string)
    requires '.' !in a && '.' !in b && '-' !in c && '+' !in c
    ensures Cut(a + "." + b + "." + c) == Some(Version(a + "." + b + "." + c, a, b, c, None, None))
  {
    var v := Version("", a, b, c, None, None);
    assert Render(v) == a + "." + b + "." + c;
    CutRender(v);
  }

  /** Fewer than two dots is never a version. */
  lemma ParseNeedsTwoDots(a: string, b: string)
    requires '.' !in a && '.' !in b
    ensures Parse(a + "." + b) == None
  {
    SplitOnceAt(a, '.', b);
  }

  /** Completeness: every well-formed version whose pre-release has no `+`
      is read back from its rendering, part for part. */
  lemma ParseRender(v: Version)
    requires WellFormed(v)
    requires v.pre.Some? ==> '+' !in v.pre.value
    ensures Parse(Render(v)) == Some(v.(original := Render(v)))
  {
    NumericHasNoSeparators(v.major);
    NumericHasNoSeparators(v.minor);
    NumericHasNoSeparators(v.patch);
    CutRender(v);
  }

  /** The cuts undo the rendering whenever the parts hold no separator a
      cut could find in the wrong place. */
  lemma CutRender(v: Version)
    requires '.' !in v.major && '.' !in v.minor && '-' !in v.patch && '+' !in v.patch
    requires v.pre.Some? ==> v.pre.value != [] && '+' !in v.pre.value
    requires v.build.Some? ==> v.build.value != [] && '+' !in v.build.value
    ensures Cut(Render(v)) == Some(v.(original := Render(v)))
  {
    var tail := v.patch + PreText(v.pre);
    var s2 := tail + BuildText(v.build);
    var s1 := v.minor + "." + s2;
    RenderParts(v, s1, s2, tail);
    SplitOnceAt(v.major, '.', s1);
    SplitOnceAt(v.minor, '.', s2);
    assert '+' !in tail;
    SplitBuildOf(tail, v.build);
    SplitPreOf(v.patch, v.pre);
  }

  /** `Version::from_str`: the parse, or an error naming the input. */
  function FromStr(s: string): (r: Result<Version, string>)
    ensures r.Ok? <==> Parse(s).Some?
    ensures r.Ok? ==> r.value.original == s && Render(r.value) == s && WellFormed(r.value)
    ensures r.Err? ==> r.error == "not a valid semver version: '" + s + "'"
  {
    match Parse(s)
    case Some(v) => Ok(v)
    case None => Err("not a valid semver version: '" + s + "'")
  }

  /** A trailing dash is not cut off: with nothing after it there is no
      pre-release. */
  lemma SplitPreTrailingDash(c: string)
    requires '-' !in c
    ensures SplitPre(c + "-") == (c + "-", None)
  {
    assert c + "-" == c + ['-'] + [];
    SplitOnceAt(c, '-', []);
  }

  /** The two cuts at `.` that start parsing. */
  lemma ParseDots(a: string, b: string, rest: string)
    requires '.' !in a && '.' !in b
    ensures SplitOnce(a + "." + b + "." + rest, '.') == Some((a, b + "." + rest))
    ensures SplitOnce(b + "." + rest, '.') == Some((b, rest))
  {
    assert a + "." + b + "." + rest == a + ['.'] + (b + "." + rest);
    SplitOnceAt(a, '.', b + "." + rest);
    assert b + "." + rest == b + ['.'] + rest;
    SplitOnceAt(b, '.', rest);
  }

  /** A patch part without `-` or `+` is cut neither way. */
  lemma PlainPatch(c: string)
    requires '-' !in c && '+' !in c
    ensures SplitBuild(c) == (c, None) && SplitPre(c) == (c, None)
  {
    SplitBuildOf(c, None);
    SplitPreOf(c, None);
    assert c + BuildText(None) == c + PreText(None) == c;
  }

  /** A part that ends in anything but a digit is not numeric. */
  lemma NotNumericLast(s: string)
    requires s != [] && !IsDigit(s[|s| - 1])
    ensures ParseNumeric(s).None?
  {
    assert s != "0";
    assert !AllDigits(s);
  }

  /** A dash with nothing after it is not a pre-release: it stays in the
      patch, which is then not numeric (the unit tests' "1.2.3-"). */
  lemma ParseRejectsEmptyPre(a: string, b: string, c: string)
    requires '.' !in a && '.' !in b
    requires '-' !in c && '+' !in c
    ensures Parse(a + "." + b + "." + c + "-") == None
  {
    var s2 := c + "-";
    assert a + "." + b + "." + c + "-" == a + "." + b + "." + s2;
    ParseDots(a, b, s2);
    SplitBuildOf(s2, None);
    assert s2 + BuildText(None) == s2;
    SplitPreTrailingDash(c);
    NotNumericLast(s2);
  }

  /** A leading zero in the major or minor part is rejected (the unit
      tests' "07.01.1" and "7.01.1"). */
  lemma ParseRejectsLeadingZero(a: string, b: string, c: string)
    requires '.' !in a && '.' !in b
    requires (|a| > 1 && a[0] == '0') || (|b| > 1 && b[0] == '0')
    ensures Parse(a + "." + b + "." + c) == None
  {
    ParseDots(a, b, c);
  }

  /** As written, a part with a leading zero and a non-zero value is
      rejected: its last digit is not `0`. */
  lemma AsWrittenRejectsLeadingZeroPart(s: string)
    requires |s| > 1 && s[0] == '0' && s[|s| - 1] != '0'
    ensures ParseNumericAsWritten(s).None?
  {
    if U64FromStr(s).Some? {
      assert AllDigits(s);
      assert DigitsValue(s) == DigitsValue(s[..|s| - 1]) * 10 + (s[|s| - 1] as int - '0' as int);
    }
  }

  /** As written, a leading zero in the major or minor part is rejected
      when the part is not all zeros (the unit tests' "07.01.1" and
      "7.01.1"). */
  lemma ParseAsWrittenRejectsLeadingZero(a: string, b: string, c: string)
    requires '.' !in a && '.' !in b
    requires (|a| > 1 && a[0] == '0' && a[|a| - 1] != '0') || (|b| > 1 && b[0] == '0' && b[|b| - 1] != '0')
    ensures ParseAsWritten(a + "." + b + "." + c) == None
  {
    ParseDots(a, b, c);
    if |a| > 1 && a[0] == '0' && a[|a| - 1] != '0' {
      AsWrittenRejectsLeadingZeroPart(a);
    } else {
      AsWrittenRejectsLeadingZeroPart(b);
    }
  }

  /** As written, a leading zero in a plain patch part is rejected when the
      part is not all zeros (the unit tests' "7.1.01"). */
  lemma ParseAsWrittenRejectsLeadingZeroPatch(a: string, b: string, c: string)
    requires '.' !in a && '.' !in b
    requires '-' !in c && '+' !in c
    requires |c| > 1 && c[0] == '0' && c[|c| - 1] != '0'
    ensures ParseAsWritten(a + "." + b + "." + c) == None
  {
    ParseDots(a, b, c);
    PlainPatch(c);
    AsWrittenRejectsLeadingZeroPart(c);
  }

  /** A leading zero in a plain patch part is rejected (the unit tests'
      "7.1.01"). */
  lemma ParseRejectsLeadingZeroPatch(a: string, b: string, c: string)
    requires '.' !in a && '.' !in b
    requires '-' !in c && '+' !in c
    requires |c| > 1 && c[0] == '0'
    ensures Parse(a + "." + b + "." + c) == None
  {
    ParseDots(a, b, c);
    PlainPatch(c);
  }
}
