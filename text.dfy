/**
 * The `str` operations of Rust's standard library that the nargo sources
 * rely on (`starts_with`, `strip_prefix`, `trim_start_matches`, `split_once`,
 * `rsplit_once`, `split`, `to_ascii_uppercase`, `replace`), each stated by
 * what it promises about its result.
 */
module Text {
  import opened Wrappers

  predicate StartsWith(s: string, p: string) {
    |p| <= |s| && s[..|p|] == p
  }

  predicate EndsWith(s: string, p: string) {
    |p| <= |s| && s[|s| - |p|..] == p
  }

  /** `str::strip_prefix` */
  function StripPrefix(s: string, p: string): (r: Option<string>)
    ensures r.Some? <==> StartsWith(s, p)
    ensures r.Some? ==> s == p + r.value
  {
    if StartsWith(s, p) then Some(s[|p|..]) else None
  }

  lemma StripPrefixOfConcat(p: string, x: string)
    ensures StripPrefix(p + x, p) == Some(x)
  {
    assert (p + x)[..|p|] == p;
    assert (p + x)[|p|..] == x;
  }

  lemma NotStartsWith(s: string, p: string)
    requires s != [] && p != [] && s[0] != p[0]
    ensures !StartsWith(s, p) && StripPrefix(s, p) == None
  {
    if |p| <= |s| {
      assert s[..|p|][0] != p[0];
    }
  }

  /** `str::strip_suffix` */
  function StripSuffix(s: string, p: string): (r: Option<string>)
    ensures r.Some? <==> EndsWith(s, p)
    ensures r.Some? ==> s == r.value + p
  {
    if EndsWith(s, p) then Some(s[..|s| - |p|]) else None
  }

  /** `r` is what is left of `s` once the longest prefix made only of
      characters in `cs` is dropped. */
  predicate IsTrimStart(s: string, cs: set<char>, r: string) {
    && |r| <= |s|
    && s == s[..|s| - |r|] + r
    && (forall i :: 0 <= i < |s| - |r| ==> s[i] in cs)
    && (r == [] || r[0] !in cs)
  }

  /** IsTrimStart pins its result down completely. */
  lemma IsTrimStartUnique(s: string, cs: set<char>, r1: string, r2: string)
    requires IsTrimStart(s, cs, r1) && IsTrimStart(s, cs, r2)
    ensures r1 == r2
  {
  }

  /** Trimming a string whose first character is trimmed is trimming the
      rest. */
  lemma IsTrimStartCons(s: string, cs: set<char>, r: string)
    requires s != [] && s[0] in cs
    requires IsTrimStart(s[1..], cs, r)
    ensures IsTrimStart(s, cs, r)
  {
    var n := |s| - |r|;
    assert s[1..][..n - 1] == s[1..n];
    assert s[..n] == [s[0]] + s[1..n];
    forall i | 0 <= i < n ensures s[i] in cs {
      if i > 0 {
        assert s[i] == s[1..][i - 1];
      }
    }
  }

  /** `str::trim_start_matches` with a set of characters. */
  function TrimStartMatches(s: string, cs: set<char>): (r: string)
    ensures IsTrimStart(s, cs, r)
  {
    if s != [] && s[0] in cs then
      var r := TrimStartMatches(s[1..], cs);
      IsTrimStartCons(s, cs, r);
      r
    else
      assert s[..0] + s == s;
      s
  }

  /** Index of the first occurrence of `c` in `s`. */
  function IndexOf(s: string, c: char): (r: Option<nat>)
    ensures r.None? <==> c !in s
    ensures r.Some? ==> r.value < |s| && s[r.value] == c && c !in s[..r.value]
  {
    if s == [] then None
    else if s[0] == c then Some(0)
    else match IndexOf(s[1..], c)
      case None => None
      case Some(i) => Some(i + 1)
  }

  /** Index of the last occurrence of `c` in `s`. */
  function LastIndexOf(s: string, c: char): (r: Option<nat>)
    ensures r.None? <==> c !in s
    ensures r.Some? ==> r.value < |s| && s[r.value] == c && c !in s[r.value + 1..]
  {
    if s == [] then None
    else if s[|s| - 1] == c then Some(|s| - 1)
    else
      assert s == s[..|s| - 1] + [s[|s| - 1]];
      LastIndexOf(s[..|s| - 1], c)
  }

  /** `str::split_once`: splits at the first `c`. */
  function SplitOnce(s: string, c: char): (r: Option<(string, string)>)
    ensures r.None? <==> c !in s
    ensures r.Some? ==> s == r.value.0 + [c] + r.value.1 && c !in r.value.0
  {
    match IndexOf(s, c)
    case None => None
    case Some(i) =>
      assert s == s[..i] + [c] + s[i + 1..];
      Some((s[..i], s[i + 1..]))
  }

  /** `str::rsplit_once`: splits at the last `c`. */
  function RSplitOnce(s: string, c: char): (r: Option<(string, string)>)
    ensures r.None? <==> c !in s
    ensures r.Some? ==> s == r.value.0 + [c] + r.value.1 && c !in r.value.1
  {
    match LastIndexOf(s, c)
    case None => None
    case Some(i) =>
      assert s == s[..i] + [c] + s[i + 1..];
      Some((s[..i], s[i + 1..]))
  }

  /** `split_once` cuts at a given `c` when none comes before it. */
  lemma SplitOnceAt(a: string, c: char, b: string)
    requires c !in a
    ensures SplitOnce(a + [c] + b, c) == Some((a, b))
  {
    var s := a + [c] + b;
    var (x, y) := SplitOnce(s, c).value;
    assert forall i :: 0 <= i < |a| ==> s[i] == a[i] != c;
    assert forall i :: 0 <= i < |x| ==> s[i] == x[i] != c;
    assert s[|a|] == c && s[|x|] == c;
    assert x == s[..|a|] == a;
    assert y == s[|a| + 1..] == b;
  }

  /** `rsplit_once` cuts at a given `c` when none comes after it. */
  lemma RSplitOnceAt(a: string, c: char, b: string)
    requires c !in b
    ensures RSplitOnce(a + [c] + b, c) == Some((a, b))
  {
    var s := a + [c] + b;
    var (x, y) := RSplitOnce(s, c).value;
    forall i | |a| < i < |s| ensures s[i] != c {
      assert s[i] == b[i - |a| - 1];
    }
    forall i | |x| < i < |s| ensures s[i] != c {
      assert s[i] == y[i - |x| - 1];
    }
    assert s[|a|] == c && s[|x|] == c;
    assert |x| == |a|;
    assert x == s[..|a|] == a;
    assert y == s[|a| + 1..] == b;
  }

  /** The pieces joined back with `sep` between consecutive pieces. */
  function Join(parts: seq<string>, sep: string): string {
    if parts == [] then []
    else if |parts| == 1 then parts[0]
    else parts[0] + sep + Join(parts[1..], sep)
  }

  /** `str::split` on a character: always at least one piece (an empty
      string yields one empty piece); no piece contains `c`; joining the
      pieces with `c` gives back `s`. */
  function Split(s: string, c: char): (r: seq<string>)
    ensures |r| >= 1
    ensures forall k :: 0 <= k < |r| ==> c !in r[k]
    ensures Join(r, [c]) == s
    decreases |s|
  {
    match SplitOnce(s, c)
    case None => [s]
    case Some((a, b)) =>
      var rest := Split(b, c);
      assert ([a] + rest)[1..] == rest;
      [a] + rest
  }

  /** Joining two non-empty lists of pieces puts one separator between
      their joins. */
  lemma {:induction false} JoinAppend(p: seq<string>, q: seq<string>, sep: string)
    requires p != [] && q != []
    ensures Join(p + q, sep) == Join(p, sep) + sep + Join(q, sep)
    decreases |p|
  {
    if |p| == 1 {
      assert (p + q)[1..] == q;
    } else {
      assert (p + q)[1..] == p[1..] + q;
      JoinAppend(p[1..], q, sep);
    }
  }

  /** Joining `a`, `b`, ... is joining `a + sep + b`, ... */
  lemma JoinConsCons(a: string, b: string, rest: seq<string>, sep: string)
    ensures Join([a, b] + rest, sep) == Join([a + sep + b] + rest, sep)
  {
    if rest != [] {
      assert ([a, b] + rest)[1..] == [b] + rest;
      assert ([b] + rest)[1..] == rest;
      assert ([a + sep + b] + rest)[1..] == rest;
    }
  }

  /** Splitting at a separator splits the text on either side of it
      separately. */
  lemma SplitAppend(a: string, b: string, c: char)
    ensures Split(a + [c] + b, c) == Split(a, c) + Split(b, c)
  {
    var pa, pb := Split(a, c), Split(b, c);
    var parts := pa + pb;
    JoinAppend(pa, pb, [c]);
    forall k | 0 <= k < |parts| ensures c !in parts[k] {
      if k < |pa| {
        assert parts[k] == pa[k];
      } else {
        assert parts[k] == pb[k - |pa|];
      }
    }
    SplitJoin(parts, c);
  }

  /** Splitting undoes joining when no piece holds the separator. */
  lemma {:induction false} SplitJoin(parts: seq<string>, c: char)
    requires |parts| >= 1
    requires forall k :: 0 <= k < |parts| ==> c !in parts[k]
    ensures Split(Join(parts, [c]), c) == parts
    decreases |parts|
  {
    if |parts| > 1 {
      var rest := parts[1..];
      var tail := Join(rest, [c]);
      assert Join(parts, [c]) == parts[0] + [c] + tail;
      SplitOnceAt(parts[0], c, tail);
      SplitJoin(rest, c);
      assert Split(Join(parts, [c]), c) == [parts[0]] + Split(tail, c);
      assert parts == [parts[0]] + rest;
    }
  }

  function AsciiUpper(c: char): (u: char)
    ensures 'a' <= c <= 'z' ==> u as int == c as int - 32
    ensures !('a' <= c <= 'z') ==> u == c
  {
    if 'a' <= c <= 'z' then (c as int - 32) as char else c
  }

  /** `str::to_ascii_uppercase`, character by character. */
  function ToAsciiUpper(s: string): (r: string)
    ensures |r| == |s|
    ensures forall i :: 0 <= i < |s| ==> r[i] == AsciiUpper(s[i])
  {
    if s == [] then [] else [AsciiUpper(s[0])] + ToAsciiUpper(s[1..])
  }

  /** Upper-casing a string one character longer appends one character. */
  lemma ToAsciiUpperSnoc(s: string, c: char)
    ensures ToAsciiUpper(s + [c]) == ToAsciiUpper(s) + [AsciiUpper(c)]
  {
    var l := ToAsciiUpper(s + [c]);
    var r := ToAsciiUpper(s) + [AsciiUpper(c)];
    forall i | 0 <= i < |l| ensures l[i] == r[i] {
      if i < |s| {
        assert (s + [c])[i] == s[i];
      }
    }
  }

  /** `str::replace` of one character by another. */
  function ReplaceChar(s: string, from: char, to: char): (r: string)
    ensures |r| == |s|
    ensures forall i :: 0 <= i < |s| ==> r[i] == if s[i] == from then to else s[i]
  {
    if s == [] then [] else [if s[0] == from then to else s[0]] + ReplaceChar(s[1..], from, to)
  }
}
