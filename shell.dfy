/**
 * crates/nargo-rustc/src/shell.rs: quoting a word for a POSIX shell. A
 * non-empty word made only of harmless characters is left alone; any other
 * word is put in single quotes, and each `'` or `!` inside it is written as
 * `'\'` or `'\!` followed by a new opening quote.
 *
 * The partner of the quoting is a reader for the part of shell word syntax
 * the quoting uses (bare harmless characters, backslash escapes, single
 * quotes); every word reads back as itself.
 */
module Shell {
  import opened Wrappers

  /** The characters `non_whitelisted` lets through. */
  predicate Whitelisted(c: char) {
    || 'a' <= c <= 'z'
    || 'A' <= c <= 'Z'
    || '0' <= c <= '9'
    || c in {'-', '_', '=', '/', ',', '.', '+'}
  }

  predicate AllWhitelisted(s: string) {
    forall i :: 0 <= i < |s| ==> Whitelisted(s[i])
  }

  /** Characters that close the quote to be escaped on their own. */
  predicate NeedsBreakout(c: char) {
    c == '\'' || c == '!'
  }

  /** The inside of the single-quoted form: each `'` or `!` becomes
      `'\` + itself + `'`; every other character stands for itself. */
  function QuoteChars(s: string): string {
    if s == [] then [] else QuoteChar(s[0]) + QuoteChars(s[1..])
  }

  /** Each `'` or `!` grows by three characters; every other stays one. */
  lemma {:induction false} QuoteCharsLength(s: string)
    ensures |QuoteChars(s)| == |s| + 3 * Breakouts(s)
    decreases |s|
  {
    if s != [] {
      QuoteCharsLength(s[1..]);
    }
  }

  /** What one character becomes inside the quotes. */
  function QuoteChar(c: char): (r: string)
    ensures NeedsBreakout(c) ==> r == "'\\" + [c] + "'"
    ensures !NeedsBreakout(c) ==> r == [c]
  {
    if NeedsBreakout(c) then "'\\" + [c] + "'" else [c]
  }

  /** How many characters need breaking out. */
  function Breakouts(s: string): nat {
    if s == [] then 0 else (if NeedsBreakout(s[0]) then 1 else 0) + Breakouts(s[1..])
  }

  /** What `escape` returns. */
  function Escaped(s: string): string {
    if s != [] && AllWhitelisted(s) then s else "'" + QuoteChars(s) + "'"
  }

  // ---- reading a shell word back ----

  function Cons(c: char, o: Option<string>): Option<string> {
    match o
    case None => None
    case Some(t) => Some([c] + t)
  }

  /** Reads a word outside quotes: a harmless character stands for itself,
      `\x` for `x`, and `'` opens a single-quoted run. Anything else is not
      part of a word. */
  function Unquote(t: string): Option<string>
    decreases |t|, 1
  {
    if t == [] then Some([])
    else if t[0] == '\'' then UnquoteSingle(t[1..])
    else if t[0] == '\\' then (if |t| >= 2 then Cons(t[1], Unquote(t[2..])) else None)
    else if Whitelisted(t[0]) then Cons(t[0], Unquote(t[1..]))
    else None
  }

  /** Reads inside single quotes: everything up to the closing `'` is
      literal. An unclosed quote is not a word. */
  function UnquoteSingle(t: string): Option<string>
    decreases |t|, 0
  {
    if t == [] then None
    else if t[0] == '\'' then Unquote(t[1..])
    else Cons(t[0], UnquoteSingle(t[1..]))
  }

  lemma {:induction false} UnquoteWhitelisted(s: string)
    requires AllWhitelisted(s)
    ensures Unquote(s) == Some(s)
    decreases |s|
  {
    if s != [] {
      UnquoteWhitelisted(s[1..]);
      assert s == [s[0]] + s[1..];
    }
  }

  /** Inside single quotes, one quoted character reads as itself. */
  lemma UnquoteSingleQuoteChar(c: char, tail: string)
    ensures UnquoteSingle(QuoteChar(c) + tail) == Cons(c, UnquoteSingle(tail))
  {
    if NeedsBreakout(c) {
      var t := "'\\" + [c] + "'" + tail;
      assert QuoteChar(c) + tail == t;
      assert t[1..] == "\\" + [c] + "'" + tail;
      assert t[1..][2..] == "'" + tail;
      assert ("'" + tail)[1..] == tail;
      assert Unquote("'" + tail) == UnquoteSingle(tail);
      assert Unquote(t[1..]) == Cons(c, Unquote("'" + tail));
    } else {
      assert ([c] + tail)[1..] == tail;
    }
  }

  /** `s` in front of a reading, if there is one. */
  function Prepend(s: string, o: Option<string>): (r: Option<string>)
    ensures r.Some? <==> o.Some?
    ensures r.Some? ==> r.value == s + o.value
  {
    match o
    case None => None
    case Some(t) => Some(s + t)
  }

  lemma ConsPrepend(s: string, o: Option<string>)
    requires s != []
    ensures Cons(s[0], Prepend(s[1..], o)) == Prepend(s, o)
  {
    if o.Some? {
      assert [s[0]] + (s[1..] + o.value) == s + o.value;
    }
  }

  /** Inside single quotes, the quoted form of `s` reads as `s`. */
  lemma {:induction false} UnquoteSingleQuoteChars(s: string, rest: string)
    ensures UnquoteSingle(QuoteChars(s) + rest) == Prepend(s, UnquoteSingle(rest))
    decreases |s|
  {
    if s == [] {
      assert QuoteChars(s) + rest == rest;
      if UnquoteSingle(rest).Some? {
        assert s + UnquoteSingle(rest).value == UnquoteSingle(rest).value;
      }
    } else {
      var tail := QuoteChars(s[1..]) + rest;
      UnquoteSingleQuoteChars(s[1..], rest);
      assert QuoteChars(s) + rest == QuoteChar(s[0]) + tail;
      UnquoteSingleQuoteChar(s[0], tail);
      ConsPrepend(s, UnquoteSingle(rest));
    }
  }

  /** Reading the escaped form of any word gives the word back. */
  lemma UnquoteEscaped(s: string)
    ensures Unquote(Escaped(s)) == Some(s)
  {
    if s != [] && AllWhitelisted(s) {
      UnquoteWhitelisted(s);
    } else {
      var t := "'" + QuoteChars(s) + "'";
      assert t[1..] == QuoteChars(s) + "'";
      UnquoteSingleQuoteChars(s, "'");
      assert UnquoteSingle("'") == Unquote([]);
      assert s + [] == s;
    }
  }

  /** `escape`: a harmless word comes back as it is; any other word comes
      back quoted, two characters longer plus three for each `'` or `!`,
      and reads back as the word. */
  method Escape(s: string) returns (r: string)
    ensures r == Escaped(s)
    ensures Unquote(r) == Some(s)
    ensures s != [] && AllWhitelisted(s) ==> r == s
    ensures !(s != [] && AllWhitelisted(s)) ==>
      |r| == |s| + 2 + 3 * Breakouts(s) && r[0] == '\'' && r[|r| - 1] == '\''
  {
    UnquoteEscaped(s);
    if s != [] && AllWhitelisted(s) {
      return s;
    }
    r := "'";
    var i := 0;
    while i < |s|
      invariant 0 <= i <= |s|
      invariant r == "'" + QuoteChars(s[..i])
    {
      QuoteCharsSnoc(s, i);
      var c := s[i];
      ghost var before := r;
      if NeedsBreakout(c) {
        r := r + "'\\" + [c] + "'";
      } else {
        r := r + [c];
      }
      assert r == before + QuoteChar(c);
      i := i + 1;
    }
    assert s[..i] == s;
    QuoteCharsLength(s);
    ghost var inner := r;
    r := r + "'";
    assert r == "'" + QuoteChars(s) + "'" == Escaped(s);
    assert r[0] == inner[0] == '\'';
  }

  /** Quoting one more character of `s` appends that character's form. */
  lemma QuoteCharsSnoc(s: string, i: nat)
    requires i < |s|
    ensures "'" + QuoteChars(s[..i + 1]) == "'" + QuoteChars(s[..i]) + QuoteChar(s[i])
  {
    QuoteCharsAppend(s[..i], [s[i]]);
    assert s[..i + 1] == s[..i] + [s[i]];
    assert QuoteChars([s[i]]) == QuoteChar(s[i]) + QuoteChars([]);
  }

  lemma {:induction false} QuoteCharsAppend(a: string, b: string)
    ensures QuoteChars(a + b) == QuoteChars(a) + QuoteChars(b)
    decreases |a|
  {
    if a != [] {
      var c := a[0];
      QuoteCharsAppend(a[1..], b);
      assert (a + b)[0] == c && (a + b)[1..] == a[1..] + b;
    } else {
      assert a + b == b;
    }
  }
}
