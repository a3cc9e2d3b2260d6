/**
 * crates/nargo-rustc/src/target_cfg.rs: reading the output of
 * `rustc --print cfg` and turning it into the `CARGO_CFG_*` environment a
 * build script expects.
 *
 * Running rustc is not part of this model: the output text is an input.
 * The line iterator is lazy and a malformed line panics only when it is
 * reached, so a parsed line is `None` where the source would panic, and the
 * environment producer stops there.
 */
module TargetCfg {
  import opened Wrappers
  import opened Text

  datatype Cfg = Cfg(key: string, value: Option<string>)

  const ENV_PREFIX: string := "CARGO_CFG_"

  /** `strip_quotes`: one `"` cut from each end. */
  function StripQuotes(s: string): (r: Option<string>)
    ensures r.Some? <==> |s| >= 2 && s[0] == '"' && s[|s| - 1] == '"'
    ensures r.Some? ==> "\"" + r.value + "\"" == s
  {
    match StripPrefix(s, "\"")
    case None => None
    case Some(s2) => StripSuffix(s2, "\"")
  }

  /** Quoting a value and stripping the quotes gives it back. */
  lemma StripQuotesOf(v: string)
    ensures StripQuotes("\"" + v + "\"") == Some(v)
  {
    var quoted := "\"" + v + "\"";
    assert quoted == "\"" + (v + "\"");
    StripPrefixOfConcat("\"", v + "\"");
    assert (v + "\"")[..|v|] == v;
  }

  lemma LineParts(key: string, value: string)
    ensures key + ['='] + ("\"" + value + "\"") == key + "=\"" + value + "\""
  {
    assert "=\"" == ['='] + "\"";
  }

  /** One non-empty line of rustc's output: `<key>="<value>"` or `<key>`.
      `None` is the "missing quotes" panic. */
  function ParseLine(line: string): (r: Option<Cfg>)
    ensures '=' !in line ==> r == Some(Cfg(line, None))
    ensures '=' in line ==> (r.None? <==> StripQuotes(SplitOnce(line, '=').value.1).None?)
    ensures '=' in line && r.Some? ==> r.value.value.Some?
    ensures r.Some? && r.value.value.Some? ==>
      line == r.value.key + "=\"" + r.value.value.value + "\"" && '=' !in r.value.key
  {
    match SplitOnce(line, '=')
    case None => Some(Cfg(line, None))
    case Some((key, quoted)) =>
      match StripQuotes(quoted)
      case None => None
      case Some(value) =>
        LineParts(key, value);
        Some(Cfg(key, Some(value)))
  }

  /** The line rustc prints for a cfg. */
  function RenderCfg(c: Cfg): string {
    match c.value
    case None => c.key
    case Some(v) => c.key + "=\"" + v + "\""
  }

  /** Reading a printed cfg gives the cfg back. */
  lemma ParseRenderCfg(c: Cfg)
    requires '=' !in c.key
    ensures ParseLine(RenderCfg(c)) == Some(c)
  {
    match c.value {
      case None =>
      case Some(v) =>
        var quoted := "\"" + v + "\"";
        LineParts(c.key, v);
        SplitOnceAt(c.key, '=', quoted);
        StripQuotesOf(v);
    }
  }

  /** The `filter_map` over the lines of `output`: empty lines dropped,
      the others kept in order. */
  function NonEmptyLines(lines: seq<string>): (r: seq<string>)
    ensures forall k :: 0 <= k < |r| ==> r[k] != [] && r[k] in lines
    ensures forall l :: l != [] ==> multiset(r)[l] == multiset(lines)[l]
    ensures (forall k :: 0 <= k < |lines| ==> lines[k] != []) ==> r == lines
  {
    if lines == [] then []
    else
      assert lines == [lines[0]] + lines[1..];
      if lines[0] == [] then NonEmptyLines(lines[1..])
      else [lines[0]] + NonEmptyLines(lines[1..])
  }

  /** Filtering distributes over concatenation: what is kept of two
      blocks of lines is what is kept of the first, then of the second. */
  lemma {:induction false} NonEmptyLinesAppend(a: seq<string>, b: seq<string>)
    ensures NonEmptyLines(a + b) == NonEmptyLines(a) + NonEmptyLines(b)
    decreases |a|
  {
    if a == [] {
      assert a + b == b;
    } else {
      assert (a + b)[0] == a[0];
      assert (a + b)[1..] == a[1..] + b;
      NonEmptyLinesAppend(a[1..], b);
    }
  }

  function ParseLines(lines: seq<string>): (r: seq<Option<Cfg>>)
    ensures |r| == |lines|
    ensures forall k :: 0 <= k < |lines| ==> r[k] == ParseLine(lines[k])
  {
    if lines == [] then [] else [ParseLine(lines[0])] + ParseLines(lines[1..])
  }

  lemma ParseLinesAppend(a: seq<string>, b: seq<string>)
    ensures ParseLines(a + b) == ParseLines(a) + ParseLines(b)
  {
    var l, r := ParseLines(a + b), ParseLines(a) + ParseLines(b);
    assert |l| == |r|;
    forall k | 0 <= k < |l| ensures l[k] == r[k] {
      if k < |a| {
        assert (a + b)[k] == a[k];
      } else {
        assert (a + b)[k] == b[k - |a|];
      }
    }
  }

  /** `iter_cfgs`: one item per non-empty line of the output, in order,
      each the parse of its line. */
  function IterCfgs(output: string): (r: seq<Option<Cfg>>)
    ensures |r| == |NonEmptyLines(Split(output, '\n'))|
    ensures forall k :: 0 <= k < |r| ==> r[k] == ParseLine(NonEmptyLines(Split(output, '\n'))[k])
  {
    ParseLines(NonEmptyLines(Split(output, '\n')))
  }

  /** A single line yields nothing when empty, and its parse otherwise. */
  lemma IterCfgsLine(line: string)
    requires '\n' !in line
    ensures IterCfgs(line) == if line == [] then [] else [ParseLine(line)]
  {
    assert SplitOnce(line, '\n').None?;
    assert Split(line, '\n') == [line];
  }

  /** The items of two blocks of text joined by a newline are the items of
      the first block, then those of the second. */
  lemma IterCfgsAppend(a: string, b: string)
    ensures IterCfgs(a + "\n" + b) == IterCfgs(a) + IterCfgs(b)
  {
    assert a + "\n" + b == a + ['\n'] + b;
    SplitAppend(a, b, '\n');
    NonEmptyLinesAppend(Split(a, '\n'), Split(b, '\n'));
    ParseLinesAppend(NonEmptyLines(Split(a, '\n')), NonEmptyLines(Split(b, '\n')));
  }

  function RenderCfgs(cfgs: seq<Cfg>): (r: seq<string>)
    ensures |r| == |cfgs|
    ensures forall k :: 0 <= k < |cfgs| ==> r[k] == RenderCfg(cfgs[k])
  {
    if cfgs == [] then [] else [RenderCfg(cfgs[0])] + RenderCfgs(cfgs[1..])
  }

  /** A cfg rustc can print on a line of its own and that reads back. */
  predicate Printable(c: Cfg) {
    && '=' !in c.key && '\n' !in c.key
    && (c.value.None? ==> c.key != [])
    && (c.value.Some? ==> '\n' !in c.value.value)
  }

  /** A printable cfg is printed as one non-empty line. */
  lemma RenderCfgIsLine(c: Cfg)
    requires Printable(c)
    ensures RenderCfg(c) != [] && '\n' !in RenderCfg(c)
  {
    match c.value {
      case None =>
      case Some(v) =>
        var line := c.key + "=\"" + v + "\"";
        assert line[|c.key|] == '=';
        forall k | 0 <= k < |line| ensures line[k] != '\n' {
          if k < |c.key| {
            assert line[k] == c.key[k];
          } else if k == |c.key| || k == |c.key| + 1 || k == |line| - 1 {
          } else {
            assert line[k] == v[k - |c.key| - 2];
          }
        }
    }
  }

  /** The non-empty lines of the printout are the printed cfgs. */
  lemma PrintoutLines(cfgs: seq<Cfg>)
    requires |cfgs| >= 1
    requires forall k :: 0 <= k < |cfgs| ==> Printable(cfgs[k])
    ensures NonEmptyLines(Split(Join(RenderCfgs(cfgs), "\n"), '\n')) == RenderCfgs(cfgs)
    ensures IterCfgs(Join(RenderCfgs(cfgs), "\n")) == ParseLines(RenderCfgs(cfgs))
  {
    var lines := RenderCfgs(cfgs);
    forall k | 0 <= k < |lines| ensures '\n' !in lines[k] && lines[k] != [] {
      RenderCfgIsLine(cfgs[k]);
    }
    SplitJoin(lines, '\n');
  }

  /** Newlines around the output add no item: empty lines are dropped. */
  lemma IterCfgsNewlines(text: string)
    ensures IterCfgs(text + "\n") == IterCfgs(text)
    ensures IterCfgs("\n" + text + "\n") == IterCfgs(text)
  {
    IterCfgsLine("");
    IterCfgsAppend(text, "");
    assert text + "\n" + "" == text + "\n";
    IterCfgsAppend("", text + "\n");
    assert "" + "\n" + (text + "\n") == "\n" + text + "\n";
  }

  /** The cfgs read from the printout of a list, its lines joined by
      newlines. */
  lemma PrintoutItems(cfgs: seq<Cfg>)
    requires forall k :: 0 <= k < |cfgs| ==> Printable(cfgs[k])
    ensures IterCfgs(Join(RenderCfgs(cfgs), "\n")) == seq(|cfgs|, k requires 0 <= k < |cfgs| => Some(cfgs[k]))
  {
    var text := Join(RenderCfgs(cfgs), "\n");
    if cfgs == [] {
      IterCfgsLine(text);
    } else {
      PrintoutLines(cfgs);
      ParseRenderCfgs(cfgs);
    }
  }

  /** Each printed line reads back as its cfg. */
  lemma ParseRenderCfgs(cfgs: seq<Cfg>)
    requires forall k :: 0 <= k < |cfgs| ==> Printable(cfgs[k])
    ensures ParseLines(RenderCfgs(cfgs)) == seq(|cfgs|, k requires 0 <= k < |cfgs| => Some(cfgs[k]))
  {
    var parsed := ParseLines(RenderCfgs(cfgs));
    forall k | 0 <= k < |cfgs| ensures parsed[k] == Some(cfgs[k]) {
      ParseRenderCfg(cfgs[k]);
    }
  }

  /** Reading rustc's printout of a list of cfgs gives the list back, in
      order and one item per cfg: with the lines joined by newlines, with
      the trailing newline rustc prints, and with a newline at both ends
      as the unit test's `CFGS_X86_64_LINUX` literal has. */
  lemma IterCfgsOfPrintout(cfgs: seq<Cfg>)
    requires forall k :: 0 <= k < |cfgs| ==> Printable(cfgs[k])
    ensures var text := Join(RenderCfgs(cfgs), "\n");
      && IterCfgs(text) == seq(|cfgs|, k requires 0 <= k < |cfgs| => Some(cfgs[k]))
      && IterCfgs(text + "\n") == IterCfgs(text)
      && IterCfgs("\n" + text + "\n") == IterCfgs(text)
  {
    PrintoutItems(cfgs);
    IterCfgsNewlines(Join(RenderCfgs(cfgs), "\n"));
  }

  // ---- environment ----

  /** Keys `env_cfgs` never passes on. */
  predicate Skipped(key: string) {
    key == "debug_assertions" || key == "panic"
  }

  /** The variable name for a cfg key. */
  function EnvKey(key: string): (r: string)
    ensures |r| == |ENV_PREFIX| + |key|
    ensures r[..|ENV_PREFIX|] == ENV_PREFIX
    ensures forall k :: 0 <= k < |key| ==> r[|ENV_PREFIX| + k] == AsciiUpper(key[k])
  {
    ENV_PREFIX + ToAsciiUpper(key)
  }

  /** No variable name holds a lower-case ASCII letter. */
  lemma EnvKeyIsUpper(key: string)
    ensures forall k :: 0 <= k < |EnvKey(key)| ==> !('a' <= EnvKey(key)[k] <= 'z')
  {
    var r := EnvKey(key);
    forall k | 0 <= k < |r| ensures !('a' <= r[k] <= 'z') {
      if k < |ENV_PREFIX| {
        assert r[k] == ENV_PREFIX[k];
      } else {
        assert r[k] == AsciiUpper(key[k - |ENV_PREFIX|]);
      }
    }
  }

  /** `Cfg::write_env_key`: appends the variable name to `out`. */
  method WriteEnvKey(out: string, key: string) returns (r: string)
    ensures r == out + EnvKey(key)
  {
    r := out + ENV_PREFIX;
    ghost var head := r;
    var i := 0;
    while i < |key|
      invariant 0 <= i <= |key|
      invariant r == head + ToAsciiUpper(key[..i])
    {
      UpperStep(head, key, i);
      r := r + [AsciiUpper(key[i])];
      i := i + 1;
    }
    UpperDone(out, key);
  }

  lemma UpperStep(head: string, key: string, i: nat)
    requires i < |key|
    ensures head + ToAsciiUpper(key[..i]) + [AsciiUpper(key[i])] == head + ToAsciiUpper(key[..i + 1])
  {
    assert key[..i + 1] == key[..i] + [key[i]];
    ToAsciiUpperSnoc(key[..i], key[i]);
  }

  lemma UpperDone(out: string, key: string)
    ensures out + ENV_PREFIX + ToAsciiUpper(key[..|key|]) == out + EnvKey(key)
  {
    assert key[..|key|] == key;
  }

  /** A run of cfgs that all have key `key` and carry a value. */
  predicate ValuedRun(cs: seq<Option<Cfg>>, key: string) {
    forall k :: 0 <= k < |cs| ==> cs[k].Some? && cs[k].value.key == key && cs[k].value.value.Some?
  }

  /** The values of a run, in order. */
  function RunValues(cs: seq<Option<Cfg>>): (r: seq<string>)
    requires forall k :: 0 <= k < |cs| ==> cs[k].Some? && cs[k].value.value.Some?
    ensures |r| == |cs|
    ensures forall k :: 0 <= k < |cs| ==> r[k] == cs[k].value.value.value
  {
    if cs == [] then [] else [cs[0].value.value.value] + RunValues(cs[1..])
  }

  lemma RunValuesCons(ls: seq<Option<Cfg>>, j: nat, e: nat, key: string)
    requires j < e <= |ls| && ValuedRun(ls[j..e], key)
    ensures ValuedRun(ls[j + 1..e], key)
    ensures RunValues(ls[j..e]) == [ls[j].value.value.value] + RunValues(ls[j + 1..e])
  {
    assert ls[j..e][0] == ls[j];
    assert ls[j..e][1..] == ls[j + 1..e];
  }

  /** The lookahead from index `j`: the values of the following cfgs with
      the same key, each appended to `acc` after a `,`. Returns where the
      run ends, the joined value, and whether it panicked: on a malformed
      line (the `peek`) or on a same-key cfg without a value (the second
      `unwrap`). */
  function Gather(ls: seq<Option<Cfg>>, j: nat, key: string, acc: string): (r: (nat, string, bool))
    requires j <= |ls|
    ensures j <= r.0 <= |ls|
    ensures ValuedRun(ls[j..r.0], key)
    ensures r.2 <==> r.0 < |ls| && (ls[r.0].None? || (ls[r.0].value.key == key && ls[r.0].value.value.None?))
    ensures !r.2 && r.0 < |ls| ==> ls[r.0].value.key != key
    ensures !r.2 ==> r.1 == Join([acc] + RunValues(ls[j..r.0]), ",")
    decreases |ls| - j
  {
    if j == |ls| then (j, acc, false)
    else if ls[j].None? then (j, acc, true)
    else if ls[j].value.key != key then (j, acc, false)
    else if ls[j].value.value.None? then (j, acc, true)
    else
      var v := ls[j].value.value.value;
      var g := Gather(ls, j + 1, key, acc + "," + v);
      GatherStep(ls, j, g.0, key, acc);
      g
  }

  lemma GatherStep(ls: seq<Option<Cfg>>, j: nat, e: nat, key: string, acc: string)
    requires j < |ls| && ls[j].Some? && ls[j].value.key == key && ls[j].value.value.Some?
    requires j < e <= |ls| && ValuedRun(ls[j + 1..e], key)
    ensures ValuedRun(ls[j..e], key)
    ensures Join([acc + "," + ls[j].value.value.value] + RunValues(ls[j + 1..e]), ",")
         == Join([acc] + RunValues(ls[j..e]), ",")
  {
    var v := ls[j].value.value.value;
    assert ls[j..e] == [ls[j]] + ls[j + 1..e];
    RunValuesCons(ls, j, e, key);
    assert [acc] + RunValues(ls[j..e]) == [acc, v] + RunValues(ls[j + 1..e]);
    JoinConsCons(acc, v, RunValues(ls[j + 1..e]), ",");
  }

  /** What `env_cfgs` does from line `i` on: the (name, value) pairs handed
      to the callback, and whether it panicked after them. */
  function EnvFrom(ls: seq<Option<Cfg>>, i: nat): (r: (seq<(string, string)>, bool))
    requires i <= |ls|
    decreases |ls| - i
  {
    if i == |ls| then ([], false)
    else if ls[i].None? then ([], true)
    else
      var c := ls[i].value;
      if Skipped(c.key) then EnvFrom(ls, i + 1)
      else if c.value.None? then
        var rest := EnvFrom(ls, i + 1);
        ([(EnvKey(c.key), "")] + rest.0, rest.1)
      else
        var g := Gather(ls, i + 1, c.key, c.value.value);
        if g.2 then ([], true)
        else
          var rest := EnvFrom(ls, g.0);
          ([(EnvKey(c.key), g.1)] + rest.0, rest.1)
  }

  /** `RustcTargetCfg::env_cfgs`, with the callback's calls collected in
      order. */
  method EnvCfgs(ls: seq<Option<Cfg>>) returns (calls: seq<(string, string)>, panicked: bool)
    ensures calls == EnvFrom(ls, 0).0 && panicked == EnvFrom(ls, 0).1
  {
    calls := [];
    panicked := false;
    var i := 0;
    while i < |ls|
      invariant 0 <= i <= |ls|
      invariant EnvFrom(ls, 0).0 == calls + EnvFrom(ls, i).0
      invariant EnvFrom(ls, 0).1 == EnvFrom(ls, i).1
      decreases |ls| - i
    {
      var call, next, failed := EnvStep(ls, i);
      if failed {
        panicked := true;
        assert calls + [] == calls;
        return;
      }
      assert calls + (call + EnvFrom(ls, next).0) == calls + call + EnvFrom(ls, next).0;
      calls := calls + call;
      i := next;
    }
  }

  /** One turn of the `env_cfgs` loop from line `i`: the call it makes (none
      for a skipped key), where the next turn starts, or a panic. */
  method EnvStep(ls: seq<Option<Cfg>>, i: nat) returns (call: seq<(string, string)>, next: nat, panicked: bool)
    requires i < |ls|
    ensures panicked ==> EnvFrom(ls, i).0 == [] && EnvFrom(ls, i).1
    ensures !panicked ==> i < next <= |ls| && |call| <= 1
    ensures !panicked ==> EnvFrom(ls, i).0 == call + EnvFrom(ls, next).0
    ensures !panicked ==> EnvFrom(ls, i).1 == EnvFrom(ls, next).1
  {
    if ls[i].None? {
      return [], i, true;
    }
    var cfg := ls[i].value;
    next, panicked := i + 1, false;
    if Skipped(cfg.key) {
      return [], next, false;
    }
    var envKey := WriteEnvKey("", cfg.key);
    assert envKey == EnvKey(cfg.key);
    var envValue := "";
    if cfg.value.Some? {
      next, envValue, panicked := Lookahead(ls, next, cfg.key, cfg.value.value);
      if panicked {
        return [], next, true;
      }
    }
    call := [(envKey, envValue)];
  }

  /** The `while let Some(cfg_n) = cfgs.peek()` loop of `env_cfgs`. */
  method Lookahead(ls: seq<Option<Cfg>>, i: nat, key: string, value: string)
    returns (j: nat, joined: string, panicked: bool)
    requires i <= |ls|
    ensures (j, joined, panicked) == Gather(ls, i, key, value)
  {
    j, joined := i, value;
    while j < |ls|
      invariant i <= j <= |ls|
      invariant Gather(ls, j, key, joined) == Gather(ls, i, key, value)
      decreases |ls| - j
    {
      if ls[j].None? {
        return j, joined, true;
      }
      var next := ls[j].value;
      if next.key != key {
        return j, joined, false;
      }
      if next.value.None? {
        return j, joined, true;
      }
      joined := joined + "," + next.value.value;
      j := j + 1;
    }
    panicked := false;
  }

  /** Every name passed on comes from a cfg of the output whose key is not
      one of the skipped ones. */
  lemma {:induction false} EnvFromKeys(ls: seq<Option<Cfg>>, i: nat)
    requires i <= |ls|
    ensures forall call :: call in EnvFrom(ls, i).0 ==>
      exists c :: Some(c) in ls[i..] && !Skipped(c.key) && call.0 == EnvKey(c.key)
    decreases |ls| - i
  {
    if i < |ls| && ls[i].Some? {
      var c := ls[i].value;
      assert Some(c) in ls[i..];
      var next := i + 1;
      if !Skipped(c.key) && c.value.Some? {
        next := Gather(ls, i + 1, c.key, c.value.value).0;
      }
      EnvFromKeys(ls, next);
      assert forall x :: x in ls[next..] ==> x in ls[i..];
    }
  }

  /** At most one call per line. */
  lemma {:induction false} EnvFromLength(ls: seq<Option<Cfg>>, i: nat)
    requires i <= |ls|
    ensures |EnvFrom(ls, i).0| <= |ls| - i
    decreases |ls| - i
  {
    if i < |ls| && ls[i].Some? {
      var c := ls[i].value;
      if Skipped(c.key) || c.value.None? {
        EnvFromLength(ls, i + 1);
      } else {
        var g := Gather(ls, i + 1, c.key, c.value.value);
        if !g.2 {
          EnvFromLength(ls, g.0);
        }
      }
    }
  }

  /** With every line well formed and every cfg carrying a value, nothing
      panics. */
  lemma {:induction false} EnvFromNoPanic(ls: seq<Option<Cfg>>, i: nat)
    requires i <= |ls|
    requires forall j :: i <= j < |ls| ==> ls[j].Some? && ls[j].value.value.Some?
    ensures !EnvFrom(ls, i).1
    decreases |ls| - i
  {
    if i < |ls| {
      var c := ls[i].value;
      if Skipped(c.key) {
        EnvFromNoPanic(ls, i + 1);
      } else {
        GatherNoPanic(ls, i + 1, c.key, c.value.value);
        EnvFromNoPanic(ls, Gather(ls, i + 1, c.key, c.value.value).0);
      }
    }
  }

  lemma {:induction false} GatherNoPanic(ls: seq<Option<Cfg>>, j: nat, key: string, acc: string)
    requires j <= |ls|
    requires forall k :: j <= k < |ls| ==> ls[k].Some? && ls[k].value.value.Some?
    ensures !Gather(ls, j, key, acc).2
    decreases |ls| - j
  {
    if j < |ls| && ls[j].value.key == key {
      GatherNoPanic(ls, j + 1, key, acc + "," + ls[j].value.value.value);
    }
  }

  /** A run of valued cfgs with one key, ended by another key or by the end
      of the output, becomes a single call whose value is the run's values
      joined by `,` (the unit test's `target_feature` and
      `target_has_atomic`). */
  lemma EnvFromJoinsSameKey(ls: seq<Option<Cfg>>, i: nat, n: nat, key: string)
    requires 1 <= n && i + n <= |ls|
    requires ValuedRun(ls[i..i + n], key) && !Skipped(key)
    requires i + n == |ls| || (ls[i + n].Some? && ls[i + n].value.key != key)
    ensures EnvFrom(ls, i).0 == [(EnvKey(key), Join(RunValues(ls[i..i + n]), ","))] + EnvFrom(ls, i + n).0
    ensures EnvFrom(ls, i).1 == EnvFrom(ls, i + n).1
  {
    RunValuesCons(ls, i, i + n, key);
    var v := ls[i].value.value.value;
    GatherEnd(ls, i + 1, i + n, key, v);
    assert [v] + RunValues(ls[i + 1..i + n]) == RunValues(ls[i..i + n]);
  }

  /** A same-key cfg without a value after a valued run is the `unwrap`
      panic: no call is made for the run. */
  lemma EnvFromPanicsOnValuelessSameKey(ls: seq<Option<Cfg>>, i: nat, n: nat, key: string)
    requires 1 <= n && i + n < |ls|
    requires ValuedRun(ls[i..i + n], key) && !Skipped(key)
    requires ls[i + n].Some? && ls[i + n].value.key == key && ls[i + n].value.value.None?
    ensures EnvFrom(ls, i) == ([], true)
  {
    RunValuesCons(ls, i, i + n, key);
    GatherEnd(ls, i + 1, i + n, key, ls[i].value.value.value);
  }

  /** The lookahead runs to the end of a valued run and stops there. */
  lemma {:induction false} GatherEnd(ls: seq<Option<Cfg>>, j: nat, e: nat, key: string, acc: string)
    requires j <= e <= |ls| && ValuedRun(ls[j..e], key)
    requires e == |ls| || ls[e].None? || ls[e].value.key != key || ls[e].value.value.None?
    ensures Gather(ls, j, key, acc).0 == e
    decreases e - j
  {
    if j < e {
      RunValuesCons(ls, j, e, key);
      GatherEnd(ls, j + 1, e, key, acc + "," + ls[j].value.value.value);
    }
  }

  /** A cfg without a value, not skipped, becomes a call with the empty
      value (the unit test's `unix`). */
  lemma EnvFromValueless(ls: seq<Option<Cfg>>, i: nat)
    requires i < |ls| && ls[i].Some? && ls[i].value.value.None? && !Skipped(ls[i].value.key)
    ensures EnvFrom(ls, i).0 == [(EnvKey(ls[i].value.key), "")] + EnvFrom(ls, i + 1).0
    ensures EnvFrom(ls, i).1 == EnvFrom(ls, i + 1).1
  {
  }

  /** A `debug_assertions` or `panic` cfg is passed over, even with a
      value. */
  lemma EnvFromSkipsKeys(ls: seq<Option<Cfg>>, i: nat)
    requires i < |ls| && ls[i].Some? && Skipped(ls[i].value.key)
    ensures EnvFrom(ls, i) == EnvFrom(ls, i + 1)
  {
  }
}
