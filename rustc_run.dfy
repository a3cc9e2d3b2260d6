/**
 * The string-building parts of crates/nargo-rustc/src/run.rs: the crate
 * name, the order of the two build steps, the `--cfg feature="…"`
 * arguments, the `CARGO_FEATURE_*` variable names, the path-remap argument,
 * and the shell-like rendering of a command (`to_string_debug`).
 *
 * Spawning processes and setting up their environment are not part of this
 * model; a command is its environment, program and argument list.
 */
module RustcRun {
  import opened Wrappers
  import opened Text

  // ---- crate name and build steps ----

  /** `target_name.replace('-', "_")` */
  function CrateName(targetName: string): (r: string)
    ensures |r| == |targetName| && '-' !in r
    ensures forall i :: 0 <= i < |r| ==> r[i] == (if targetName[i] == '-' then '_' else targetName[i])
  {
    ReplaceChar(targetName, '-', '_')
  }

  datatype Step = Rustc | BuildScript

  predicate IsCustomBuild(kind: string) {
    kind == "custom-build"
  }

  /** `BuildContext::run`: rustc first; the build script after it, and
      only for a `custom-build` target. */
  function RunSteps(kind: string): (r: seq<Step>)
    ensures |r| >= 1 && r[0] == Rustc
    ensures BuildScript in r <==> IsCustomBuild(kind)
    ensures IsCustomBuild(kind) ==> r == [Rustc, BuildScript]
  {
    if IsCustomBuild(kind) then [Rustc, BuildScript] else [Rustc]
  }

  // ---- features ----

  /** How often `c` occurs in `s`. */
  function Count(s: string, c: char): nat {
    if s == [] then 0 else (if s[0] == c then 1 else 0) + Count(s[1..], c)
  }

  lemma {:induction false} CountAppend(a: string, b: string, c: char)
    ensures Count(a + b, c) == Count(a, c) + Count(b, c)
    decreases |a|
  {
    if a == [] {
      assert a + b == b;
    } else {
      CountAppend(a[1..], b, c);
      assert (a + b)[1..] == a[1..] + b;
    }
  }

  lemma {:induction false} CountAbsent(s: string, c: char)
    requires c !in s
    ensures Count(s, c) == 0
    decreases |s|
  {
    if s != [] {
      CountAbsent(s[1..], c);
    }
  }

  /** `features.split(',')` yields one piece more than there are commas, so
      an empty feature list still yields one (empty) feature. */
  lemma {:induction false} SplitCount(s: string, c: char)
    ensures |Split(s, c)| == Count(s, c) + 1
    decreases |s|
  {
    match SplitOnce(s, c) {
      case None =>
        CountAbsent(s, c);
      case Some((a, b)) =>
        SplitCount(b, c);
        CountAppend(a + [c], b, c);
        CountAppend(a, [c], c);
        CountAbsent(a, c);
    }
  }

  /** The `--cfg` value for one feature. */
  function FeatureCfg(feature: string): string {
    "feature=\"" + feature + "\""
  }

  /** `--cfg` and `feature="<f>"` for every feature of `parts`, in order. */
  function CfgArgs(parts: seq<string>): (r: seq<string>)
    ensures |r| == 2 * |parts|
    ensures forall k :: 0 <= k < |parts| ==> r[2 * k] == "--cfg" && r[2 * k + 1] == FeatureCfg(parts[k])
  {
    if parts == [] then []
    else
      var init := CfgArgs(parts[..|parts| - 1]);
      assert forall k :: 0 <= k < |parts| - 1 ==> parts[..|parts| - 1][k] == parts[k];
      init + ["--cfg", FeatureCfg(parts[|parts| - 1])]
  }

  /** The `for feature in self.features.split(',')` loop of `run_rustc`:
      two arguments for every piece of the feature list, in order. */
  method FeatureCfgArgs(features: string) returns (args: seq<string>)
    ensures args == CfgArgs(Split(features, ','))
    ensures |args| == 2 * (Count(features, ',') + 1)
  {
    SplitCount(features, ',');
    var parts := Split(features, ',');
    args := [];
    var i := 0;
    while i < |parts|
      invariant 0 <= i <= |parts|
      invariant args == CfgArgs(parts[..i])
    {
      assert parts[..i + 1][..i] == parts[..i];
      args := args + ["--cfg", FeatureCfg(parts[i])];
      i := i + 1;
    }
    assert parts[..i] == parts;
  }

  const FEATURE_PREFIX: string := "CARGO_FEATURE_"

  /** One character of a feature variable name: upper-cased, `-` as `_`. */
  function FeatureKeyChar(c: char): (r: char)
    ensures r != '-' && !('a' <= r <= 'z')
    ensures c == '-' ==> r == '_'
    ensures c != '-' ==> r == AsciiUpper(c)
  {
    var u := AsciiUpper(c);
    if u == '-' then '_' else u
  }

  /** The variable name announcing one feature to the build script. */
  function FeatureKey(feature: string): (r: string)
    ensures |r| == |FEATURE_PREFIX| + |feature|
    ensures r[..|FEATURE_PREFIX|] == FEATURE_PREFIX
    ensures forall i :: 0 <= i < |feature| ==> r[|FEATURE_PREFIX| + i] == FeatureKeyChar(feature[i])
  {
    FEATURE_PREFIX + FeatureKeyChars(feature)
  }

  function FeatureKeyChars(s: string): (r: string)
    ensures |r| == |s|
    ensures forall i :: 0 <= i < |s| ==> r[i] == FeatureKeyChar(s[i])
  {
    if s == [] then [] else [FeatureKeyChar(s[0])] + FeatureKeyChars(s[1..])
  }

  /** No feature variable name holds a `-` or a lower-case ASCII letter. */
  lemma FeatureKeyIsEnvName(feature: string)
    ensures '-' !in FeatureKey(feature)
    ensures forall i :: 0 <= i < |FeatureKey(feature)| ==> !('a' <= FeatureKey(feature)[i] <= 'z')
  {
    var r := FeatureKey(feature);
    forall i | 0 <= i < |r| ensures r[i] != '-' && !('a' <= r[i] <= 'z') {
      if i < |FEATURE_PREFIX| {
        assert r[i] == FEATURE_PREFIX[i];
      } else {
        assert r[i] == FeatureKeyChar(feature[i - |FEATURE_PREFIX|]);
      }
    }
  }

  /** Filling the reused `feature_key` buffer for one feature, character
      by character. */
  method WriteFeatureKey(feature: string) returns (key: string)
    ensures key == FeatureKey(feature)
  {
    key := FEATURE_PREFIX;
    var j := 0;
    while j < |feature|
      invariant 0 <= j <= |feature|
      invariant key == FEATURE_PREFIX + FeatureKeyChars(feature[..j])
    {
      FeatureKeyStep(feature, j);
      var c := AsciiUpper(feature[j]);
      c := if c == '-' then '_' else c;
      key := key + [c];
      j := j + 1;
    }
    assert feature[..j] == feature;
  }

  lemma FeatureKeyStep(feature: string, j: nat)
    requires j < |feature|
    ensures FEATURE_PREFIX + FeatureKeyChars(feature[..j + 1])
         == FEATURE_PREFIX + FeatureKeyChars(feature[..j]) + [FeatureKeyChar(feature[j])]
  {
    var l := FeatureKeyChars(feature[..j + 1]);
    var r := FeatureKeyChars(feature[..j]) + [FeatureKeyChar(feature[j])];
    forall i | 0 <= i < |l| ensures l[i] == r[i] {
      assert feature[..j + 1][i] == feature[i];
    }
    assert l == r;
  }

  /** One `CARGO_FEATURE_<NAME>=1` variable for every feature of `parts`,
      in order. */
  function FeatureEnvList(parts: seq<string>): (r: seq<(string, string)>)
    ensures |r| == |parts|
    ensures forall k :: 0 <= k < |parts| ==> r[k] == (FeatureKey(parts[k]), "1")
  {
    if parts == [] then []
    else
      var init := FeatureEnvList(parts[..|parts| - 1]);
      assert forall k :: 0 <= k < |parts| - 1 ==> parts[..|parts| - 1][k] == parts[k];
      init + [(FeatureKey(parts[|parts| - 1]), "1")]
  }

  /** The `CARGO_FEATURE_` loop of `run_build_script`: one variable for
      every piece of the feature list, in order. */
  method FeatureEnvs(features: string) returns (envs: seq<(string, string)>)
    ensures envs == FeatureEnvList(Split(features, ','))
  {
    var parts := Split(features, ',');
    envs := [];
    var i := 0;
    while i < |parts|
      invariant 0 <= i <= |parts|
      invariant envs == FeatureEnvList(parts[..i])
    {
      assert parts[..i + 1][..i] == parts[..i];
      var key := WriteFeatureKey(parts[i]);
      envs := envs + [(key, "1")];
      i := i + 1;
    }
    assert parts[..i] == parts;
  }

  // ---- remap ----

  /** `Path::join`: an absolute path replaces the base; otherwise it is
      appended after a separator. */
  function PathJoin(base: string, p: string): (r: string)
    ensures StartsWith(p, "/") ==> r == p
    ensures !StartsWith(p, "/") && !EndsWith(base, "/") ==> r == base + "/" + p
    ensures !StartsWith(p, "/") && EndsWith(base, "/") ==> r == base + p
  {
    if StartsWith(p, "/") then p
    else if EndsWith(base, "/") then base + p
    else base + "/" + p
  }

  /** The `--remap-path-prefix` value: the source directory mapped to
      `/build/<pkg_name>-<version>`. */
  function Remap(src: string, pkgName: string, version: string): (r: string)
    ensures !StartsWith(pkgName, "/") ==> r == src + "=" + "/build/" + pkgName + "-" + version
  {
    RemapName(pkgName, version);
    src + "=" + PathJoin("/build", pkgName + "-" + version)
  }

  lemma RemapName(pkgName: string, version: string)
    ensures !StartsWith(pkgName, "/") ==> !StartsWith(pkgName + "-" + version, "/")
    ensures !EndsWith("/build", "/")
    ensures "/build" + "/" + (pkgName + "-" + version) == "/build/" + pkgName + "-" + version
  {
    var name := pkgName + "-" + version;
    if pkgName == [] {
      assert name[0] == '-';
    } else {
      assert name[0] == pkgName[0];
    }
    assert "/build"[5] == 'd';
  }

  // ---- to_string_debug ----

  /** `arg.starts_with('-')` */
  predicate IsOpt(arg: string) {
    arg != [] && arg[0] == '-'
  }

  /** How `to_string_debug` lays out the arguments: an option followed by a
      non-option shares its line with it; anything else has a line of its
      own. */
  function ArgLines(args: seq<string>): (r: seq<seq<string>>)
    ensures |r| <= |args|
    ensures forall k :: 0 <= k < |r| ==> 1 <= |r[k]| <= 2
    ensures forall k :: 0 <= k < |r| && |r[k]| == 2 ==> IsOpt(r[k][0]) && !IsOpt(r[k][1])
    decreases |args|
  {
    if args == [] then []
    else if IsOpt(args[0]) && |args| >= 2 && !IsOpt(args[1]) then [args[..2]] + ArgLines(args[2..])
    else [args[..1]] + ArgLines(args[1..])
  }

  function Flatten(lines: seq<seq<string>>): seq<string> {
    if lines == [] then [] else lines[0] + Flatten(lines[1..])
  }

  /** The layout neither drops nor reorders an argument. */
  lemma {:induction false} ArgLinesFlatten(args: seq<string>)
    ensures Flatten(ArgLines(args)) == args
    decreases |args|
  {
    if args != [] {
      if IsOpt(args[0]) && |args| >= 2 && !IsOpt(args[1]) {
        ArgLinesFlatten(args[2..]);
        assert args == args[..2] + args[2..];
      } else {
        ArgLinesFlatten(args[1..]);
        assert args == args[..1] + args[1..];
      }
    }
  }

  /** An option immediately followed by a non-option never ends up alone
      on its line. */
  lemma {:induction false} ArgLinesPairsOptions(args: seq<string>)
    ensures forall k :: 0 <= k < |ArgLines(args)| && |ArgLines(args)[k]| == 1 && IsOpt(ArgLines(args)[k][0]) ==>
      k == |ArgLines(args)| - 1 || IsOpt(ArgLines(args)[k + 1][0])
    decreases |args|
  {
    if args != [] {
      var r := ArgLines(args);
      if IsOpt(args[0]) && |args| >= 2 && !IsOpt(args[1]) {
        ArgLinesPairsOptions(args[2..]);
        assert forall k :: 1 <= k < |r| ==> r[k] == ArgLines(args[2..])[k - 1];
      } else {
        ArgLinesPairsOptions(args[1..]);
        var rest := ArgLines(args[1..]);
        assert forall k :: 1 <= k < |r| ==> r[k] == rest[k - 1];
        if |args| >= 2 {
          assert rest != [] && rest[0][0] == args[1] by {
            assert args[1..] != [];
          }
        }
      }
    }
  }

  const LINE_CONT: string := " \\\n"

  /** The env lines: `key=val \` for each variable with a value. */
  function EnvText(envs: seq<(string, Option<string>)>): string {
    if envs == [] then ""
    else
      var rest := EnvText(envs[1..]);
      match envs[0].1
      case None => rest
      case Some(v) => envs[0].0 + "=" + v + LINE_CONT + rest
  }

  /** One argument line, without its ending. */
  function LineText(line: seq<string>): string {
    if |line| == 2 then "  " + line[0] + " " + line[1]
    else if |line| == 1 then "  " + line[0]
    else ""
  }

  /** The argument lines: every one but the last ends in ` \`, the last in
      a newline. */
  function ArgsText(lines: seq<seq<string>>): string {
    if lines == [] then ""
    else if |lines| == 1 then LineText(lines[0]) + "\n"
    else LineText(lines[0]) + LINE_CONT + ArgsText(lines[1..])
  }

  /** What `to_string_debug` renders. */
  function DebugText(envs: seq<(string, Option<string>)>, program: string, args: seq<string>): string {
    EnvText(envs) + program + LINE_CONT + ArgsText(ArgLines(args))
  }

  /** Variables without a value leave no line. */
  lemma {:induction false} EnvTextSkipsUnset(envs: seq<(string, Option<string>)>, key: string)
    ensures EnvText([(key, None)] + envs) == EnvText(envs)
  {
    assert ([(key, None)] + envs)[1..] == envs;
  }

  /** The env part of `to_string_debug`. */
  method WriteEnvs(envs: seq<(string, Option<string>)>) returns (out: string)
    ensures out == EnvText(envs)
  {
    out := "";
    var i := 0;
    while i < |envs|
      invariant 0 <= i <= |envs|
      invariant out + EnvText(envs[i..]) == EnvText(envs)
    {
      assert envs[i..][1..] == envs[i + 1..];
      match envs[i].1 {
        case None =>
        case Some(v) =>
          out := out + envs[i].0 + "=" + v + LINE_CONT;
      }
      i := i + 1;
    }
    assert envs[i..] == [];
  }

  /** One turn of the `while let Some(arg) = args.next()` loop of
      `to_string_debug`: takes the next argument, and the one after it too
      when the first is an option and the peeked one is not. */
  method NextLine(args: seq<string>, j: nat) returns (line: seq<string>, next: nat)
    requires j < |args|
    ensures j < next <= |args| && line == args[j..next]
    ensures ArgLines(args[j..]) == [line] + ArgLines(args[next..])
  {
    ArgLinesStep(args, j);
    var arg := args[j];
    line := [arg];
    next := j + 1;
    if IsOpt(arg) {
      var nextIsOpt := if next < |args| then IsOpt(args[next]) else true;
      if !nextIsOpt {
        line := line + [args[next]];
        next := next + 1;
      }
    }
  }

  /** The argument part of `to_string_debug`: each line ends in ` \` while
      another argument is left to peek at, and in a newline after the
      last. */
  method WriteArgs(args: seq<string>) returns (out: string)
    ensures out == ArgsText(ArgLines(args))
  {
    out := "";
    var j := 0;
    while j < |args|
      invariant 0 <= j <= |args|
      invariant out + ArgsText(ArgLines(args[j..])) == ArgsText(ArgLines(args))
      decreases |args| - j
    {
      var line, next := NextLine(args, j);
      ghost var rest := ArgLines(args[next..]);
      ArgsTextStep(out, line, rest, ArgsText(ArgLines(args)));
      if next < |args| {
        assert rest != [] by {
          assert args[next..] != [];
        }
        out := out + LineText(line) + LINE_CONT;
      } else {
        assert args[next..] == [];
        out := out + LineText(line) + "\n";
      }
      j := next;
    }
    assert args[j..] == [];
  }

  /** `CommandExt::to_string_debug`, with the command given as its
      environment, program and arguments. */
  method ToStringDebug(envs: seq<(string, Option<string>)>, program: string, args: seq<string>)
    returns (out: string)
    ensures out == DebugText(envs, program, args)
  {
    var envText := WriteEnvs(envs);
    var argsText := WriteArgs(args);
    out := envText + program + LINE_CONT + argsText;
  }

  lemma ArgsTextStep(out: string, line: seq<string>, rest: seq<seq<string>>, total: string)
    requires out + ArgsText([line] + rest) == total
    ensures rest == [] ==> out + LineText(line) + "\n" == total
    ensures rest != [] ==> out + LineText(line) + LINE_CONT + ArgsText(rest) == total
  {
    assert ([line] + rest)[1..] == rest;
  }

  /** One step of the layout, from position `i`. */
  lemma ArgLinesStep(args: seq<string>, i: nat)
    requires i < |args|
    ensures IsOpt(args[i]) && i + 1 < |args| && !IsOpt(args[i + 1]) ==>
      ArgLines(args[i..]) == [args[i..i + 2]] + ArgLines(args[i + 2..])
    ensures !(IsOpt(args[i]) && i + 1 < |args| && !IsOpt(args[i + 1])) ==>
      ArgLines(args[i..]) == [args[i..i + 1]] + ArgLines(args[i + 1..])
  {
    if IsOpt(args[i]) && i + 1 < |args| && !IsOpt(args[i + 1]) {
      assert args[i..][2..] == args[i + 2..];
      assert args[i..][..2] == args[i..i + 2];
    } else {
      assert args[i..][1..] == args[i + 1..];
      assert args[i..][..1] == args[i..i + 1];
    }
  }
}
