# nargo core, modelled in Dafny

nargo turns the JSON output of `cargo metadata` into compact, deterministic
build metadata for Nix, and drives `rustc` and build scripts for each crate.
This project models the deterministic string and collection logic at its core:

- `Clean` (`clean.dfy`): the in-place clean pass over the parsed metadata. Package ids
  are shortened. The crates.io source is renamed. Packages outside the
  workspace lose their dev-dependencies and their test, bench and example
  targets. Dependency and target paths become relative. Dependencies,
  targets and workspace-member lists are sorted. `Metadata` is a class whose
  fields the pass reassigns. Manifests, dependencies, targets and resolve
  nodes are values.
- `Nargo` (`nargo.dfy`): nargo-core's own converter from cargo package ids to `PkgId`,
  and its derived order. A lemma proves it agrees with the clean pass on
  every input.
- `Input` (`input.dfy`): the records the metadata is decoded into, and the `DepKind`
  decoder.
- `Semver` (`semver.dfy`): the small `<major>.<minor>.<patch>[-<pre>][+<build>]`
  splitter and validator.
- `TargetCfg` (`target_cfg.dfy`): reads `rustc --print cfg` output and builds the
  `CARGO_CFG_*` environment a build script gets.
- `Shell` (`shell.dfy`): POSIX shell escaping. It is proved against a reader for the
  shell word syntax it produces.
- `RustcRun` (`rustc_run.dfy`): the pure string building of the rustc driver. This
  covers the crate name, the order of the build steps, the
  `--cfg feature="…"` arguments, the `CARGO_FEATURE_*` names, the remap
  argument, and the layout of `to_string_debug`.
- `Errors` (`error.dfy`): nargo-core's string error and its `context` / `with_context`
  chaining.
- `Logger` (`logger.dfy`): log levels and their names, the level gate, and the line
  buffer that is written to standard error at 4096 bytes. `Logger` is a
  class with the level, the buffer and standard error as fields.
- Helper modules:
  - `Wrappers`: Option and Result.
  - `Text`: the Rust `str` operations the sources use.
  - `Ordering`: Rust's `Ord` as a comparison function, the lexicographic
    order, and an insertion sort standing for `sort_unstable_by`.

A Rust `.unwrap()`, `.expect()` or `panic!` is modelled as an `Err` result,
or as a `panicked` flag where the source has already done some work by then.

## Model

| member | source | states |
|---|---|---|
| Nargo.TryFromCargoPkgIdInner | crates/nargo-core/src/nargo/mod.rs:23-45 | A `path+file://` id converts iff the rest starts with the workspace root. The result is what follows the root, stripped of its longest run of leading `#`/`/`. A crates.io id loses exactly the registry prefix. Any other id is kept whole. |
| Nargo.TryFromCargoPkgId | crates/nargo-core/src/nargo/mod.rs:14-21 | Succeeds iff the inner conversion yields a value, and returns that value. Otherwise it fails with the id as the message. |
| Nargo.CmpPkgIdTotalOrder | crates/nargo-core/src/nargo/mod.rs:9-11 | The derived order on `PkgId` is a valid total order. Two ids compare Equal exactly when they are the same id. |
| Nargo.PathIdUnderRoot | crates/nargo-core/src/nargo/mod.rs:31-34 | For any root and any tail, `path+file://` + root + tail converts to the tail with its leading separators trimmed. |
| Nargo.PathIdBelowRoot | crates/nargo-core/src/nargo/mod.rs:56-58 | The unit test's `<root>/age#0.10.0` case, for any root and any name not starting with a separator: the result is the name. |
| Nargo.PathIdAtRoot | crates/nargo-core/src/nargo/mod.rs:62-64 | The unit test's `<root>#dependencies@0.0.0` case, for any root and name: the result is the name. |
| Nargo.CratesIoId | crates/nargo-core/src/nargo/mod.rs:66-68 | The crates.io id of `aes-gcm@0.10.3` becomes `#aes-gcm@0.10.3`. The `#` is kept. |
| Nargo.GitId | crates/nargo-core/src/nargo/mod.rs:70-72 | Every `git+` id is returned unchanged. |
| Clean.CleanInner | crates/nargo-metadata/src/clean.rs:190-209 | `PkgId::clean_inner`. It is None only for a `path+file://` id outside the workspace source. Such an id is otherwise trimmed of leading `#`/`/`. A crates.io id loses exactly the registry prefix, and any other id is returned unchanged. |
| Clean.CleanInnerAgreesWithNargo | crates/nargo-metadata/src/clean.rs:190-209 | For every id and root, `clean_inner` gives the same result as nargo-core's `try_from_cargo_pkg_id_inner`. |
| Clean.PkgIdCleanMessageAsWrittenLosesId | crates/nargo-metadata/src/clean.rs:186 | The panic message as written is the same for two different ids. |
| Clean.PkgIdCleanMessageNamesId | crates/nargo-metadata/src/clean.rs:186 | The corrected panic message determines the id it reports. |
| Clean.CleanPkgId | crates/nargo-metadata/src/clean.rs:182-188 | `PkgId::clean` fails exactly for a local path id outside the workspace source. Otherwise the new id is `clean_inner`'s value. |
| Clean.CleanSource | crates/nargo-metadata/src/clean.rs:216-221 | `Source::clean` changes a source iff it is the crates.io registry string. It yields `crates.io-index` exactly for that string and for `crates.io-index` itself. |
| Clean.CleanSourceIdempotent | crates/nargo-metadata/src/clean.rs:216-221 | Cleaning a source twice is the same as cleaning it once. |
| Clean.CleanSourceOpt | crates/nargo-metadata/src/clean.rs:43 | An absent source stays absent. A present one is cleaned. |
| Clean.CleanDependency | crates/nargo-metadata/src/clean.rs:95-114 | `ManifestDependency::clean` succeeds iff the path is absent or under the workspace source. On failure it reports name, path, manifest id and workspace source. On success the source is cleaned and the path is made relative with leading `/` trimmed. No other field changes. |
| Clean.CmpDependencyValid | crates/nargo-metadata/src/clean.rs:59-63 | The order by (name, kind, target) is a valid comparison: its flip is antisymmetric and it is transitive. |
| Clean.WithoutDevDependencies | crates/nargo-metadata/src/clean.rs:51-53 | The `retain` keeps every non-dev dependency as often as it occurred, and no dev-dependency. |
| Clean.WithoutDevDependenciesAppend | crates/nargo-metadata/src/clean.rs:51-53 | The `retain` keeps order: what it keeps of two blocks of dependencies is what it keeps of the first, then of the second. |
| Clean.CleanEachDependency | crates/nargo-metadata/src/clean.rs:55-57 | The loop succeeds iff every path is in the workspace. It fails with the error of the first bad dependency. On success each entry is cleaned in place. |
| Clean.CleanDependencies | crates/nargo-metadata/src/clean.rs:49-64 | `clean_dependencies` retains (dropping dev-dependencies outside the workspace), cleans, and sorts. The result is sorted and a permutation of the retained entries, each cleaned. It fails at the first retained dependency outside the workspace. |
| Clean.NonWorkspaceHasNoDevDependencies | crates/nargo-metadata/src/clean.rs:50-53 | After the clean, a package outside the workspace has no dev-dependency. |
| Clean.WorkspaceKeepsAllDependencies | crates/nargo-metadata/src/clean.rs:49-64 | A workspace package keeps every dependency, cleaned. The count is unchanged. |
| Clean.CleanTarget | crates/nargo-metadata/src/clean.rs:121-139 | `ManifestTarget::clean` succeeds iff `src_path` starts with the crate directory. The new path with the directory put back in front is the old path. No other field changes. |
| Clean.CmpTargetValid | crates/nargo-metadata/src/clean.rs:83-87 | The order by (kind list, crate-type list, name) is a valid comparison. |
| Clean.BuildTargetsOnly | crates/nargo-metadata/src/clean.rs:69-73 | The `retain` keeps exactly the targets with a `lib`, `proc-macro` or `custom-build` kind, with their multiplicity. |
| Clean.BuildTargetsOnlyAppend | crates/nargo-metadata/src/clean.rs:69-73 | The `retain` keeps order: what it keeps of two blocks of targets is what it keeps of the first, then of the second. |
| Clean.CleanEachTarget | crates/nargo-metadata/src/clean.rs:75-78 | The loop succeeds iff every target lies under the crate directory. It fails at the first that does not. On success each target is cleaned in place. |
| Clean.CleanTargets | crates/nargo-metadata/src/clean.rs:66-88 | `clean_targets` retains, asks for `manifest_dir` after the retain, cleans, and sorts. The result is sorted and a permutation of the retained targets, each cleaned. |
| Clean.NonWorkspaceKeepsBuildTargetsOnly | crates/nargo-metadata/src/clean.rs:67-73 | After the clean, every target of a package outside the workspace is a library, proc-macro or build script. |
| Clean.CleanedTargetPathsAreRelative | crates/nargo-metadata/src/clean.rs:127-138 | Every cleaned target's path, with the crate directory put back in front, is the path of an input target. |
| Clean.CleanManifest | crates/nargo-metadata/src/clean.rs:40-47 | `Manifest::clean` succeeds iff the manifest is cleanable: the id cleans, every retained dependency path is in the workspace, and every retained target lies under the crate directory. It cleans id and source, then dependencies, then targets. Every other field is unchanged. A bad id gives the id error. |
| Clean.CleanNode | crates/nargo-metadata/src/clean.rs:158-175 | `Node::clean` and `NodeDep::clean` succeed iff the node id and every dependency's package id are cleanable. Only those ids change, and the dependencies keep their number and order. |
| Clean.CleanResolve | crates/nargo-metadata/src/clean.rs:146-151 | `Resolve::clean` cleans every node. It neither adds nor removes nodes, and fails iff some node is not cleanable. |
| Clean.CmpPkgIdValid | crates/nargo-metadata/src/clean.rs:25 | The order used to sort member ids is a valid comparison. |
| Clean.CleanPackages | crates/nargo-metadata/src/clean.rs:18-20 | The package loop succeeds iff every package is cleanable. It cleans every manifest in place and keeps their number. |
| Clean.Metadata.CleanMembers | crates/nargo-metadata/src/clean.rs:22-30 | A member list is cleaned id by id and then sorted. It succeeds iff every id is cleanable, and the result is a sorted permutation of the cleaned ids. |
| Clean.Metadata.Clean | crates/nargo-metadata/src/clean.rs:16-33 | `Metadata::clean` succeeds iff every package is cleanable, every id of both member lists is cleanable, and every resolve node is cleanable. On success it keeps the number of packages and nodes, and both member lists are cleaned and sorted. |
| Clean.Metadata.constructor | crates/nargo-metadata/src/input.rs:10-23 | A metadata record holds the four given fields. |
| Input.DecodeDepKind | crates/nargo-metadata/src/input.rs:153-166 | Decodes null as Normal, `"dev"` as Dev and `"build"` as Build. Any other string is an unknown-variant error listing `dev` and `build`. A decoded kind re-encodes to its input. |
| Input.DecodeEncodeDepKind | crates/nargo-metadata/src/input.rs:158-161 | Every kind's encoding decodes back to it. |
| Input.DecodeRequiredFeatures | crates/nargo-metadata/src/input.rs:94-96 | An absent `required_features` is empty. A present one is kept. |
| Input.CmpDepKindValid | crates/nargo-metadata/src/input.rs:137-141 | Dependency kinds in declaration order form a valid comparison. |
| Input.CmpPlatformValid | crates/nargo-metadata/src/input.rs:146-147 | Optional platforms, None first and then by text, form a valid comparison. |
| Semver.U64FromStr | crates/nargo-rustc/src/semver.rs:124 | `u64::from_str` accepts only an optional `+` followed by at least one digit, with value below 2^64, and yields the value of the digits. Every such string is accepted. |
| Semver.U64FromStrOfNatToString | crates/nargo-rustc/src/semver.rs:124 | Every 64-bit value's decimal form is read back, with or without a leading `+`. The empty string and a lone `+` are rejected. |
| Semver.ParseNumericAsWrittenAcceptsNonNumeric | crates/nargo-rustc/src/semver.rs:120-131 | As written, `parse_numeric` accepts `+1` and `00`. Neither matches the `<numeric>` grammar. |
| Semver.ParseNumeric | crates/nargo-rustc/src/semver.rs:117-132 | Accepts exactly the `<numeric>` strings (`0`, or a non-zero digit then digits) whose value fits in 64 bits, and yields their value. |
| Semver.ParseNumericRefinesAsWritten | crates/nargo-rustc/src/semver.rs:120-131 | Whatever the corrected check accepts, the written one accepts with the same value. |
| Semver.ParseNumericOfNatToString | crates/nargo-rustc/src/semver.rs:117-132 | Every 64-bit value's decimal form parses back to that value. |
| Semver.SplitBuild | crates/nargo-rustc/src/semver.rs:71-74 | Cuts at the last `+` only when the build part would be non-empty. The pieces re-join to the input. |
| Semver.SplitPre | crates/nargo-rustc/src/semver.rs:76-79 | Cuts at the first `-` only when the pre-release would be non-empty. The pieces re-join to the input. |
| Semver.Parse | crates/nargo-rustc/src/semver.rs:56-99 | With the corrected numeric check: on success `original` is the input, the parts re-joined (the tests' `display`) equal the input, the three core parts are numeric, and pre and build are non-empty. An input without `.` fails. |
| Semver.Cut | crates/nargo-rustc/src/semver.rs:56-79 | The cuts at the first `.`, the next `.`, the last `+` and then the first `-` re-join to the input. Pre and build are non-empty when present, and the build holds no `+`. |
| Semver.ParseAsWritten | crates/nargo-rustc/src/semver.rs:56-99 | `Version::parse` with `parse_numeric` as written: on success the parts re-join to the input and each core part passes the written check. |
| Semver.ParseRefinesAsWritten | crates/nargo-rustc/src/semver.rs:85-87 | Whatever the corrected parser accepts, the written one accepts with the same parts. |
| Semver.ParseAsWrittenAcceptsSign | crates/nargo-rustc/src/semver.rs:120-131 | As written, `+` followed by any valid version, such as `+1.2.3`, parses. The corrected parser rejects it. |
| Semver.ParseAsWrittenAcceptsZeros | crates/nargo-rustc/src/semver.rs:120-131 | As written, a version whose major part is two or more zeros, such as `00.1.2`, parses. The corrected parser rejects it. |
| Semver.ParseAsWrittenAcceptsNonNumeric | crates/nargo-rustc/src/semver.rs:120-131 | Both shapes above at once: the written parser accepts them and the corrected one does not. |
| Semver.ParseNeedsTwoDots | crates/nargo-rustc/src/semver.rs:68-69 | A string with fewer than two dots does not parse. |
| Semver.ParseRender | crates/nargo-rustc/src/semver.rs:151-174 | Every well-formed version, rendered, parses back to the same parts. |
| Semver.CutRender | crates/nargo-rustc/src/semver.rs:66-79 | The cuts undo the rendering of parts holding no separator in a place a cut would find it. |
| Semver.FromStr | crates/nargo-rustc/src/semver.rs:51-54 | Succeeds iff `parse` does. The error message names the input. |
| Semver.ParseRejectsEmptyPre | crates/nargo-rustc/src/semver.rs:236 | `a.b.c-` with nothing after the dash is rejected. |
| Semver.ParseRejectsLeadingZero | crates/nargo-rustc/src/semver.rs:241-243 | With the corrected check, a multi-digit major or minor part with a leading zero is rejected. |
| Semver.ParseRejectsLeadingZeroPatch | crates/nargo-rustc/src/semver.rs:244 | With the corrected check, a multi-digit plain patch part with a leading zero is rejected. |
| Semver.AsWrittenRejectsLeadingZeroPart | crates/nargo-rustc/src/semver.rs:124-127 | As written, a part that starts with `0` and does not end with `0` has a non-zero value and is rejected. |
| Semver.ParseAsWrittenRejectsLeadingZero | crates/nargo-rustc/src/semver.rs:241-243 | As written, a major or minor part with a leading zero and a non-zero last digit is rejected (the tests' `07.01.1`, `7.01.1`). |
| Semver.ParseAsWrittenRejectsLeadingZeroPatch | crates/nargo-rustc/src/semver.rs:244 | As written, a plain patch part with a leading zero and a non-zero last digit is rejected (the tests' `7.1.01`). |
| TargetCfg.StripQuotes | crates/nargo-rustc/src/target_cfg.rs:114-116 | Some iff the string has length at least 2 and starts and ends with `"`. Quoting the result gives the string back. |
| TargetCfg.StripQuotesOf | crates/nargo-rustc/src/target_cfg.rs:114-116 | Stripping the quotes of a quoted value gives the value. |
| TargetCfg.ParseLine | crates/nargo-rustc/src/target_cfg.rs:52-63 | A line without `=` is a key without value. A line with `=` panics (None) iff what follows the first `=` is not quoted, and otherwise has a value. A valued line is key + `="` + value + `"`, with the key holding no `=`. |
| TargetCfg.ParseRenderCfg | crates/nargo-rustc/src/target_cfg.rs:47-63 | Reading the line printed for a cfg gives the cfg back. |
| TargetCfg.NonEmptyLines | crates/nargo-rustc/src/target_cfg.rs:47-50 | Only non-empty lines are kept, each non-empty line as often as it occurs. With no empty line, nothing changes. |
| TargetCfg.NonEmptyLinesAppend | crates/nargo-rustc/src/target_cfg.rs:47-50 | The filter keeps order: filtering two blocks of lines is filtering each in turn. |
| TargetCfg.IterCfgs | crates/nargo-rustc/src/target_cfg.rs:46-65 | One item per non-empty line of the output, in order, each the parse of its line. |
| TargetCfg.IterCfgsLine | crates/nargo-rustc/src/target_cfg.rs:47-50 | A single line yields nothing when empty and its parse otherwise. |
| TargetCfg.IterCfgsAppend | crates/nargo-rustc/src/target_cfg.rs:46-65 | The items of two blocks joined by a newline are the items of the first block, then of the second. |
| TargetCfg.IterCfgsNewlines | crates/nargo-rustc/src/target_cfg.rs:47-50 | A newline at the end, or at both ends, of the output adds no item. |
| TargetCfg.IterCfgsOfPrintout | crates/nargo-rustc/src/target_cfg.rs:165-196 | Reading the printout of any list of cfgs gives exactly that list, in order and one per line: joined by newlines, with rustc's trailing newline, or with a newline at both ends as the test literal has. |
| TargetCfg.EnvKey | crates/nargo-rustc/src/target_cfg.rs:119-124 | The variable name is `CARGO_CFG_` followed by the key, ASCII upper-cased character by character. |
| TargetCfg.EnvKeyIsUpper | crates/nargo-rustc/src/target_cfg.rs:119-124 | No variable name holds a lower-case ASCII letter. |
| TargetCfg.WriteEnvKey | crates/nargo-rustc/src/target_cfg.rs:119-124 | The loop appends exactly the variable name to the buffer. |
| TargetCfg.Gather | crates/nargo-rustc/src/target_cfg.rs:94-105 | The lookahead passes over a run of valued cfgs with the key. It panics iff it then meets a malformed line or a same-key cfg without value. Otherwise it stops at a different key or the end, and the value is the first value and the run's values joined by `,`. |
| TargetCfg.Lookahead | crates/nargo-rustc/src/target_cfg.rs:97-105 | The peek loop computes exactly what `Gather` specifies. |
| TargetCfg.EnvStep | crates/nargo-rustc/src/target_cfg.rs:74-109 | One loop turn makes at most one call, moves forward, and agrees with `EnvFrom`. |
| TargetCfg.EnvCfgs | crates/nargo-rustc/src/target_cfg.rs:70-111 | The calls made and the panic flag are exactly those of `EnvFrom`. |
| TargetCfg.EnvFromKeys | crates/nargo-rustc/src/target_cfg.rs:79-88 | Every call's name comes from a cfg of the output whose key is neither `debug_assertions` nor `panic`. |
| TargetCfg.EnvFromLength | crates/nargo-rustc/src/target_cfg.rs:73-110 | There are never more calls than parsed cfgs. |
| TargetCfg.EnvFromNoPanic | crates/nargo-rustc/src/target_cfg.rs:97-105 | With every line well formed and valued, nothing panics. |
| TargetCfg.EnvFromJoinsSameKey | crates/nargo-rustc/src/target_cfg.rs:91-109 | A run of any length of valued cfgs with one key, ended by another key or the end, gives one call whose value is the run's values joined by `,` (the tests' `fxsr,sse,sse2`). |
| TargetCfg.EnvFromPanicsOnValuelessSameKey | crates/nargo-rustc/src/target_cfg.rs:102 | A same-key cfg without value after a valued run is the `unwrap` panic, with no call for the run. |
| TargetCfg.EnvFromValueless | crates/nargo-rustc/src/target_cfg.rs:90-109 | A cfg without value whose key is not skipped gives one call with the empty value (the tests' `unix`). |
| TargetCfg.EnvFromSkipsKeys | crates/nargo-rustc/src/target_cfg.rs:79-85 | A `debug_assertions` or `panic` cfg is passed over, even with a value. |
| Shell.QuoteChar | crates/nargo-rustc/src/shell.rs:16-23 | `'` and `!` become `'\` + the character + `'`. Every other character stays itself. |
| Shell.QuoteCharsLength | crates/nargo-rustc/src/shell.rs:13-26 | Inside the quotes, the length is the input length plus three per `'` or `!`. |
| Shell.UnquoteWhitelisted | crates/nargo-rustc/src/shell.rs:29-43 | A word of whitelisted characters reads back as itself unquoted. |
| Shell.UnquoteEscaped | crates/nargo-rustc/src/shell.rs:8-27 | Every escaped word reads back as the word. |
| Shell.Escape | crates/nargo-rustc/src/shell.rs:8-27 | A non-empty whitelisted word is returned unchanged. Any other word, the empty one included, is single-quoted, with length input + 2 + 3 per `'` or `!`. The result reads back as the input. |
| RustcRun.CrateName | crates/nargo-rustc/src/run.rs:33 | The crate name is the target name with every `-` replaced by `_`, and nothing else changed. |
| RustcRun.RunSteps | crates/nargo-rustc/src/run.rs:51-61 | rustc always runs first. The build script runs, after it, iff the kind is `custom-build`. |
| RustcRun.SplitCount | crates/nargo-rustc/src/run.rs:102 | Splitting the feature list at `,` gives one more piece than there are commas, so an empty list gives one feature. |
| RustcRun.CfgArgs | crates/nargo-rustc/src/run.rs:101-105 | For each feature in order, `--cfg` then `feature="<f>"`. |
| RustcRun.FeatureCfgArgs | crates/nargo-rustc/src/run.rs:101-105 | The loop builds exactly `CfgArgs` of the split feature list: two arguments per piece. |
| RustcRun.FeatureKeyChar | crates/nargo-rustc/src/run.rs:191-194 | `-` becomes `_`. Every other character is ASCII upper-cased. No result is `-` or lower-case. |
| RustcRun.FeatureKey | crates/nargo-rustc/src/run.rs:185-195 | The name is `CARGO_FEATURE_` followed by each feature character converted. |
| RustcRun.FeatureKeyIsEnvName | crates/nargo-rustc/src/run.rs:185-195 | No feature variable name holds a `-` or a lower-case ASCII letter. |
| RustcRun.WriteFeatureKey | crates/nargo-rustc/src/run.rs:188-195 | The buffer loop builds exactly `FeatureKey`. |
| RustcRun.FeatureEnvList | crates/nargo-rustc/src/run.rs:184-197 | One `(CARGO_FEATURE_<F>, "1")` pair per feature, in order. |
| RustcRun.FeatureEnvs | crates/nargo-rustc/src/run.rs:184-197 | The loop sets exactly `FeatureEnvList` of the split feature list. |
| RustcRun.PathJoin | crates/nargo-rustc/src/run.rs:69-70 | `Path::join` with an absolute path gives that path. Otherwise the path follows the base, after a `/` unless the base already ends in one. |
| RustcRun.Remap | crates/nargo-rustc/src/run.rs:66-74 | The remap value is `src=/build/<pkg_name>-<version>` for every package name not starting with `/`. |
| RustcRun.ArgLines | crates/nargo-rustc/src/run.rs:248-271 | Each line holds one or two arguments. Two only as an option followed by a non-option. |
| RustcRun.ArgLinesFlatten | crates/nargo-rustc/src/run.rs:248-271 | The lines, concatenated, are the arguments: nothing dropped or reordered. |
| RustcRun.ArgLinesPairsOptions | crates/nargo-rustc/src/run.rs:254-263 | An option alone on its line is the last line or is followed by an option. |
| RustcRun.EnvTextSkipsUnset | crates/nargo-rustc/src/run.rs:229-233 | A variable without a value leaves no line. |
| RustcRun.WriteEnvs | crates/nargo-rustc/src/run.rs:228-240 | The env loop writes exactly `key=val \` + newline for each set variable, in order. |
| RustcRun.NextLine | crates/nargo-rustc/src/run.rs:250-264 | One turn takes an argument, and the next one too when the first is an option and the peeked one is not. |
| RustcRun.WriteArgs | crates/nargo-rustc/src/run.rs:246-271 | The argument loop writes each line. Every line ends in ` \` + newline except the last, which ends in a newline. |
| RustcRun.ToStringDebug | crates/nargo-rustc/src/run.rs:225-276 | The rendering is the env lines, then the program line, then the argument lines. |
| Errors.FromString | crates/nargo-core/src/error.rs:30-32 | The message is kept as given. |
| Errors.ExtContextInner | crates/nargo-core/src/error.rs:119-124 | The new message is the context, then `": "`, then the inner message. |
| Errors.ExtContextInnerInjective | crates/nargo-core/src/error.rs:119-124 | The inner message can be recovered from the extended one. |
| Errors.Context | crates/nargo-core/src/error.rs:70-75 | `Ok` passes unchanged. An error gets the context prefixed. |
| Errors.ContextForeign | crates/nargo-core/src/error.rs:126-130 | A foreign error is first converted through its display string, then gets the context. |
| Errors.WithContext | crates/nargo-core/src/error.rs:77-86 | The same as `context` with the closure's value. The closure matters only on the error path. |
| Errors.OptionContext | crates/nargo-core/src/error.rs:89-95 | `Some(v)` becomes `Ok(v)`. `None` becomes an error whose message is exactly the context. |
| Errors.OptionWithContext | crates/nargo-core/src/error.rs:97-106 | The same as `Option::context` with the closure's value. |
| Errors.ContextChain | crates/nargo-core/src/error.rs:145-156 | Context c1 then c2 gives `c2: c1: msg`. |
| Errors.ContextKeepsMessage | crates/nargo-core/src/error.rs:113-124 | A context never hides the wrapped message: it stays at the end. |
| Logger.RankOrder | crates/nargo-core/src/logger.rs:14-20 | Off < Info < Trace as numbers, and the numbering tells the levels apart. |
| Logger.FromStr | crates/nargo-core/src/logger.rs:92-102 | Accepts exactly `off`, `info` and `trace`. |
| Logger.FromStrAsStr | crates/nargo-core/src/logger.rs:82-101 | Every level's name reads back as that level. |
| Logger.AsStrFromStr | crates/nargo-core/src/logger.rs:82-101 | Every accepted name is the name of the level it reads as. |
| Logger.Logger.constructor | crates/nargo-core/src/logger.rs:12 | The level starts at Info, with nothing buffered or written. |
| Logger.Logger.SetLevel | crates/nargo-core/src/logger.rs:22-24 | Only the level changes. |
| Logger.Logger.TraceEnabled | crates/nargo-core/src/logger.rs:31-34 | Holds iff the level is Trace. |
| Logger.Logger.Enabled | crates/nargo-core/src/logger.rs:116-122 | A message at `lvl` passes iff its number is at most the current level's. Off always passes. At level Off nothing else does. |
| Logger.Logger.FlushInner | crates/nargo-core/src/logger.rs:68-76 | Standard error grows by exactly the buffer, which becomes empty. An empty buffer writes nothing. |
| Logger.Logger.Log | crates/nargo-core/src/logger.rs:45-60 | The message and a newline are appended. The buffer is written out once it reaches 4096 bytes, so it stays below that. Written plus buffered bytes grow by exactly the line. |
| Logger.Logger.Flush | crates/nargo-core/src/logger.rs:63-66 | The same as `flush_inner` on the buffer. |
| Logger.Logger.LogAt | crates/nargo-core/src/logger.rs:116-132 | The `log!`, `info!` and `trace!` macros log the line iff the level gate passes. Otherwise nothing changes. The buffer bound is preserved. |
| Ordering.SortBySorted | crates/nargo-metadata/src/clean.rs:59-63 | Under a valid comparison, the sort's result is sorted. `SortBy`'s own contract makes it a permutation of its input. |
| Ordering.CmpStrValid | crates/nargo-core/src/nargo/mod.rs:9 | The byte-wise lexicographic order on strings is a valid comparison. |
| Ordering.CmpStrEqual | crates/nargo-core/src/nargo/mod.rs:9 | Strings compare Equal exactly when they are equal. |
| Text.TrimStartMatches | crates/nargo-core/src/nargo/mod.rs:33 | `trim_start_matches` removes exactly the longest prefix made of the given characters. |
| Text.SplitJoin | crates/nargo-rustc/src/target_cfg.rs:47 | Splitting at a character undoes joining pieces that do not hold it. |

## Left out

- Running processes is not modelled. This covers `RustcTargetCfg::collect`, the `rustc` and build-script invocations of `run_rustc` / `run_build_script`, their exit-status checks, file creation and `create_dir`. The rustc output and a command's environment and arguments are inputs instead.
- Only the feature variables of the build-script environment are modelled. The many constant `CARGO_CFG_*`, `CARGO_PKG_*` and other variables set by `run_build_script` and `envs_cargo_pkg` are plain constants with no logic, so they are not.
- `to_string_debug` takes the environment as a sequence in the order `get_envs` yields it. The ordering and de-duplication done by `Command` itself is not part of this model. Strings are already valid text, so `to_string_lossy` is the identity.
- JSON decoding (serde, serde_json, `RawValue`) is not modelled beyond the hand-written `DepKind` decoder. Records are given already decoded. `semver::VersionReq` and the external `semver::Version` of a manifest are plain strings.
- A dependency's `target` platform is raw JSON text, compared as a whole string, None first. The source derives no `Ord` for `Platform`, `DepKind` or the metadata `PkgId`. Kinds compare in declaration order, and ids by their string.
- `Manifest::is_workspace_pkg` and `Manifest::manifest_dir` are not part of this model. They are parameters of the clean pass. `Source` is not declared in `input.rs`, so a source is a plain string here.
- `sort_unstable_by` leaves the order of equal elements unspecified. The model sorts by insertion, and the contracts promise only a sorted permutation.
- The atomic `LOG_LEVEL` and the thread-local buffer are fields of one `Logger` object. Threads and memory ordering are not modelled. A log message is given as its formatted bytes, since `fmt::Arguments` formatting is not modelled. A failed write to standard error (which the source ignores) is not modelled either.
- Clean.Metadata.Clean: the source panics on failure, so the state it leaves then is never observed. The model leaves untouched the field whose step failed and every later field, while the fields of earlier steps stay cleaned. The contract does not describe that state.
- Clean.CleanPkgId: fails with the corrected message that names the id. The source panics with the unformatted literal `Failed to clean package id: '{id}'` (see Findings). `PkgIdCleanMessageAsWritten` models the message as written.
- The concrete unit-test strings of `nargo/mod.rs`, `target_cfg.rs` and `semver.rs` are stated as lemmas over any string of the same shape, not as the literal strings. `IterCfgsOfPrintout` covers printouts of the shape of the `CFGS_X86_64_LINUX` literal, with a newline at both ends, for any printable cfg list.
- `Version::leak`, `Display` and the `Version` accessors only copy or return stored slices. Here they are the datatype's fields.
- Semver.Parse: uses the corrected `ParseNumeric`, so it rejects `+1.2.3` and `00.1.2`, which the source accepts (see Findings). `Semver.ParseAsWritten` is the parser as written. `FromStr` uses the corrected one.
- Closures given to `with_context` are pure functions here. A side effect in one, or evaluating it when it is not needed, cannot be observed.
- The CLI, timers, the panic hook, file and environment access, the nargo-resolve crate, `prefetch.rs` and the `main.rs` glue are not part of this model.

## Findings

| source | as written | input that shows it | evidently intended | confidence | as-written member | corrected member |
|---|---|---|---|---|---|---|
| crates/nargo-metadata/src/clean.rs:186 | The `with_context` closure returns the plain literal `"Failed to clean package id: '{id}'"`, which is not a `format!`, so `{id}` is never filled in. | Any id that fails to clean, e.g. `path+file:///a` with workspace source `/b`, panics with the literal placeholder. | The message names the offending id. | not executed | Clean.PkgIdCleanMessageAsWrittenLosesId | Clean.PkgIdCleanMessageNamesId |
| crates/nargo-rustc/src/semver.rs:120-131 | `parse_numeric` relies on `u64::from_str`, which accepts a leading `+`. The leading-zero check fires only for a non-zero value. | `+1` and `00` are accepted, so `+1.2.3` and `00.1.2` parse as versions. | Exactly the `<numeric>` grammar in the comment above it: `0`, or a non-zero digit followed by digits. | not executed | Semver.ParseAsWrittenAcceptsNonNumeric | Semver.ParseNumeric |
