/**
 * The in-place "clean" pass of crates/nargo-metadata/src/clean.rs: package
 * ids and sources are compacted, dev-dependencies and non-library targets of
 * packages outside the workspace are dropped, paths are made relative, and
 * dependencies, targets and workspace-member lists are put in a fixed order.
 *
 * Every `.unwrap()` of the source is a panic; here it is an `Err`. The two
 * `Manifest` methods the pass calls but that are not part of this model,
 * `is_workspace_pkg` and `manifest_dir`, are parameters of the pass.
 */
module Clean {
  import opened Wrappers
  import opened Text
  import opened Ordering
  import opened Input
  import Nargo

  const CRATES_IO_REGISTRY: string := "registry+" + "https://github.com/rust-lang/crates.io-index"
  const CRATES_IO_INDEX: string := "crates.io-index"
  const PATH_FILE: string := "path+file://"
  const ID_SEPARATORS: set<char> := {'#', '/'}
  /** Target kinds a package outside the workspace keeps. */
  const BUILD_KINDS: set<string> := {"lib", "proc-macro", "custom-build"}

  datatype Context = Context(workspaceSrc: string)

  /** The panics of the pass. */
  datatype CleanError =
    | PkgIdNotInWorkspace(message: string)
    | PathOutsideWorkspace(depName: string, path: string, manifestId: string, workspaceSrc: string)
    | SrcPathOutsideCrate(srcPath: string, packageId: string)

  // ---- PkgId ----

  /** `PkgId::clean_inner`: a local path id must lie under the workspace
      source; what follows it, less its leading `#`/`/`, is the id. A
      crates.io id loses exactly the registry prefix, keeping the `#`. Any
      other id is kept whole. */
  function CleanInner(id: string, ctx: Context): (r: Option<string>)
    ensures StartsWith(id, PATH_FILE) ==>
      (r.Some? <==> StartsWith(id[|PATH_FILE|..], ctx.workspaceSrc))
    ensures StartsWith(id, PATH_FILE) && r.Some? ==>
      IsTrimStart(id[|PATH_FILE| + |ctx.workspaceSrc|..], ID_SEPARATORS, r.value)
    ensures !StartsWith(id, PATH_FILE) && StartsWith(id, CRATES_IO_REGISTRY) ==>
      r.Some? && CRATES_IO_REGISTRY + r.value == id
    ensures !StartsWith(id, PATH_FILE) ==> r.Some?
    ensures !StartsWith(id, PATH_FILE) && !StartsWith(id, CRATES_IO_REGISTRY) ==> r == Some(id)
  {
    match StripPrefix(id, PATH_FILE)
    case Some(rest) =>
      (match StripPrefix(rest, ctx.workspaceSrc)
       case None => None
       case Some(rest2) => Some(TrimStartMatches(rest2, ID_SEPARATORS)))
    case None =>
      match StripPrefix(id, CRATES_IO_REGISTRY)
      case Some(rest) => Some(rest)
      case None => Some(id)
  }

  /** The id converter of nargo-core and this one agree on every input. */
  lemma CleanInnerAgreesWithNargo(id: string, root: string)
    ensures CleanInner(id, Context(root)) ==
      match Nargo.TryFromCargoPkgIdInner(id, root)
      case None => None
      case Some(p) => Some(p.id)
  {
  }

  /** The message `PkgId::clean` panics with, as the source builds it: the
      closure returns a plain string literal, not a `format!`, so the
      placeholder is never filled in. */
  function PkgIdCleanMessageAsWritten(id: string): string {
    "Failed to clean package id: '{id}'"
  }

  /** The message evidently intended, naming the offending id. */
  function PkgIdCleanMessage(id: string): string {
    "Failed to clean package id: '" + id + "'"
  }

  /** As written, the message is the same for every id. */
  lemma PkgIdCleanMessageAsWrittenLosesId()
    ensures PkgIdCleanMessageAsWritten("path+file:///a") == PkgIdCleanMessageAsWritten("path+file:///b")
  {
  }

  /** The intended message determines the id it reports. */
  lemma PkgIdCleanMessageNamesId(a: string, b: string)
    ensures PkgIdCleanMessage(a) == PkgIdCleanMessage(b) ==> a == b
  {
    var p := "Failed to clean package id: '";
    if PkgIdCleanMessage(a) == PkgIdCleanMessage(b) {
      assert |a| == |b|;
      forall i | 0 <= i < |a| ensures a[i] == b[i] {
        assert PkgIdCleanMessage(a)[|p| + i] == a[i];
        assert PkgIdCleanMessage(b)[|p| + i] == b[i];
      }
    }
  }

  /** `PkgId::clean`: fails exactly for a local path id outside the
      workspace source. */
  function CleanPkgId(id: PkgId, ctx: Context): (r: Result<PkgId, CleanError>)
    ensures r.Err? <==> StartsWith(id.id, PATH_FILE) && !StartsWith(id.id[|PATH_FILE|..], ctx.workspaceSrc)
    ensures r.Ok? ==> Some(r.value.id) == CleanInner(id.id, ctx)
    ensures r.Err? ==> r.error == PkgIdNotInWorkspace(PkgIdCleanMessage(id.id))
  {
    match CleanInner(id.id, ctx)
    case Some(s) => Ok(PkgId(s))
    case None => Err(PkgIdNotInWorkspace(PkgIdCleanMessage(id.id)))
  }

  predicate IdCleanable(id: PkgId, ctx: Context) {
    CleanPkgId(id, ctx).Ok?
  }

  // ---- Source ----

  /** `Source::clean`: only the crates.io registry string changes. */
  function CleanSource(s: string): (r: string)
    ensures r != s <==> s == CRATES_IO_REGISTRY
    ensures r == CRATES_IO_INDEX <==> (s == CRATES_IO_REGISTRY || s == CRATES_IO_INDEX)
  {
    if s == CRATES_IO_REGISTRY then CRATES_IO_INDEX else s
  }

  lemma CleanSourceIdempotent(s: string)
    ensures CleanSource(CleanSource(s)) == CleanSource(s)
  {
    assert CRATES_IO_INDEX[0] == 'c';
  }

  /** `source.as_mut().map(Source::clean)` */
  function CleanSourceOpt(s: Option<string>): (r: Option<string>)
    ensures r.Some? <==> s.Some?
    ensures r.Some? ==> r.value == CleanSource(s.value)
  {
    match s
    case None => None
    case Some(x) => Some(CleanSource(x))
  }

  // ---- ManifestDependency ----

  predicate PathInWorkspace(dep: ManifestDependency, ctx: Context) {
    dep.path.None? || StartsWith(dep.path.value, ctx.workspaceSrc)
  }

  /** `ManifestDependency::clean`: the source is cleaned; a path must lie
      under the workspace source and becomes relative to it, with its
      leading `/` trimmed. Nothing else changes. */
  function CleanDependency(dep: ManifestDependency, id: PkgId, ctx: Context): (r: Result<ManifestDependency, CleanError>)
    ensures r.Ok? <==> PathInWorkspace(dep, ctx)
    ensures r.Err? ==> r.error == PathOutsideWorkspace(dep.name, dep.path.value, id.id, ctx.workspaceSrc)
    ensures r.Ok? ==> r.value == dep.(source := CleanSourceOpt(dep.source), path := r.value.path)
    ensures r.Ok? ==> (r.value.path.Some? <==> dep.path.Some?)
    ensures r.Ok? && dep.path.Some? ==>
      IsTrimStart(dep.path.value[|ctx.workspaceSrc|..], {'/'}, r.value.path.value)
  {
    var dep' := dep.(source := CleanSourceOpt(dep.source));
    match dep.path
    case None => Ok(dep')
    case Some(p) =>
      match StripPrefix(p, ctx.workspaceSrc)
      case None => Err(PathOutsideWorkspace(dep.name, p, id.id, ctx.workspaceSrc))
      case Some(rest) => Ok(dep'.(path := Some(TrimStartMatches(rest, {'/'}))))
  }

  /** The dependency order: by name, then kind, then target platform. */
  function CmpDependency(a: ManifestDependency, b: ManifestDependency): Ordering {
    Then(CmpStr(a.name, b.name), Then(CmpDepKind(a.kind, b.kind), CmpPlatform(a.target, b.target)))
  }

  lemma CmpDependencyValid()
    ensures ValidCmp(CmpDependency)
  {
    CmpStrValid();
    CmpDepKindValid();
    CmpPlatformValid();
    forall a: ManifestDependency, b: ManifestDependency, c: ManifestDependency
      | CmpDependency(a, b) != Greater && CmpDependency(b, c) != Greater
      ensures CmpDependency(a, c) != Greater
    {
      ChainStrict(a.name, b.name, c.name, CmpStr);
      if CmpStr(a.name, b.name) == Equal && CmpStr(b.name, c.name) == Equal {
        ChainStrict(a.kind, b.kind, c.kind, CmpDepKind);
        if CmpDepKind(a.kind, b.kind) == Equal && CmpDepKind(b.kind, c.kind) == Equal {
          ChainStrict(a.target, b.target, c.target, CmpPlatform);
        }
      }
    }
  }

  /** `dependencies.retain(|dep| dep.kind != DepKind::Dev)`: dev-dependencies
      go, every other entry stays as often as it was there. */
  function WithoutDevDependencies(ds: seq<ManifestDependency>): (r: seq<ManifestDependency>)
    ensures forall d :: multiset(r)[d] == if d.kind == Dev then 0 else multiset(ds)[d]
  {
    if ds == [] then []
    else
      assert ds == [ds[0]] + ds[1..];
      var rest := WithoutDevDependencies(ds[1..]);
      if ds[0].kind == Dev then rest else [ds[0]] + rest
  }

  /** The `retain` keeps order: what is kept of two blocks is what is kept
      of the first, then of the second. */
  lemma {:induction false} WithoutDevDependenciesAppend(a: seq<ManifestDependency>, b: seq<ManifestDependency>)
    ensures WithoutDevDependencies(a + b) == WithoutDevDependencies(a) + WithoutDevDependencies(b)
    decreases |a|
  {
    if a == [] {
      assert a + b == b;
    } else {
      assert (a + b)[0] == a[0];
      assert (a + b)[1..] == a[1..] + b;
      WithoutDevDependenciesAppend(a[1..], b);
    }
  }

  function RetainedDependencies(ds: seq<ManifestDependency>, isWorkspace: bool): seq<ManifestDependency> {
    if isWorkspace then ds else WithoutDevDependencies(ds)
  }

  /** The retained dependencies, each cleaned. */
  function CleanedDependencies(ds: seq<ManifestDependency>, id: PkgId, ctx: Context): (r: seq<ManifestDependency>)
    requires forall d :: d in ds ==> PathInWorkspace(d, ctx)
    ensures |r| == |ds|
    ensures forall i :: 0 <= i < |ds| ==> r[i] == CleanDependency(ds[i], id, ctx).value
  {
    if ds == [] then [] else [CleanDependency(ds[0], id, ctx).value] + CleanedDependencies(ds[1..], id, ctx)
  }

  /** What `clean_dependencies` leaves: the retained dependencies, each
      cleaned, in dependency order. */
  ghost predicate DependenciesCleaned(before: seq<ManifestDependency>, after: seq<ManifestDependency>,
                                      id: PkgId, isWorkspace: bool, ctx: Context)
  {
    var kept := RetainedDependencies(before, isWorkspace);
    && (forall d :: d in kept ==> PathInWorkspace(d, ctx))
    && SortedBy(after, CmpDependency)
    && multiset(after) == multiset(CleanedDependencies(kept, id, ctx))
  }

  /** The `for dep in &mut self.dependencies { dep.clean(..) }` loop: stops
      at the first dependency whose path is outside the workspace. */
  method CleanEachDependency(deps: seq<ManifestDependency>, id: PkgId, ctx: Context)
    returns (r: Result<seq<ManifestDependency>, CleanError>)
    ensures r.Ok? <==> forall d :: d in deps ==> PathInWorkspace(d, ctx)
    ensures r.Err? ==> (exists i :: 0 <= i < |deps| && !PathInWorkspace(deps[i], ctx)
                         && (forall j :: 0 <= j < i ==> PathInWorkspace(deps[j], ctx))
                         && r.error == CleanDependency(deps[i], id, ctx).error)
    ensures r.Ok? ==> r.value == CleanedDependencies(deps, id, ctx)
  {
    var out := deps;
    var i := 0;
    while i < |out|
      invariant 0 <= i <= |out| == |deps|
      invariant forall j :: 0 <= j < i ==> PathInWorkspace(deps[j], ctx)
      invariant forall j :: 0 <= j < i ==> out[j] == CleanDependency(deps[j], id, ctx).value
      invariant forall j :: i <= j < |out| ==> out[j] == deps[j]
    {
      var c := CleanDependency(out[i], id, ctx);
      if c.Err? {
        assert deps[i] in deps;
        return Err(c.error);
      }
      out := out[i := c.value];
      i := i + 1;
    }
    forall d | d in deps ensures PathInWorkspace(d, ctx) {
      var j :| 0 <= j < |deps| && deps[j] == d;
    }
    r := Ok(out);
  }

  /** `Manifest::clean_dependencies`, on the manifest as it is when the
      method is called (id and source already cleaned). */
  method CleanDependencies(m: Manifest, isWorkspace: Manifest -> bool, ctx: Context)
    returns (r: Result<seq<ManifestDependency>, CleanError>)
    ensures var kept := RetainedDependencies(m.dependencies, isWorkspace(m));
      r.Ok? <==> forall d :: d in kept ==> PathInWorkspace(d, ctx)
    ensures var kept := RetainedDependencies(m.dependencies, isWorkspace(m));
      r.Err? ==> (exists i :: 0 <= i < |kept| && !PathInWorkspace(kept[i], ctx)
                   && (forall j :: 0 <= j < i ==> PathInWorkspace(kept[j], ctx))
                   && r.error == CleanDependency(kept[i], m.id, ctx).error)
    ensures r.Ok? ==> DependenciesCleaned(m.dependencies, r.value, m.id, isWorkspace(m), ctx)
    ensures r.Ok? ==> r.value == SortBy(CleanedDependencies(RetainedDependencies(m.dependencies, isWorkspace(m)), m.id, ctx), CmpDependency)
  {
    var kept := RetainedDependencies(m.dependencies, isWorkspace(m));
    var cleaned := CleanEachDependency(kept, m.id, ctx);
    if cleaned.Err? {
      return Err(cleaned.error);
    }
    CmpDependencyValid();
    SortBySorted(cleaned.value, CmpDependency);
    r := Ok(SortBy(cleaned.value, CmpDependency));
  }

  /** Outside the workspace, no dev-dependency survives the clean. */
  lemma NonWorkspaceHasNoDevDependencies(before: seq<ManifestDependency>, after: seq<ManifestDependency>,
                                          id: PkgId, ctx: Context)
    requires DependenciesCleaned(before, after, id, false, ctx)
    ensures forall d :: d in after ==> d.kind != Dev
  {
    var kept := WithoutDevDependencies(before);
    var cleaned := CleanedDependencies(kept, id, ctx);
    forall d | d in after ensures d.kind != Dev {
      assert d in multiset(cleaned);
      var i :| 0 <= i < |cleaned| && cleaned[i] == d;
      assert kept[i] in multiset(kept);
    }
  }

  /** In the workspace every dependency stays, cleaned: the clean is a
      permutation of the cleaned input. */
  lemma WorkspaceKeepsAllDependencies(before: seq<ManifestDependency>, after: seq<ManifestDependency>,
                                      id: PkgId, ctx: Context)
    requires DependenciesCleaned(before, after, id, true, ctx)
    ensures |after| == |before|
    ensures forall i :: 0 <= i < |before| ==> CleanDependency(before[i], id, ctx).value in after
  {
    var cleaned := CleanedDependencies(before, id, ctx);
    assert |after| == |multiset(after)| == |multiset(cleaned)| == |cleaned|;
    forall i | 0 <= i < |before| ensures CleanDependency(before[i], id, ctx).value in after {
      assert cleaned[i] in multiset(cleaned);
    }
  }

  // ---- ManifestTarget ----

  /** `ManifestTarget::clean`: the source path must lie under the crate
      directory and becomes relative to it. Nothing else changes. */
  function CleanTarget(t: ManifestTarget, id: PkgId, manifestDir: string): (r: Result<ManifestTarget, CleanError>)
    ensures r.Ok? <==> StartsWith(t.srcPath, manifestDir)
    ensures r.Ok? ==> r.value == t.(srcPath := r.value.srcPath) && manifestDir + r.value.srcPath == t.srcPath
    ensures r.Err? ==> r.error == SrcPathOutsideCrate(t.srcPath, id.id)
  {
    match StripPrefix(t.srcPath, manifestDir)
    case None => Err(SrcPathOutsideCrate(t.srcPath, id.id))
    case Some(rest) => Ok(t.(srcPath := rest))
  }

  /** The target order: by kind list, then crate-type list, then name. */
  function CmpTarget(a: ManifestTarget, b: ManifestTarget): Ordering {
    Then(CmpStrs(a.kind, b.kind), Then(CmpStrs(a.crateTypes, b.crateTypes), CmpStr(a.name, b.name)))
  }

  lemma CmpTargetValid()
    ensures ValidCmp(CmpTarget)
  {
    CmpStrValid();
    CmpStrsValid();
    forall a: ManifestTarget, b: ManifestTarget, c: ManifestTarget
      | CmpTarget(a, b) != Greater && CmpTarget(b, c) != Greater
      ensures CmpTarget(a, c) != Greater
    {
      ChainStrict(a.kind, b.kind, c.kind, CmpStrs);
      if CmpStrs(a.kind, b.kind) == Equal && CmpStrs(b.kind, c.kind) == Equal {
        ChainStrict(a.crateTypes, b.crateTypes, c.crateTypes, CmpStrs);
        if CmpStrs(a.crateTypes, b.crateTypes) == Equal && CmpStrs(b.crateTypes, c.crateTypes) == Equal {
          ChainStrict(a.name, b.name, c.name, CmpStr);
        }
      }
    }
  }

  /** A library, proc-macro or build-script target. */
  predicate IsBuildTarget(t: ManifestTarget) {
    exists k :: k in t.kind && k in BUILD_KINDS
  }

  /** `targets.retain(...)` keeping library-like targets only. */
  function BuildTargetsOnly(ts: seq<ManifestTarget>): (r: seq<ManifestTarget>)
    ensures forall t :: multiset(r)[t] == if IsBuildTarget(t) then multiset(ts)[t] else 0
  {
    if ts == [] then []
    else
      assert ts == [ts[0]] + ts[1..];
      var rest := BuildTargetsOnly(ts[1..]);
      if IsBuildTarget(ts[0]) then [ts[0]] + rest else rest
  }

  /** The `retain` keeps order: what is kept of two blocks is what is kept
      of the first, then of the second. */
  lemma {:induction false} BuildTargetsOnlyAppend(a: seq<ManifestTarget>, b: seq<ManifestTarget>)
    ensures BuildTargetsOnly(a + b) == BuildTargetsOnly(a) + BuildTargetsOnly(b)
    decreases |a|
  {
    if a == [] {
      assert a + b == b;
    } else {
      assert (a + b)[0] == a[0];
      assert (a + b)[1..] == a[1..] + b;
      BuildTargetsOnlyAppend(a[1..], b);
    }
  }

  function RetainedTargets(ts: seq<ManifestTarget>, isWorkspace: bool): seq<ManifestTarget> {
    if isWorkspace then ts else BuildTargetsOnly(ts)
  }

  function CleanedTargets(ts: seq<ManifestTarget>, id: PkgId, manifestDir: string): (r: seq<ManifestTarget>)
    requires forall t :: t in ts ==> StartsWith(t.srcPath, manifestDir)
    ensures |r| == |ts|
    ensures forall i :: 0 <= i < |ts| ==> r[i] == CleanTarget(ts[i], id, manifestDir).value
  {
    if ts == [] then [] else [CleanTarget(ts[0], id, manifestDir).value] + CleanedTargets(ts[1..], id, manifestDir)
  }

  /** What `clean_targets` leaves: the retained targets, each cleaned, in
      target order. */
  ghost predicate TargetsCleaned(before: seq<ManifestTarget>, after: seq<ManifestTarget>,
                                 id: PkgId, isWorkspace: bool, manifestDir: string)
  {
    var kept := RetainedTargets(before, isWorkspace);
    && (forall t :: t in kept ==> StartsWith(t.srcPath, manifestDir))
    && SortedBy(after, CmpTarget)
    && multiset(after) == multiset(CleanedTargets(kept, id, manifestDir))
  }

  /** The manifest on which `clean_targets` asks for `manifest_dir`: the
      one whose targets were just retained. */
  function AfterTargetRetain(m: Manifest, isWorkspace: Manifest -> bool): Manifest {
    m.(targets := RetainedTargets(m.targets, isWorkspace(m)))
  }

  /** The `for target in &mut self.targets { target.clean(..) }` loop:
      stops at the first target whose path is outside the crate directory. */
  method CleanEachTarget(targets: seq<ManifestTarget>, id: PkgId, manifestDir: string)
    returns (r: Result<seq<ManifestTarget>, CleanError>)
    ensures r.Ok? <==> forall t :: t in targets ==> StartsWith(t.srcPath, manifestDir)
    ensures r.Err? ==> (exists i :: 0 <= i < |targets| && !StartsWith(targets[i].srcPath, manifestDir)
                         && (forall j :: 0 <= j < i ==> StartsWith(targets[j].srcPath, manifestDir))
                         && r.error == SrcPathOutsideCrate(targets[i].srcPath, id.id))
    ensures r.Ok? ==> r.value == CleanedTargets(targets, id, manifestDir)
  {
    var out := targets;
    var i := 0;
    while i < |out|
      invariant 0 <= i <= |out| == |targets|
      invariant forall j :: 0 <= j < i ==> StartsWith(targets[j].srcPath, manifestDir)
      invariant forall j :: 0 <= j < i ==> out[j] == CleanTarget(targets[j], id, manifestDir).value
      invariant forall j :: i <= j < |out| ==> out[j] == targets[j]
    {
      var c := CleanTarget(out[i], id, manifestDir);
      if c.Err? {
        assert targets[i] in targets;
        return Err(c.error);
      }
      out := out[i := c.value];
      i := i + 1;
    }
    forall t | t in targets ensures StartsWith(t.srcPath, manifestDir) {
      var j :| 0 <= j < |targets| && targets[j] == t;
    }
    r := Ok(out);
  }

  /** `Manifest::clean_targets`. */
  method CleanTargets(m: Manifest, isWorkspace: Manifest -> bool, manifestDir: Manifest -> string)
    returns (r: Result<seq<ManifestTarget>, CleanError>)
    ensures var kept := RetainedTargets(m.targets, isWorkspace(m));
      var dir := manifestDir(AfterTargetRetain(m, isWorkspace));
      r.Ok? <==> forall t :: t in kept ==> StartsWith(t.srcPath, dir)
    ensures var kept := RetainedTargets(m.targets, isWorkspace(m));
      var dir := manifestDir(AfterTargetRetain(m, isWorkspace));
      r.Err? ==> (exists i :: 0 <= i < |kept| && !StartsWith(kept[i].srcPath, dir)
                   && (forall j :: 0 <= j < i ==> StartsWith(kept[j].srcPath, dir))
                   && r.error == SrcPathOutsideCrate(kept[i].srcPath, m.id.id))
    ensures r.Ok? ==> TargetsCleaned(m.targets, r.value, m.id, isWorkspace(m),
                                     manifestDir(AfterTargetRetain(m, isWorkspace)))
  {
    var kept := RetainedTargets(m.targets, isWorkspace(m));
    var dir := manifestDir(m.(targets := kept));
    var cleaned := CleanEachTarget(kept, m.id, dir);
    if cleaned.Err? {
      return Err(cleaned.error);
    }
    CmpTargetValid();
    SortBySorted(cleaned.value, CmpTarget);
    r := Ok(SortBy(cleaned.value, CmpTarget));
  }

  /** Outside the workspace only library, proc-macro and build-script
      targets survive the clean. */
  lemma NonWorkspaceKeepsBuildTargetsOnly(before: seq<ManifestTarget>, after: seq<ManifestTarget>,
                                          id: PkgId, manifestDir: string)
    requires TargetsCleaned(before, after, id, false, manifestDir)
    ensures forall t :: t in after ==> IsBuildTarget(t)
  {
    var kept := BuildTargetsOnly(before);
    var cleaned := CleanedTargets(kept, id, manifestDir);
    forall t | t in after ensures IsBuildTarget(t) {
      assert t in multiset(cleaned);
      var i :| 0 <= i < |cleaned| && cleaned[i] == t;
      assert kept[i] in multiset(kept);
      assert t.kind == kept[i].kind;
    }
  }

  /** Every cleaned target's path, put back behind the crate directory, is
      the path of a target of the input. */
  lemma CleanedTargetPathsAreRelative(before: seq<ManifestTarget>, after: seq<ManifestTarget>,
                                      id: PkgId, isWorkspace: bool, manifestDir: string)
    requires TargetsCleaned(before, after, id, isWorkspace, manifestDir)
    ensures forall t :: t in after ==> exists u :: u in before && u.srcPath == manifestDir + t.srcPath
  {
    var kept := RetainedTargets(before, isWorkspace);
    var cleaned := CleanedTargets(kept, id, manifestDir);
    forall t | t in after ensures exists u :: u in before && u.srcPath == manifestDir + t.srcPath {
      assert t in multiset(cleaned);
      var i :| 0 <= i < |cleaned| && cleaned[i] == t;
      assert kept[i] in multiset(kept);
      assert kept[i] in before;
    }
  }

  // ---- Manifest ----

  /** The new manifest after `Manifest::clean`: id and source cleaned, then
      dependencies, then targets; every other field as it was. */
  ghost predicate ManifestCleaned(m: Manifest, m': Manifest, ctx: Context,
                                  isWorkspace: Manifest -> bool, manifestDir: Manifest -> string)
  {
    var m1 := m.(id := m'.id, source := m'.source);
    var m2 := m1.(dependencies := m'.dependencies);
    && CleanPkgId(m.id, ctx) == Ok(m'.id)
    && m'.source == CleanSourceOpt(m.source)
    && DependenciesCleaned(m.dependencies, m'.dependencies, m'.id, isWorkspace(m1), ctx)
    && TargetsCleaned(m.targets, m'.targets, m'.id, isWorkspace(m2), manifestDir(AfterTargetRetain(m2, isWorkspace)))
    && m' == m2.(targets := m'.targets)
  }

  /** A manifest `Manifest::clean` gets through: its id is cleanable, every
      retained dependency path lies in the workspace, and every retained
      target lies under the crate directory of the manifest as
      `clean_targets` sees it. */
  predicate ManifestCleanable(m: Manifest, ctx: Context, isWorkspace: Manifest -> bool, manifestDir: Manifest -> string) {
    IdCleanable(m.id, ctx) && DependenciesCleanable(IdCleaned(m, ctx), ctx, isWorkspace)
    && TargetsCleanable(DependenciesCleanedManifest(IdCleaned(m, ctx), ctx, isWorkspace), isWorkspace, manifestDir)
  }

  /** The manifest with its id and source cleaned, as `clean_dependencies`
      sees it. */
  function IdCleaned(m: Manifest, ctx: Context): Manifest
    requires IdCleanable(m.id, ctx)
  {
    m.(id := CleanPkgId(m.id, ctx).value, source := CleanSourceOpt(m.source))
  }

  predicate DependenciesCleanable(m: Manifest, ctx: Context, isWorkspace: Manifest -> bool) {
    forall d :: d in RetainedDependencies(m.dependencies, isWorkspace(m)) ==> PathInWorkspace(d, ctx)
  }

  /** The manifest with its dependencies cleaned, as `clean_targets` sees it. */
  function DependenciesCleanedManifest(m: Manifest, ctx: Context, isWorkspace: Manifest -> bool): Manifest
    requires DependenciesCleanable(m, ctx, isWorkspace)
  {
    var kept := RetainedDependencies(m.dependencies, isWorkspace(m));
    m.(dependencies := SortBy(CleanedDependencies(kept, m.id, ctx), CmpDependency))
  }

  predicate TargetsCleanable(m: Manifest, isWorkspace: Manifest -> bool, manifestDir: Manifest -> string) {
    var dir := manifestDir(AfterTargetRetain(m, isWorkspace));
    forall t :: t in RetainedTargets(m.targets, isWorkspace(m)) ==> StartsWith(t.srcPath, dir)
  }

  /** `Manifest::clean`. */
  method CleanManifest(m: Manifest, ctx: Context, isWorkspace: Manifest -> bool, manifestDir: Manifest -> string)
    returns (r: Result<Manifest, CleanError>)
    ensures r.Ok? <==> ManifestCleanable(m, ctx, isWorkspace, manifestDir)
    ensures r.Ok? ==> ManifestCleaned(m, r.value, ctx, isWorkspace, manifestDir)
    ensures !IdCleanable(m.id, ctx) ==> r == Err(CleanPkgId(m.id, ctx).error)
    ensures IdCleanable(m.id, ctx) ==>
      var m1 := m.(id := CleanPkgId(m.id, ctx).value, source := CleanSourceOpt(m.source));
      (exists d :: d in RetainedDependencies(m.dependencies, isWorkspace(m1)) && !PathInWorkspace(d, ctx)) ==> r.Err?
  {
    var id := CleanPkgId(m.id, ctx);
    if id.Err? {
      return Err(id.error);
    }
    var m1 := m.(id := id.value, source := CleanSourceOpt(m.source));
    var deps := CleanDependencies(m1, isWorkspace, ctx);
    if deps.Err? {
      return Err(deps.error);
    }
    var m2 := m1.(dependencies := deps.value);
    var targets := CleanTargets(m2, isWorkspace, manifestDir);
    if targets.Err? {
      return Err(targets.error);
    }
    r := Ok(m2.(targets := targets.value));
  }

  // ---- Resolve ----

  /** `NodeDep::clean` applied to every dependency of a node: only the
      package id changes. */
  ghost predicate NodeCleaned(n: Node, n': Node, ctx: Context) {
    && CleanPkgId(n.id, ctx) == Ok(n'.id)
    && |n'.deps| == |n.deps|
    && forall i :: 0 <= i < |n.deps| ==>
         CleanPkgId(n.deps[i].pkg, ctx) == Ok(n'.deps[i].pkg) && n'.deps[i] == n.deps[i].(pkg := n'.deps[i].pkg)
  }

  predicate NodeCleanable(n: Node, ctx: Context) {
    IdCleanable(n.id, ctx) && forall d :: d in n.deps ==> IdCleanable(d.pkg, ctx)
  }

  /** `Node::clean`. */
  method CleanNode(n: Node, ctx: Context) returns (r: Result<Node, CleanError>)
    ensures r.Ok? <==> NodeCleanable(n, ctx)
    ensures r.Ok? ==> NodeCleaned(n, r.value, ctx)
  {
    var id := CleanPkgId(n.id, ctx);
    if id.Err? {
      return Err(id.error);
    }
    var deps := n.deps;
    var i := 0;
    while i < |deps|
      invariant 0 <= i <= |deps| == |n.deps|
      invariant forall j :: 0 <= j < i ==>
        CleanPkgId(n.deps[j].pkg, ctx) == Ok(deps[j].pkg) && deps[j] == n.deps[j].(pkg := deps[j].pkg)
      invariant forall j :: i <= j < |deps| ==> deps[j] == n.deps[j]
    {
      var pkg := CleanPkgId(deps[i].pkg, ctx);
      if pkg.Err? {
        assert n.deps[i] in n.deps;
        return Err(pkg.error);
      }
      deps := deps[i := deps[i].(pkg := pkg.value)];
      i := i + 1;
    }
    r := Ok(Node(id.value, deps));
    forall d | d in n.deps ensures IdCleanable(d.pkg, ctx) {
      var j :| 0 <= j < |n.deps| && n.deps[j] == d;
    }
  }

  /** `Resolve::clean`: every node cleaned, none added or removed. */
  method CleanResolve(res: Resolve, ctx: Context) returns (r: Result<Resolve, CleanError>)
    ensures r.Ok? <==> forall n :: n in res.nodes ==> NodeCleanable(n, ctx)
    ensures r.Ok? ==> |r.value.nodes| == |res.nodes|
    ensures r.Ok? ==> forall i :: 0 <= i < |res.nodes| ==> NodeCleaned(res.nodes[i], r.value.nodes[i], ctx)
  {
    var nodes := res.nodes;
    var i := 0;
    while i < |nodes|
      invariant 0 <= i <= |nodes| == |res.nodes|
      invariant forall j :: 0 <= j < i ==> NodeCleanable(res.nodes[j], ctx) && NodeCleaned(res.nodes[j], nodes[j], ctx)
      invariant forall j :: i <= j < |nodes| ==> nodes[j] == res.nodes[j]
    {
      var n := CleanNode(nodes[i], ctx);
      if n.Err? {
        assert res.nodes[i] in res.nodes;
        return Err(n.error);
      }
      nodes := nodes[i := n.value];
      i := i + 1;
    }
    r := Ok(Resolve(nodes));
    forall n | n in res.nodes ensures NodeCleanable(n, ctx) {
      var j :| 0 <= j < |res.nodes| && res.nodes[j] == n;
    }
  }

  // ---- Metadata ----

  /** The derived order on (cleaned) package ids. */
  function CmpPkgId(a: PkgId, b: PkgId): Ordering {
    CmpStr(a.id, b.id)
  }

  lemma CmpPkgIdValid()
    ensures ValidCmp(CmpPkgId)
  {
    CmpStrValid();
  }

  /** The ids, each cleaned. */
  function CleanedIds(ids: seq<PkgId>, ctx: Context): (r: seq<PkgId>)
    requires forall id :: id in ids ==> CleanPkgId(id, ctx).Ok?
    ensures |r| == |ids|
    ensures forall i :: 0 <= i < |ids| ==> r[i] == CleanPkgId(ids[i], ctx).value
  {
    if ids == [] then [] else [CleanPkgId(ids[0], ctx).value] + CleanedIds(ids[1..], ctx)
  }

  /** What the clean leaves of a workspace-member list: every id cleaned,
      the list sorted. */
  ghost predicate MembersCleaned(before: seq<PkgId>, after: seq<PkgId>, ctx: Context) {
    && (forall id :: id in before ==> IdCleanable(id, ctx))
    && SortedBy(after, CmpPkgId)
    && multiset(after) == multiset(CleanedIds(before, ctx))
  }

  /** The first `n` packages are cleanable. */
  predicate PackagesCleanable(ps: seq<Manifest>, n: nat, ctx: Context, isWorkspace: Manifest -> bool, manifestDir: Manifest -> string)
    requires n <= |ps|
  {
    forall j :: 0 <= j < n ==> ManifestCleanable(ps[j], ctx, isWorkspace, manifestDir)
  }

  /** The first `n` packages of `out` are those of `ps`, cleaned. */
  ghost predicate PackagesCleaned(ps: seq<Manifest>, out: seq<Manifest>, n: nat, ctx: Context,
                                  isWorkspace: Manifest -> bool, manifestDir: Manifest -> string)
    requires n <= |ps| == |out|
  {
    forall j :: 0 <= j < n ==> ManifestCleaned(ps[j], out[j], ctx, isWorkspace, manifestDir)
  }

  /** Updating position `i` keeps the untouched tail. */
  lemma TailAfterUpdate(ps: seq<Manifest>, out: seq<Manifest>, i: nat, m: Manifest)
    requires i < |ps| == |out| && out[i..] == ps[i..]
    ensures out[i := m][i + 1..] == ps[i + 1..]
  {
    assert out[i + 1..] == out[i..][1..];
  }

  /** One package that cannot be cleaned makes the whole list fail. */
  lemma PackagesNotCleanable(ps: seq<Manifest>, i: nat, ctx: Context,
                             isWorkspace: Manifest -> bool, manifestDir: Manifest -> string)
    requires i < |ps| && !ManifestCleanable(ps[i], ctx, isWorkspace, manifestDir)
    ensures !PackagesCleanable(ps, |ps|, ctx, isWorkspace, manifestDir)
  {
  }

  /** One more package cleaned in place. */
  lemma PackagesStep(ps: seq<Manifest>, out: seq<Manifest>, i: nat, m: Manifest, ctx: Context,
                     isWorkspace: Manifest -> bool, manifestDir: Manifest -> string)
    requires i < |ps| == |out|
    requires PackagesCleaned(ps, out, i, ctx, isWorkspace, manifestDir)
    requires PackagesCleanable(ps, i, ctx, isWorkspace, manifestDir)
    requires ManifestCleaned(ps[i], m, ctx, isWorkspace, manifestDir)
    requires ManifestCleanable(ps[i], ctx, isWorkspace, manifestDir)
    ensures PackagesCleaned(ps, out[i := m], i + 1, ctx, isWorkspace, manifestDir)
    ensures PackagesCleanable(ps, i + 1, ctx, isWorkspace, manifestDir)
  {
    var out' := out[i := m];
    forall j | 0 <= j < i + 1 ensures ManifestCleaned(ps[j], out'[j], ctx, isWorkspace, manifestDir) {
      if j < i {
        assert out'[j] == out[j];
      }
    }
  }

  /** The `for pkg in &mut self.packages` loop of `Metadata::clean`: every
      package cleaned in place, stopping at the first failure. */
  method CleanPackages(ps: seq<Manifest>, ctx: Context, isWorkspace: Manifest -> bool, manifestDir: Manifest -> string)
    returns (r: Result<seq<Manifest>, CleanError>)
    ensures r.Ok? <==> PackagesCleanable(ps, |ps|, ctx, isWorkspace, manifestDir)
    ensures r.Ok? ==> |r.value| == |ps|
    ensures r.Ok? ==> PackagesCleaned(ps, r.value, |ps|, ctx, isWorkspace, manifestDir)
  {
    var out := ps;
    var i := 0;
    while i < |out|
      invariant 0 <= i <= |out| == |ps|
      invariant PackagesCleaned(ps, out, i, ctx, isWorkspace, manifestDir)
      invariant PackagesCleanable(ps, i, ctx, isWorkspace, manifestDir)
      invariant out[i..] == ps[i..]
    {
      var next := CleanPackageAt(ps, out, i, ctx, isWorkspace, manifestDir);
      if next.Err? {
        return Err(next.error);
      }
      out := next.value;
      i := i + 1;
    }
    r := Ok(out);
  }

  /** One turn of the package loop: the package at `i` cleaned in place. */
  method CleanPackageAt(ps: seq<Manifest>, out: seq<Manifest>, i: nat, ctx: Context,
                        isWorkspace: Manifest -> bool, manifestDir: Manifest -> string)
    returns (r: Result<seq<Manifest>, CleanError>)
    requires i < |ps| == |out| && out[i..] == ps[i..]
    requires PackagesCleaned(ps, out, i, ctx, isWorkspace, manifestDir)
    requires PackagesCleanable(ps, i, ctx, isWorkspace, manifestDir)
    ensures r.Err? <==> !ManifestCleanable(ps[i], ctx, isWorkspace, manifestDir)
    ensures r.Err? ==> !PackagesCleanable(ps, |ps|, ctx, isWorkspace, manifestDir)
    ensures r.Ok? ==> |r.value| == |ps| && r.value[i + 1..] == ps[i + 1..]
    ensures r.Ok? ==> PackagesCleaned(ps, r.value, i + 1, ctx, isWorkspace, manifestDir)
    ensures r.Ok? ==> PackagesCleanable(ps, i + 1, ctx, isWorkspace, manifestDir)
  {
    var m := CleanManifest(ps[i], ctx, isWorkspace, manifestDir);
    if m.Err? {
      PackagesNotCleanable(ps, i, ctx, isWorkspace, manifestDir);
      return Err(m.error);
    }
    PackagesStep(ps, out, i, m.value, ctx, isWorkspace, manifestDir);
    TailAfterUpdate(ps, out, i, m.value);
    r := Ok(out[i := m.value]);
  }

  /** The parsed `cargo metadata` document, which the clean rewrites in place. */
  class Metadata {
    var packages: seq<Manifest>
    var workspaceMembers: seq<PkgId>
    var workspaceDefaultMembers: seq<PkgId>
    var resolve: Resolve

    constructor (packages: seq<Manifest>, workspaceMembers: seq<PkgId>,
                 workspaceDefaultMembers: seq<PkgId>, resolve: Resolve)
      ensures this.packages == packages && this.workspaceMembers == workspaceMembers
      ensures this.workspaceDefaultMembers == workspaceDefaultMembers && this.resolve == resolve
    {
      this.packages := packages;
      this.workspaceMembers := workspaceMembers;
      this.workspaceDefaultMembers := workspaceDefaultMembers;
      this.resolve := resolve;
    }

    /** `for id in ids { id.clean(ctx) }` followed by `sort_unstable()`. */
    static method CleanMembers(ids: seq<PkgId>, ctx: Context) returns (r: Result<seq<PkgId>, CleanError>)
      ensures r.Ok? <==> forall id :: id in ids ==> IdCleanable(id, ctx)
      ensures r.Ok? ==> MembersCleaned(ids, r.value, ctx)
    {
      var out := ids;
      var i := 0;
      while i < |out|
        invariant 0 <= i <= |out| == |ids|
        invariant forall j :: 0 <= j < i ==> IdCleanable(ids[j], ctx) && out[j] == CleanPkgId(ids[j], ctx).value
        invariant forall j :: i <= j < |out| ==> out[j] == ids[j]
      {
        var c := CleanPkgId(out[i], ctx);
        if c.Err? {
          assert ids[i] in ids;
          return Err(c.error);
        }
        out := out[i := c.value];
        i := i + 1;
      }
      forall id | id in ids ensures IdCleanable(id, ctx) {
        var j :| 0 <= j < |ids| && ids[j] == id;
      }
      assert out == CleanedIds(ids, ctx);
      CmpPkgIdValid();
      SortBySorted(out, CmpPkgId);
      r := Ok(SortBy(out, CmpPkgId));
    }

    /** `Metadata::clean`: packages, then workspace members, then default
        members, then the resolve graph. On success every package is
        cleaned, the member lists are cleaned and sorted, and no package or
        node is added or removed. */
    method Clean(ctx: Context, isWorkspace: Manifest -> bool, manifestDir: Manifest -> string)
      returns (r: Result<(), CleanError>)
      modifies this
      ensures r.Ok? <==>
        && PackagesCleanable(old(packages), |old(packages)|, ctx, isWorkspace, manifestDir)
        && (forall id :: id in old(workspaceMembers) ==> IdCleanable(id, ctx))
        && (forall id :: id in old(workspaceDefaultMembers) ==> IdCleanable(id, ctx))
        && (forall n :: n in old(resolve).nodes ==> NodeCleanable(n, ctx))
      ensures r.Ok? ==> |packages| == |old(packages)|
      ensures r.Ok? ==> PackagesCleaned(old(packages), packages, |packages|, ctx, isWorkspace, manifestDir)
      ensures r.Ok? ==> MembersCleaned(old(workspaceMembers), workspaceMembers, ctx)
      ensures r.Ok? ==> MembersCleaned(old(workspaceDefaultMembers), workspaceDefaultMembers, ctx)
      ensures r.Ok? ==> |resolve.nodes| == |old(resolve).nodes|
      ensures r.Ok? ==> forall i :: 0 <= i < |resolve.nodes| ==> NodeCleaned(old(resolve).nodes[i], resolve.nodes[i], ctx)
    {
      var ps := CleanPackages(packages, ctx, isWorkspace, manifestDir);
      if ps.Err? {
        return Err(ps.error);
      }
      packages := ps.value;

      var members := CleanMembers(workspaceMembers, ctx);
      if members.Err? {
        return Err(members.error);
      }
      workspaceMembers := members.value;

      var defaults := CleanMembers(workspaceDefaultMembers, ctx);
      if defaults.Err? {
        return Err(defaults.error);
      }
      workspaceDefaultMembers := defaults.value;

      var res := CleanResolve(resolve, ctx);
      if res.Err? {
        return Err(res.error);
      }
      resolve := res.value;
      r := Ok(());
    }
  }
}
