/**
 * The records that `cargo metadata` JSON is parsed into (crates/nargo-metadata/src/input.rs),
 * with JSON already decoded into values, and the `DepKind` decoder.
 */
module Input {
  import opened Wrappers
  import opened Ordering

  /** A package id as cargo writes it, before cleaning. */
  datatype PkgId = PkgId(id: string)

  datatype DepKind = Normal | Dev | Build

  /** A dependency's target-platform predicate: raw JSON text, compared only
      as a whole. */
  type Platform = string

  datatype ManifestDependency = ManifestDependency(
    name: string,
    source: Option<string>,
    req: string,
    kind: DepKind,
    optional: bool,
    usesDefaultFeatures: bool,
    features: seq<string>,
    target: Option<Platform>,
    rename: Option<string>,
    registry: Option<string>,
    path: Option<string>)

  datatype ManifestTarget = ManifestTarget(
    name: string,
    kind: seq<string>,
    crateTypes: seq<string>,
    requiredFeatures: seq<string>,
    srcPath: string,
    edition: string)

  datatype Manifest = Manifest(
    name: string,
    version: string,
    id: PkgId,
    source: Option<string>,
    dependencies: seq<ManifestDependency>,
    targets: seq<ManifestTarget>,
    features: map<string, seq<string>>,
    manifestPath: string,
    edition: string,
    links: Option<string>,
    defaultRun: Option<string>,
    rustVersion: Option<string>)

  datatype NodeDepKind = NodeDepKind(kind: DepKind, target: Option<Platform>)

  datatype NodeDep = NodeDep(name: string, pkg: PkgId, depKinds: seq<NodeDepKind>)

  datatype Node = Node(id: PkgId, deps: seq<NodeDep>)

  datatype Resolve = Resolve(nodes: seq<Node>)

  datatype DecodeError = UnknownVariant(variant: string, expected: seq<string>)

  /** How cargo writes a dependency kind: absent/null for a normal dependency. */
  function EncodeDepKind(k: DepKind): Option<string> {
    match k
    case Normal => None
    case Dev => Some("dev")
    case Build => Some("build")
  }

  /** The hand-written `Deserialize for DepKind`: null is Normal, "dev" and
      "build" their variants, anything else an unknown-variant error. The
      decoder accepts exactly the three encodings and inverts them. */
  function DecodeDepKind(v: Option<string>): (r: Result<DepKind, DecodeError>)
    ensures r.Ok? <==> (v == None || v == Some("dev") || v == Some("build"))
    ensures r.Ok? ==> EncodeDepKind(r.value) == v
    ensures r.Err? ==> r.error == UnknownVariant(v.value, ["dev", "build"])
  {
    match v
    case None => Ok(Normal)
    case Some(s) =>
      if s == "dev" then Ok(Dev)
      else if s == "build" then Ok(Build)
      else Err(UnknownVariant(s, ["dev", "build"]))
  }

  lemma DecodeEncodeDepKind(k: DepKind)
    ensures DecodeDepKind(EncodeDepKind(k)) == Ok(k)
  {
  }

  /** `#[serde(default)]` on `required_features`: an absent field is empty. */
  function DecodeRequiredFeatures(field: Option<seq<string>>): (r: seq<string>)
    ensures field.None? ==> r == []
    ensures field.Some? ==> r == field.value
  {
    match field
    case None => []
    case Some(fs) => fs
  }

  /** DepKind compared in declaration order: Normal < Dev < Build. */
  function KindRank(k: DepKind): nat {
    match k
    case Normal => 0
    case Dev => 1
    case Build => 2
  }

  function CmpDepKind(a: DepKind, b: DepKind): Ordering {
    CmpNat(KindRank(a), KindRank(b))
  }

  /** Option<Platform>: None before Some, platforms by their text. */
  function CmpPlatform(a: Option<Platform>, b: Option<Platform>): Ordering {
    match (a, b)
    case (None, None) => Equal
    case (None, Some(_)) => Less
    case (Some(_), None) => Greater
    case (Some(x), Some(y)) => CmpStr(x, y)
  }

  lemma CmpDepKindValid()
    ensures ValidCmp(CmpDepKind)
  {
    CmpNatValid();
  }

  lemma CmpPlatformValid()
    ensures ValidCmp(CmpPlatform)
  {
    CmpStrValid();
    forall a, b, c | CmpPlatform(a, b) != Greater && CmpPlatform(b, c) != Greater
      ensures CmpPlatform(a, c) != Greater
    {
      if a.Some? && c.Some? {
        assert b.Some?;
        assert CmpStr(a.value, b.value) != Greater && CmpStr(b.value, c.value) != Greater;
      }
    }
  }
}
