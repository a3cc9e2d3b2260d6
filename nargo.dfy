/**
 * The compact package id of crates/nargo-core/src/nargo/mod.rs: conversion
 * from cargo's serialized package-id spec, and the derived order.
 */
module Nargo {
  import opened Wrappers
  import opened Text
  import opened Ordering

  const CRATES_IO_REGISTRY: string := "registry+" + "https://github.com/rust-lang/crates.io-index"
  const PATH_FILE: string := "path+file://"
  /** The characters trimmed after a workspace prefix. */
  const ID_SEPARATORS: set<char> := {'#', '/'}

  /** `PkgId` wraps a string; its derived `Ord` is the string's. */
  datatype PkgId = PkgId(id: string)

  function CmpPkgId(a: PkgId, b: PkgId): Ordering {
    CmpStr(a.id, b.id)
  }

  /** The derived order is a total order: a valid comparison under which
      only equal ids compare Equal. */
  lemma CmpPkgIdTotalOrder()
    ensures ValidCmp(CmpPkgId)
    ensures forall a, b :: CmpPkgId(a, b) == Equal <==> a == b
  {
    CmpStrValid();
    forall a: PkgId, b: PkgId ensures CmpPkgId(a, b) == Equal <==> a == b {
      CmpStrEqual(a.id, b.id);
    }
  }

  /** `PkgId::try_from_cargo_pkg_id_inner`. A local path id must lie under
      `workspaceRoot`; what follows the root, less its leading `#`/`/`, is the
      id. A crates.io id loses exactly the registry prefix. Any other id (a
      git id, say) is kept whole. */
  function TryFromCargoPkgIdInner(id: string, workspaceRoot: string): (r: Option<PkgId>)
    ensures StartsWith(id, PATH_FILE) ==>
      (r.Some? <==> StartsWith(id[|PATH_FILE|..], workspaceRoot))
    ensures StartsWith(id, PATH_FILE) && r.Some? ==>
      IsTrimStart(id[|PATH_FILE| + |workspaceRoot|..], ID_SEPARATORS, r.value.id)
    ensures !StartsWith(id, PATH_FILE) && StartsWith(id, CRATES_IO_REGISTRY) ==>
      r.Some? && CRATES_IO_REGISTRY + r.value.id == id
    ensures !StartsWith(id, PATH_FILE) && !StartsWith(id, CRATES_IO_REGISTRY) ==>
      r == Some(PkgId(id))
  {
    match StripPrefix(id, PATH_FILE)
    case Some(rest) =>
      (match StripPrefix(rest, workspaceRoot)
       case None => None
       case Some(rest2) => Some(PkgId(TrimStartMatches(rest2, ID_SEPARATORS))))
    case None =>
      match StripPrefix(id, CRATES_IO_REGISTRY)
      case Some(rest) => Some(PkgId(rest))
      case None => Some(PkgId(id))
  }

  /** `PkgId::try_from_cargo_pkg_id`: the conversion, or an abort whose
      context is the offending id. */
  function TryFromCargoPkgId(id: string, workspaceRoot: string): (r: Result<PkgId, string>)
    ensures r.Ok? <==> TryFromCargoPkgIdInner(id, workspaceRoot).Some?
    ensures r.Ok? ==> r.value == TryFromCargoPkgIdInner(id, workspaceRoot).value
    ensures r.Err? ==> r.error == id
  {
    match TryFromCargoPkgIdInner(id, workspaceRoot)
    case Some(p) => Ok(p)
    case None => Err(id)
  }

  /** A local path id under the root keeps what follows the root, less
      its leading separators. */
  lemma PathIdUnderRoot(root: string, tail: string)
    ensures TryFromCargoPkgIdInner(PATH_FILE + root + tail, root) == Some(PkgId(TrimStartMatches(tail, ID_SEPARATORS)))
  {
    assert PATH_FILE + root + tail == PATH_FILE + (root + tail);
    StripPrefixOfConcat(PATH_FILE, root + tail);
    StripPrefixOfConcat(root, tail);
  }

  /** One separator in front of a name that does not start with one is
      trimmed away. */
  lemma TrimOneSeparator(sep: char, name: string)
    requires sep in ID_SEPARATORS
    requires name != [] && name[0] !in ID_SEPARATORS
    ensures TrimStartMatches([sep] + name, ID_SEPARATORS) == name
  {
    assert ([sep] + name)[1..] == name;
  }

  // The source's unit-test cases, generalised to any workspace root and
  // any name that does not itself start with a separator.

  /** A member below the root ("path+file://<root>/age#0.10.0" becomes
      "age#0.10.0"). */
  lemma PathIdBelowRoot(root: string, name: string)
    requires name != [] && name[0] !in ID_SEPARATORS
    ensures TryFromCargoPkgIdInner(PATH_FILE + root + ['/'] + name, root) == Some(PkgId(name))
  {
    assert PATH_FILE + root + ['/'] + name == PATH_FILE + root + (['/'] + name);
    PathIdUnderRoot(root, ['/'] + name);
    TrimOneSeparator('/', name);
  }

  /** The package at the root itself ("path+file://<root>#dependencies@0.0.0"
      becomes "dependencies@0.0.0"). */
  lemma PathIdAtRoot(root: string, name: string)
    requires name != [] && name[0] !in ID_SEPARATORS
    ensures TryFromCargoPkgIdInner(PATH_FILE + root + ['#'] + name, root) == Some(PkgId(name))
  {
    assert PATH_FILE + root + ['#'] + name == PATH_FILE + root + (['#'] + name);
    PathIdUnderRoot(root, ['#'] + name);
    TrimOneSeparator('#', name);
  }

  lemma CratesIoId(root: string)
    ensures TryFromCargoPkgIdInner(CRATES_IO_REGISTRY + "#aes-gcm@0.10.3", root) == Some(PkgId("#aes-gcm@0.10.3"))
  {
    assert (CRATES_IO_REGISTRY + "#aes-gcm@0.10.3")[0] == 'r';
    NotStartsWith(CRATES_IO_REGISTRY + "#aes-gcm@0.10.3", PATH_FILE);
    StripPrefixOfConcat(CRATES_IO_REGISTRY, "#aes-gcm@0.10.3");
  }

  /** Every git id (the test uses
      "git+http://github.com/dtolnay/semver?branch=master#a6425e6f...") is kept whole. */
  lemma GitId(rest: string, root: string)
    ensures TryFromCargoPkgIdInner("git+" + rest, root) == Some(PkgId("git+" + rest))
  {
    NotStartsWith("git+" + rest, PATH_FILE);
    NotStartsWith("git+" + rest, CRATES_IO_REGISTRY);
  }
}
