/**
 * Rust's `Ord` as nargo uses it: `cmp` returning an `Ordering`,
 * `Ordering::then`, the derived lexicographic order of `str` and `Vec`,
 * and `sort_unstable_by` on a vector.
 */
module Ordering {

  datatype Ordering = Less | Equal | Greater

  function Flip(o: Ordering): Ordering {
    match o
    case Less => Greater
    case Equal => Equal
    case Greater => Less
  }

  /** `Ordering::then` / `then_with`: the second comparison decides only a tie. */
  function Then(first: Ordering, next: Ordering): Ordering {
    if first == Equal then next else first
  }

  /** What `Ord` demands of `cmp`: swapping the operands flips the answer, and
      "not greater" is transitive. Together they make "not greater" a total
      preorder. */
  ghost predicate ValidCmp<T(!new)>(cmp: (T, T) -> Ordering) {
    && (forall a, b :: cmp(a, b) == Flip(cmp(b, a)))
    && (forall a, b, c :: cmp(a, b) != Greater && cmp(b, c) != Greater ==> cmp(a, c) != Greater)
  }

  /** Characters compare by code point, which is also the byte order of
      their UTF-8 encodings. */
  function CmpChar(a: char, b: char): Ordering {
    if a < b then Less else if a == b then Equal else Greater
  }

  function CmpNat(a: nat, b: nat): Ordering {
    if a < b then Less else if a == b then Equal else Greater
  }

  /** The derived lexicographic order on sequences: the first unequal pair of
      elements decides; a proper prefix is smaller. */
  function CmpLex<T>(a: seq<T>, b: seq<T>, cmp: (T, T) -> Ordering): Ordering {
    if a == [] && b == [] then Equal
    else if a == [] then Less
    else if b == [] then Greater
    else Then(cmp(a[0], b[0]), CmpLex(a[1..], b[1..], cmp))
  }

  /** `Ord for str` */
  function CmpStr(a: string, b: string): Ordering {
    CmpLex(a, b, CmpChar)
  }

  /** `Ord for Vec<&str>` */
  function CmpStrs(a: seq<string>, b: seq<string>): Ordering {
    CmpLex(a, b, CmpStr)
  }

  lemma CmpCharValid()
    ensures ValidCmp(CmpChar)
  {
  }

  lemma CmpNatValid()
    ensures ValidCmp(CmpNat)
  {
  }

  /** Equal under a valid comparison is reflexive. */
  lemma {:induction false} CmpLexRefl<T(!new)>(a: seq<T>, cmp: (T, T) -> Ordering)
    requires ValidCmp(cmp)
    ensures CmpLex(a, a, cmp) == Equal
  {
    if a != [] {
      assert cmp(a[0], a[0]) == Flip(cmp(a[0], a[0]));
      CmpLexRefl(a[1..], cmp);
    }
  }

  lemma {:induction false} CmpLexFlip<T(!new)>(a: seq<T>, b: seq<T>, cmp: (T, T) -> Ordering)
    requires ValidCmp(cmp)
    ensures CmpLex(a, b, cmp) == Flip(CmpLex(b, a, cmp))
  {
    if a != [] && b != [] {
      assert cmp(a[0], b[0]) == Flip(cmp(b[0], a[0]));
      CmpLexFlip(a[1..], b[1..], cmp);
    }
  }

  /** From the two laws of ValidCmp: chaining two "not greater" steps gives
      Equal exactly when both steps are Equal. */
  lemma ChainStrict<T(!new)>(a: T, b: T, c: T, cmp: (T, T) -> Ordering)
    requires ValidCmp(cmp)
    requires cmp(a, b) != Greater && cmp(b, c) != Greater
    ensures cmp(a, c) == (if cmp(a, b) == Equal && cmp(b, c) == Equal then Equal else Less)
  {
    assert cmp(a, c) != Greater;
    assert cmp(a, b) == Flip(cmp(b, a)) && cmp(b, c) == Flip(cmp(c, b)) && cmp(a, c) == Flip(cmp(c, a));
    if cmp(a, b) == Equal && cmp(b, c) == Equal {
      assert cmp(c, b) != Greater && cmp(b, a) != Greater;
    } else if cmp(a, b) == Less {
      // were c not above a, then b would not be above a
      assert cmp(b, c) != Greater ==> (cmp(c, a) != Greater ==> cmp(b, a) != Greater);
    } else {
      assert cmp(c, a) != Greater ==> (cmp(a, b) != Greater ==> cmp(c, b) != Greater);
    }
  }

  lemma {:induction false} CmpLexTrans<T(!new)>(a: seq<T>, b: seq<T>, c: seq<T>, cmp: (T, T) -> Ordering)
    requires ValidCmp(cmp)
    requires CmpLex(a, b, cmp) != Greater && CmpLex(b, c, cmp) != Greater
    ensures CmpLex(a, c, cmp) != Greater
  {
    if a != [] {
      assert b != [] && c != [];
      var h1, h2 := cmp(a[0], b[0]), cmp(b[0], c[0]);
      assert h1 != Greater && h2 != Greater;
      ChainStrict(a[0], b[0], c[0], cmp);
      if h1 == Equal && h2 == Equal {
        CmpLexTrans(a[1..], b[1..], c[1..], cmp);
      }
    }
  }

  lemma CmpLexValid<T(!new)>(cmp: (T, T) -> Ordering)
    requires ValidCmp(cmp)
    ensures ValidCmp((a: seq<T>, b: seq<T>) => CmpLex(a, b, cmp))
  {
    forall a: seq<T>, b: seq<T> ensures CmpLex(a, b, cmp) == Flip(CmpLex(b, a, cmp)) {
      CmpLexFlip(a, b, cmp);
    }
    forall a: seq<T>, b: seq<T>, c: seq<T> | CmpLex(a, b, cmp) != Greater && CmpLex(b, c, cmp) != Greater
      ensures CmpLex(a, c, cmp) != Greater
    {
      CmpLexTrans(a, b, c, cmp);
    }
  }

  lemma CmpStrValid()
    ensures ValidCmp(CmpStr)
  {
    CmpCharValid();
    forall a: string, b: string ensures CmpStr(a, b) == Flip(CmpStr(b, a)) {
      CmpLexFlip(a, b, CmpChar);
    }
    forall a: string, b: string, c: string | CmpStr(a, b) != Greater && CmpStr(b, c) != Greater
      ensures CmpStr(a, c) != Greater
    {
      CmpLexTrans(a, b, c, CmpChar);
    }
  }

  lemma CmpStrsValid()
    ensures ValidCmp(CmpStrs)
  {
    CmpStrValid();
    forall a: seq<string>, b: seq<string> ensures CmpStrs(a, b) == Flip(CmpStrs(b, a)) {
      CmpLexFlip(a, b, CmpStr);
    }
    forall a: seq<string>, b: seq<string>, c: seq<string> | CmpStrs(a, b) != Greater && CmpStrs(b, c) != Greater
      ensures CmpStrs(a, c) != Greater
    {
      CmpLexTrans(a, b, c, CmpStr);
    }
  }

  /** Strings compare Equal only when they are the same string, so the
      string order is total and antisymmetric, not just a preorder. */
  lemma {:induction false} CmpStrEqual(a: string, b: string)
    ensures CmpStr(a, b) == Equal <==> a == b
  {
    if a != [] && b != [] {
      CmpStrEqual(a[1..], b[1..]);
      if a[0] == b[0] && a[1..] == b[1..] {
        assert a == [a[0]] + a[1..] && b == [b[0]] + b[1..];
      }
    } else if a == b {
      CmpCharValid();
      CmpLexRefl(a, CmpChar);
    }
  }

  // ---- sort_unstable_by ----

  ghost predicate SortedBy<T>(s: seq<T>, cmp: (T, T) -> Ordering) {
    forall i, j :: 0 <= i < j < |s| ==> cmp(s[i], s[j]) != Greater
  }

  function Insert<T>(x: T, s: seq<T>, cmp: (T, T) -> Ordering): (r: seq<T>)
    ensures multiset(r) == multiset(s) + multiset{x}
  {
    if s == [] then [x]
    else if cmp(x, s[0]) != Greater then [x] + s
    else
      assert s == [s[0]] + s[1..];
      [s[0]] + Insert(x, s[1..], cmp)
  }

  /** A model of `sort_unstable_by`: an insertion sort. The source leaves the
      order of elements that compare Equal unspecified; this model fixes one,
      and its contract promises only what `sort_unstable_by` does: the result
      is a permutation of the input, sorted by `cmp`. */
  function SortBy<T>(s: seq<T>, cmp: (T, T) -> Ordering): (r: seq<T>)
    ensures multiset(r) == multiset(s)
    ensures |r| == |s|
  {
    if s == [] then []
    else
      assert s == [s[0]] + s[1..];
      Insert(s[0], SortBy(s[1..], cmp), cmp)
  }

  lemma {:induction false} InsertSorted<T(!new)>(x: T, s: seq<T>, cmp: (T, T) -> Ordering)
    requires ValidCmp(cmp)
    requires SortedBy(s, cmp)
    ensures SortedBy(Insert(x, s, cmp), cmp)
  {
    if s != [] && cmp(x, s[0]) == Greater {
      InsertSorted(x, s[1..], cmp);
      var r := Insert(x, s, cmp);
      var t := Insert(x, s[1..], cmp);
      assert r == [s[0]] + t;
      assert cmp(s[0], x) == Flip(cmp(x, s[0]));
      forall j | 0 < j < |r| ensures cmp(s[0], r[j]) != Greater {
        assert r[j] in multiset(t);
        assert r[j] == x || r[j] in multiset(s[1..]);
        if r[j] != x {
          var k :| 0 <= k < |s[1..]| && s[1..][k] == r[j];
          assert s[k + 1] == r[j];
        }
      }
    } else if s != [] {
      var r := [x] + s;
      forall j | 0 < j < |r| ensures cmp(x, r[j]) != Greater {
        if j > 1 {
          assert cmp(s[0], s[j - 1]) != Greater;
        }
      }
    }
  }

  lemma {:induction false} SortBySorted<T(!new)>(s: seq<T>, cmp: (T, T) -> Ordering)
    requires ValidCmp(cmp)
    ensures SortedBy(SortBy(s, cmp), cmp)
  {
    if s != [] {
      SortBySorted(s[1..], cmp);
      InsertSorted(s[0], SortBy(s[1..], cmp), cmp);
    }
  }
}
