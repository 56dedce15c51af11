/**
 * Nested PHP arrays as Drupal field values use them: maps from integer or
 * string keys to scalars or further arrays, and the two Drupal core helpers
 * the override engine is built from, `NestedArray::mergeDeepArray` (with
 * integer keys preserved) and `DiffArray::diffAssocRecursive`.
 *
 * PHP arrays are ordered; the order of keys is not modelled here.
 */
module PhpArray {
  import opened Wrappers

  /** A PHP scalar. `Str` and `Int` are distinct, as under `!==`. */
  datatype Scalar = Null | Bool(b: bool) | Int(i: int) | Str(s: string)

  /** An array key. PHP stores an integer-like string key as an integer. */
  datatype Key = IntKey(n: int) | StrKey(name: string)

  datatype Value = Leaf(scalar: Scalar) | Arr(entries: map<Key, Value>)

  type PhpArr = map<Key, Value>

  /** PHP's conversion of a scalar to bool, as used by `if`, `empty` and `array_filter`. */
  predicate ScalarTruthy(s: Scalar) {
    match s
    case Null => false
    case Bool(b) => b
    case Int(i) => i != 0
    case Str(t) => t != "" && t != "0"
  }

  /** `array_intersect_key($a, $b)`: the entries of `a` whose key is also a key of `b`. */
  function IntersectKey(a: PhpArr, b: PhpArr): (r: PhpArr)
    ensures r.Keys == a.Keys * b.Keys
    ensures forall k :: k in r ==> r[k] == a[k]
  {
    map k | k in a && k in b :: a[k]
  }

  /**
   * `NestedArray::mergeDeepArray([$a, $b], TRUE)`: start from `a`; for each
   * entry of `b`, recurse when both sides hold arrays, otherwise `b`'s value
   * wins. Integer keys are preserved rather than renumbered.
   */
  function MergeDeep(a: PhpArr, b: PhpArr): (r: PhpArr)
    ensures r.Keys == a.Keys + b.Keys
    decreases Arr(b)
  {
    map k | k in a.Keys + b.Keys ::
      if k in b then
        if k in a && a[k].Arr? && b[k].Arr? then Arr(MergeDeep(a[k].entries, b[k].entries)) else b[k]
      else a[k]
  }

  /**
   * `DiffArray::diffAssocRecursive($a, $b)`: the entries of `a` that `b` does
   * not hold. An array entry is kept whole when `b` has no array at that key
   * and kept as its (non-empty) recursive difference otherwise; a scalar entry
   * is kept when `b` lacks the key or holds something not identical to it.
   */
  function DiffAssocRecursive(a: PhpArr, b: PhpArr): (r: PhpArr)
    ensures r.Keys <= a.Keys
    decreases Arr(a), 0
  {
    map k | k in a && DiffAt(a[k], b, k).Some? :: DiffAt(a[k], b, k).value
  }

  /** What `DiffAssocRecursive` keeps of the entry `v` found at key `k`, if anything. */
  function DiffAt(v: Value, b: PhpArr, k: Key): Option<Value>
    decreases v, 1
  {
    match v
    case Arr(m) =>
      if k !in b || !b[k].Arr? then Some(v)
      else
        var d := DiffAssocRecursive(m, b[k].entries);
        if d == map[] then None else Some(Arr(d))
    case Leaf(_) =>
      if k !in b || b[k] != v then Some(v) else None
  }

  /**
   * `d` is a sub-tree of `e`: every key of `d` is a key of `e`, a scalar in
   * `d` is the scalar `e` holds there, and an array in `d` sits over an array
   * of `e` and is itself a sub-tree of it.
   */
  ghost predicate SubTree(d: PhpArr, e: PhpArr)
    decreases Arr(d)
  {
    forall k :: k in d ==>
      k in e &&
      match d[k]
      case Leaf(_) => d[k] == e[k]
      case Arr(dm) => e[k].Arr? && SubTree(dm, e[k].entries)
  }

  /**
   * `m` covers `c`: every key of `c` is a key of `m`, and where both hold
   * arrays the one in `m` covers the one in `c`.
   */
  ghost predicate Covers(m: PhpArr, c: PhpArr)
    decreases Arr(c)
  {
    forall k :: k in c ==>
      k in m && (c[k].Arr? && m[k].Arr? ==> Covers(m[k].entries, c[k].entries))
  }

  // ---------------------------------------------------------------------
  // Merge
  // ---------------------------------------------------------------------

  /** Merging an array with itself changes nothing. */
  lemma {:induction false} MergeDeepSelf(a: PhpArr)
    ensures MergeDeep(a, a) == a
    decreases Arr(a)
  {
    forall k | k in a ensures MergeDeep(a, a)[k] == a[k] {
      if a[k].Arr? { MergeDeepSelf(a[k].entries); }
    }
  }

  /** Merging into nothing gives the override itself. */
  lemma MergeDeepOntoEmpty(b: PhpArr)
    ensures MergeDeep(map[], b) == b
  {
  }

  /** Merging the same override a second time changes nothing more. */
  lemma {:induction false} MergeDeepIdempotent(a: PhpArr, b: PhpArr)
    ensures MergeDeep(MergeDeep(a, b), b) == MergeDeep(a, b)
    decreases Arr(b)
  {
    var m := MergeDeep(a, b);
    forall k | k in m ensures MergeDeep(m, b)[k] == m[k] {
      if k in b && m[k].Arr? && b[k].Arr? {
        if k in a && a[k].Arr? {
          MergeDeepIdempotent(a[k].entries, b[k].entries);
        } else {
          MergeDeepSelf(b[k].entries);
        }
      }
    }
  }

  /** Merging the original under an already merged value changes nothing. */
  lemma {:induction false} MergeDeepAbsorb(a: PhpArr, b: PhpArr)
    ensures MergeDeep(a, MergeDeep(a, b)) == MergeDeep(a, b)
    decreases Arr(b)
  {
    var m := MergeDeep(a, b);
    forall k | k in m ensures MergeDeep(a, m)[k] == m[k] {
      if k in a && a[k].Arr? && m[k].Arr? {
        if k in b && b[k].Arr? {
          MergeDeepAbsorb(a[k].entries, b[k].entries);
        } else if k !in b {
          MergeDeepSelf(a[k].entries);
        }
      }
    }
  }

  /** Override precedence: where the override holds a scalar, the merge holds that scalar. */
  lemma MergeDeepScalarWins(a: PhpArr, b: PhpArr, k: Key)
    requires k in b && b[k].Leaf?
    ensures k in MergeDeep(a, b) && MergeDeep(a, b)[k] == b[k]
  {
  }

  /** Keys the override does not mention keep the original's value. */
  lemma MergeDeepKeepsUnmentioned(a: PhpArr, b: PhpArr, k: Key)
    requires k in a && k !in b
    ensures k in MergeDeep(a, b) && MergeDeep(a, b)[k] == a[k]
  {
  }

  /** The merge is deep: two arrays at one key are merged, not replaced. */
  lemma MergeDeepRecurses(a: PhpArr, b: PhpArr, k: Key)
    requires k in a && k in b && a[k].Arr? && b[k].Arr?
    ensures MergeDeep(a, b)[k] == Arr(MergeDeep(a[k].entries, b[k].entries))
  {
  }

  /** A merge result covers the original it was merged onto. */
  lemma {:induction false} MergeDeepCovers(c: PhpArr, x: PhpArr)
    ensures Covers(MergeDeep(c, x), c)
    decreases Arr(x)
  {
    var m := MergeDeep(c, x);
    forall k | k in c && c[k].Arr? && m[k].Arr?
      ensures Covers(m[k].entries, c[k].entries)
    {
      if k in x {
        MergeDeepCovers(c[k].entries, x[k].entries);
      } else {
        CoversSelf(c[k].entries);
      }
    }
  }

  lemma {:induction false} CoversSelf(c: PhpArr)
    ensures Covers(c, c)
    decreases Arr(c)
  {
    forall k | k in c && c[k].Arr? ensures Covers(c[k].entries, c[k].entries) {
      CoversSelf(c[k].entries);
    }
  }

  // ---------------------------------------------------------------------
  // Diff
  // ---------------------------------------------------------------------

  /** Diffing against nothing keeps everything. */
  lemma {:induction false} DiffAgainstEmpty(a: PhpArr)
    ensures DiffAssocRecursive(a, map[]) == a
  {
    forall k | k in a ensures DiffAt(a[k], map[], k) == Some(a[k]) {
    }
  }

  /** The difference of an array and one of its sub-trees' super-trees is empty: a sub-tree has nothing to report. */
  lemma {:induction false} DiffOfSubTree(x: PhpArr, o: PhpArr)
    requires SubTree(x, o)
    ensures DiffAssocRecursive(x, o) == map[]
    decreases Arr(x)
  {
    forall k | k in x ensures DiffAt(x[k], o, k).None? {
      if x[k].Arr? {
        DiffOfSubTree(x[k].entries, o[k].entries);
      }
    }
  }

  lemma {:induction false} SubTreeSelf(a: PhpArr)
    ensures SubTree(a, a)
    decreases Arr(a)
  {
    forall k | k in a && a[k].Arr? ensures SubTree(a[k].entries, a[k].entries) {
      SubTreeSelf(a[k].entries);
    }
  }

  /** Identity: an array differs from itself in nothing. */
  lemma DiffSelf(a: PhpArr)
    ensures DiffAssocRecursive(a, a) == map[]
  {
    SubTreeSelf(a);
    DiffOfSubTree(a, a);
  }

  /** The difference only ever reports entries of its first argument, unchanged at the leaves. */
  lemma {:induction false} DiffIsSubTree(a: PhpArr, b: PhpArr)
    ensures SubTree(DiffAssocRecursive(a, b), a)
    decreases Arr(a)
  {
    var d := DiffAssocRecursive(a, b);
    forall k | k in d ensures
      k in a &&
      match d[k]
      case Leaf(_) => d[k] == a[k]
      case Arr(dm) => a[k].Arr? && SubTree(dm, a[k].entries)
    {
      if a[k].Arr? {
        if k !in b || !b[k].Arr? {
          SubTreeSelf(a[k].entries);
        } else {
          DiffIsSubTree(a[k].entries, b[k].entries);
        }
      }
    }
  }

  /**
   * Merge-then-diff reports only what the edit said: diffing `MergeDeep(y, e)`
   * against `o`, where `y` is a sub-tree of `o`, yields a sub-tree of `e`.
   * In particular, keys present only in the original never appear.
   */
  lemma {:induction false} DiffOfMergeWithinEdit(y: PhpArr, e: PhpArr, o: PhpArr)
    requires SubTree(y, o)
    ensures SubTree(DiffAssocRecursive(MergeDeep(y, e), o), e)
    decreases Arr(e)
  {
    var m := MergeDeep(y, e);
    var d := DiffAssocRecursive(m, o);
    forall k | k in m ensures k in d ==>
      k in e &&
      match d[k]
      case Leaf(_) => d[k] == e[k]
      case Arr(dm) => e[k].Arr? && SubTree(dm, e[k].entries)
    {
      assert k in d <==> DiffAt(m[k], o, k).Some?;
      assert k in d ==> d[k] == DiffAt(m[k], o, k).value;
      if k !in e {
        assert k in y && m[k] == y[k];
        assert k in o;
        if y[k].Arr? {
          assert o[k].Arr? && SubTree(y[k].entries, o[k].entries);
          DiffOfSubTree(y[k].entries, o[k].entries);
        } else {
          assert y[k] == o[k];
        }
        assert k !in d;
      } else if k in y && y[k].Arr? && e[k].Arr? {
        assert o[k].Arr? && SubTree(y[k].entries, o[k].entries);
        assert m[k] == Arr(MergeDeep(y[k].entries, e[k].entries));
        DiffOfMergeWithinEdit(y[k].entries, e[k].entries, o[k].entries);
      } else {
        assert m[k] == e[k];
        if e[k].Arr? {
          if k !in o || !o[k].Arr? {
            SubTreeSelf(e[k].entries);
          } else {
            DiffIsSubTree(e[k].entries, o[k].entries);
          }
        }
      }
    }
  }

  /** When `m` covers `c` and differs from it in nothing, the two are equal. */
  lemma {:induction false} EmptyDiffOfCoverIsEqual(m: PhpArr, c: PhpArr)
    requires Covers(m, c) && DiffAssocRecursive(m, c) == map[]
    ensures m == c
    decreases Arr(m)
  {
    forall k | k in m ensures k in c && m[k] == c[k] {
      assert k !in DiffAssocRecursive(m, c);
      assert DiffAt(m[k], c, k).None?;
      if m[k].Arr? {
        EmptyDiffOfCoverIsEqual(m[k].entries, c[k].entries);
      }
    }
    assert m.Keys == c.Keys;
  }

  /**
   * The stored difference restores the edited value: merging
   * `DiffAssocRecursive(m, c)` back onto `c` gives `m`, whenever `m` covers `c`.
   */
  lemma {:induction false} MergeOfDiffRestores(m: PhpArr, c: PhpArr)
    requires Covers(m, c)
    ensures MergeDeep(c, DiffAssocRecursive(m, c)) == m
    decreases Arr(m)
  {
    var d := DiffAssocRecursive(m, c);
    var r := MergeDeep(c, d);
    forall k | k in r ensures k in m && r[k] == m[k] {
      if k in m && k in c && m[k].Arr? && c[k].Arr? {
        if k in d {
          MergeOfDiffRestores(m[k].entries, c[k].entries);
        } else {
          EmptyDiffOfCoverIsEqual(m[k].entries, c[k].entries);
        }
      }
    }
  }

  /**
   * Idempotence of the override cycle: merging the difference of
   * `MergeDeep(c, x)` and `c` back onto `c` reproduces `MergeDeep(c, x)`.
   */
  lemma MergeDiffMergeIdempotent(c: PhpArr, x: PhpArr)
    ensures MergeDeep(c, DiffAssocRecursive(MergeDeep(c, x), c)) == MergeDeep(c, x)
  {
    MergeDeepCovers(c, x);
    MergeOfDiffRestores(MergeDeep(c, x), c);
  }
}
