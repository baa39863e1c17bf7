/** Facts about sequences shared by the label index, the task store and both samplers. */
module Seqs {

  /** The distinct values of `s`, Python's `set(s)`. */
  function Elements<T>(s: seq<T>): set<T>
  {
    set x | x in s
  }

  predicate NoDuplicates<T(==)>(s: seq<T>)
  {
    forall i, j | 0 <= i < j < |s| :: s[i] != s[j]
  }

  predicate StrictlyIncreasing(s: seq<int>)
  {
    forall i, j | 0 <= i < j < |s| :: s[i] < s[j]
  }

  /**
   * `d` is what a draw of `k` elements without replacement from `pop` may return:
   * `k` values taken at distinct positions of `pop`, in any order.
   */
  ghost predicate IsSample<T>(d: seq<T>, k: int, pop: seq<T>)
  {
    |d| == k && multiset(d) <= multiset(pop)
  }

  /** `p` is what `torch.randperm(n)` may return: each of 0..n-1 exactly once. */
  predicate IsPermutation(p: seq<nat>, n: nat)
  {
    |p| == n && NoDuplicates(p) && forall i | 0 <= i < |p| :: p[i] < n
  }

  /** Python's `len(set(s)) == len(s)` holds exactly when `s` repeats no value. */
  lemma {:induction false} CardinalityOfElements<T>(s: seq<T>)
    ensures |Elements(s)| <= |s|
    ensures NoDuplicates(s) <==> |Elements(s)| == |s|
  {
    if s != [] {
      var init, x := s[..|s| - 1], s[|s| - 1];
      CardinalityOfElements(init);
      assert s == init + [x];
      assert Elements(s) == Elements(init) + {x};
      if x in init {
        var i :| 0 <= i < |init| && init[i] == x;
        assert s[i] == s[|s| - 1];
        assert Elements(s) == Elements(init);
      } else {
        assert |Elements(s)| == |Elements(init)| + 1;
        if NoDuplicates(init) {
          forall i, j | 0 <= i < j < |s| ensures s[i] != s[j] {
            if j < |s| - 1 {
              assert s[i] == init[i] && s[j] == init[j];
            }
          }
        }
        if NoDuplicates(s) {
          forall i, j | 0 <= i < j < |init| ensures init[i] != init[j] {
            assert init[i] == s[i] && init[j] == s[j];
          }
        }
      }
    }
  }

  /** A sequence repeats no value exactly when no value occurs in it twice. */
  lemma {:induction false} NoDuplicatesCounts<T>(s: seq<T>)
    ensures NoDuplicates(s) <==> forall x :: multiset(s)[x] <= 1
  {
    if s != [] {
      var init, x := s[..|s| - 1], s[|s| - 1];
      NoDuplicatesCounts(init);
      assert s == init + [x];
      assert multiset(s) == multiset(init) + multiset{x};
      if NoDuplicates(s) {
        assert NoDuplicates(init) by {
          forall i, j | 0 <= i < j < |init| ensures init[i] != init[j] {
            assert init[i] == s[i] && init[j] == s[j];
          }
        }
        forall i | 0 <= i < |init| ensures init[i] != x {
          assert init[i] == s[i];
        }
        assert multiset(init)[x] == 0;
      } else {
        var i, j :| 0 <= i < j < |s| && s[i] == s[j];
        if j < |s| - 1 {
          assert init[i] == init[j];
          assert !NoDuplicates(init);
          var y :| multiset(init)[y] > 1;
          assert multiset(s)[y] > 1;
        } else {
          assert init[i] == x;
          assert multiset(init)[x] >= 1;
          assert multiset(s)[x] >= 2;
        }
      }
    }
  }

  /** A draw without replacement from a population without repeats has no repeats either. */
  lemma SampleOfDistinct<T>(d: seq<T>, k: int, pop: seq<T>)
    requires IsSample(d, k, pop) && NoDuplicates(pop)
    ensures NoDuplicates(d)
    ensures forall x | x in d :: x in pop
  {
    NoDuplicatesCounts(pop);
    NoDuplicatesCounts(d);
    forall x | x in d ensures x in pop {
      assert x in multiset(d);
    }
  }

  /** Blocks laid end to end: `torch.stack(...).reshape(-1)` and `list.extend` in a loop. */
  function Concat<T>(blocks: seq<seq<T>>): seq<T>
  {
    if blocks == [] then [] else Concat(blocks[..|blocks| - 1]) + blocks[|blocks| - 1]
  }

  /** A grid of rows of width `w`, transposed (`.t()`): column `j` holds the `j`-th entry of each row. */
  function Transpose<T>(rows: seq<seq<T>>, w: nat): (cols: seq<seq<T>>)
    requires forall c | 0 <= c < |rows| :: |rows[c]| == w
    ensures |cols| == w
    ensures forall j | 0 <= j < w :: |cols[j]| == |rows| && forall c | 0 <= c < |rows| :: cols[j][c] == rows[c][j]
  {
    seq(w, j requires 0 <= j < w => seq(|rows|, c requires 0 <= c < |rows| => rows[c][j]))
  }

  /** Transposing twice gives the rows back: `.t()` loses nothing. */
  lemma TransposeTwice<T>(rows: seq<seq<T>>, w: nat)
    requires forall c | 0 <= c < |rows| :: |rows[c]| == w
    ensures Transpose(Transpose(rows, w), |rows|) == rows
  {
    var back := Transpose(Transpose(rows, w), |rows|);
    forall c | 0 <= c < |rows| ensures back[c] == rows[c] {
      assert |back[c]| == w;
    }
  }

  lemma MulMonotone(a: int, b: int, w: int)
    requires a <= b && 0 <= w
    ensures a * w <= b * w
  {
    assert b * w - a * w == (b - a) * w;
  }

  /** A natural number divided by a positive width has a natural quotient and a remainder below the width. */
  lemma DivModNat(k: int, w: int)
    requires 0 <= k && 0 < w
    ensures 0 <= k / w && 0 <= k % w < w
  {
    assert k == (k / w) * w + k % w;
  }

  /** Two different indices differ in their quotient or their remainder. */
  lemma DivModDistinct(k1: int, k2: int, w: int)
    requires 0 < w && k1 != k2
    ensures k1 / w != k2 / w || k1 % w != k2 % w
  {
    assert k1 == (k1 / w) * w + k1 % w && k2 == (k2 / w) * w + k2 % w;
  }

  /** Blocks of width `w` laid end to end have `w` entries per block. */
  lemma {:induction false} ConcatLength<T>(blocks: seq<seq<T>>, w: nat)
    requires forall b | 0 <= b < |blocks| :: |blocks[b]| == w
    ensures |Concat(blocks)| == |blocks| * w
  {
    if blocks != [] {
      var n := |blocks|;
      ConcatLength(blocks[..n - 1], w);
      assert (n - 1) * w + w == n * w;
    }
  }

  /** Entry `j` of block `b` sits at `b * w + j` once blocks of width `w` are laid end to end. */
  lemma {:induction false} ConcatAt<T>(blocks: seq<seq<T>>, w: nat, b: nat, j: nat)
    requires forall b' | 0 <= b' < |blocks| :: |blocks[b']| == w
    requires b < |blocks| && j < w
    ensures b * w + j < |Concat(blocks)| && Concat(blocks)[b * w + j] == blocks[b][j]
  {
    var n := |blocks|;
    var init := blocks[..n - 1];
    ConcatLength(init, w);
    ConcatLength(blocks, w);
    if b < n - 1 {
      ConcatAt(init, w, b, j);
      assert Concat(blocks) == Concat(init) + blocks[n - 1];
    }
  }

  /** The quotient and remainder of an index below `n * w`. */
  lemma DivModBounds(k: int, w: int, n: int)
    requires 0 <= k < n * w && 0 <= n
    ensures 0 < w && 0 <= k / w < n && 0 <= k % w < w && k == k / w * w + k % w
  {
    if w <= 0 {
      assert false;
    }
    if k / w >= n {
      MulMonotone(n, k / w, w);
      assert false;
    }
  }

  /** Entry `k` of equal-width blocks laid end to end is entry `k % w` of block `k / w`. */
  lemma ConcatEntry<T>(blocks: seq<seq<T>>, w: nat, k: int)
    requires forall b | 0 <= b < |blocks| :: |blocks[b]| == w
    requires 0 <= k < |blocks| * w
    ensures |Concat(blocks)| == |blocks| * w
    ensures 0 < w && 0 <= k / w < |blocks| && 0 <= k % w < w && Concat(blocks)[k] == blocks[k / w][k % w]
  {
    ConcatLength(blocks, w);
    DivModBounds(k, w, |blocks|);
    ConcatAt(blocks, w, k / w, k % w);
  }

  /** A transposed, flattened grid of rows of width `w` has `w` entries per row. */
  lemma InterleavedLength<T>(rows: seq<seq<T>>, w: nat)
    requires forall c | 0 <= c < |rows| :: |rows[c]| == w
    ensures |Concat(Transpose(rows, w))| == w * |rows|
  {
    ConcatLength(Transpose(rows, w), |rows|);
  }

  /**
   * Entry `k` of a transposed, flattened grid of rows of width `w` is entry `k div |rows|`
   * of row `k mod |rows|`.
   */
  lemma InterleavedEntry<T>(rows: seq<seq<T>>, w: nat, k: int)
    requires forall c | 0 <= c < |rows| :: |rows[c]| == w
    requires 0 <= k < w * |rows|
    ensures |Concat(Transpose(rows, w))| == w * |rows|
    ensures 0 < |rows| && 0 <= k / |rows| < w && 0 <= k % |rows| < |rows|
    ensures Concat(Transpose(rows, w))[k] == rows[k % |rows|][k / |rows|]
  {
    var cols := Transpose(rows, w);
    assert k < |cols| * |rows|;
    ConcatEntry(cols, |rows|, k);
  }
}
