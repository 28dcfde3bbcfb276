/**
 * The random forest ensemble (`random_forest.py`): bootstrap resampling, growing a list
 * of trees, and averaging their class-probability matrices, optionally turned into
 * one-hot hard labels.
 *
 * The per-tree learner (`DecisionTree` of another module) is foreign: a fitted tree is
 * identified by its configuration and the sample it was fitted on, and its
 * `predict(X, output_probs=True)` is a parameter. The random draws of
 * `np.random.choice` are inputs: the bootstrap indices are given, and the tie-break among
 * maximal classes is a nondeterministic choice.
 */
module RandomForests {
  import opened Errors

  /** A 2-D numpy array: its rows and `shape[1]` (which numpy knows even without rows). */
  datatype Matrix = Matrix(rows: seq<seq<real>>, width: nat)

  /** `m.shape == (n, c)`. */
  predicate Shaped(m: Matrix, n: nat, c: nat) {
    |m.rows| == n && m.width == c && forall i :: 0 <= i < n ==> |m.rows[i]| == c
  }

  /** A fitted `DecisionTree(n_attrs)` after `fit(X_boot, Y_boot)`. */
  datatype TreeModel = TreeModel(nAttrs: int, x: Matrix, y: Matrix)

  /** `tree.predict(X, output_probs=True)` of the foreign tree class. */
  type TreePredict = (TreeModel, Matrix) -> Matrix

  // ---------------------------------------------------------------------------
  // Bootstrap

  /** What `np.random.choice(len(X), len(X), replace=True)` can return for `n` rows. */
  predicate ValidDraw(lines: seq<int>, n: nat) {
    |lines| == n && forall i :: 0 <= i < |lines| ==> 0 <= lines[i] < n
  }

  /** `bootstrap(X, Y)` for the drawn line indices: `X[lines, :], Y[lines, :]`. */
  function Bootstrap(x: Matrix, y: Matrix, lines: seq<int>): (r: (Matrix, Matrix))
    requires ValidDraw(lines, |x.rows|) && |y.rows| == |x.rows|
    ensures |r.0.rows| == |x.rows| && |r.1.rows| == |x.rows|
    ensures r.0.width == x.width && r.1.width == y.width
    ensures forall i :: 0 <= i < |lines| ==>
              r.0.rows[i] == x.rows[lines[i]] && r.1.rows[i] == y.rows[lines[i]]
  {
    (Matrix(seq(|lines|, i requires 0 <= i < |lines| => x.rows[lines[i]]), x.width),
     Matrix(seq(|lines|, i requires 0 <= i < |lines| => y.rows[lines[i]]), y.width))
  }

  /** Row `i` of the sample `b`, with its label, is some row of `x` with its label in `y`. */
  ghost predicate PairDrawn(b: (Matrix, Matrix), i: nat, x: Matrix, y: Matrix)
    requires i < |b.0.rows| && i < |b.1.rows| && |y.rows| == |x.rows|
  {
    exists j :: 0 <= j < |x.rows| && b.0.rows[i] == x.rows[j] && b.1.rows[i] == y.rows[j]
  }

  /** Every (row, label) pair of a bootstrap sample is a (row, label) pair of the input. */
  lemma BootstrapKeepsPairs(x: Matrix, y: Matrix, lines: seq<int>)
    requires ValidDraw(lines, |x.rows|) && |y.rows| == |x.rows|
    ensures forall i :: 0 <= i < |x.rows| ==> PairDrawn(Bootstrap(x, y, lines), i, x, y)
  {
    var b := Bootstrap(x, y, lines);
    forall i | 0 <= i < |x.rows|
      ensures PairDrawn(b, i, x, y)
    {
      var j := lines[i];
      assert 0 <= j < |x.rows| && b.0.rows[i] == x.rows[j] && b.1.rows[i] == y.rows[j];
    }
  }

  /** A bootstrap sample keeps the shapes of its inputs. */
  lemma BootstrapShape(x: Matrix, y: Matrix, lines: seq<int>, c: nat)
    requires ValidDraw(lines, |x.rows|) && |y.rows| == |x.rows|
    requires Shaped(x, |x.rows|, x.width) && Shaped(y, |y.rows|, c)
    ensures Shaped(Bootstrap(x, y, lines).0, |x.rows|, x.width)
    ensures Shaped(Bootstrap(x, y, lines).1, |x.rows|, c)
  {
  }

  /** The draw that picks every line once, in order. */
  function Identity(n: nat): (lines: seq<int>)
    ensures ValidDraw(lines, n)
  {
    seq(n, i requires 0 <= i < n => i)
  }

  /** The identity draw reproduces the training data. */
  lemma BootstrapIdentity(x: Matrix, y: Matrix)
    requires |y.rows| == |x.rows|
    ensures Bootstrap(x, y, Identity(|x.rows|)) == (x, y)
  {
    var (xb, yb) := Bootstrap(x, y, Identity(|x.rows|));
    assert xb.rows == x.rows;
    assert yb.rows == y.rows;
  }

  // ---------------------------------------------------------------------------
  // Number of attributes per split

  /** `int(np.sqrt(n))` on exact arithmetic: the integer square root. */
  function IntSqrt(n: nat): (r: nat)
    ensures r * r <= n < (r + 1) * (r + 1)
  {
    if n == 0 then 0
    else
      var s := IntSqrt(n - 1);
      if (s + 1) * (s + 1) <= n then
        assert n < (s + 2) * (s + 2) by {
          assert (s + 2) * (s + 2) == (s + 1) * (s + 1) + 2 * s + 3;
        }
        s + 1
      else s
  }

  /** `self.n_attrs or int(np.sqrt(X.shape[1]))`: `None` and `0` are falsy and fall back. */
  function NAttrs(configured: Option<int>, width: nat): (k: int)
    ensures configured.Some? && configured.value != 0 ==> k == configured.value
    ensures configured.None? || configured.value == 0 ==>
              0 <= k && k * k <= width < (k + 1) * (k + 1)
  {
    if configured.Some? && configured.value != 0 then configured.value else IntSqrt(width)
  }

  // ---------------------------------------------------------------------------
  // Averaging and hard labels

  /** Every tree's probability matrix is `n x c`. */
  predicate AllShaped(preds: seq<Matrix>, n: nat, c: nat) {
    forall k :: 0 <= k < |preds| ==> Shaped(preds[k], n, c)
  }

  /** Cell `(i, j)` summed over the first `k` trees. */
  function CellSum(preds: seq<Matrix>, k: nat, i: nat, j: nat): real
    requires k <= |preds|
    requires forall m :: 0 <= m < k ==> i < |preds[m].rows| && j < |preds[m].rows[i]|
  {
    if k == 0 then 0.0 else CellSum(preds, k - 1, i, j) + preds[k - 1].rows[i][j]
  }

  /** Cell `(i, j)` averaged over all trees. */
  function Mean(preds: seq<Matrix>, i: nat, j: nat): real
    requires |preds| > 0
    requires forall m :: 0 <= m < |preds| ==> i < |preds[m].rows| && j < |preds[m].rows[i]|
  {
    CellSum(preds, |preds|, i, j) / |preds| as real
  }

  /** The trees' probability matrices for `X`, in forest order. */
  function Predictions(trees: seq<TreeModel>, tp: TreePredict, x: Matrix): seq<Matrix> {
    seq(|trees|, k requires 0 <= k < |trees| => tp(trees[k], x))
  }

  /** `a` holds, cell by cell, the mean of the trees' matrices. */
  ghost predicate Averages(a: array2<real>, preds: seq<Matrix>)
    reads a
    requires |preds| > 0 && AllShaped(preds, a.Length0, a.Length1)
  {
    forall i, j :: 0 <= i < a.Length0 && 0 <= j < a.Length1 ==> a[i, j] == Mean(preds, i, j)
  }

  /** Row `i` of `a` is 1 in column `h` and 0 elsewhere. */
  ghost predicate OneHotAt(a: array2<real>, i: nat, h: nat)
    reads a
    requires i < a.Length0
  {
    forall j :: 0 <= j < a.Length1 ==> a[i, j] == if j == h then 1.0 else 0.0
  }

  /** Column `h` reaches the maximum of the averaged row `i`. */
  ghost predicate IsRowMax(preds: seq<Matrix>, n: nat, c: nat, i: nat, h: nat)
    requires |preds| > 0 && AllShaped(preds, n, c) && i < n
  {
    h < c && forall j :: 0 <= j < c ==> Mean(preds, i, j) <= Mean(preds, i, h)
  }

  /** Row `i` of `a` is one-hot at a column where the averaged row is maximal. */
  ghost predicate Labelled(a: array2<real>, preds: seq<Matrix>, i: nat)
    reads a
    requires |preds| > 0 && AllShaped(preds, a.Length0, a.Length1) && i < a.Length0
  {
    exists h :: IsRowMax(preds, a.Length0, a.Length1, i, h) && OneHotAt(a, i, h)
  }

  /** Every row of `a` is one-hot at a column where the averaged row is maximal. */
  ghost predicate HardLabels(a: array2<real>, preds: seq<Matrix>)
    reads a
    requires |preds| > 0 && AllShaped(preds, a.Length0, a.Length1)
  {
    forall i :: 0 <= i < a.Length0 ==> Labelled(a, preds, i)
  }

  /** Sum of a row. */
  function Sum(s: seq<real>): real {
    if s == [] then 0.0 else s[0] + Sum(s[1..])
  }

  /** Row `i` of the summed matrix of the first `k` trees. */
  function CellRow(preds: seq<Matrix>, n: nat, k: nat, i: nat, c: nat): (row: seq<real>)
    requires k <= |preds| && AllShaped(preds, n, c) && i < n
    ensures |row| == c
  {
    seq(c, j requires 0 <= j < c => CellSum(preds, k, i, j))
  }

  /** Row `i` of the averaged matrix. */
  function MeanRow(preds: seq<Matrix>, n: nat, i: nat, c: nat): (row: seq<real>)
    requires |preds| > 0 && AllShaped(preds, n, c) && i < n
    ensures |row| == c
  {
    seq(c, j requires 0 <= j < c => Mean(preds, i, j))
  }

  lemma SumPlus(a: seq<real>, b: seq<real>, ab: seq<real>)
    requires |a| == |b| == |ab| && forall j :: 0 <= j < |a| ==> ab[j] == a[j] + b[j]
    ensures Sum(ab) == Sum(a) + Sum(b)
  {
    if a != [] {
      SumPlus(a[1..], b[1..], ab[1..]);
    }
  }

  lemma {:induction false} SumScaled(a: seq<real>, q: seq<real>, d: real)
    requires d > 0.0 && |a| == |q| && forall j :: 0 <= j < |a| ==> q[j] == a[j] / d
    ensures Sum(q) == Sum(a) / d
  {
    if a != [] {
      var a', q' := a[1..], q[1..];
      assert forall j :: 0 <= j < |a'| ==> q'[j] == a'[j] / d;
      SumScaled(a', q', d);
      assert Sum(q) == a[0] / d + Sum(a') / d;
      assert a[0] / d + Sum(a') / d == (a[0] + Sum(a')) / d;
    }
  }

  /** With every tree's row `i` summing to 1, the first `k` trees' row `i` sums to `k`. */
  lemma {:induction false} CellRowSum(preds: seq<Matrix>, n: nat, k: nat, i: nat, c: nat)
    requires k <= |preds| && AllShaped(preds, n, c) && i < n
    requires forall m :: 0 <= m < |preds| ==> Sum(preds[m].rows[i]) == 1.0
    ensures Sum(CellRow(preds, n, k, i, c)) == k as real
  {
    if k == 0 {
      if c > 0 {
        var z := CellRow(preds, n, 0, i, c);
        assert forall j :: 0 <= j < c ==> z[j] == 0.0 + 0.0;
        SumPlus(z, z, z);
      }
    } else {
      CellRowSum(preds, n, k - 1, i, c);
      SumPlus(CellRow(preds, n, k - 1, i, c), preds[k - 1].rows[i], CellRow(preds, n, k, i, c));
    }
  }

  /**
   * Averaging trees that each output a distribution per row gives a distribution per
   * row: non-negative entries whose row sums to 1.
   */
  lemma MeanRowIsDistribution(preds: seq<Matrix>, n: nat, i: nat, c: nat)
    requires |preds| > 0 && AllShaped(preds, n, c) && i < n
    requires forall m :: 0 <= m < |preds| ==> Sum(preds[m].rows[i]) == 1.0
    requires forall m, j :: 0 <= m < |preds| && 0 <= j < c ==> preds[m].rows[i][j] >= 0.0
    ensures Sum(MeanRow(preds, n, i, c)) == 1.0
    ensures forall j :: 0 <= j < c ==> MeanRow(preds, n, i, c)[j] >= 0.0
  {
    var k := |preds|;
    var cells, mean := CellRow(preds, n, k, i, c), MeanRow(preds, n, i, c);
    CellRowSum(preds, n, k, i, c);
    assert forall j :: 0 <= j < c ==> mean[j] == cells[j] / k as real;
    SumScaled(cells, mean, k as real);
    assert k as real / k as real == 1.0;
    forall j | 0 <= j < c
      ensures MeanRow(preds, n, i, c)[j] >= 0.0
    {
      CellSumNonNegative(preds, k, i, j);
    }
  }

  lemma {:induction false} CellSumNonNegative(preds: seq<Matrix>, k: nat, i: nat, j: nat)
    requires k <= |preds|
    requires forall m :: 0 <= m < k ==> i < |preds[m].rows| && j < |preds[m].rows[i]|
    requires forall m :: 0 <= m < k ==> preds[m].rows[i][j] >= 0.0
    ensures CellSum(preds, k, i, j) >= 0.0
  {
    if k > 0 {
      CellSumNonNegative(preds, k - 1, i, j);
    }
  }

  /** Trees that all predict the same matrix `p` average to `p`; a single tree in particular. */
  lemma UnanimousForest(preds: seq<Matrix>, p: Matrix, i: nat, j: nat)
    requires |preds| > 0 && forall m :: 0 <= m < |preds| ==> preds[m] == p
    requires i < |p.rows| && j < |p.rows[i]|
    ensures Mean(preds, i, j) == p.rows[i][j]
  {
    UnanimousSum(preds, p, |preds|, i, j);
  }

  lemma {:induction false} UnanimousSum(preds: seq<Matrix>, p: Matrix, k: nat, i: nat, j: nat)
    requires k <= |preds| && forall m :: 0 <= m < |preds| ==> preds[m] == p
    requires i < |p.rows| && j < |p.rows[i]|
    ensures CellSum(preds, k, i, j) == k as real * p.rows[i][j]
  {
    if k > 0 {
      UnanimousSum(preds, p, k - 1, i, j);
    }
  }

  /** `probs.max()` of row `i`, with a column that attains it. */
  method RowMax(a: array2<real>, i: nat) returns (m: real, w: nat)
    requires i < a.Length0 && a.Length1 > 0
    ensures w < a.Length1 && a[i, w] == m
    ensures forall j :: 0 <= j < a.Length1 ==> a[i, j] <= m
  {
    m, w := a[i, 0], 0;
    for j := 1 to a.Length1
      invariant w < a.Length1 && a[i, w] == m
      invariant forall l :: 0 <= l < j ==> a[i, l] <= m
    {
      if a[i, j] > m {
        m, w := a[i, j], j;
      }
    }
  }

  /** The default `n_trees` of `grow`, which `fit` uses. */
  const DefaultTrees: nat := 100

  /** How many times `range(n_trees)` runs. */
  function TreeCount(nTrees: int): nat {
    if nTrees > 0 then nTrees else 0
  }

  /** The tree `grow` fits on draw `lines`: `DecisionTree(n_attrs).fit(*bootstrap(X, Y))`. */
  function Fitted(configured: Option<int>, x: Matrix, y: Matrix, lines: seq<int>): TreeModel
    requires ValidDraw(lines, |x.rows|) && |y.rows| == |x.rows|
  {
    var (xb, yb) := Bootstrap(x, y, lines);
    TreeModel(NAttrs(configured, x.width), xb, yb)
  }

  /**
   * The first half of `Forest.predict`: add every tree's matrix into a zero buffer in
   * place, then divide the buffer by the number of trees.
   */
  method Average(trees: seq<TreeModel>, classes: nat, tp: TreePredict, x: Matrix) returns (pred: array2<real>)
    requires |trees| > 0
    requires AllShaped(Predictions(trees, tp, x), |x.rows|, classes)
    ensures fresh(pred) && pred.Length0 == |x.rows| && pred.Length1 == classes
    ensures Averages(pred, Predictions(trees, tp, x))
  {
    var n, c := |x.rows|, classes;
    ghost var preds := Predictions(trees, tp, x);
    pred := new real[n, c]((i, j) => 0.0);
    var k := 0;
    while k < |trees|
      invariant 0 <= k <= |trees|
      invariant forall i, j :: 0 <= i < n && 0 <= j < c ==> pred[i, j] == CellSum(preds, k, i, j)
    {
      var p := tp(trees[k], x);
      assert p == preds[k];
      forall i, j | 0 <= i < n && 0 <= j < c {
        pred[i, j] := pred[i, j] + p.rows[i][j];
      }
      k := k + 1;
    }
    forall i, j | 0 <= i < n && 0 <= j < c {
      pred[i, j] := pred[i, j] / |trees| as real;
    }
  }

  /** A fitted ensemble: the trees, in the order they were grown, and the number of classes. */
  class Forest {
    const trees: seq<TreeModel>
    const classes: nat

    constructor (trees: seq<TreeModel>, nClasses: nat)
      ensures this.trees == trees && classes == nClasses
    {
      this.trees := trees;
      classes := nClasses;
    }

    /**
     * `Forest.predict(X, output_probs)`: sum the trees' matrices into a zero buffer, divide
     * by the number of trees, and, for hard labels, overwrite each row with a one-hot row
     * at a column of maximal average (any of them when several tie). A row of no classes
     * has no maximum: `.max()` raises ValueError.
     */
    method Predict(x: Matrix, outputProbs: bool, tp: TreePredict) returns (r: Result<array2<real>>)
      requires |trees| > 0
      requires AllShaped(Predictions(trees, tp, x), |x.rows|, classes)
      ensures r.Ok? ==> fresh(r.value)
      ensures r.Ok? ==> r.value.Length0 == |x.rows| && r.value.Length1 == classes
      ensures outputProbs ==> r.Ok? && Averages(r.value, Predictions(trees, tp, x))
      ensures !outputProbs ==> (r.Err? <==> |x.rows| > 0 && classes == 0)
      ensures r.Err? ==> r.error == ValueError
      ensures !outputProbs && r.Ok? ==> HardLabels(r.value, Predictions(trees, tp, x))
    {
      var n, c := |x.rows|, classes;
      ghost var preds := Predictions(trees, tp, x);
      var pred := Average(trees, classes, tp, x);
      if outputProbs {
        return Ok(pred);
      }
      var idx := 0;
      ghost var labels: seq<nat> := [];
      while idx < n
        invariant 0 <= idx <= n && |labels| == idx
        invariant idx > 0 ==> c > 0
        invariant forall i, j :: idx <= i < n && 0 <= j < c ==> pred[i, j] == Mean(preds, i, j)
        invariant forall i :: 0 <= i < idx ==> IsRowMax(preds, n, c, i, labels[i])
        invariant forall i, j :: 0 <= i < idx && 0 <= j < c ==>
                    pred[i, j] == if j == labels[i] then 1.0 else 0.0
      {
        if c == 0 {
          return Err(ValueError);
        }
        var m, w := RowMax(pred, idx);
        var h :| 0 <= h < c && pred[idx, h] == m;
        assert IsRowMax(preds, n, c, idx, h);
        forall j | 0 <= j < c {
          pred[idx, j] := 0.0;
        }
        pred[idx, h] := 1.0;
        labels := labels + [h];
        idx := idx + 1;
      }
      forall i | 0 <= i < n
        ensures Labelled(pred, preds, i)
      {
        assert IsRowMax(preds, n, c, i, labels[i]) && OneHotAt(pred, i, labels[i]);
      }
      return Ok(pred);
    }
  }

  /** `RandomForest(n_attrs)`: the configuration and, after `fit`, the grown forest. */
  class RandomForest {
    const nAttrs: Option<int>
    var forest: Option<Forest>

    constructor (nAttrs: Option<int>)
      ensures this.nAttrs == nAttrs && forest == None
    {
      this.nAttrs := nAttrs;
      forest := None;
    }

    /**
     * `grow(X, Y, n_trees)`: one tree per draw, each fitted on the bootstrap sample of its
     * draw with the same `n_attrs`; the forest has `n_trees` trees (none when `n_trees` is
     * not positive, as `range` is then empty) and `Y.shape[1]` classes.
     */
    method Grow(x: Matrix, y: Matrix, nTrees: int, draws: seq<seq<int>>) returns (f: Forest)
      requires |y.rows| == |x.rows|
      requires |draws| == TreeCount(nTrees)
      requires forall k :: 0 <= k < |draws| ==> ValidDraw(draws[k], |x.rows|)
      ensures |f.trees| == TreeCount(nTrees) && f.classes == y.width
      ensures forall k :: 0 <= k < |draws| ==> f.trees[k] == Fitted(nAttrs, x, y, draws[k])
    {
      var n := NAttrs(nAttrs, x.width);
      var trees: seq<TreeModel> := [];
      for k := 0 to |draws|
        invariant |trees| == k
        invariant forall m :: 0 <= m < k ==> trees[m] == Fitted(nAttrs, x, y, draws[m])
      {
        var (xb, yb) := Bootstrap(x, y, draws[k]);
        var model := TreeModel(n, xb, yb);
        trees := trees + [model];
      }
      f := new Forest(trees, y.width);
    }

    /** `fit(X, Y)`: grow the default number of trees and keep the forest. */
    method Fit(x: Matrix, y: Matrix, draws: seq<seq<int>>)
      requires |y.rows| == |x.rows|
      requires |draws| == DefaultTrees
      requires forall k :: 0 <= k < |draws| ==> ValidDraw(draws[k], |x.rows|)
      modifies this
      ensures forest.Some? && |forest.value.trees| == DefaultTrees
      ensures forest.value.classes == y.width
      ensures forall k :: 0 <= k < |draws| ==> forest.value.trees[k] == Fitted(nAttrs, x, y, draws[k])
    {
      var f := Grow(x, y, DefaultTrees, draws);
      forest := Some(f);
    }

    /**
     * `predict(X, output_probs)`: the forest's prediction; before `fit` there is no forest
     * and the attribute lookup on `None` raises AttributeError.
     */
    method Predict(x: Matrix, outputProbs: bool, tp: TreePredict) returns (r: Result<array2<real>>)
      requires forest.Some? ==> |forest.value.trees| > 0
      requires forest.Some? ==> AllShaped(Predictions(forest.value.trees, tp, x), |x.rows|, forest.value.classes)
      ensures forest.None? ==> r == Err(AttributeError)
      ensures r.Ok? ==> fresh(r.value)
      ensures forest.Some? ==> r.Ok? ==> r.value.Length0 == |x.rows| && r.value.Length1 == forest.value.classes
      ensures forest.Some? && outputProbs ==> r.Ok? && Averages(r.value, Predictions(forest.value.trees, tp, x))
      ensures forest.Some? && !outputProbs ==> (r.Err? <==> |x.rows| > 0 && forest.value.classes == 0)
      ensures forest.Some? && r.Err? ==> r.error == ValueError
      ensures forest.Some? && !outputProbs && r.Ok? ==> HardLabels(r.value, Predictions(forest.value.trees, tp, x))
    {
      if forest.None? {
        return Err(AttributeError);
      }
      r := forest.value.Predict(x, outputProbs, tp);
    }
  }
}
