/**
 * Induction of a categorical decision tree (the `DecisionTreeCategorical` class of the
 * source): pick the non-target column with the best information-gain ratio, partition the
 * rows by its values, drop it, and recurse until the target is pure.
 *
 * The information-gain ratio is floating-point arithmetic over `math.log`; it is a
 * parameter `score` here, except for the one thing about it the tree depends on: the
 * ratio divides by the entropy of the candidate column, which is zero when the column
 * has at most one distinct value, and then Python raises ZeroDivisionError.
 */
module Induction {
  import opened Errors
  import opened Tables
  import opened TreeNode

  /** `info_gain_ratio(df, target, attr)` where it is defined. */
  type Score = (Table, Attr, Attr) -> real

  /** One entry of the `subsets` dict built by `splits`: a value and its block of rows. */
  datatype Part = Part(value: Value, subset: Table)

  function PartKeys(parts: seq<Part>): seq<Value> {
    seq(|parts|, i requires 0 <= i < |parts| => parts[i].value)
  }

  /** The intrinsic value (entropy of the column itself) is zero. */
  predicate Degenerate(t: Table, a: Attr)
    requires forall r :: r in t.rows ==> a in r
  {
    |Unique(Column(t.rows, a))| <= 1
  }

  /**
   * `info_gain_ratio(df, target, attr)`: `ig / iv`, which raises ZeroDivisionError when the
   * column's own entropy `iv` is zero, that is when its `value_counts(normalize=True)` puts
   * probability 1 on every value it has (one distinct value; no rows at all also divides by
   * `len(df) == 0` inside `info_gain`).
   */
  function GainRatio(t: Table, target: Attr, a: Attr, score: Score): (r: Result<real>)
    requires forall r :: r in t.rows ==> a in r
    ensures r.Err? <==> Degenerate(t, a)
    ensures r.Err? ==> r.error == ZeroDivisionError
    ensures r.Ok? ==> r.value == score(t, target, a)
  {
    if Degenerate(t, a) then Err(ZeroDivisionError) else Ok(score(t, target, a))
  }

  /**
   * The ratio raises exactly when the column's relative frequencies give every observed value
   * probability 1, the distributions whose entropy `iv` is zero.
   */
  lemma GainRatioRaisesIffPointMass(t: Table, target: Attr, a: Attr, score: Score)
    requires forall r :: r in t.rows ==> a in r
    ensures var col := Column(t.rows, a);
      GainRatio(t, target, a, score).Err? <==> forall v :: v in ValueCounts(col) ==> ValueCounts(col)[v] == 1.0
  {
    DegenerateIffPointMass(Column(t.rows, a));
  }

  /**
   * Python's `max(xs, key=key)`: scan left to right, replacing the current best only by a
   * strictly larger key, so that among equal keys the first one wins.
   */
  function ArgMax(xs: seq<Attr>, key: Attr -> real): (i: nat)
    requires |xs| > 0
    ensures i < |xs|
    ensures forall j :: 0 <= j < |xs| ==> key(xs[j]) <= key(xs[i])
    ensures forall j :: 0 <= j < i ==> key(xs[j]) < key(xs[i])
  {
    if |xs| == 1 then 0
    else
      var k := ArgMax(xs[..|xs| - 1], key);
      if key(xs[|xs| - 1]) > key(xs[k]) then |xs| - 1 else k
  }

  /** `a` is the first candidate column (columns other than the target, in column order) of maximal score. */
  ghost predicate BestSplit(t: Table, target: Attr, score: Score, a: Attr) {
    var cs := Remove(t.cols, target);
    exists i :: 0 <= i < |cs| && cs[i] == a
      && (forall j :: 0 <= j < |cs| ==> score(t, target, cs[j]) <= score(t, target, a))
      && (forall j :: 0 <= j < i ==> score(t, target, cs[j]) < score(t, target, a))
  }

  /**
   * `split_on(df, target)`: the empty name when the target is pure; otherwise the
   * best-scoring non-target column. `max` over no candidates raises ValueError; a
   * degenerate candidate makes its gain ratio raise ZeroDivisionError.
   */
  function SplitOn(t: Table, target: Attr, score: Score): (r: Result<Attr>)
    requires WellFormed(t) && target in t.cols
    ensures IsPure(Column(t.rows, target)) ==> r == Ok("")
    ensures r.Err? ==> r.error == ValueError || r.error == ZeroDivisionError
    ensures r.Ok? && r.value != "" ==> r.value in t.cols && r.value != target
  {
    var cs := Remove(t.cols, target);
    CandidatesPresent(t, target);
    if IsPure(Column(t.rows, target)) then Ok("")
    else if cs == [] then Err(ValueError)
    else if exists a :: a in cs && GainRatio(t, target, a, score).Err? then Err(ZeroDivisionError)
    else
      var i := ArgMax(cs, a => score(t, target, a));
      Ok(cs[i])
  }

  /** Every candidate column is a key of every row. */
  lemma CandidatesPresent(t: Table, target: Attr)
    requires WellFormed(t)
    ensures forall a, r :: a in Remove(t.cols, target) && r in t.rows ==> a in r
  {
  }

  /**
   * The error cases of `split_on` on an impure target: with no candidate column `max`
   * raises ValueError; otherwise it raises, and raises ZeroDivisionError, exactly when some
   * candidate is degenerate.
   */
  lemma SplitOnRaises(t: Table, target: Attr, score: Score)
    requires WellFormed(t) && target in t.cols && !IsPure(Column(t.rows, target))
    ensures Remove(t.cols, target) == [] ==> SplitOn(t, target, score) == Err(ValueError)
    ensures Remove(t.cols, target) != [] ==>
              (SplitOn(t, target, score) == Err(ZeroDivisionError) <==> exists a :: a in Remove(t.cols, target) && Degenerate(t, a))
    ensures Remove(t.cols, target) != [] ==>
              (SplitOn(t, target, score).Err? <==> exists a :: a in Remove(t.cols, target) && Degenerate(t, a))
  {
    CandidatesPresent(t, target);
  }

  /** A column `split_on` returns for an impure target is a first best-scoring candidate. */
  lemma SplitOnBest(t: Table, target: Attr, score: Score)
    requires WellFormed(t) && target in t.cols && !IsPure(Column(t.rows, target))
    ensures SplitOn(t, target, score).Ok? ==> BestSplit(t, target, score, SplitOn(t, target, score).value)
  {
    var cs := Remove(t.cols, target);
    CandidatesPresent(t, target);
    if SplitOn(t, target, score).Ok? {
      var i := ArgMax(cs, a => score(t, target, a));
      assert SplitOn(t, target, score) == Ok(cs[i]);
    }
  }

  /**
   * `splits(df, attr)`: nothing for the empty name; otherwise one block per distinct
   * value of `attr`, in order of first appearance, each holding the rows with that value
   * in their original order with column `attr` dropped.
   */
  function Partition(t: Table, a: Attr): (parts: seq<Part>)
    requires WellFormed(t) && (a == "" || a in t.cols)
    ensures a == "" ==> parts == []
    ensures a != "" ==> PartKeys(parts) == Unique(Column(t.rows, a))
    ensures Distinct(PartKeys(parts))
    ensures forall i :: 0 <= i < |parts| ==>
              && parts[i].subset == Subset(t, a, parts[i].value)
              && WellFormed(parts[i].subset)
              && parts[i].subset.cols == Remove(t.cols, a)
              && |parts[i].subset.cols| == |t.cols| - 1
              && |parts[i].subset.rows| > 0
  {
    if a == "" then []
    else
      var u := Unique(Column(t.rows, a));
      var parts := seq(|u|, i requires 0 <= i < |u| => Part(u[i], Subset(t, a, u[i])));
      assert PartKeys(parts) == u;
      assert forall i :: 0 <= i < |parts| ==> |parts[i].subset.rows| > 0 by {
        forall i | 0 <= i < |parts| ensures |parts[i].subset.rows| > 0 {
          SelectObserved(t.rows, a, u[i]);
        }
      }
      assert forall i :: 0 <= i < |parts| ==> WellFormed(parts[i].subset) by {
        forall i | 0 <= i < |parts| ensures WellFormed(parts[i].subset) {
          SubsetWellFormed(t, a, u[i]);
        }
      }
      parts
  }

  /** The number of rows in all blocks together. */
  function PartSizes(parts: seq<Part>): nat {
    if parts == [] then 0 else PartSizes(parts[..|parts| - 1]) + |parts[|parts| - 1].subset.rows|
  }

  lemma {:induction false} PartSizesAreSelectSizes(t: Table, a: Attr, parts: seq<Part>, vs: seq<Value>)
    requires forall r :: r in t.rows ==> a in r
    requires |parts| == |vs|
    requires forall i :: 0 <= i < |parts| ==> parts[i].subset == Subset(t, a, vs[i])
    ensures PartSizes(parts) == SelectSizes(t.rows, a, vs)
  {
    if parts != [] {
      PartSizesAreSelectSizes(t, a, parts[..|parts| - 1], vs[..|vs| - 1]);
    }
  }

  /**
   * The blocks of `splits` cover the table exactly: every row sits in exactly one block
   * (before the drop), and the block sizes add up to the number of rows.
   */
  lemma PartitionCoversTable(t: Table, a: Attr)
    requires WellFormed(t) && a in t.cols && a != ""
    ensures Gathered(t.rows, a, PartKeys(Partition(t, a))) == multiset(t.rows)
    ensures PartSizes(Partition(t, a)) == |t.rows|
  {
    var parts := Partition(t, a);
    PartitionCoversRows(t.rows, a);
    GatheredSize(t.rows, a, PartKeys(parts));
    PartSizesAreSelectSizes(t, a, parts, PartKeys(parts));
  }

  /** The `for` loop of `splits`, which fills the `subsets` dict one value at a time. */
  method Splits(t: Table, a: Attr) returns (subsets: seq<Part>)
    requires WellFormed(t) && (a == "" || a in t.cols)
    ensures subsets == Partition(t, a)
  {
    if a == "" {
      return [];
    }
    var values := Unique(Column(t.rows, a));
    ghost var parts := Partition(t, a);
    assert |parts| == |PartKeys(parts)| == |values|;
    subsets := [];
    for i := 0 to |values|
      invariant subsets == parts[..i]
    {
      // the values are distinct, so `subsets[value] = subset` always adds a new key
      var subset := Subset(t, a, values[i]);
      assert parts[i].value == PartKeys(parts)[i] == values[i];
      assert parts[i] == Part(values[i], subset);
      assert parts[..i + 1] == parts[..i] + [parts[i]];
      subsets := subsets + [Part(values[i], subset)];
    }
    assert parts[..|values|] == parts;
  }

  /**
   * `grow(df, target)`: a leaf marked "pure" when the target is pure, otherwise a node on
   * the best column whose children are grown from the blocks of `splits`, keyed by value.
   * The exceptions it can raise are those of `split_on`; a lookup never fails while growing.
   */
  function Grow(t: Table, target: Attr, score: Score): (r: Result<Tree>)
    requires WellFormed(t) && target in t.cols
    ensures r.Err? ==> r.error == ZeroDivisionError || r.error == ValueError
    decreases |t.cols|
  {
    match SplitOn(t, target, score)
    case Err(e) => Err(e)
    case Ok(a) =>
      var parts := Partition(t, a);
      var root := NewTree(Column(t.rows, target), target, a);
      var grown := seq(|parts|, i requires 0 <= i < |parts| => Grow(parts[i].subset, target, score));
      match Collect(PartKeys(parts), grown)
      case Err(e) => Err(e)
      case Ok(kids) => Ok(root.(nodes := kids))
  }

  /**
   * The dict comprehension of `grow`: pair each key with its grown child, in order; the
   * first child whose growing raised makes the whole comprehension raise that exception.
   */
  function Collect(keys: seq<Value>, grown: seq<Result<Tree>>): (r: Result<seq<Branch>>)
    requires |keys| == |grown|
    ensures r.Ok? <==> forall i :: 0 <= i < |grown| ==> grown[i].Ok?
    ensures r.Ok? ==> |r.value| == |grown|
    ensures r.Ok? ==> forall i :: 0 <= i < |grown| ==> r.value[i] == Branch(keys[i], grown[i].value)
    ensures r.Err? ==>
              exists i :: 0 <= i < |grown| && grown[i] == Err(r.error) && (forall j :: 0 <= j < i ==> grown[j].Ok?)
  {
    if grown == [] then Ok([])
    else
      match grown[0]
      case Err(e) => Err(e)
      case Ok(c) =>
        match Collect(keys[1..], grown[1..])
        case Err(e) =>
          var k :| 0 <= k < |grown| - 1 && grown[1..][k] == Err(e) && forall j :: 0 <= j < k ==> grown[1..][j].Ok?;
          assert grown[k + 1] == Err(e) && forall j :: 0 <= j < k + 1 ==> grown[j].Ok?;
          Err(e)
        case Ok(rest) =>
          var bs := [Branch(keys[0], c)] + rest;
          assert forall i :: 1 <= i < |grown| ==> grown[i] == grown[1..][i - 1] && bs[i] == rest[i - 1];
          Ok(bs)
  }

  /**
   * The node `grow` returns: it carries the label distribution of all its incoming rows,
   * the chosen column (or "pure"), and one child per block of `splits`, keyed by the
   * block's value and grown from that block.
   */
  lemma GrowNode(t: Table, target: Attr, score: Score)
    requires WellFormed(t) && target in t.cols && Grow(t, target, score).Ok?
    ensures SplitOn(t, target, score).Ok?
    ensures var n, a := Grow(t, target, score).value, SplitOn(t, target, score).value;
            var parts := Partition(t, a);
            && n.target == target
            && n.probs == ValueCounts(Column(t.rows, target))
            && n.attr == (if a != "" then a else Pure)
            && |n.nodes| == |parts|
            && Keys(n.nodes) == PartKeys(parts)
            && forall i :: 0 <= i < |parts| ==> Grow(parts[i].subset, target, score) == Ok(n.nodes[i].child)
  {
    var n, a := Grow(t, target, score).value, SplitOn(t, target, score).value;
    var parts := Partition(t, a);
    var grown := seq(|parts|, i requires 0 <= i < |parts| => Grow(parts[i].subset, target, score));
    GrownChildren(PartKeys(parts), grown, n.nodes);
  }

  /** The branches the dict comprehension builds, read back one key and one child at a time. */
  lemma GrownChildren(keys: seq<Value>, grown: seq<Result<Tree>>, nodes: seq<Branch>)
    requires |keys| == |grown| && Collect(keys, grown) == Ok(nodes)
    ensures |nodes| == |keys| && Keys(nodes) == keys
    ensures forall i :: 0 <= i < |keys| ==> grown[i] == Ok(nodes[i].child)
  {
    assert Keys(nodes) == keys;
  }

  /** What a tree grown from a table with columns `cols` keeps. */
  ghost predicate GrownWithin(c: Tree, cols: seq<Attr>, target: Attr) {
    && Height(c) < |cols|
    && SplitAttrs(c) <= (set x | x in cols) - {target}
    && NoRepeatedSplit(c)
  }

  /**
   * Each level of `grow` consumes one column: a grown tree is shallower than the number of
   * columns (its depth is at most the number of non-target columns), splits only on
   * non-target columns, and never splits twice on the same column along a path.
   */
  lemma {:induction false} GrowBounded(t: Table, target: Attr, score: Score)
    requires WellFormed(t) && target in t.cols && Grow(t, target, score).Ok?
    ensures GrownWithin(Grow(t, target, score).value, t.cols, target)
    decreases |t.cols|
  {
    GrowNode(t, target, score);
    var n, a := Grow(t, target, score).value, SplitOn(t, target, score).value;
    var parts := Partition(t, a);
    forall i | 0 <= i < |n.nodes|
      ensures GrownWithin(n.nodes[i].child, Remove(t.cols, n.attr), target)
    {
      GrowBounded(parts[i].subset, target, score);
    }
    NodeWithin(n, t.cols, target);
  }

  /** A node on a column of `cols` whose children were grown without that column stays within `cols`. */
  lemma NodeWithin(n: Tree, cols: seq<Attr>, target: Attr)
    requires Distinct(cols) && target in cols
    requires n.nodes != [] ==> n.attr in cols && n.attr != target
    requires forall i :: 0 <= i < |n.nodes| ==> GrownWithin(n.nodes[i].child, Remove(cols, n.attr), target)
    ensures GrownWithin(n, cols, target)
  {
    if n.nodes != [] {
      ChildrenBounded(n.nodes, Remove(cols, n.attr), target);
    }
  }

  lemma {:induction false} ChildrenBounded(bs: seq<Branch>, cols: seq<Attr>, target: Attr)
    requires forall i :: 0 <= i < |bs| ==> GrownWithin(bs[i].child, cols, target)
    ensures bs != [] ==> MaxHeight(bs) < |cols|
    ensures SplitAttrsOf(bs) <= (set x | x in cols) - {target}
    ensures NoRepeatedSplitOf(bs)
  {
    if bs != [] {
      assert GrownWithin(bs[0].child, cols, target);
      assert forall i :: 0 <= i < |bs| - 1 ==> bs[1..][i] == bs[i + 1];
      ChildrenBounded(bs[1..], cols, target);
    }
  }

  /** A pure target gives a single leaf marked "pure" that puts probability 1 on the one label. */
  lemma GrowPureLeaf(t: Table, target: Attr, score: Score)
    requires WellFormed(t) && target in t.cols
    requires IsPure(Column(t.rows, target))
    ensures Grow(t, target, score)
         == Ok(Tree(map[Unique(Column(t.rows, target))[0] := 1.0], target, Pure, []))
  {
    PureValueCounts(Column(t.rows, target));
  }

  /**
   * When no column is named with the empty (falsy) name, `grow` makes a leaf exactly when
   * the target is pure; an impure node splits on a non-degenerate non-target column.
   */
  lemma LeafIffPure(t: Table, target: Attr, score: Score)
    requires WellFormed(t) && target in t.cols && "" !in t.cols
    requires Grow(t, target, score).Ok?
    ensures Grow(t, target, score).value.nodes == [] <==> IsPure(Column(t.rows, target))
    ensures IsPure(Column(t.rows, target)) ==> Grow(t, target, score).value.attr == Pure
    ensures !IsPure(Column(t.rows, target)) ==>
              var a := Grow(t, target, score).value.attr;
              a in t.cols && a != target && !Degenerate(t, a) && BestSplit(t, target, score, a)
  {
    GrowNode(t, target, score);
    var a := SplitOn(t, target, score).value;
    if !IsPure(Column(t.rows, target)) {
      SplitOnRaises(t, target, score);
      SplitOnBest(t, target, score);
      var cs := Remove(t.cols, target);
      assert a in cs;
      assert !Degenerate(t, a);
      assert |PartKeys(Partition(t, a))| > 0;
    }
  }

  /** Every column of `row` is present in `values` with the same value. */
  predicate Agrees(row: Row, values: Row) {
    forall a :: a in row ==> a in values && values[a] == row[a]
  }

  /**
   * The block of the training table that the rows agreeing with `values` end up in:
   * follow the column `split_on` chooses and the block of `values`' value, as far as
   * `values` has the column.
   */
  ghost function LeafTable(t: Table, target: Attr, score: Score, values: Row): (leaf: Table)
    requires WellFormed(t) && target in t.cols
    ensures WellFormed(leaf) && target in leaf.cols
    decreases |t.cols|
  {
    match SplitOn(t, target, score)
    case Err(_) => t
    case Ok(a) =>
      if a != "" && a in values then
        SubsetWellFormed(t, a, values[a]);
        LeafTable(Subset(t, a, values[a]), target, score, values)
      else t
  }

  /**
   * Inference on a row of the training table never fails: every lookup finds a child, the
   * leaf reached is the one grown from the block that holds that row, and the row (less
   * the columns consumed on the way) is among that block's rows.
   */
  lemma {:induction false} TrainingRowReachesLeaf(t: Table, target: Attr, score: Score, row: Row, values: Row)
    requires WellFormed(t) && target in t.cols && Grow(t, target, score).Ok?
    requires row in t.rows && Agrees(row, values)
    ensures Infer(Grow(t, target, score).value, values)
         == Ok(ValueCounts(Column(LeafTable(t, target, score, values).rows, target)))
    ensures exists r :: r in LeafTable(t, target, score, values).rows && Agrees(r, values)
    decreases |t.cols|
  {
    GrowNode(t, target, score);
    var n, a := Grow(t, target, score).value, SplitOn(t, target, score).value;
    var parts := Partition(t, a);
    if a != "" {
      var v := row[a];
      ObservedValue(t.rows, a, row);
      var u := Unique(Column(t.rows, a));
      assert v in u;
      var i :| 0 <= i < |u| && u[i] == v;
      assert PartKeys(parts)[i] == v && Keys(n.nodes)[i] == v;
      LookupDistinct(n.nodes, i);
      var child := n.nodes[i].child;
      assert Infer(n, values) == Infer(child, values);
      var sub := Subset(t, a, v);
      assert parts[i].subset == sub;
      SelectKeeps(t.rows, a, row);
      DropKeeps(Select(t.rows, a, v), a, row);
      TrainingRowReachesLeaf(sub, target, score, row - {a}, values);
      assert LeafTable(t, target, score, values) == LeafTable(sub, target, score, values);
    }
  }

  // ---------------------------------------------------------------------------
  // The estimator object

  /** `DecisionTreeCategorical`: holds the fitted tree, `None` until `fit`. */
  class DecisionTreeCategorical {
    /** Its `info_gain_ratio`, abstracted. */
    const score: Score
    var tree: Option<Tree>

    constructor (score: Score)
      ensures this.score == score && tree == None
    {
      this.score := score;
      tree := None;
    }

    /** `fit(df, target)`: `self.tree = self.grow(df, target)`; if `grow` raises, the field is not assigned. */
    method Fit(df: Table, target: Attr) returns (raised: Option<Error>)
      requires WellFormed(df) && target in df.cols
      modifies this
      ensures var g := Grow(df, target, score);
              && (g.Ok? ==> tree == Some(g.value) && raised == None)
              && (g.Err? ==> tree == old(tree) && raised == Some(g.error))
    {
      var g := Grow(df, target, score);
      if g.Ok? {
        tree := Some(g.value);
        raised := None;
      } else {
        raised := Some(g.error);
      }
    }

    /** `predict_one(values)`: inference on the fitted tree; before `fit`, `None.inference` raises AttributeError. */
    method PredictOne(values: Row) returns (r: Result<Dist>)
      ensures tree.None? ==> r == Err(AttributeError)
      ensures tree.Some? ==> r == Infer(tree.value, values)
      ensures r.Ok? ==> tree.Some? && r.value in LeafDists(tree.value)
    {
      if tree.None? {
        return Err(AttributeError);
      }
      r := Inference(tree.value, values);
    }
  }
}
