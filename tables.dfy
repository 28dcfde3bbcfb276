/**
 * The labelled table the categorical decision tree learns from: an ordered list of
 * column names and a sequence of rows, each row mapping column names to categorical
 * values. This stands for the pandas DataFrame operations the tree inducer uses:
 * column selection, `unique`, `value_counts(normalize=True)`, boolean-mask filtering
 * and `drop`.
 */
module Tables {

  type Attr = string
  type Value = string
  type Row = map<Attr, Value>

  /** A data frame: `cols` in column order, `rows` in row order. */
  datatype Table = Table(cols: seq<Attr>, rows: seq<Row>)

  predicate Distinct<T(==)>(s: seq<T>) {
    forall i, j :: 0 <= i < j < |s| ==> s[i] != s[j]
  }

  /** Column names are unique and every row has exactly the table's columns. */
  predicate WellFormed(t: Table) {
    && Distinct(t.cols)
    && forall r :: r in t.rows ==> r.Keys == set c | c in t.cols
  }

  /** `df[a]` as a sequence of values, one per row. */
  function Column(rows: seq<Row>, a: Attr): seq<Value>
    requires forall r :: r in rows ==> a in r
  {
    seq(|rows|, i requires 0 <= i < |rows| => rows[i][a])
  }

  /** `series.unique()`: the distinct values of a column, in order of first appearance. */
  function Unique(col: seq<Value>): (u: seq<Value>)
    ensures Distinct(u)
    ensures forall v :: v in u <==> v in col
    ensures |u| <= |col|
  {
    if col == [] then []
    else
      var u := Unique(col[..|col| - 1]);
      var x := col[|col| - 1];
      if x in u then u else u + [x]
  }

  /** How many times `v` occurs in `col`. */
  function Count(col: seq<Value>, v: Value): nat {
    if col == [] then 0
    else Count(col[..|col| - 1], v) + (if col[|col| - 1] == v then 1 else 0)
  }

  /** `series.value_counts(normalize=True).to_dict()`: each observed value's relative frequency. */
  function ValueCounts(col: seq<Value>): map<Value, real> {
    map v | v in col :: Count(col, v) as real / |col| as real
  }

  /** The target column has exactly one distinct value (`len(df[target].unique()) == 1`). */
  predicate IsPure(col: seq<Value>) {
    |Unique(col)| == 1
  }

  /** The list of columns with `a` removed, order kept (`df.drop(a, axis=1)` on the header). */
  function Remove(cols: seq<Attr>, a: Attr): (r: seq<Attr>)
    ensures forall c :: c in r <==> c in cols && c != a
    ensures Distinct(cols) ==> Distinct(r)
    ensures Distinct(cols) && a in cols ==> |r| == |cols| - 1
    ensures a !in cols ==> r == cols
  {
    if cols == [] then []
    else
      var r := Remove(cols[..|cols| - 1], a);
      var c := cols[|cols| - 1];
      assert cols == cols[..|cols| - 1] + [c];
      assert Distinct(cols) ==> c !in cols[..|cols| - 1];
      if c == a then r else r + [c]
  }

  /** `df[df[a] == v]`: the rows whose value in column `a` is `v`, in their original order. */
  function Select(rows: seq<Row>, a: Attr, v: Value): (s: seq<Row>)
    requires forall r :: r in rows ==> a in r
    ensures forall r :: r in s <==> r in rows && r[a] == v
    ensures |s| <= |rows|
  {
    if rows == [] then []
    else
      var last := rows[|rows| - 1];
      Select(rows[..|rows| - 1], a, v) + (if last[a] == v then [last] else [])
  }

  /** Removes column `a` from every row. */
  function Drop(rows: seq<Row>, a: Attr): seq<Row> {
    seq(|rows|, i requires 0 <= i < |rows| => rows[i] - {a})
  }

  /**
   * `df[df[a] == v].drop(a, axis=1)`: one block of the partition on column `a`. It holds
   * exactly the rows with value `v`, without column `a`, one for each occurrence of `v`.
   */
  function Subset(t: Table, a: Attr, v: Value): (s: Table)
    requires forall r :: r in t.rows ==> a in r
    ensures s.cols == Remove(t.cols, a)
    ensures forall r :: r in s.rows ==> a !in r
    ensures forall r :: r in t.rows && r[a] == v ==> r - {a} in s.rows
    ensures forall x :: x in s.rows ==> exists r :: r in t.rows && r[a] == v && x == r - {a}
    ensures |s.rows| == Count(Column(t.rows, a), v)
  {
    var selected := Select(t.rows, a, v);
    var dropped := Drop(selected, a);
    forall r | r in t.rows && r[a] == v
      ensures r - {a} in dropped
    {
      var i :| 0 <= i < |selected| && selected[i] == r;
      assert dropped[i] == r - {a};
    }
    forall x | x in dropped
      ensures exists r :: r in t.rows && r[a] == v && x == r - {a}
    {
      var i :| 0 <= i < |dropped| && dropped[i] == x;
      assert selected[i] in t.rows && selected[i][a] == v;
    }
    SelectCount(t.rows, a, v);
    Table(Remove(t.cols, a), dropped)
  }

  /** Selecting on `v` keeps one row per occurrence of `v` in the column. */
  lemma {:induction false} SelectCount(rows: seq<Row>, a: Attr, v: Value)
    requires forall r :: r in rows ==> a in r
    ensures |Select(rows, a, v)| == Count(Column(rows, a), v)
  {
    if rows != [] {
      var init := rows[..|rows| - 1];
      assert Column(rows, a)[..|rows| - 1] == Column(init, a);
      SelectCount(init, a, v);
    }
  }

  // ---------------------------------------------------------------------------
  // Counting and the label distribution

  lemma {:induction false} CountPositive(col: seq<Value>, v: Value)
    ensures Count(col, v) > 0 <==> v in col
    ensures Count(col, v) <= |col|
  {
    if col != [] {
      var init := col[..|col| - 1];
      assert col == init + [col[|col| - 1]];
      CountPositive(init, v);
    }
  }

  /** Sum of the counts of the values in `vs`. */
  function SumCounts(vs: seq<Value>, col: seq<Value>): nat {
    if vs == [] then 0 else SumCounts(vs[..|vs| - 1], col) + Count(col, vs[|vs| - 1])
  }

  lemma {:induction false} SumCountsSnoc(vs: seq<Value>, col: seq<Value>, x: Value)
    requires Distinct(vs)
    ensures SumCounts(vs, col + [x]) == SumCounts(vs, col) + (if x in vs then 1 else 0)
  {
    assert (col + [x])[..|col|] == col;
    if vs != [] {
      var init := vs[..|vs| - 1];
      assert vs == init + [vs[|vs| - 1]];
      SumCountsSnoc(init, col, x);
    }
  }

  /** The distinct values' counts add up to the length of the column. */
  lemma {:induction false} CountsCoverColumn(col: seq<Value>)
    ensures SumCounts(Unique(col), col) == |col|
  {
    if col != [] {
      var init, x := col[..|col| - 1], col[|col| - 1];
      assert col == init + [x];
      var u := Unique(init);
      CountsCoverColumn(init);
      SumCountsSnoc(u, init, x);
      if x !in u {
        CountPositive(init, x);
        assert (u + [x])[..|u|] == u;
        SumCountsSnoc(u, init, x);
      }
    }
  }

  /** Sum of the probabilities the map `m` gives the values in `vs`. */
  function SumProbs(vs: seq<Value>, m: map<Value, real>): real
    requires forall v :: v in vs ==> v in m
  {
    if vs == [] then 0.0 else SumProbs(vs[..|vs| - 1], m) + m[vs[|vs| - 1]]
  }

  lemma {:induction false} SumProbsScaled(vs: seq<Value>, col: seq<Value>)
    requires |col| > 0
    requires forall v :: v in vs ==> v in col
    ensures SumProbs(vs, ValueCounts(col)) == SumCounts(vs, col) as real / |col| as real
  {
    if vs != [] {
      var init, x := vs[..|vs| - 1], vs[|vs| - 1];
      SumProbsScaled(init, col);
      DivAdd(SumCounts(init, col) as real, Count(col, x) as real, |col| as real);
    }
  }

  /** Adding fractions over a common positive denominator (kept apart to keep the solver's arithmetic small). */
  lemma DivAdd(a: real, b: real, n: real)
    requires n > 0.0
    ensures a / n + b / n == (a + b) / n
  {
  }

  /**
   * `value_counts(normalize=True)` has exactly the observed values as keys, each with a
   * positive probability of at most 1, and over a non-empty column the probabilities sum to 1.
   */
  lemma ValueCountsIsDistribution(col: seq<Value>)
    ensures ValueCounts(col).Keys == set v | v in col
    ensures forall v :: v in col ==> 0.0 < ValueCounts(col)[v] <= 1.0
    ensures |col| > 0 ==> SumProbs(Unique(col), ValueCounts(col)) == 1.0
  {
    ValueCountsPositive(col);
    if |col| > 0 {
      ValueCountsSumToOne(col);
    }
  }

  lemma ValueCountsPositive(col: seq<Value>)
    ensures forall v :: v in col ==> 0.0 < ValueCounts(col)[v] <= 1.0
  {
    forall v | v in col ensures 0.0 < ValueCounts(col)[v] <= 1.0 {
      CountPositive(col, v);
      FractionBounds(Count(col, v), |col|);
    }
  }

  lemma ValueCountsSumToOne(col: seq<Value>)
    requires |col| > 0
    ensures SumProbs(Unique(col), ValueCounts(col)) == 1.0
  {
    var u := Unique(col);
    SumProbsScaled(u, col);
    CountsCoverColumn(col);
    SelfDivision(SumCounts(u, col), |col|);
  }

  // The two arithmetic facts below are kept as lemmas of their own: stated inline, in the
  // context of the lemmas above, they leave the solver too much to search.

  lemma SelfDivision(k: nat, n: nat)
    requires 0 < n && k == n
    ensures k as real / n as real == 1.0
  {
  }

  lemma FractionBounds(k: nat, n: nat)
    requires 0 < k <= n
    ensures 0.0 < k as real / n as real <= 1.0
  {
  }

  /** A pure column gives all the probability to its single value. */
  lemma PureValueCounts(col: seq<Value>)
    requires IsPure(col)
    ensures ValueCounts(col) == map[Unique(col)[0] := 1.0]
  {
    var u := Unique(col);
    ValueCountsIsDistribution(col);
    assert SumProbs(u, ValueCounts(col)) == ValueCounts(col)[u[0]] by {
      assert u[..0] == [];
    }
  }

  /** Two different values share the column between them. */
  lemma {:induction false} CountPair(col: seq<Value>, x: Value, y: Value)
    requires x != y
    ensures Count(col, x) + Count(col, y) <= |col|
  {
    if col != [] {
      CountPair(col[..|col| - 1], x, y);
    }
  }

  /**
   * A column has at most one distinct value exactly when `value_counts(normalize=True)`
   * gives every key the whole probability mass.
   */
  lemma DegenerateIffPointMass(col: seq<Value>)
    ensures |Unique(col)| <= 1 <==> forall v :: v in ValueCounts(col) ==> ValueCounts(col)[v] == 1.0
  {
    var u := Unique(col);
    if |u| == 1 {
      PureValueCounts(col);
    } else if |u| >= 2 {
      SplitColumnNotCertain(col, u[0], u[1]);
    }
  }

  /** With two distinct observed values, neither has probability 1. */
  lemma SplitColumnNotCertain(col: seq<Value>, x: Value, y: Value)
    requires x != y && x in col && y in col
    ensures x in ValueCounts(col) && ValueCounts(col)[x] < 1.0
  {
    CountPair(col, x, y);
    CountPositive(col, y);
    var k, n := Count(col, x), |col|;
    assert ValueCounts(col)[x] == k as real / n as real;
    FractionBelowOne(k, n);
  }

  lemma FractionBelowOne(k: nat, n: nat)
    requires k < n
    ensures k as real / n as real < 1.0
  {
    assert k as real < n as real;
  }

  // ---------------------------------------------------------------------------
  // The partition of the rows by the values of a column

  /** The rows of the blocks for the values in `vs`, taken together. */
  function Gathered(rows: seq<Row>, a: Attr, vs: seq<Value>): multiset<Row>
    requires forall r :: r in rows ==> a in r
  {
    if vs == [] then multiset{}
    else Gathered(rows, a, vs[..|vs| - 1]) + multiset(Select(rows, a, vs[|vs| - 1]))
  }

  lemma {:induction false} GatheredSnoc(rows: seq<Row>, a: Attr, x: Row, vs: seq<Value>)
    requires forall r :: r in rows ==> a in r
    requires a in x
    requires Distinct(vs)
    ensures Gathered(rows + [x], a, vs)
         == Gathered(rows, a, vs) + (if x[a] in vs then multiset{x} else multiset{})
  {
    assert (rows + [x])[..|rows|] == rows;
    if vs != [] {
      var init := vs[..|vs| - 1];
      assert vs == init + [vs[|vs| - 1]];
      GatheredSnoc(rows, a, x, init);
    }
  }

  /**
   * The blocks of the partition on column `a`, one per distinct value, hold every row
   * exactly once: together they are the rows of the table as a multiset.
   */
  lemma {:induction false} PartitionCoversRows(rows: seq<Row>, a: Attr)
    requires forall r :: r in rows ==> a in r
    ensures Gathered(rows, a, Unique(Column(rows, a))) == multiset(rows)
  {
    if rows != [] {
      var init, x := rows[..|rows| - 1], rows[|rows| - 1];
      assert rows == init + [x];
      assert Column(rows, a) == Column(init, a) + [x[a]];
      var u := Unique(Column(init, a));
      PartitionCoversRows(init, a);
      GatheredSnoc(init, a, x, u);
      if x[a] !in u {
        assert (u + [x[a]])[..|u|] == u;
        GatheredSnoc(init, a, x, u);
        assert Select(rows, a, x[a]) == Select(init, a, x[a]) + [x];
        assert x[a] !in Column(init, a);
        SelectAbsent(init, a, x[a]);
      }
    }
  }

  lemma {:induction false} SelectAbsent(rows: seq<Row>, a: Attr, v: Value)
    requires forall r :: r in rows ==> a in r
    requires v !in Column(rows, a)
    ensures Select(rows, a, v) == []
  {
    if rows != [] {
      var init := rows[..|rows| - 1];
      assert Column(init, a) == Column(rows, a)[..|rows| - 1];
      assert Column(rows, a)[|rows| - 1] == rows[|rows| - 1][a];
      SelectAbsent(init, a, v);
    }
  }

  /** Every block of the partition is non-empty: its value was observed in the column. */
  lemma {:induction false} SelectObserved(rows: seq<Row>, a: Attr, v: Value)
    requires forall r :: r in rows ==> a in r
    requires v in Column(rows, a)
    ensures |Select(rows, a, v)| > 0
  {
    var init, x := rows[..|rows| - 1], rows[|rows| - 1];
    if x[a] != v {
      assert Column(rows, a) == Column(init, a) + [x[a]];
      SelectObserved(init, a, v);
    }
  }

  /** A row with value `v` in column `a` lands, column `a` removed, in the block for `v`. */
  lemma {:induction false} SelectKeeps(rows: seq<Row>, a: Attr, r: Row)
    requires forall r :: r in rows ==> a in r
    requires r in rows
    ensures r in Select(rows, a, r[a])
  {
    var init, x := rows[..|rows| - 1], rows[|rows| - 1];
    if x != r {
      assert rows == init + [x];
      SelectKeeps(init, a, r);
    }
  }

  /** Total number of rows in the blocks for the values in `vs`. */
  function SelectSizes(rows: seq<Row>, a: Attr, vs: seq<Value>): nat
    requires forall r :: r in rows ==> a in r
  {
    if vs == [] then 0 else SelectSizes(rows, a, vs[..|vs| - 1]) + |Select(rows, a, vs[|vs| - 1])|
  }

  lemma {:induction false} GatheredSize(rows: seq<Row>, a: Attr, vs: seq<Value>)
    requires forall r :: r in rows ==> a in r
    ensures |Gathered(rows, a, vs)| == SelectSizes(rows, a, vs)
  {
    if vs != [] {
      GatheredSize(rows, a, vs[..|vs| - 1]);
    }
  }

  /** A row's value in column `a` is among the column's values. */
  lemma ObservedValue(rows: seq<Row>, a: Attr, r: Row)
    requires forall r :: r in rows ==> a in r
    requires r in rows
    ensures r[a] in Column(rows, a)
  {
    var k :| 0 <= k < |rows| && rows[k] == r;
    assert Column(rows, a)[k] == r[a];
  }

  lemma DropKeeps(rows: seq<Row>, a: Attr, r: Row)
    requires r in rows
    ensures r - {a} in Drop(rows, a)
  {
    var k :| 0 <= k < |rows| && rows[k] == r;
    assert Drop(rows, a)[k] == r - {a};
  }

  /** A block of a well-formed table is well-formed, has column `a` removed and no other. */
  lemma SubsetWellFormed(t: Table, a: Attr, v: Value)
    requires WellFormed(t) && a in t.cols
    ensures WellFormed(Subset(t, a, v))
    ensures |Subset(t, a, v).cols| == |t.cols| - 1
  {
    var s := Subset(t, a, v);
    forall r | r in s.rows ensures r.Keys == set c | c in s.cols {
      var sel := Select(t.rows, a, v);
      var i :| 0 <= i < |sel| && r == sel[i] - {a};
      assert sel[i] in t.rows;
    }
  }
}
