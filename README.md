# Categorical decision trees and random-forest aggregation, in Dafny

This project models two pieces of the ML-Algorithms repository and proves what they promise.

**Categorical decision trees** (`decision_tree_categorical.py`). `grow` takes a table of
categorical columns and a target column. When the target has a single value it makes a leaf
marked `'pure'`. Otherwise `split_on` picks the non-target column with the highest
information-gain ratio; Python's `max` keeps the first of equal maxima. `splits` then cuts the
rows into one block per observed value of that column and drops the column from each block,
and `grow` recurses into every block. Every node keeps the normalised value counts of the
target as its label distribution. `Tree.inference` walks down from the root by
`nodes[values[attr]]` until it reaches a node without children. `print_bfs` visits the nodes
breadth first.

* `errors.dfy` (`Errors`): the Python exceptions the core can raise, and `Option` / `Result`.
* `tables.dfy` (`Tables`): a data frame is an ordered list of column names and a list of rows,
  each row mapping every column to a value. It also defines `unique()` (first-appearance
  order), `value_counts(normalize=True)` as exact ratios, the boolean-mask selection
  `df[series == value]` and `drop`.
* `tree_node.dfy` (`TreeNode`): the `Tree` node. Its `nodes` dict is an ordered list of
  (value, child) branches, because Python dicts keep insertion order. `inference` is a `while`
  loop that reassigns the current node. `print_bfs` is a queue loop that returns the visit
  order.
* `tree_induction.dfy` (`Induction`): `split_on`, `splits` (a loop that fills the subsets), and
  `grow` (recursive through the comprehension over the subsets). It also holds the
  `DecisionTreeCategorical` class, whose `fit` assigns the `tree` field and whose
  `predict_one` delegates to inference.

**Random-forest aggregation** (`random_forest.py`, in `random_forest.dfy`, module
`RandomForests`). `bootstrap` resamples rows with replacement. `grow` fits one tree per
bootstrap sample. `Forest.predict` adds the trees' probability matrices into a zero buffer in
place and divides by the number of trees. For hard labels it then overwrites every row with
a one-hot row at a column of maximal average. Any maximal column may be chosen: the source
picks among them at random. The buffer is an `array2<real>`.

Exceptions are values of `Result`: `ZeroDivisionError` from the gain ratio, `ValueError` from
`max` over nothing, `KeyError` from a failed lookup, and `AttributeError` from using a model
before `fit`.

## Model

| member | source | states |
|---|---|---|
| Tables.ValueCountsIsDistribution | ML-Algorithms-master/decision_tree_categorical.py:9-10 | the distribution's keys are exactly the observed target values; each probability is in (0, 1]; over a non-empty column they sum to 1 |
| Tables.PureValueCounts | ML-Algorithms-master/decision_tree_categorical.py:9-10 | a single-valued column gets the distribution that gives probability 1 to that value |
| Tables.Unique | ML-Algorithms-master/decision_tree_categorical.py:108 | `unique()` lists each value of the column exactly once, nothing else, and is no longer than the column |
| Tables.Select | ML-Algorithms-master/decision_tree_categorical.py:111 | the mask keeps exactly the rows whose value in the column is the given one, and no more rows than there were |
| Tables.Subset | ML-Algorithms-master/decision_tree_categorical.py:111-114 | the block has the columns minus the split column and holds exactly the rows with the given value, each without that column: every such row appears, every block row comes from one, and there are as many block rows as occurrences of the value in the column |
| Tables.PartitionCoversRows | ML-Algorithms-master/decision_tree_categorical.py:106-117 | gathering the selections for every distinct value of a column gives back the multiset of all rows |
| Tables.SelectCount | ML-Algorithms-master/decision_tree_categorical.py:111 | the rows selected by `df[series == value]` are as many as the occurrences of the value in the column |
| Tables.SubsetWellFormed | ML-Algorithms-master/decision_tree_categorical.py:111-114 | a selected block with the split column dropped is a well-formed table with one column fewer |
| TreeNode.NewTree | ML-Algorithms-master/decision_tree_categorical.py:6-15 | a new node has no children; its attr is the given one, or `'pure'` when that is empty; its probs are a distribution over exactly the target's values |
| TreeNode.Lookup | ML-Algorithms-master/decision_tree_categorical.py:23 | finds a child exactly when the value is a key of `nodes`, and the child found is stored under that value |
| TreeNode.Infer | ML-Algorithms-master/decision_tree_categorical.py:17-23 | a result is the distribution of some leaf of the tree; the only failure is KeyError |
| TreeNode.Inference | ML-Algorithms-master/decision_tree_categorical.py:17-23 | the `while` walk returns what the recursive descent `Infer` returns |
| TreeNode.EnqueueChildren | ML-Algorithms-master/decision_tree_categorical.py:35-36 | the queue afterwards is the old queue followed by the node's children in dict order |
| TreeNode.PrintBfs | ML-Algorithms-master/decision_tree_categorical.py:25-36 | the visit order is the level order of the tree; it holds every node exactly once, the same multiset as a pre-order walk and as many as the tree's size |
| TreeNode.BfsIsLevelOrder | ML-Algorithms-master/decision_tree_categorical.py:27-36 | draining a FIFO queue that appends children yields the queued nodes, then their children, and so on level by level |
| TreeNode.LevelsPermutesPreorder | ML-Algorithms-master/decision_tree_categorical.py:27-36 | the level order is a permutation of the pre-order listing of the same trees |
| TreeNode.BfsFromRoot | ML-Algorithms-master/decision_tree_categorical.py:27-36 | the queue started from the root visits the level order, a permutation of all nodes, and as many nodes as the tree has |
| Induction.GainRatio | ML-Algorithms-master/decision_tree_categorical.py:72-81 | the ratio raises ZeroDivisionError exactly when the candidate column has at most one distinct value; otherwise it is the score |
| Induction.GainRatioRaisesIffPointMass | ML-Algorithms-master/decision_tree_categorical.py:72-81 | the ratio raises exactly when the column's relative frequencies give probability 1 to every value observed (one distinct value, where `ig / iv` divides by a zero `iv`, or no rows, where `info_gain` divides by `len(df) == 0` first), and returns a value whenever some frequency is below 1 |
| Tables.DegenerateIffPointMass | ML-Algorithms-master/decision_tree_categorical.py:43-51 | a column has at most one distinct value exactly when `value_counts(normalize=True)` maps every key to 1, the only distributions whose `entropy` is zero |
| Induction.ArgMax | ML-Algorithms-master/decision_tree_categorical.py:94 | the chosen index has a maximal key, and every earlier index has a strictly smaller key: the first maximum wins |
| Induction.SplitOn | ML-Algorithms-master/decision_tree_categorical.py:83-96 | a pure target gives `''`; the only exceptions are ValueError and ZeroDivisionError; a non-empty result is a column of the table other than the target |
| Induction.SplitOnRaises | ML-Algorithms-master/decision_tree_categorical.py:90-96 | for an impure target: no candidate column raises ValueError; otherwise the call raises, and raises ZeroDivisionError, exactly when some candidate column is constant |
| Induction.SplitOnBest | ML-Algorithms-master/decision_tree_categorical.py:90-96 | for an impure target, a returned column is a candidate whose score no candidate exceeds and which every earlier candidate scores strictly below |
| Induction.Partition | ML-Algorithms-master/decision_tree_categorical.py:98-119 | no attribute gives no subsets; otherwise one subset per distinct value in first-appearance order, each holding exactly the selected rows in order with the column removed, each non-empty and one column narrower |
| Induction.PartitionCoversTable | ML-Algorithms-master/decision_tree_categorical.py:106-119 | the subsets together hold every row exactly once, and their sizes sum to the number of rows |
| Induction.Splits | ML-Algorithms-master/decision_tree_categorical.py:98-119 | the loop that fills the subsets builds exactly the partition |
| Induction.Grow | ML-Algorithms-master/decision_tree_categorical.py:121-135 | growing raises only what `split_on` raises (ZeroDivisionError or ValueError); a lookup never fails while growing |
| Induction.Collect | ML-Algorithms-master/decision_tree_categorical.py:133 | the comprehension succeeds exactly when every child was grown; it then pairs each key with its child in order, and otherwise raises the exception of the first child that failed |
| Induction.GrownChildren | ML-Algorithms-master/decision_tree_categorical.py:133 | a comprehension that succeeded has one branch per key, keyed in order, and the child under key i is the value of the i-th grown result |
| Induction.GrowBounded | ML-Algorithms-master/decision_tree_categorical.py:121-135 | a grown tree's height is below the number of columns (at most the number of non-target columns), it splits only on non-target columns, and no path splits twice on the same column |
| Induction.NodeWithin | ML-Algorithms-master/decision_tree_categorical.py:130-133 | a node that splits on a non-target column, over children grown without that column, keeps the height, column and no-repeat bounds |
| Induction.ChildrenBounded | ML-Algorithms-master/decision_tree_categorical.py:133 | children within the narrower column set are shallower than it, split on its non-target columns and repeat no split |
| Induction.GrowNode | ML-Algorithms-master/decision_tree_categorical.py:121-135 | a grown node carries the target's value counts and the chosen attribute (or `'pure'`); its children are keyed by the partition's values, each grown from its block |
| Induction.GrowPureLeaf | ML-Algorithms-master/decision_tree_categorical.py:14 | a pure target gives one leaf marked `'pure'` that puts probability 1 on the single label |
| Induction.LeafIffPure | ML-Algorithms-master/decision_tree_categorical.py:121-135 | a grown node has no children exactly when its target is pure; an impure node splits on a non-target, non-constant, best-scoring column |
| Induction.TrainingRowReachesLeaf | ML-Algorithms-master/decision_tree_categorical.py:17-23 | inference on any training row never raises; it returns the value counts of the block that the row's values lead to, and that block holds the row |
| Induction.DecisionTreeCategorical.constructor | ML-Algorithms-master/decision_tree_categorical.py:41-42 | a new model has no tree |
| Induction.DecisionTreeCategorical.Fit | ML-Algorithms-master/decision_tree_categorical.py:137-138 | stores the grown tree, or leaves the field unchanged and reports the exception `grow` raised |
| Induction.DecisionTreeCategorical.PredictOne | ML-Algorithms-master/decision_tree_categorical.py:140-141 | raises AttributeError before `fit`; otherwise it is inference on the stored tree and returns one of its leaf distributions |
| RandomForests.Bootstrap | ML-Algorithms-master/random_forest.py:43-46 | both samples have as many rows as the input, and output row i is input row `lines[i]` in both matrices |
| RandomForests.BootstrapKeepsPairs | ML-Algorithms-master/random_forest.py:45-46 | every (row, label) pair of the sample is a (row, label) pair of the input |
| RandomForests.BootstrapShape | ML-Algorithms-master/random_forest.py:46 | the samples keep the widths of their inputs |
| RandomForests.BootstrapIdentity | ML-Algorithms-master/random_forest.py:45-46 | drawing every line once, in order, gives back the training data |
| RandomForests.IntSqrt | ML-Algorithms-master/random_forest.py:51 | the result is the integer square root: its square is at most n, and the next square exceeds n |
| RandomForests.NAttrs | ML-Algorithms-master/random_forest.py:51 | a truthy configured value is used as is; `None` and 0 fall back to the integer square root of the column count |
| RandomForests.RowMax | ML-Algorithms-master/random_forest.py:28 | returns the row's maximum and a column that attains it |
| RandomForests.MeanRowIsDistribution | ML-Algorithms-master/random_forest.py:15-18 | when every tree gives a row a distribution (non-negative, summing to 1), the averaged row is a distribution too |
| RandomForests.CellRowSum | ML-Algorithms-master/random_forest.py:16-17 | after k trees whose rows each sum to 1, the running row sums to k |
| RandomForests.UnanimousForest | ML-Algorithms-master/random_forest.py:15-18 | trees that all predict the same matrix average to that matrix; a single tree in particular |
| RandomForests.Average | ML-Algorithms-master/random_forest.py:15-18 | the fresh `len(X) x classes` buffer holds, cell by cell, the mean of the trees' matrices |
| RandomForests.Forest.constructor | ML-Algorithms-master/random_forest.py:8-10 | stores the trees and the number of classes |
| RandomForests.Forest.Predict | ML-Algorithms-master/random_forest.py:12-33 | the result is `len(X) x classes`; with probabilities, every cell is the mean over trees; with hard labels, every row is one-hot at a column of maximal mean; a row with no classes raises ValueError |
| RandomForests.RandomForest.constructor | ML-Algorithms-master/random_forest.py:38-40 | keeps `n_attrs` and starts without a forest |
| RandomForests.RandomForest.Grow | ML-Algorithms-master/random_forest.py:48-66 | the loop `for _ in range(n_trees)` appends exactly `n_trees` trees (none if it is not positive) and the forest has `Y.shape[1]` classes; tree k is a `DecisionTree` configured with the `n_attrs` default (`int(sqrt(X.shape[1]))` when none is given) and fitted on the bootstrap sample of draw k |
| RandomForests.RandomForest.Fit | ML-Algorithms-master/random_forest.py:68-69 | stores a forest of the default 100 trees grown from the data |
| RandomForests.RandomForest.Predict | ML-Algorithms-master/random_forest.py:71-72 | raises AttributeError before `fit`; otherwise it has the stored forest's prediction contract |

## Left out

- `entropy`, `info_gain` and `info_gain_ratio` compute with `math.log` in floating point. Their values are a parameter `score`. Only their ZeroDivisionError is modelled, which happens exactly when the candidate column has at most one distinct value: with one value, `ig / iv` divides by a zero intrinsic value; with no rows at all, `info_gain` already divides by `len(df) == 0` and `iv` is never computed.
- Induction.GainRatio: a ratio that is NaN or infinite in floating point is not modelled; with exact scores, `max` compares real numbers.
- pandas and numpy mechanics (`value_counts`, boolean masks, `drop`, `np.zeros`, `np.where`, broadcasting) are written as operations on row lists and on a 2-D array. Columns and values are strings.
- Label distributions are exact count ratios, not floats.
- Randomness: the bootstrap indices of `np.random.choice` are inputs, and the random tie-break among maximal columns is a nondeterministic choice of any maximal column.
- The `DecisionTree` class of `decision_tree.py` is not part of this model. A fitted tree is identified by its `n_attrs` and its bootstrap sample (`TreeModel`), and its `predict(X, output_probs=True)` is a function parameter. The foreign tree's own randomness, such as a random attribute subset per tree, is not modelled: two trees fitted on the same draw with the same `n_attrs` predict the same matrix.
- TreeNode.PrintBfs: the printed text is left out. The method returns the nodes in the order they are printed.
- Tree nodes are immutable values. `grow` assigns `root.nodes` once, right after creating the node, so the model builds the node with its children in one step. Object identity and aliasing of nodes are not modelled. "Every node exactly once" therefore counts structurally equal subtrees by multiplicity.
- Induction.LeafIffPure: assumes that no column is named `''`. The source treats a winning column with the empty (falsy) name as "no split" and makes a `'pure'` leaf even though the target is impure. `Grow` models that faithfully.
- Induction.DecisionTreeCategorical.Fit: an exception from `grow` is returned as a value rather than propagated.
- Induction.SplitOn, Induction.Grow, Induction.DecisionTreeCategorical.Fit: require the target to be a column of the table. With any other target, `df[target]` raises KeyError, and `fit` passes it on; that error path is not modelled.
- RandomForests.Bootstrap, RandomForests.RandomForest.Grow, RandomForests.RandomForest.Fit: require `X` and `Y` to have the same number of rows. With a longer `Y`, numpy samples only its first `len(X)` rows and raises nothing. With a shorter `Y`, a drawn index past its end raises IndexError. Neither behaviour is modelled.
- RandomForests.Forest.Predict: requires at least one tree. With none, every averaged cell is 0 / 0. With `output_probs=True` the source returns those NaNs, which reals cannot represent. With `output_probs=False` it raises ValueError whenever `X` has rows: `probs == probs.max()` is all False, so `np.random.choice` gets an empty array, or `probs.max()` itself raises when there are no classes. That ValueError is not modelled. It also requires every tree's matrix to be `len(X) x classes`, which is the foreign tree's contract.
- RandomForests.NAttrs: uses the exact integer square root. `int(np.sqrt(n))` agrees with it only while the float square root is exact enough.
