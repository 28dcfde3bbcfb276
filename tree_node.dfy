/**
 * The node of a categorical decision tree (the `Tree` class of the source): the label
 * distribution of the rows that reached it, the name of the target column, the column
 * it splits on (or the marker "pure" for a leaf) and its children keyed by the values
 * of that column. A Python dict keeps insertion order, so the children are an ordered
 * association list whose keys are distinct.
 */
module TreeNode {
  import opened Errors
  import opened Tables

  /** A label distribution: target value to relative frequency. */
  type Dist = map<Value, real>

  datatype Tree = Tree(probs: Dist, target: Attr, attr: Attr, nodes: seq<Branch>)
  datatype Branch = Branch(value: Value, child: Tree)

  /** The attribute recorded on a node that does not split. */
  const Pure: Attr := "pure"

  /**
   * `Tree(series, attr)`: a node without children whose distribution is that of the
   * target column `col`; an empty (falsy) attribute name becomes the marker "pure".
   */
  function NewTree(col: seq<Value>, target: Attr, attr: Attr): (n: Tree)
    ensures n.nodes == [] && n.target == target
    ensures attr != "" ==> n.attr == attr
    ensures attr == "" ==> n.attr == Pure
    ensures forall v :: v in n.probs <==> v in col
    ensures forall v :: v in col ==> 0.0 < n.probs[v] <= 1.0
    ensures |col| > 0 ==> SumProbs(Unique(col), n.probs) == 1.0
  {
    ValueCountsIsDistribution(col);
    Tree(ValueCounts(col), target, if attr != "" then attr else Pure, [])
  }

  /** The keys of the children, in insertion order. */
  function Keys(bs: seq<Branch>): seq<Value> {
    seq(|bs|, i requires 0 <= i < |bs| => bs[i].value)
  }

  /** The children themselves, in insertion order (`nodes.values()`). */
  function Children(bs: seq<Branch>): seq<Tree> {
    seq(|bs|, i requires 0 <= i < |bs| => bs[i].child)
  }

  /** `nodes[v]`: the child stored under key `v`, if there is one. */
  function Lookup(bs: seq<Branch>, v: Value): (r: Option<Tree>)
    ensures r.Some? <==> v in Keys(bs)
    ensures r.Some? ==> Branch(v, r.value) in bs
  {
    if bs == [] then None
    else if bs[0].value == v then
      assert Keys(bs)[0] == v;
      Some(bs[0].child)
    else
      assert Keys(bs) == [bs[0].value] + Keys(bs[1..]);
      Lookup(bs[1..], v)
  }

  /** With distinct keys, the lookup finds the child stored under that key. */
  lemma {:induction false} LookupDistinct(bs: seq<Branch>, i: nat)
    requires i < |bs| && Distinct(Keys(bs))
    ensures Lookup(bs, bs[i].value) == Some(bs[i].child)
  {
    if i > 0 {
      assert Keys(bs)[0] != Keys(bs)[i];
      assert Keys(bs[1..]) == Keys(bs)[1..];
      LookupDistinct(bs[1..], i - 1);
    }
  }

  // ---------------------------------------------------------------------------
  // Inference

  /** The distributions stored at the leaves of a tree. */
  function LeafDists(t: Tree): set<Dist> {
    if t.nodes == [] then {t.probs} else LeafDistsOf(t.nodes)
  }

  function LeafDistsOf(bs: seq<Branch>): set<Dist> {
    if bs == [] then {} else LeafDists(bs[0].child) + LeafDistsOf(bs[1..])
  }

  lemma {:induction false} LeafDistsOfBranch(bs: seq<Branch>, b: Branch)
    requires b in bs
    ensures LeafDists(b.child) <= LeafDistsOf(bs)
  {
    if bs[0] != b {
      LeafDistsOfBranch(bs[1..], b);
    }
  }

  /**
   * `Tree.inference(values)`: from the root, follow `nodes[values[attr]]` until a node
   * without children, and return that leaf's distribution. A missing column in `values`
   * or a value with no child raises KeyError.
   */
  function Infer(t: Tree, values: Row): (r: Result<Dist>)
    ensures r.Ok? ==> r.value in LeafDists(t)
    ensures r.Err? ==> r.error == KeyError
  {
    if t.nodes == [] then Ok(t.probs)
    else if t.attr !in values then Err(KeyError)
    else
      match Lookup(t.nodes, values[t.attr])
      case None => Err(KeyError)
      case Some(c) =>
        LeafDistsOfBranch(t.nodes, Branch(values[t.attr], c));
        Infer(c, values)
  }

  /** The `while` loop of `Tree.inference`, which walks down by reassigning `root`. */
  method Inference(root: Tree, values: Row) returns (r: Result<Dist>)
    ensures r == Infer(root, values)
  {
    var node := root;
    while true
      invariant Infer(node, values) == Infer(root, values)
      decreases node
    {
      if node.nodes == [] {
        return Ok(node.probs);
      }
      if node.attr !in values {
        return Err(KeyError);
      }
      var next := Lookup(node.nodes, values[node.attr]);
      if next.None? {
        return Err(KeyError);
      }
      node := next.value;
    }
  }

  // ---------------------------------------------------------------------------
  // Shape of a tree

  /** Number of splits on the longest root-to-leaf path. */
  function Height(t: Tree): nat {
    if t.nodes == [] then 0 else 1 + MaxHeight(t.nodes)
  }

  function MaxHeight(bs: seq<Branch>): nat {
    if bs == [] then 0
    else
      var h, rest := Height(bs[0].child), MaxHeight(bs[1..]);
      if h < rest then rest else h
  }

  /** The columns some node of the tree splits on. */
  function SplitAttrs(t: Tree): set<Attr> {
    if t.nodes == [] then {} else {t.attr} + SplitAttrsOf(t.nodes)
  }

  function SplitAttrsOf(bs: seq<Branch>): set<Attr> {
    if bs == [] then {} else SplitAttrs(bs[0].child) + SplitAttrsOf(bs[1..])
  }

  /** No column is split on twice along any root-to-leaf path. */
  predicate NoRepeatedSplit(t: Tree) {
    t.nodes != [] ==> t.attr !in SplitAttrsOf(t.nodes) && NoRepeatedSplitOf(t.nodes)
  }

  predicate NoRepeatedSplitOf(bs: seq<Branch>) {
    bs != [] ==> NoRepeatedSplit(bs[0].child) && NoRepeatedSplitOf(bs[1..])
  }

  // ---------------------------------------------------------------------------
  // Breadth-first visit (`print_bfs`)

  function Size(t: Tree): nat {
    1 + SizeOf(t.nodes)
  }

  function SizeOf(bs: seq<Branch>): nat {
    if bs == [] then 0 else Size(bs[0].child) + SizeOf(bs[1..])
  }

  /** Total number of nodes in a sequence of trees. */
  function SizeAll(ts: seq<Tree>): nat {
    if ts == [] then 0 else Size(ts[0]) + SizeAll(ts[1..])
  }

  /** Every node of the tree, parent before children (depth-first, pre-order). */
  function Preorder(t: Tree): seq<Tree> {
    [t] + PreorderOf(t.nodes)
  }

  function PreorderOf(bs: seq<Branch>): seq<Tree> {
    if bs == [] then [] else Preorder(bs[0].child) + PreorderOf(bs[1..])
  }

  function PreorderAll(ts: seq<Tree>): seq<Tree> {
    if ts == [] then [] else Preorder(ts[0]) + PreorderAll(ts[1..])
  }

  /** The next level: the children of each tree of `ts`, in order. */
  function Kids(ts: seq<Tree>): seq<Tree> {
    if ts == [] then [] else Children(ts[0].nodes) + Kids(ts[1..])
  }

  lemma {:induction false} SizeAllAppend(xs: seq<Tree>, ys: seq<Tree>)
    ensures SizeAll(xs + ys) == SizeAll(xs) + SizeAll(ys)
  {
    if xs == [] {
      assert xs + ys == ys;
    } else {
      assert (xs + ys)[0] == xs[0] && (xs + ys)[1..] == xs[1..] + ys;
      SizeAllAppend(xs[1..], ys);
    }
  }

  lemma {:induction false} SizeAllChildren(bs: seq<Branch>)
    ensures SizeAll(Children(bs)) == SizeOf(bs)
  {
    if bs != [] {
      assert Children(bs)[1..] == Children(bs[1..]);
      SizeAllChildren(bs[1..]);
    }
  }

  /** Expanding a node replaces it by its children: the queue shrinks by one node. */
  lemma ExpandSize(ts: seq<Tree>)
    requires ts != []
    ensures SizeAll(ts[1..] + Children(ts[0].nodes)) == SizeAll(ts) - 1
  {
    SizeAllAppend(ts[1..], Children(ts[0].nodes));
    SizeAllChildren(ts[0].nodes);
  }

  lemma {:induction false} KidsSize(ts: seq<Tree>)
    ensures SizeAll(Kids(ts)) + |ts| == SizeAll(ts)
  {
    if ts != [] {
      KidsSize(ts[1..]);
      SizeAllAppend(Children(ts[0].nodes), Kids(ts[1..]));
      SizeAllChildren(ts[0].nodes);
    }
  }

  /** What a FIFO queue holding `queue` visits: pop the front, push its children at the back. */
  function BfsFrom(queue: seq<Tree>): seq<Tree>
    decreases SizeAll(queue)
  {
    if queue == [] then []
    else
      ExpandSize(queue);
      [queue[0]] + BfsFrom(queue[1..] + Children(queue[0].nodes))
  }

  /** Level order: the trees of `ts`, then all their children, then all grandchildren, ... */
  function Levels(ts: seq<Tree>): seq<Tree>
    decreases SizeAll(ts)
  {
    if ts == [] then []
    else
      KidsSize(ts);
      ts + Levels(Kids(ts))
  }

  lemma {:induction false} BfsFromAppend(xs: seq<Tree>, ys: seq<Tree>)
    ensures BfsFrom(xs + ys) == xs + BfsFrom(ys + Kids(xs))
    decreases |xs|
  {
    if xs == [] {
      assert xs + ys == ys && ys + Kids(xs) == ys;
    } else {
      var x := xs[0];
      var c := Children(x.nodes);
      assert (xs + ys)[0] == x && (xs + ys)[1..] + c == xs[1..] + (ys + c);
      BfsFromAppend(xs[1..], ys + c);
      assert (ys + c) + Kids(xs[1..]) == ys + Kids(xs);
      assert [x] + (xs[1..] + BfsFrom(ys + Kids(xs))) == xs + BfsFrom(ys + Kids(xs));
    }
  }

  /** The queue discipline of `print_bfs` visits the trees level by level. */
  lemma {:induction false} BfsIsLevelOrder(ts: seq<Tree>)
    ensures BfsFrom(ts) == Levels(ts)
    decreases SizeAll(ts)
  {
    if ts != [] {
      assert ts + [] == ts;
      BfsFromAppend(ts, []);
      assert [] + Kids(ts) == Kids(ts);
      KidsSize(ts);
      BfsIsLevelOrder(Kids(ts));
    }
  }

  lemma {:induction false} PreorderAllAppend(xs: seq<Tree>, ys: seq<Tree>)
    ensures PreorderAll(xs + ys) == PreorderAll(xs) + PreorderAll(ys)
  {
    if xs == [] {
      assert xs + ys == ys;
    } else {
      assert (xs + ys)[0] == xs[0] && (xs + ys)[1..] == xs[1..] + ys;
      PreorderAllAppend(xs[1..], ys);
    }
  }

  lemma {:induction false} PreorderAllChildren(bs: seq<Branch>)
    ensures PreorderAll(Children(bs)) == PreorderOf(bs)
  {
    if bs != [] {
      assert Children(bs)[1..] == Children(bs[1..]);
      PreorderAllChildren(bs[1..]);
    }
  }

  lemma {:induction false} PreorderAllSplit(ts: seq<Tree>)
    ensures multiset(PreorderAll(ts)) == multiset(ts) + multiset(PreorderAll(Kids(ts)))
  {
    if ts != [] {
      var t, rest := ts[0], ts[1..];
      var below, kidsBelow := PreorderOf(t.nodes), PreorderAll(Kids(rest));
      calc {
        multiset(PreorderAll(ts));
        multiset([t] + below + PreorderAll(rest));
        multiset([t]) + multiset(below) + multiset(PreorderAll(rest));
        { PreorderAllSplit(rest); }
        multiset([t]) + multiset(below) + (multiset(rest) + multiset(kidsBelow));
        { assert ts == [t] + rest; }
        multiset(ts) + (multiset(below) + multiset(kidsBelow));
        { PreorderAllChildren(t.nodes); }
        multiset(ts) + multiset(PreorderAll(Children(t.nodes)) + kidsBelow);
        { PreorderAllAppend(Children(t.nodes), Kids(rest)); }
        multiset(ts) + multiset(PreorderAll(Kids(ts)));
      }
    }
  }

  /** Level order visits every node of the trees exactly once. */
  lemma {:induction false} LevelsPermutesPreorder(ts: seq<Tree>)
    ensures multiset(Levels(ts)) == multiset(PreorderAll(ts))
    decreases SizeAll(ts)
  {
    if ts != [] {
      KidsSize(ts);
      LevelsPermutesPreorder(Kids(ts));
      PreorderAllSplit(ts);
    }
  }

  lemma {:induction false} PreorderSize(t: Tree)
    ensures |Preorder(t)| == Size(t)
  {
    PreorderOfSize(t.nodes);
  }

  lemma {:induction false} PreorderOfSize(bs: seq<Branch>)
    ensures |PreorderOf(bs)| == SizeOf(bs)
  {
    if bs != [] {
      PreorderSize(bs[0].child);
      PreorderOfSize(bs[1..]);
    }
  }

  /** What the queue started with the root visits: level order, each node exactly once. */
  lemma BfsFromRoot(root: Tree)
    ensures BfsFrom([root]) == Levels([root])
    ensures multiset(BfsFrom([root])) == multiset(Preorder(root))
    ensures |BfsFrom([root])| == Size(root)
  {
    BfsIsLevelOrder([root]);
    LevelsPermutesPreorder([root]);
    assert PreorderAll([root]) == Preorder(root) + [];
    PreorderSize(root);
  }

  /** The inner `for` loop of `print_bfs`: append every child to the back of the queue. */
  method EnqueueChildren(queue: seq<Tree>, node: Tree) returns (q: seq<Tree>)
    ensures q == queue + Children(node.nodes)
  {
    q := queue;
    var i := 0;
    while i < |node.nodes|
      invariant 0 <= i <= |node.nodes|
      invariant q == queue + Children(node.nodes[..i])
    {
      assert Children(node.nodes[..i + 1]) == Children(node.nodes[..i]) + [node.nodes[i].child];
      q := q + [node.nodes[i].child];
      i := i + 1;
    }
    assert node.nodes[..i] == node.nodes;
  }

  /**
   * `Tree.print_bfs`: the nodes in the order the deque-based loop prints them. They come
   * level by level, and every node of the tree comes exactly once.
   */
  method PrintBfs(root: Tree) returns (visited: seq<Tree>)
    ensures visited == Levels([root])
    ensures multiset(visited) == multiset(Preorder(root))
    ensures |visited| == Size(root)
  {
    var queue := [root];
    visited := [];
    while queue != []
      invariant visited + BfsFrom(queue) == BfsFrom([root])
      decreases SizeAll(queue)
    {
      var node := queue[0];
      ExpandSize(queue);
      var next := EnqueueChildren(queue[1..], node);
      assert BfsFrom(queue) == [node] + BfsFrom(next);
      assert (visited + [node]) + BfsFrom(next) == visited + BfsFrom(queue);
      visited := visited + [node];
      queue := next;
    }
    assert visited == visited + BfsFrom([]);
    BfsFromRoot(root);
  }
}
