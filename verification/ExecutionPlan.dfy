/** The execution plan of the feature computation: a backwards walk over the node graph of the model. */
module ExecutionPlan {

  /** A graph node with the tensors it reads and writes. */
  datatype OpNode = OpNode(inputs: seq<int>, outputs: seq<int>)

  type Graph = seq<OpNode>

  ghost predicate Produces(g: Graph, n: nat, t: int) {
    n < |g| && t in g[n].outputs
  }

  /** Node `m` produces an input of node `n`. */
  ghost predicate Feeds(g: Graph, m: nat, n: nat) {
    n < |g| && exists t :: t in g[n].inputs && Produces(g, m, t)
  }

  // ----- acyclic graphs

  /** A path of nodes, each fed by the next. */
  ghost predicate IsPath(g: Graph, c: seq<nat>) {
    && (forall j | 0 <= j < |c| :: c[j] < |g|)
    && forall j {:trigger c[j]} | 0 <= j < |c| - 1 :: Feeds(g, c[j + 1], c[j])
  }

  /** No node feeds itself, directly or through others. */
  ghost predicate Acyclic(g: Graph) {
    forall c | IsPath(g, c) && |c| >= 2 :: c[0] != c[|c| - 1]
  }

  /** A numbering of the tensors that falls from a node's outputs to its inputs. */
  ghost predicate Ranked(g: Graph, rank: int -> nat) {
    forall n: nat, i, o | n < |g| && i in g[n].inputs && o in g[n].outputs :: rank(i) < rank(o)
  }

  // ----- dependencies

  /** `c` leads from a producer of `t` down to one of the nodes `t` depends on. */
  ghost predicate IsChain(g: Graph, t: int, c: seq<nat>) {
    c != [] && IsPath(g, c) && Produces(g, c[0], t)
  }

  /** Tensor `t` depends on node `n`. */
  ghost predicate Depends(g: Graph, t: int, n: nat) {
    exists c :: IsChain(g, t, c) && c[|c| - 1] == n
  }

  /** Tensor `u` is `t`, or an input of a node `t` depends on. */
  ghost predicate Needs(g: Graph, t: int, u: int) {
    u == t || exists n: nat :: n < |g| && Depends(g, t, n) && u in g[n].inputs
  }

  lemma ProducerNeeded(g: Graph, t: int, u: int, n: nat)
    requires Needs(g, t, u) && Produces(g, n, u)
    ensures Depends(g, t, n)
  {
    if u == t {
      assert IsChain(g, t, [n]) && [n][|[n]| - 1] == n;
    } else {
      var m: nat :| m < |g| && Depends(g, t, m) && u in g[m].inputs;
      var c :| IsChain(g, t, c) && c[|c| - 1] == m;
      var d := [m, n];
      assert Feeds(g, n, m);
      JoinedChain(g, t, c, d);
      assert d[1..] == [n] && (c + [n])[|c|] == n;
    }
  }

  /** No chain of dependencies of `t` comes back to a node. */
  ghost predicate AcyclicFrom(g: Graph, t: int) {
    forall c | IsChain(g, t, c) :: NoRepeat(c)
  }

  ghost predicate NoRepeat(c: seq<nat>) {
    forall i, j | 0 <= i < j < |c| :: c[i] != c[j]
  }

  /** The graph without the nodes that `t` does not depend on. */
  ghost function Cone(g: Graph, t: int): Graph {
    seq(|g|, n requires 0 <= n < |g| => if Depends(g, t, n) then g[n] else OpNode([], []))
  }

  lemma {:induction false} ConeFeeds(g: Graph, t: int, m: nat, n: nat)
    requires Feeds(Cone(g, t), m, n)
    ensures Feeds(g, m, n) && Depends(g, t, n)
  {
    hide Depends;
    var u :| u in Cone(g, t)[n].inputs && Produces(Cone(g, t), m, u);
    assert u in g[n].inputs && Produces(g, m, u);
  }

  lemma ConeIsAcyclic(g: Graph, t: int)
    requires AcyclicFrom(g, t)
    ensures Acyclic(Cone(g, t))
  {
    hide AcyclicFrom, Feeds, Depends, Cone;
    forall c | IsPath(Cone(g, t), c) && |c| >= 2 ensures c[0] != c[|c| - 1] { ConePath(g, t, c); }
  }

  lemma ConePath(g: Graph, t: int, c: seq<nat>)
    requires AcyclicFrom(g, t) && IsPath(Cone(g, t), c) && |c| >= 2
    ensures c[0] != c[|c| - 1]
  {
    hide AcyclicFrom, Feeds, Cone;
    forall j | 0 <= j < |c| - 1 ensures Feeds(g, c[j + 1], c[j]) && Depends(g, t, c[j]) { ConeStep(g, t, c, j); }
    assert Depends(g, t, c[0]);
    var d :| IsChain(g, t, d) && d[|d| - 1] == c[0];
    var e := d + c[1..];
    JoinedChain(g, t, d, c);
    NoRepeatIn(g, t, e);
    assert e[|d| - 1] == c[0] && e[|e| - 1] == c[|c| - 1];
  }

  lemma ConeStep(g: Graph, t: int, c: seq<nat>, j: nat)
    requires IsPath(Cone(g, t), c) && j < |c| - 1
    ensures Feeds(g, c[j + 1], c[j]) && Depends(g, t, c[j])
  {
    hide Feeds, Depends, Cone;
    var _ := c[j];
    ConeFeeds(g, t, c[j + 1], c[j]);
  }

  lemma NoRepeatIn(g: Graph, t: int, c: seq<nat>)
    requires AcyclicFrom(g, t) && IsChain(g, t, c)
    ensures NoRepeat(c)
  {
    hide IsChain;
  }

  lemma JoinedChain(g: Graph, t: int, d: seq<nat>, c: seq<nat>)
    requires IsChain(g, t, d) && |c| > 1 && d[|d| - 1] == c[0]
    requires forall j | 0 <= j < |c| - 1 :: Feeds(g, c[j + 1], c[j])
    ensures IsChain(g, t, d + c[1..])
  {
    hide Feeds, Produces;
    var e := d + c[1..];
    forall k | 0 <= k < |e| - 1 ensures Feeds(g, e[k + 1], e[k]) { JoinedStep(g, d, c, k); }
    forall k | 0 <= k < |e| ensures e[k] < |g| {
      if k < |e| - 1 {
        FedExists(g, e[k + 1], e[k]);
      } else {
        assert Feeds(g, e[k - 1 + 1], e[k - 1]);
        FedExists(g, e[k], e[k - 1]);
      }
    }
  }

  lemma JoinedStep(g: Graph, d: seq<nat>, c: seq<nat>, k: nat)
    requires IsPath(g, d) && d != [] && |c| > 1 && d[|d| - 1] == c[0] && k < |d| + |c| - 2
    requires forall j | 0 <= j < |c| - 1 :: Feeds(g, c[j + 1], c[j])
    ensures var e := d + c[1..]; Feeds(g, e[k + 1], e[k])
  {
    hide Feeds;
    var e := d + c[1..];
    if k < |d| - 1 {
      var _ := d[k];
      assert e[k] == d[k] && e[k + 1] == d[k + 1];
    } else {
      var j := k - (|d| - 1);
      assert e[k] == c[j] && e[k + 1] == c[j + 1];
    }
  }

  lemma FedExists(g: Graph, m: nat, n: nat)
    requires Feeds(g, m, n)
    ensures m < |g| && n < |g|
  {
  }

  // ----- weight of a tensor: how many times it and what it needs can be visited

  ghost function Occurrences(s: seq<int>, t: int): nat {
    if s == [] then 0 else Occurrences(s[..|s| - 1], t) + (if s[|s| - 1] == t then 1 else 0)
  }

  ghost function Weight(g: Graph, rank: int -> nat, t: int): nat
    requires Ranked(g, rank)
    decreases rank(t), 2, 0
  {
    1 + WeightOfProducers(g, rank, t, |g|)
  }

  ghost function WeightOfProducers(g: Graph, rank: int -> nat, t: int, k: nat): nat
    requires Ranked(g, rank) && k <= |g|
    decreases rank(t), 1, k
  {
    if k == 0 then 0
    else WeightOfProducers(g, rank, t, k - 1)
         + (if t in g[k - 1].outputs
            then Occurrences(g[k - 1].outputs, t) * WeightOfInputs(g, rank, rank(t), g[k - 1].inputs) else 0)
  }

  ghost function WeightOfInputs(g: Graph, rank: int -> nat, bound: nat, s: seq<int>): nat
    requires Ranked(g, rank) && forall i | i in s :: rank(i) < bound
    decreases bound, 0, |s|
  {
    if s == [] then 0 else WeightOfInputs(g, rank, bound, s[..|s| - 1]) + Weight(g, rank, s[|s| - 1])
  }

  /** Total weight of the frontier. */
  ghost function Total(g: Graph, rank: int -> nat, s: seq<int>): nat
    requires Ranked(g, rank)
  {
    if s == [] then 0 else Total(g, rank, s[..|s| - 1]) + Weight(g, rank, s[|s| - 1])
  }

  lemma {:induction false} InputsAreTotal(g: Graph, rank: int -> nat, bound: nat, s: seq<int>)
    requires Ranked(g, rank) && forall i | i in s :: rank(i) < bound
    ensures WeightOfInputs(g, rank, bound, s) == Total(g, rank, s)
  {
    if s != [] { InputsAreTotal(g, rank, bound, s[..|s| - 1]); }
  }

  lemma {:induction false} TotalPop(g: Graph, rank: int -> nat, s: seq<int>)
    requires Ranked(g, rank) && s != []
    ensures Total(g, rank, s) == Weight(g, rank, s[0]) + Total(g, rank, s[1..])
  {
    hide Weight;
    if |s| > 1 {
      TotalPop(g, rank, s[..|s| - 1]);
      assert s[..|s| - 1][1..] == s[1..][..|s| - 2];
    } else {
      assert s[..|s| - 1] == [] && s[1..] == [];
    }
  }

  lemma TotalPush(g: Graph, rank: int -> nat, s: seq<int>, x: int)
    requires Ranked(g, rank)
    ensures Total(g, rank, s + [x]) == Total(g, rank, s) + Weight(g, rank, x)
  {
    assert (s + [x])[..|s|] == s;
  }

  // ----- the walk

  /** A graph whose tensors have weights, if `ranked`. */
  ghost predicate Weighs(g: Graph, rank: int -> nat, ranked: bool) {
    ranked ==> Ranked(g, rank)
  }

  /** push_back_if_not_present. */
  method PushBackIfNotPresent(list: seq<int>, value: int, ghost g: Graph, ghost rank: int -> nat, ghost ranked: bool)
      returns (r: seq<int>)
    requires Weighs(g, rank, ranked)
    ensures r == if value in list then list else list + [value]
    ensures ranked ==> Total(g, rank, r) <= Total(g, rank, list) + Weight(g, rank, value)
  {
    hide Weight, Total, Ranked;
    r := list;
    if value !in list {
      r := list + [value];
      if ranked { TotalPush(g, rank, list, value); }
    }
  }

  /** Adds the inputs of a node to the frontier. */
  method PushInputs(list: seq<int>, inputs: seq<int>, ghost g: Graph, ghost rank: int -> nat, ghost ranked: bool)
      returns (r: seq<int>)
    requires Weighs(g, rank, ranked)
    ensures forall t :: t in r <==> t in list || t in inputs
    ensures ranked ==> Total(g, rank, r) <= Total(g, rank, list) + Total(g, rank, inputs)
  {
    hide Weight, Total, Ranked;
    r := list;
    if ranked { TotalEmpty(g, rank); }
    assert inputs[..0] == [];
    for j := 0 to |inputs|
      invariant forall t :: t in r <==> t in list || t in inputs[..j]
      invariant ranked ==> Total(g, rank, r) <= Total(g, rank, list) + Total(g, rank, inputs[..j])
    {
      assert inputs[..j + 1] == inputs[..j] + [inputs[j]];
      if ranked { TotalPush(g, rank, inputs[..j], inputs[j]); }
      r := PushBackIfNotPresent(r, inputs[j], g, rank, ranked);
    }
    assert inputs[..|inputs|] == inputs;
  }

  lemma TotalEmpty(g: Graph, rank: int -> nat)
    requires Ranked(g, rank)
    ensures Total(g, rank, []) == 0
  {
  }

  /** What visiting tensor `t` has added, after the nodes below `k`: in front of the list the producers of
      `t`, and in the frontier their inputs. */
  ghost predicate Visited(g: Graph, t: int, k: nat, added: seq<nat>, frontier0: seq<int>, frontier: seq<int>) {
    && (forall m | m in added :: Produces(g, m, t))
    && (forall m: nat | m < k && Produces(g, m, t) :: m in added)
    && (forall u | u in frontier0 :: u in frontier)
    && (forall u | u in frontier :: u in frontier0 || exists m :: m in added && m < |g| && u in g[m].inputs)
    && (forall m, u | m in added && m < |g| && u in g[m].inputs :: u in frontier)
  }

  lemma VisitedMore(g: Graph, t: int, k: nat, added: seq<nat>, frontier0: seq<int>, frontier: seq<int>,
                    frontier': seq<int>)
    requires Visited(g, t, k, added, frontier0, frontier) && k < |g| && t in g[k].outputs
    requires forall u :: u in frontier' <==> u in frontier || u in g[k].inputs
    ensures Visited(g, t, k, [k] + added, frontier0, frontier')
  {
    var more := [k] + added;
    forall m ensures m in more <==> m == k || m in added { }
    forall u | u in frontier' ensures u in frontier0 || exists m :: m in more && m < |g| && u in g[m].inputs {
      if u in g[k].inputs {
        assert k in more;
      } else if u !in frontier0 {
        var m :| m in added && m < |g| && u in g[m].inputs;
        assert m in more;
      }
    }
  }

  /** `cone` has the nodes of `g` that produce `t`. */
  ghost predicate SameProducers(g: Graph, cone: Graph, t: int) {
    |cone| == |g| && forall k | 0 <= k < |g| :: if t in g[k].outputs then cone[k] == g[k] else t !in cone[k].outputs
  }

  /** The loop over the outputs of node `k`: it is listed once per occurrence of `t`.  What it does holds for every
      graph; how much the frontier weighs only for one with ranks. */
  method VisitNode(g: Graph, t: int, k: nat, parents: seq<nat>, frontier: seq<int>,
                   ghost cone: Graph, ghost rank: int -> nat, ghost ranked: bool,
                   ghost frontier0: seq<int>, ghost added: seq<nat>)
      returns (parents': seq<nat>, frontier': seq<int>, ghost added': seq<nat>)
    requires Weighs(cone, rank, ranked) && k < |g| && SameProducers(g, cone, t)
    requires Visited(g, t, k, added, frontier0, frontier)
    ensures exists more :: added' == more + added && parents' == more + parents
    ensures Visited(g, t, k + 1, added', frontier0, frontier')
    ensures ranked ==>
              Total(cone, rank, frontier') + WeightOfProducers(cone, rank, t, k)
              <= Total(cone, rank, frontier) + WeightOfProducers(cone, rank, t, k + 1)
  {
    hide Total, Weight, Visited, Ranked;
    parents', frontier', added' := parents, frontier, added;
    var outs, ins := g[k].outputs, g[k].inputs;
    ghost var more: seq<nat> := [];
    if ranked { NoOccurrences(cone, rank, t, ins); }
    assert outs[..0] == [];
    for i := 0 to |outs|
      invariant added' == more + added && parents' == more + parents
      invariant Visited(g, t, k, added', frontier0, frontier') && (t in outs[..i] ==> k in added')
      invariant ranked ==>
        Total(cone, rank, frontier') <= Total(cone, rank, frontier) + Occurrences(outs[..i], t) * Total(cone, rank, ins)
    {
      assert outs[..i + 1] == outs[..i] + [outs[i]];
      if ranked { OccurrencesNext(outs, i, t, Total(cone, rank, ins)); }
      if outs[i] == t {
        ghost var before := frontier';
        parents' := [k] + parents';
        frontier' := PushInputs(frontier', ins, cone, rank, ranked);
        VisitedMore(g, t, k, added', frontier0, before, frontier');
        added', more := [k] + added', [k] + more;
      }
    }
    assert outs[..|outs|] == outs;
    VisitedNext(g, t, k, added', frontier0, frontier');
    if ranked { SameNode(g, cone, rank, t, k); }
  }

  lemma SameNode(g: Graph, cone: Graph, rank: int -> nat, t: int, k: nat)
    requires Ranked(cone, rank) && k < |g| && SameProducers(g, cone, t)
    ensures WeightOfProducers(cone, rank, t, k + 1)
         == WeightOfProducers(cone, rank, t, k) + Occurrences(g[k].outputs, t) * Total(cone, rank, g[k].inputs)
  {
    hide Total, Ranked, WeightOfProducers;
    ProducersNext(cone, rank, t, k);
    if t !in g[k].outputs {
      OccurrencesZero(g[k].outputs, t);
      OccurrencesZero(cone[k].outputs, t);
    }
  }

  lemma NoOccurrences(g: Graph, rank: int -> nat, t: int, ins: seq<int>)
    requires Ranked(g, rank)
    ensures Occurrences([], t) * Total(g, rank, ins) == 0
  {
  }

  lemma OccurrencesNext(s: seq<int>, i: nat, t: int, w: nat)
    requires i < |s|
    ensures Occurrences(s[..i + 1], t) * w == Occurrences(s[..i], t) * w + (if s[i] == t then w else 0)
  {
    assert s[..i + 1][..i] == s[..i];
  }

  lemma {:induction false} OccurrencesZero(s: seq<int>, t: int)
    requires t !in s
    ensures Occurrences(s, t) == 0
  {
    if s != [] { OccurrencesZero(s[..|s| - 1], t); }
  }

  lemma VisitedNext(g: Graph, t: int, k: nat, added: seq<nat>, frontier0: seq<int>, frontier: seq<int>)
    requires Visited(g, t, k, added, frontier0, frontier) && k < |g| && (t in g[k].outputs ==> k in added)
    ensures Visited(g, t, k + 1, added, frontier0, frontier)
  {
  }

  lemma ProducersNext(g: Graph, rank: int -> nat, t: int, k: nat)
    requires Ranked(g, rank) && k < |g|
    ensures WeightOfProducers(g, rank, t, k + 1)
         == WeightOfProducers(g, rank, t, k) + Occurrences(g[k].outputs, t) * Total(g, rank, g[k].inputs)
  {
    if t in g[k].outputs { InputsAreTotal(g, rank, rank(t), g[k].inputs); } else { OccurrencesZero(g[k].outputs, t); }
  }

  /** The loop over all nodes, for one tensor of the frontier. */
  method VisitTensor(g: Graph, t: int, parents: seq<nat>, frontier: seq<int>, ghost cone: Graph,
                     ghost rank: int -> nat, ghost ranked: bool)
      returns (parents': seq<nat>, frontier': seq<int>, ghost added: seq<nat>)
    requires Weighs(cone, rank, ranked) && SameProducers(g, cone, t)
    ensures parents' == added + parents && Visited(g, t, |g|, added, frontier, frontier')
    ensures ranked ==> Total(cone, rank, frontier') < Total(cone, rank, frontier) + Weight(cone, rank, t)
  {
    hide Total, Visited, SameProducers, Ranked;
    parents', frontier', added := parents, frontier, [];
    NothingVisited(g, t, frontier);
    SameLength(g, cone, t);
    for k := 0 to |g|
      invariant parents' == added + parents && Visited(g, t, k, added, frontier, frontier')
      invariant ranked ==>
        Total(cone, rank, frontier') <= Total(cone, rank, frontier) + WeightOfProducers(cone, rank, t, k)
    {
      ghost var was := added;
      parents', frontier', added := VisitNode(g, t, k, parents', frontier', cone, rank, ranked, frontier, added);
      ghost var more :| added == more + was && parents' == more + (was + parents);
      assert parents' == added + parents;
    }
  }

  lemma SameLength(g: Graph, cone: Graph, t: int)
    requires SameProducers(g, cone, t)
    ensures |cone| == |g|
  {
  }

  lemma NothingVisited(g: Graph, t: int, frontier: seq<int>)
    ensures Visited(g, t, 0, [], frontier, frontier)
  {
  }

  // ----- what the walk keeps

  /** All producers of `u` are listed before position `k`. */
  ghost predicate Before(g: Graph, parents: seq<nat>, k: nat, u: int) {
    forall m: nat | Produces(g, m, u) :: exists j :: 0 <= j < k && j < |parents| && parents[j] == m
  }

  /** Every input of a listed node is still to be visited, or its producers are listed before that node. */
  ghost predicate InOrder(g: Graph, parents: seq<nat>, frontier: seq<int>) {
    forall k, u | 0 <= k < |parents| && parents[k] < |g| && u in g[parents[k]].inputs ::
      u in frontier || Before(g, parents, k, u)
  }

  ghost predicate WalkInv(g: Graph, root: int, parents: seq<nat>, frontier: seq<int>) {
    && InOrder(g, parents, frontier)
    && (root in frontier || Before(g, parents, |parents|, root))
    && (forall u | u in frontier :: Needs(g, root, u))
    && (forall m | m in parents :: m < |g| && Depends(g, root, m))
  }

  /** Visiting the first tensor of the frontier. */
  lemma WalkStep(g: Graph, root: int, parents: seq<nat>, frontier: seq<int>, added: seq<nat>, frontier': seq<int>)
    requires frontier != [] && WalkInv(g, root, parents, frontier)
    requires Visited(g, frontier[0], |g|, added, frontier[1..], frontier')
    ensures WalkInv(g, root, added + parents, frontier')
  {
    hide Depends, Needs;
    var t, list := frontier[0], added + parents;
    assert frontier == [t] + frontier[1..];
    forall m | m in list ensures m < |g| && Depends(g, root, m) {
      if m in added { ProducerNeeded(g, root, t, m); }
    }
    forall u | u in frontier' ensures Needs(g, root, u) {
      if u !in frontier[1..] {
        var m :| m in added && m < |g| && u in g[m].inputs;
        ProducerNeeded(g, root, t, m);
        NeedsInput(g, root, m, u);
      }
    }
    WalkOrder(g, parents, frontier, added, frontier');
    if root in frontier && root !in frontier' {
      assert root == t;
      FirstVisited(g, t, added, parents, |list|, frontier[1..], frontier');
    } else if root !in frontier {
      BeforeMore(g, parents, |parents|, root, added);
    }
  }

  lemma NeedsInput(g: Graph, root: int, m: nat, u: int)
    requires m < |g| && Depends(g, root, m) && u in g[m].inputs
    ensures Needs(g, root, u)
  {
  }

  /** New entries go in front, so what was before stays before. */
  lemma BeforeMore(g: Graph, parents: seq<nat>, k: nat, u: int, added: seq<nat>)
    requires Before(g, parents, k, u)
    ensures Before(g, added + parents, |added| + k, u)
  {
    forall m: nat | Produces(g, m, u) ensures exists j ::
        0 <= j < |added| + k && j < |added + parents| && (added + parents)[j] == m {
      var j :| 0 <= j < k && j < |parents| && parents[j] == m;
      assert (added + parents)[|added| + j] == m;
    }
  }

  /** The producers of the visited tensor are now in front of everything listed earlier. */
  lemma FirstVisited(g: Graph, t: int, added: seq<nat>, parents: seq<nat>, k: nat, frontier0: seq<int>,
                     frontier: seq<int>)
    requires Visited(g, t, |g|, added, frontier0, frontier) && k >= |added|
    ensures Before(g, added + parents, k, t)
  {
    forall m: nat | Produces(g, m, t) ensures exists j ::
        0 <= j < k && j < |added + parents| && (added + parents)[j] == m {
      assert m in added;
      var j :| 0 <= j < |added| && added[j] == m;
      assert (added + parents)[j] == m;
    }
  }

  lemma WalkOrder(g: Graph, parents: seq<nat>, frontier: seq<int>, added: seq<nat>, frontier': seq<int>)
    requires frontier != [] && InOrder(g, parents, frontier)
    requires Visited(g, frontier[0], |g|, added, frontier[1..], frontier')
    ensures InOrder(g, added + parents, frontier')
  {
    hide Before;
    var t, list := frontier[0], added + parents;
    assert frontier == [t] + frontier[1..];
    forall k, u | 0 <= k < |list| && list[k] < |g| && u in g[list[k]].inputs
      ensures u in frontier' || Before(g, list, k, u)
    {
      if k < |added| {
        assert list[k] in added;
      } else if u !in frontier' {
        var i := k - |added|;
        assert parents[i] == list[k];
        if u == t {
          FirstVisited(g, t, added, parents, k, frontier[1..], frontier');
        } else {
          BeforeMore(g, parents, i, u, added);
        }
      }
    }
  }

  /** Every occurrence of a node comes after an occurrence of each node that feeds it. */
  ghost predicate Schedule(g: Graph, plan: seq<nat>) {
    forall k, m: nat | 0 <= k < |plan| && Feeds(g, m, plan[k]) :: exists j :: 0 <= j < k && plan[j] == m
  }

  lemma WalkEnds(g: Graph, root: int, plan: seq<nat>)
    requires WalkInv(g, root, plan, [])
    ensures Schedule(g, plan)
    ensures forall n: nat :: n in plan <==> Depends(g, root, n)
  {
    forall k, m: nat | 0 <= k < |plan| && Feeds(g, m, plan[k]) ensures exists j :: 0 <= j < k && plan[j] == m {
      var u :| u in g[plan[k]].inputs && Produces(g, m, u);
      assert Before(g, plan, k, u);
    }
    forall n: nat | Depends(g, root, n) ensures n in plan {
      var c :| IsChain(g, root, c) && c[|c| - 1] == n;
      ChainListed(g, root, plan, c, |c| - 1);
    }
  }

  lemma {:induction false} ChainListed(g: Graph, root: int, plan: seq<nat>, c: seq<nat>, j: nat)
    requires WalkInv(g, root, plan, []) && Schedule(g, plan) && IsChain(g, root, c) && j < |c|
    ensures c[j] in plan
  {
    if j == 0 {
      assert Before(g, plan, |plan|, root);
    } else {
      ChainListed(g, root, plan, c, j - 1);
      var k :| 0 <= k < |plan| && plan[k] == c[j - 1];
      var _ := c[j - 1];
      assert Feeds(g, c[j - 1 + 1], c[j - 1]);
      assert Feeds(g, c[j], plan[k]);
    }
  }

  /** find_parent_node_ids.  Tensors may be visited more than once, and nodes listed more than once; if no dependency
      of the tensor leads back to itself the walk still ends, with exactly the nodes the tensor depends on, in an order
      in which they can be executed.  Otherwise it does not end (see WalkNeverEnds). */
  method FindParentNodeIds(g: Graph, tensor: int) returns (parents: seq<nat>)
    requires AcyclicFrom(g, tensor)
    ensures forall n: nat :: n in parents <==> Depends(g, tensor, n)
    ensures Schedule(g, parents)
  {
    hide Total, Weight, Visited, WalkInv, Ranked, AcyclicFrom, Acyclic, Depends, Schedule, Cone, SameProducers;
    ConeIsAcyclic(g, tensor);
    ghost var cone := Cone(g, tensor);
    ghost var rank := RankOf(cone);
    parents := [];
    var frontier := [tensor];
    WalkStarts(g, tensor);
    while frontier != []
      invariant WalkInv(g, tensor, parents, frontier)
      decreases Total(cone, rank, frontier)
    {
      var next := frontier[0];
      TotalPop(cone, rank, frontier);
      InCone(g, tensor, parents, frontier);
      ghost var parents0, frontier0, added := parents, frontier, [];
      parents, frontier, added := VisitTensor(g, next, parents, frontier[1..], cone, rank, true);
      WalkStep(g, tensor, parents0, frontier0, added, frontier);
    }
    WalkEnds(g, tensor, parents);
  }

  lemma InCone(g: Graph, root: int, parents: seq<nat>, frontier: seq<int>)
    requires WalkInv(g, root, parents, frontier) && frontier != []
    ensures SameProducers(g, Cone(g, root), frontier[0])
  {
    hide Depends, Needs;
    forall k | 0 <= k < |g| && frontier[0] in g[k].outputs ensures Depends(g, root, k) {
      ProducerNeeded(g, root, frontier[0], k);
    }
  }

  /** Some tensor of the frontier depends on a node that depends on itself. */
  ghost predicate Endless(g: Graph, frontier: seq<int>) {
    exists u :: u in frontier && !AcyclicFrom(g, u)
  }

  lemma ChainTail(g: Graph, t: int, c: seq<nat>) returns (u: int)
    requires IsChain(g, t, c) && |c| >= 2
    ensures u in g[c[0]].inputs && IsChain(g, u, c[1..])
  {
    var _ := c[0];
    assert Feeds(g, c[0 + 1], c[0]);
    u :| u in g[c[0]].inputs && Produces(g, c[1], u);
    TailPath(g, c);
  }

  lemma TailPath(g: Graph, c: seq<nat>)
    requires IsPath(g, c) && |c| >= 2
    ensures IsPath(g, c[1..])
  {
    hide Feeds;
    var d := c[1..];
    forall k | 0 <= k < |d| - 1 ensures Feeds(g, d[k + 1], d[k]) {
      assert d[k] == c[k + 1] && d[k + 1] == c[k + 1 + 1];
    }
  }

  /** A chain that comes back to its first node can be continued from there. */
  lemma Unrolled(g: Graph, u: int, c: seq<nat>, j: nat)
    requires 0 < j < |c| && c[0] == c[j] && IsPath(g, c) && IsChain(g, u, c[1..])
    ensures !AcyclicFrom(g, u)
  {
    hide Feeds;
    var d := c[1..j + 1] + [c[1]];
    assert forall k | 0 <= k < j :: d[k] == c[k + 1];
    assert d[j] == c[1] && c[1..][0] == c[1];
    forall k | 0 <= k < |d| - 1 ensures Feeds(g, d[k + 1], d[k]) {
      if k == j - 1 {
        var _ := c[0];
        assert d[k] == c[j] && Feeds(g, c[0 + 1], c[0]);
      } else {
        assert Feeds(g, c[k + 1 + 1], c[k + 1]);
      }
    }
    assert IsChain(g, u, d) && d[0] == d[j];
  }

  /** An input of a producer of `t` depends on the cycle too. */
  lemma CycleBelow(g: Graph, t: int) returns (n: nat, u: int)
    requires !AcyclicFrom(g, t)
    ensures Produces(g, n, t) && u in g[n].inputs && !AcyclicFrom(g, u)
  {
    var c :| IsChain(g, t, c) && !NoRepeat(c);
    var i, j :| 0 <= i < j < |c| && c[i] == c[j];
    n := c[0];
    u := ChainTail(g, t, c);
    if i == 0 {
      Unrolled(g, u, c, j);
    } else {
      assert c[1..][i - 1] == c[1..][j - 1];
    }
  }

  /** With a cycle among the dependencies the frontier never runs empty, so the walk does not end. */
  lemma NeverEmpties(g: Graph, frontier: seq<int>, added: seq<nat>, frontier': seq<int>)
    requires Endless(g, frontier) && Visited(g, frontier[0], |g|, added, frontier[1..], frontier')
    ensures Endless(g, frontier') && frontier' != []
  {
    hide AcyclicFrom;
    var t :| t in frontier && !AcyclicFrom(g, t);
    if t in frontier[1..] {
      assert t in frontier';
    } else {
      assert frontier == [frontier[0]] + frontier[1..];
      var n, u := CycleBelow(g, t);
      assert u in frontier';
    }
  }

  /** The frontiers of a walk, one after the other: each step visits the first tensor. */
  ghost predicate IsWalk(g: Graph, tensor: int, frontiers: seq<seq<int>>) {
    && frontiers != [] && frontiers[0] == [tensor]
    && forall k {:trigger frontiers[k]} | 0 <= k < |frontiers| - 1 :: IsStep(g, frontiers[k], frontiers[k + 1])
  }

  ghost predicate IsStep(g: Graph, frontier: seq<int>, frontier': seq<int>) {
    frontier != [] && exists added :: Visited(g, frontier[0], |g|, added, frontier[1..], frontier')
  }

  lemma {:induction false} WalkNeverEnds(g: Graph, tensor: int, frontiers: seq<seq<int>>, k: nat)
    requires !AcyclicFrom(g, tensor) && IsWalk(g, tensor, frontiers) && k < |frontiers|
    ensures Endless(g, frontiers[k]) && frontiers[k] != []
  {
    hide AcyclicFrom, Visited;
    if k == 0 {
      assert tensor in frontiers[0];
    } else {
      WalkNeverEnds(g, tensor, frontiers, k - 1);
      var _ := frontiers[k - 1];
      assert IsStep(g, frontiers[k - 1], frontiers[k - 1 + 1]);
      var added :| Visited(g, frontiers[k - 1][0], |g|, added, frontiers[k - 1][1..], frontiers[k]);
      NeverEmpties(g, frontiers[k - 1], added, frontiers[k]);
    }
  }

  /** The first iterations of the loop of find_parent_node_ids, on any graph: they are a walk, and if a dependency of
      the tensor leads back to itself the loop is not done after any number of them. */
  method FirstIterations(g: Graph, tensor: int, count: nat)
      returns (parents: seq<nat>, frontier: seq<int>, frontiers: seq<seq<int>>)
    ensures IsWalk(g, tensor, frontiers) && frontiers[|frontiers| - 1] == frontier
    ensures WalkInv(g, tensor, parents, frontier)
    ensures |frontiers| == count + 1 || (|frontiers| <= count && frontier == [])
    ensures !AcyclicFrom(g, tensor) ==> |frontiers| == count + 1 && frontier != []
  {
    hide AcyclicFrom, Visited, WalkInv;
    WalkStarts(g, tensor);
    parents, frontier, frontiers := [], [tensor], [[tensor]];
    var i := 0;
    while i < count && frontier != []
      invariant 0 <= i <= count && |frontiers| == i + 1
      invariant IsWalk(g, tensor, frontiers) && frontiers[i] == frontier
      invariant WalkInv(g, tensor, parents, frontier)
    {
      ghost var before, parents0, added := frontier, parents, [];
      SameGraph(g, frontier[0]);
      parents, frontier, added := VisitTensor(g, frontier[0], parents, frontier[1..], g, (t: int) => 0, false);
      assert IsStep(g, before, frontier);
      WalkStep(g, tensor, parents0, before, added, frontier);
      WalkMore(g, tensor, frontiers, frontier);
      frontiers := frontiers + [frontier];
      i := i + 1;
    }
    if !AcyclicFrom(g, tensor) { WalkNeverEnds(g, tensor, frontiers, i); }
  }

  lemma SameGraph(g: Graph, t: int)
    ensures SameProducers(g, g, t)
  {
  }

  lemma WalkMore(g: Graph, tensor: int, frontiers: seq<seq<int>>, next: seq<int>)
    requires IsWalk(g, tensor, frontiers) && IsStep(g, frontiers[|frontiers| - 1], next)
    ensures IsWalk(g, tensor, frontiers + [next])
  {
    hide IsStep;
    var more := frontiers + [next];
    forall k | 0 <= k < |more| - 1 ensures IsStep(g, more[k], more[k + 1]) {
      if k < |frontiers| - 1 {
        var _ := frontiers[k];
        assert more[k] == frontiers[k] && more[k + 1] == frontiers[k + 1];
      }
    }
  }

  lemma WalkStarts(g: Graph, root: int)
    ensures WalkInv(g, root, [], [root])
  {
  }

  // ----- an acyclic graph has a numbering

  /** The length, up to `k`, of the longest chain of dependencies of tensor `t`. */
  ghost function LongestChain(g: Graph, t: int, k: nat): nat {
    if k == 0 then 0
    else if exists c :: IsChain(g, t, c) && |c| == k then k
    else LongestChain(g, t, k - 1)
  }

  lemma {:induction false} LongestIs(g: Graph, t: int, k: nat)
    ensures var n := LongestChain(g, t, k); n <= k && (n > 0 ==> exists c :: IsChain(g, t, c) && |c| == n)
    ensures forall c | IsChain(g, t, c) && |c| <= k :: |c| <= LongestChain(g, t, k)
  {
    hide IsChain;
    if k > 0 { LongestIs(g, t, k - 1); }
    forall c | IsChain(g, t, c) && |c| <= k ensures |c| <= LongestChain(g, t, k) { }
  }

  lemma {:induction false} SmallSet(s: set<nat>, n: nat)
    requires forall x | x in s :: x < n
    ensures |s| <= n
  {
    if n > 0 {
      SmallSet(s - {n - 1}, n - 1);
      assert s <= (s - {n - 1}) + {n - 1};
    } else {
      assert s == {};
    }
  }

  ghost function Elements(c: seq<nat>): set<nat> {
    set x | x in c
  }

  lemma {:induction false} RepeatOrCount(c: seq<nat>) returns (i: nat, j: nat)
    ensures |Elements(c)| == |c| || (i < j < |c| && c[i] == c[j])
  {
    i, j := 0, 0;
    if c == [] {
      assert Elements(c) == {};
    } else {
      var front, last := c[..|c| - 1], c[|c| - 1];
      i, j := RepeatOrCount(front);
      assert c == front + [last];
      assert Elements(c) == Elements(front) + {last};
      if last in front {
        i :| 0 <= i < |front| && front[i] == last;
        j := |c| - 1;
      }
    }
  }

  lemma SubPath(g: Graph, c: seq<nat>, i: nat, j: nat)
    requires IsPath(g, c) && i < j < |c|
    ensures IsPath(g, c[i..j + 1])
  {
    hide Feeds;
    var d := c[i..j + 1];
    forall k | 0 <= k < |d| - 1 ensures Feeds(g, d[k + 1], d[k]) {
      assert d[k] == c[i + k] && d[k + 1] == c[i + k + 1];
    }
  }

  /** In an acyclic graph no path is longer than the number of nodes. */
  lemma PathsAreShort(g: Graph, c: seq<nat>)
    requires Acyclic(g) && IsPath(g, c)
    ensures |c| <= |g|
  {
    hide Acyclic;
    var i, j := RepeatOrCount(c);
    if i < j < |c| && c[i] == c[j] {
      SubPath(g, c, i, j);
      NoLoop(g, c[i..j + 1]);
      assert false;
    }
    SmallSet(Elements(c), |g|);
  }

  lemma NoLoop(g: Graph, d: seq<nat>)
    requires Acyclic(g) && IsPath(g, d) && |d| >= 2
    ensures d[0] != d[|d| - 1]
  {
    hide IsPath;
  }

  /** The numbering that makes the walk end: the length of a tensor's longest chain of dependencies. */
  lemma RankOf(g: Graph) returns (rank: int -> nat)
    requires Acyclic(g)
    ensures Ranked(g, rank)
  {
    hide Acyclic, LongestChain, IsPath;
    rank := (t: int) => LongestChain(g, t, |g|);
    forall n: nat, i, o | n < |g| && i in g[n].inputs && o in g[n].outputs ensures rank(i) < rank(o) {
      LongestIs(g, i, |g|);
      LongestIs(g, o, |g|);
      if rank(i) == 0 {
        OneChain(g, n, o);
        assert |[n]| == 1;
      } else {
        var c :| IsChain(g, i, c) && |c| == rank(i);
        LongerChain(g, n, i, o, c);
        PathsAreShort(g, [n] + c);
      }
    }
  }

  lemma OneChain(g: Graph, n: nat, o: int)
    requires n < |g| && o in g[n].outputs
    ensures IsChain(g, o, [n])
  {
  }

  lemma LongerChain(g: Graph, n: nat, i: int, o: int, c: seq<nat>)
    requires n < |g| && i in g[n].inputs && o in g[n].outputs && IsChain(g, i, c)
    ensures IsChain(g, o, [n] + c) && IsPath(g, [n] + c)
  {
    var d := [n] + c;
    assert Feeds(g, c[0], n);
    hide Feeds;
    forall k | 0 <= k < |d| - 1 ensures Feeds(g, d[k + 1], d[k]) {
      if k > 0 { assert d[k] == c[k - 1] && d[k + 1] == c[k - 1 + 1]; }
    }
  }
}
