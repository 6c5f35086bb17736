/** The operations that change the trie: get_path_trie, iterate_to_vec and remove. */
module TrieOps {
  import opened Basics
  import opened PathTrie

  // ----- the timestep tree

  ghost predicate ChildOf(tree: seq<TsNode>, t: nat, k: nat) {
    0 < k < |tree| && tree[k].parent == t
  }

  /** `hist[t]` is the sequence of timesteps from the root of the tree to node `t`. */
  ghost predicate TsOk(tree: seq<TsNode>, hist: seq<seq<nat>>) {
    && |tree| == |hist| && |tree| > 0 && hist[0] == []
    && (forall t {:trigger hist[t]} | 0 < t < |tree| ::
        tree[t].parent < t && hist[t] == hist[tree[t].parent] + [tree[t].data])
    && (forall t, k {:trigger ChildOf(tree, t, k)} | 0 <= t < |tree| && k in tree[t].children :: ChildOf(tree, t, k))
  }

  /** get_history: the data on the way from the root (exclusive) to `t`. */
  function GetHistory(tree: seq<TsNode>, t: nat): seq<nat>
    requires t < |tree| && forall k | 0 < k < |tree| :: tree[k].parent < k
  {
    if t == 0 then [] else GetHistory(tree, tree[t].parent) + [tree[t].data]
  }

  lemma {:induction false} GetHistoryIsHist(tree: seq<TsNode>, hist: seq<seq<nat>>, t: nat)
    requires TsOk(tree, hist) && t < |tree|
    ensures forall k | 0 < k < |tree| :: tree[k].parent < k
    ensures GetHistory(tree, t) == hist[t]
  {
    forall k | 0 < k < |tree| ensures tree[k].parent < k { var _ := hist[k]; }
    if t > 0 {
      assert hist[t] == hist[tree[t].parent] + [tree[t].data];
      GetHistoryIsHist(tree, hist, tree[t].parent);
    }
  }

  /** Does node `t` of the timestep tree have a child for this timestep? */
  ghost predicate HasTsChild(tree: seq<TsNode>, t: nat, data: nat) {
    t < |tree| && exists k :: k in tree[t].children && k < |tree| && tree[k].data == data
  }

  function AddTsChild(tree: seq<TsNode>, t: nat, data: nat): seq<TsNode>
    requires t < |tree|
  {
    tree[t := tree[t].(children := tree[t].children + [|tree|])] + [TsNode(t, data, [])]
  }

  lemma AddTsChildOk(tree: seq<TsNode>, hist: seq<seq<nat>>, t: nat, data: nat)
    requires TsOk(tree, hist) && t < |tree|
    ensures TsOk(AddTsChild(tree, t, data), hist + [hist[t] + [data]])
  {
    var tree', hist' := AddTsChild(tree, t, data), hist + [hist[t] + [data]];
    forall k | 0 < k < |tree'| ensures tree'[k].parent < k && hist'[k] == hist'[tree'[k].parent] + [tree'[k].data] {
      if k < |tree| { assert hist[k] == hist[tree[k].parent] + [tree[k].data]; }
    }
    forall u, k | 0 <= u < |tree'| && k in tree'[u].children ensures ChildOf(tree', u, k) {
      if u < |tree| && k in tree[u].children {
        assert ChildOf(tree, u, k);
      } else {
        assert u == t && k == |tree|;
      }
    }
  }

  // ----- get_path_trie

  function Revive(n: Node): Node {
    n.(live := true, bPrev := 0.0, nbPrev := 0.0, bCur := 0.0, nbCur := 0.0)
  }

  /** State of the new node: the automaton restarts whenever it reaches a final state. */
  function NextDictState(d: Dictionary, state: nat, c: nat): nat
    requires (state, c + 1) in d.delta
  {
    var t := d.delta[(state, c + 1)];
    if t in d.finals then d.start else t
  }

  /** What get_path_trie(c) called on node `s` does to the trie. */
  ghost predicate Expanded(dict: Option<Dictionary>, nodes: map<NodeId, Node>, next: NodeId, s: NodeId, c: nat,
                           r: Option<NodeId>, nodes': map<NodeId, Node>, next': NodeId)
    requires s in nodes
  {
    match r
    case None =>
      && dict.Some? && (nodes[s].dictState, c + 1) !in dict.value.delta
      && (forall e | e in nodes[s].children :: e.0 != c)
      && next' == next
      && nodes' == nodes[s := nodes[s].(dictState :=
            if nodes[s].dictState in dict.value.finals then dict.value.start else nodes[s].dictState)]
    case Some(q) =>
      if q in nodes then
        && (c, q) in nodes[s].children
        && next' == next
        && nodes' == if nodes[q].live then nodes else nodes[q := Revive(nodes[q])]
      else
        && (forall e | e in nodes[s].children :: e.0 != c)
        && q == next && next' == next + 1
        && (dict.Some? ==> (nodes[s].dictState, c + 1) in dict.value.delta)
        && nodes' == AddChild(nodes, s, c, next,
              if dict.Some? then NextDictState(dict.value, nodes[s].dictState, c) else 0)
  }

  // ----- iterate_to_vec

  ghost function Subtree(paths: map<NodeId, seq<nat>>, n: NodeId): set<NodeId>
    requires n in paths
  {
    set m | m in paths && paths[n] <= paths[m]
  }

  /** The end-of-frame update of one live node: current masses become previous ones, and a recorded
      expansion becomes the node's history. */
  ghost predicate Committed(n: Node, n': Node, hist: seq<seq<nat>>) {
    && n' == n.(bPrev := n.bCur, nbPrev := n.nbCur, bCur := 0.0, nbCur := 0.0, score := n.bCur + n.nbCur,
                prevTimesteps := None, timesteps := n'.timesteps)
    && (n.prevTimesteps.None? ==> n'.timesteps == n.timesteps)
    && (n.prevTimesteps.Some? ==>
          && n.prevTimesteps.value < |hist|
          && n'.timesteps.Some? && n'.timesteps.value < |hist|
          && hist[n'.timesteps.value] == hist[n.prevTimesteps.value] + [n.newTimestep])
  }

  ghost predicate CommittedOn(nodes: map<NodeId, Node>, nodes': map<NodeId, Node>, hist: seq<seq<nat>>,
                              on: set<NodeId>) {
    && nodes.Keys == nodes'.Keys
    && forall m | m in nodes :: if m in on && nodes[m].live then Committed(nodes[m], nodes'[m], hist)
                                else nodes'[m] == nodes[m]
  }

  lemma CommittedOnShape(nodes: map<NodeId, Node>, nodes': map<NodeId, Node>, hist: seq<seq<nat>>, on: set<NodeId>)
    requires CommittedOn(nodes, nodes', hist, on)
    ensures SameShape(nodes, nodes')
  {
  }

  lemma CommittedOnMore(n0: map<NodeId, Node>, n1: map<NodeId, Node>, n2: map<NodeId, Node>,
                        h1: seq<seq<nat>>, h2: seq<seq<nat>>, d1: set<NodeId>, d2: set<NodeId>)
    requires CommittedOn(n0, n1, h1, d1) && CommittedOn(n1, n2, h2, d2)
    requires d1 !! d2 && h1 <= h2
    ensures CommittedOn(n0, n2, h2, d1 + d2)
  {
    forall m | m in n0 ensures if m in d1 + d2 && n0[m].live then Committed(n0[m], n2[m], h2) else n2[m] == n0[m] {
    }
  }

  /** `r` lists the live nodes of `on`, each once. */
  ghost predicate ListsLive(nodes: map<NodeId, Node>, on: set<NodeId>, r: seq<NodeId>) {
    && NoDup(r)
    && forall m :: m in r <==> m in nodes && m in on && nodes[m].live
  }

  lemma ListsLiveConcat(nodes: map<NodeId, Node>, d1: set<NodeId>, r1: seq<NodeId>, d2: set<NodeId>, r2: seq<NodeId>)
    requires ListsLive(nodes, d1, r1) && ListsLive(nodes, d2, r2) && d1 !! d2
    ensures ListsLive(nodes, d1 + d2, r1 + r2)
  {
    forall i, j | 0 <= i < j < |r1 + r2| ensures (r1 + r2)[i] != (r1 + r2)[j] {
      if i < |r1| <= j { assert r1[i] in r1 && r2[j - |r1|] in r2; }
    }
  }

  lemma ListsLiveSame(nodes: map<NodeId, Node>, nodes': map<NodeId, Node>, on: set<NodeId>, r: seq<NodeId>)
    requires ListsLive(nodes, on, r) && nodes.Keys == nodes'.Keys
    requires forall m | m in nodes :: nodes'[m].live == nodes[m].live
    ensures ListsLive(nodes', on, r)
  {
  }

  /** The ancestor of `m` just below `n`. */
  lemma {:induction false} BranchOf(nodes: map<NodeId, Node>, paths: map<NodeId, seq<nat>>, next: NodeId, n: NodeId,
                                    m: NodeId)
      returns (e: (nat, NodeId))
    requires Wf(nodes, paths, next) && n in nodes && m in nodes && m != n && paths[n] <= paths[m]
    ensures e in nodes[n].children && e.1 in nodes && paths[e.1] == paths[n] + [e.0] && paths[e.1] <= paths[m]
    decreases m
  {
    hide DownOk, DistinctLabels;
    Links(nodes, paths, next, m);
    var par := nodes[m].parent;
    if par == n {
      e := (nodes[m].character, m);
    } else {
      assert paths[n] != paths[m];
      assert paths[par] == paths[m][..|paths[m]| - 1];
      e := BranchOf(nodes, paths, next, n, par);
    }
  }

  /** Children of `n` whose subtrees lie in `on`, with the first `k` of them done. */
  ghost function Branches(paths: map<NodeId, seq<nat>>, kids: seq<(nat, NodeId)>): set<NodeId>
    requires forall e | e in kids :: e.1 in paths
  {
    if kids == [] then {} else Branches(paths, kids[..|kids| - 1]) + Subtree(paths, kids[|kids| - 1].1)
  }

  lemma {:induction false} InBranches(paths: map<NodeId, seq<nat>>, kids: seq<(nat, NodeId)>, m: NodeId)
    requires forall e | e in kids :: e.1 in paths
    ensures m in Branches(paths, kids) <==> exists e :: e in kids && m in Subtree(paths, e.1)
  {
    if kids != [] {
      var rest, last := kids[..|kids| - 1], kids[|kids| - 1];
      InBranches(paths, rest, m);
      assert kids == rest + [last];
      assert last in kids;
    }
  }

  lemma KidPath(nodes: map<NodeId, Node>, paths: map<NodeId, seq<nat>>, next: NodeId, n: NodeId, e: (nat, NodeId))
    requires Wf(nodes, paths, next) && n in nodes && e in nodes[n].children
    ensures e.1 in nodes && e.1 != ROOT_ID && n < e.1 && paths[e.1] == paths[n] + [e.0]
  {
    assert LinkedDown(nodes, n, e);
    assert LinkedUp(nodes, paths, e.1);
  }

  /** A subtree is its root and the subtrees of the children. */
  lemma SubtreeSplit(nodes: map<NodeId, Node>, paths: map<NodeId, seq<nat>>, next: NodeId, n: NodeId)
    requires Wf(nodes, paths, next) && n in nodes
    ensures forall e | e in nodes[n].children :: e.1 in paths
    ensures Subtree(paths, n) == Branches(paths, nodes[n].children) + {n}
    ensures n !in Branches(paths, nodes[n].children)
  {
    hide UpOk, DownOk, OnePerPath, Branches;
    var kids := nodes[n].children;
    forall e | e in kids ensures e.1 in paths && paths[e.1] == paths[n] + [e.0] { KidPath(nodes, paths, next, n, e); }
    forall m ensures m in Subtree(paths, n) <==> m in Branches(paths, kids) + {n} {
      InBranches(paths, kids, m);
      if m in Subtree(paths, n) && m != n {
        var e := BranchOf(nodes, paths, next, n, m);
        assert m in Subtree(paths, e.1);
      }
    }
    InBranches(paths, kids, n);
  }

  /** Subtrees of different children do not meet. */
  lemma NextBranchDisjoint(nodes: map<NodeId, Node>, paths: map<NodeId, seq<nat>>, next: NodeId, n: NodeId, k: nat)
    requires Wf(nodes, paths, next) && n in nodes && k < |nodes[n].children|
    ensures forall e | e in nodes[n].children :: e.1 in paths
    ensures Branches(paths, nodes[n].children[..k + 1])
         == Branches(paths, nodes[n].children[..k]) + Subtree(paths, nodes[n].children[k].1)
    ensures Branches(paths, nodes[n].children[..k]) !! Subtree(paths, nodes[n].children[k].1)
  {
    hide UpOk, DownOk, OnePerPath, LinkedUp;
    var kids := nodes[n].children;
    Links(nodes, paths, next, n);
    forall e | e in kids ensures e.1 in paths && paths[e.1] == paths[n] + [e.0] { KidPath(nodes, paths, next, n, e); }
    assert kids[..k + 1][..k] == kids[..k];
    forall m | m in Subtree(paths, kids[k].1) ensures m !in Branches(paths, kids[..k]) {
      InBranches(paths, kids[..k], m);
      assert paths[m][|paths[n]|] == kids[k].0;
      forall e | e in kids[..k] ensures m !in Subtree(paths, e.1) {
        var i :| 0 <= i < k && kids[i] == e;
        assert paths[e.1][|paths[n]|] == e.0 != kids[k].0;
      }
    }
  }

  /** No node is listed in front of one below it. */
  ghost predicate ChildrenFirst(paths: map<NodeId, seq<nat>>, r: seq<NodeId>) {
    && (forall m | m in r :: m in paths)
    && forall i, j | 0 <= i < j < |r| :: !(paths[r[i]] < paths[r[j]])
  }

  lemma ChildrenFirstConcat(nodes: map<NodeId, Node>, paths: map<NodeId, seq<nat>>, kids: seq<(nat, NodeId)>,
                            r1: seq<NodeId>, d2: set<NodeId>, r2: seq<NodeId>)
    requires (forall e | e in kids :: e.1 in paths) && paths.Keys == nodes.Keys
    requires ListsLive(nodes, Branches(paths, kids), r1) && ListsLive(nodes, d2, r2) && Branches(paths, kids) !! d2
    requires ChildrenFirst(paths, r1) && ChildrenFirst(paths, r2)
    ensures ChildrenFirst(paths, r1 + r2)
  {
    hide Branches;
    var r := r1 + r2;
    forall i, j | 0 <= i < j < |r| ensures r[i] in paths && r[j] in paths && !(paths[r[i]] < paths[r[j]]) {
      assert i < |r1| ==> r1[i] in r1;
      assert j >= |r1| ==> r2[j - |r1|] in r2;
      if i < |r1| <= j && paths[r[i]] < paths[r[j]] {
        BranchesClosed(paths, kids, r[i], r[j]);
        assert false;
      }
    }
    forall m | m in r ensures m in paths { if m in r1 { } else { assert m in r2; } }
  }

  lemma BranchesClosed(paths: map<NodeId, seq<nat>>, kids: seq<(nat, NodeId)>, m: NodeId, k: NodeId)
    requires (forall e | e in kids :: e.1 in paths) && m in Branches(paths, kids)
    requires m in paths && k in paths && paths[m] < paths[k]
    ensures k in Branches(paths, kids)
  {
    hide Branches;
    InBranches(paths, kids, m);
    InBranches(paths, kids, k);
    var e :| e in kids && m in Subtree(paths, e.1);
    assert k in Subtree(paths, e.1);
  }

  // ----- remove

  ghost predicate LeavesLiveBut(nodes: map<NodeId, Node>, n: NodeId) {
    forall m | m in nodes && nodes[m].children == [] && m != n :: nodes[m].live
  }

  /** Only nodes that are not live, or are in `gone`, have left the trie; the nodes in `gone` are no
      longer live; of every other node nothing but the child list has changed. */
  ghost predicate Pruned(nodes: map<NodeId, Node>, nodes': map<NodeId, Node>, gone: set<NodeId>) {
    && (forall m | m in nodes' :: m in nodes && nodes'[m] == nodes[m].(children := nodes'[m].children,
                                                                       live := nodes[m].live && m !in gone))
    && (forall m | m in nodes && nodes[m].live && m !in gone :: m in nodes')
  }

  ghost predicate SubMap(paths: map<NodeId, seq<nat>>, paths': map<NodeId, seq<nat>>) {
    forall m | m in paths' :: m in paths && paths'[m] == paths[m]
  }

  lemma PrunedMore(n0: map<NodeId, Node>, n1: map<NodeId, Node>, n2: map<NodeId, Node>, g1: set<NodeId>,
                   g2: set<NodeId>)
    requires Pruned(n0, n1, g1) && Pruned(n1, n2, g2)
    ensures Pruned(n0, n2, g1 + g2)
  {
  }

  class Trie {
    const dict: Option<Dictionary>
    var nodes: map<NodeId, Node>
    var nextId: NodeId
    var tsTree: seq<TsNode>
    ghost var paths: map<NodeId, seq<nat>>
    ghost var hist: seq<seq<nat>>

    ghost predicate Valid()
      reads this
    {
      Wf(nodes, paths, nextId) && TsOk(tsTree, hist)
    }

    /** The root has the whole mass, on the blank side. */
    constructor (dict: Option<Dictionary>)
      ensures Valid() && this.dict == dict
      ensures nodes == map[ROOT_ID := FreshNode(ROOT, ROOT_ID, if dict.Some? then dict.value.start else 0)
                             .(score := 1.0, bPrev := 1.0, timesteps := Some(0))]
      ensures nextId == 1 && paths == map[ROOT_ID := []] && hist == [[]]
    {
      this.dict := dict;
      nodes := map[ROOT_ID := FreshNode(ROOT, ROOT_ID, if dict.Some? then dict.value.start else 0)
                     .(score := 1.0, bPrev := 1.0, timesteps := Some(0))];
      nextId := 1;
      tsTree := [TsNode(0, 0, [])];
      paths := map[ROOT_ID := []];
      hist := [[]];
    }

    method FindChild(s: NodeId, c: nat) returns (r: Option<NodeId>)
      requires s in nodes
      ensures r.None? <==> forall e | e in nodes[s].children :: e.0 != c
      ensures r.Some? ==> (c, r.value) in nodes[s].children
    {
      var kids := nodes[s].children;
      var i := 0;
      while i < |kids|
        invariant 0 <= i <= |kids|
        invariant forall j | 0 <= j < i :: kids[j].0 != c
      {
        if kids[i].0 == c { return Some(kids[i].1); }
        i := i + 1;
      }
      return None;
    }

    method GetPathTrie(s: NodeId, c: nat) returns (r: Option<NodeId>)
      requires Valid() && s in nodes && c < ROOT
      modifies this
      ensures Valid()
      ensures Expanded(dict, old(nodes), old(nextId), s, c, r, nodes, nextId)
      ensures paths == if r.Some?
              && r.value !in old(nodes) then old(paths)[r.value := old(paths)[s] + [c]] else old(paths)
      ensures tsTree == old(tsTree) && hist == old(hist)
    {
      hide Wf, TsOk;
      var nodes0 := nodes;
      r := FindChild(s, c);
      if r.Some? {
        KidPath(nodes, paths, nextId, s, (c, r.value));
        if !nodes[r.value].live {
          nodes := nodes[r.value := Revive(nodes[r.value])];
          SameShapeWf(nodes0, nodes, paths, nextId);
        }
        return;
      }
      var state := 0;
      if dict.Some? {
        state := nodes[s].dictState;
        if (state, c + 1) !in dict.value.delta {
          nodes := nodes[s := nodes[s].(dictState := if state in dict.value.finals then dict.value.start else state)];
          SameShapeWf(nodes0, nodes, paths, nextId);
          return;
        }
        state := NextDictState(dict.value, state, c);
      }
      AddChildWf(nodes, paths, nextId, s, c, state);
      WfKeys(nodes, paths, nextId);
      nodes, paths := AddChild(nodes, s, c, nextId, state), paths[nextId := paths[s] + [c]];
      r := Some(nextId);
      nextId := nextId + 1;
    }

    /** The timestep node for expanding history `t` at time `data`: an existing child if there is one. */
    method ExtendHistory(t: nat, data: nat) returns (k: nat)
      requires TsOk(tsTree, hist) && t < |hist|
      modifies this`tsTree, this`hist
      ensures TsOk(tsTree, hist) && old(hist) <= hist
      ensures k < |hist| && hist[k] == hist[t] + [data]
      ensures HasTsChild(old(tsTree), t, data) ==> tsTree == old(tsTree) && hist == old(hist)
      ensures !HasTsChild(old(tsTree), t, data) ==>
                tsTree == AddTsChild(old(tsTree), t, data) && hist == old(hist) + [old(hist)[t] + [data]]
    {
      var kids := tsTree[t].children;
      var i := 0;
      while i < |kids|
        invariant 0 <= i <= |kids|
        invariant forall j | 0 <= j < i :: kids[j] < |tsTree| && tsTree[kids[j]].data != data
      {
        assert ChildOf(tsTree, t, kids[i]);
        if tsTree[kids[i]].data == data {
          assert hist[kids[i]] == hist[tsTree[kids[i]].parent] + [data];
          return kids[i];
        }
        i := i + 1;
      }
      AddTsChildOk(tsTree, hist, t, data);
      k := |tsTree|;
      tsTree, hist := AddTsChild(tsTree, t, data), hist + [hist[t] + [data]];
    }

    /** End-of-frame update of node `n` itself. */
    method CommitNode(n: NodeId)
      requires Valid() && n in nodes && nodes[n].live
      requires nodes[n].prevTimesteps.Some? ==> nodes[n].prevTimesteps.value < |hist|
      modifies this`nodes, this`tsTree, this`hist
      ensures Valid() && old(hist) <= hist
      ensures CommittedOn(old(nodes), nodes, hist, {n})
    {
      hide Wf, TsOk, HasTsChild, AddTsChild;
      var nodes0, v := nodes, nodes[n];
      var ts := v.timesteps;
      if v.prevTimesteps.Some? {
        var k := ExtendHistory(v.prevTimesteps.value, v.newTimestep);
        ts := Some(k);
      }
      nodes := nodes[n := v.(bPrev := v.bCur, nbPrev := v.nbCur, bCur := 0.0, nbCur := 0.0,
                             score := v.bCur + v.nbCur, timesteps := ts, prevTimesteps := None)];
      SameShapeWf(nodes0, nodes, paths, nextId);
    }

    /** Updates the subtree of `n`, children before parents, and lists its live nodes. */
    method IterateToVec(n: NodeId, ghost bound: nat) returns (output: seq<NodeId>)
      requires Valid() && n in nodes
      requires forall m | m in paths :: |paths[m]| <= bound
      requires forall m | m in nodes && nodes[m].prevTimesteps.Some? :: nodes[m].prevTimesteps.value < |hist|
      modifies this`nodes, this`tsTree, this`hist
      ensures Valid() && old(hist) <= hist
      ensures CommittedOn(old(nodes), nodes, hist, Subtree(paths, n))
      ensures ListsLive(old(nodes), Subtree(paths, n), output) && ChildrenFirst(paths, output)
      decreases bound - |paths[n]|
    {
      hide Wf, TsOk, Committed, Subtree, Branches, ListsLive, ChildrenFirst;
      ghost var nodes0 := nodes;
      var kids := nodes[n].children;
      SubtreeSplit(nodes, paths, nextId, n);
      WfKeys(nodes, paths, nextId);
      output := [];
      assert kids[..0] == [];
      var i := 0;
      NoBranches(nodes0, paths, hist);
      while i < |kids|
        invariant 0 <= i <= |kids|
        invariant Valid() && old(hist) <= hist
        invariant CommittedOn(nodes0, nodes, hist, Branches(paths, kids[..i]))
        invariant ListsLive(nodes0, Branches(paths, kids[..i]), output) && ChildrenFirst(paths, output)
      {
        CommittedOnShape(nodes0, nodes, hist, Branches(paths, kids[..i]));
        ghost var nodes1, hist1, done := nodes, hist, Branches(paths, kids[..i]);
        NextBranchDisjoint(nodes, paths, nextId, n, i);
        KidPath(nodes, paths, nextId, n, kids[i]);
        WfKeys(nodes, paths, nextId);
        PrevTimestepsKept(nodes0, nodes, hist, done);
        var sub := IterateToVec(kids[i].1, bound);
        ghost var here := Subtree(paths, kids[i].1);
        CommittedOnMore(nodes0, nodes1, nodes, hist1, hist, done, here);
        CommittedOnLive(nodes0, nodes1, hist1, done);
        ListsLiveSame(nodes1, nodes0, here, sub);
        ListsLiveConcat(nodes0, done, output, here, sub);
        ChildrenFirstConcat(nodes0, paths, kids[..i], output, here, sub);
        output := output + sub;
        i := i + 1;
      }
      assert kids[..i] == kids;
      ghost var nodes1, hist1, done := nodes, hist, Branches(paths, kids);
      if nodes[n].live {
        CommitNode(n);
        CommittedOnMore(nodes0, nodes1, nodes, hist1, hist, done, {n});
        JustLive(nodes0, n);
        ListsLiveConcat(nodes0, done, output, {n}, [n]);
        OneFirst(paths, n);
        ChildrenFirstConcat(nodes0, paths, kids, output, {n}, [n]);
        output := output + [n];
      } else {
        NotLive(nodes0, nodes, hist, done, output, n);
      }
    }

    /** Takes `n` out of the beam; frees it if it is a leaf, and then every ancestor that is left
        without children and is not live.  `keep` is any other live node. */
    method Remove(n: NodeId, ghost keep: NodeId)
      requires Valid() && n in nodes && LeavesLiveBut(nodes, n)
      requires keep in nodes && keep != n && nodes[keep].live
      modifies this`nodes, this`paths
      ensures Valid() && LeavesLive(nodes)
      ensures Pruned(old(nodes), nodes, {n}) && SubMap(old(paths), paths)
      decreases n
    {
      hide Wf, TsOk;
      ghost var nodes0, paths0 := nodes, paths;
      nodes := nodes[n := nodes[n].(live := false)];
      SameShapeWf(nodes0, nodes, paths, nextId);
      if nodes[n].children != [] { return; }
      RemovableIsNotRoot(nodes, paths, nextId, n, keep);
      var par := nodes[n].parent;
      ghost var nodes1 := nodes;
      DropLeafWf(nodes, paths, nextId, n);
      DropLeafPruned(nodes, paths, nextId, n, keep);
      // `delete this` comes last in the program; nothing reads the node in between
      Delete(n);
      if nodes[par].children == [] && !nodes[par].live {
        ghost var nodes2 := nodes;
        Remove(par, keep);
        PrunedMore(nodes1, nodes2, nodes, {n}, {par});
        PrunedDead(nodes0, nodes1, nodes, n, par);
      } else {
        PrunedDead(nodes0, nodes1, nodes, n, n);
      }
    }

    /** Unlinks leaf `n` from its parent and frees it. */
    method Delete(n: NodeId)
      requires n in nodes && n != ROOT_ID && nodes[n].parent in nodes && nodes[n].children == []
      modifies this`nodes, this`paths
      ensures nodes == DropLeaf(old(nodes), n) && n !in nodes
      ensures paths == old(paths) - {n}
    {
      nodes, paths := DropLeaf(nodes, n), paths - {n};
    }
  }

  lemma WfKeys(nodes: map<NodeId, Node>, paths: map<NodeId, seq<nat>>, next: NodeId)
    requires Wf(nodes, paths, next)
    ensures paths.Keys == nodes.Keys && ROOT_ID in nodes && paths[ROOT_ID] == [] && next !in nodes
    ensures forall n | n in nodes :: n < next
  {
  }

  lemma OneFirst(paths: map<NodeId, seq<nat>>, n: NodeId)
    requires n in paths
    ensures ChildrenFirst(paths, [n])
  {
  }

  lemma NoBranches(nodes: map<NodeId, Node>, paths: map<NodeId, seq<nat>>, hist: seq<seq<nat>>)
    ensures Branches(paths, []) == {} && ChildrenFirst(paths, [])
    ensures CommittedOn(nodes, nodes, hist, {}) && ListsLive(nodes, {}, [])
  {
  }

  lemma PrevTimestepsKept(nodes: map<NodeId, Node>, nodes': map<NodeId, Node>, hist: seq<seq<nat>>, on: set<NodeId>)
    requires CommittedOn(nodes, nodes', hist, on)
    requires forall m | m in nodes && nodes[m].prevTimesteps.Some? :: nodes[m].prevTimesteps.value < |hist|
    ensures forall m | m in nodes' && nodes'[m].prevTimesteps.Some? :: nodes'[m].prevTimesteps.value < |hist|
  {
  }

  lemma CommittedOnLive(nodes: map<NodeId, Node>, nodes': map<NodeId, Node>, hist: seq<seq<nat>>, on: set<NodeId>)
    requires CommittedOn(nodes, nodes', hist, on)
    ensures forall m | m in nodes :: nodes'[m].live == nodes[m].live
  {
  }

  lemma JustLive(nodes: map<NodeId, Node>, n: NodeId)
    requires n in nodes && nodes[n].live
    ensures ListsLive(nodes, {n}, [n])
  {
  }

  lemma NotLive(nodes: map<NodeId, Node>, nodes': map<NodeId, Node>, hist: seq<seq<nat>>, done: set<NodeId>,
                output: seq<NodeId>, n: NodeId)
    requires n in nodes && !nodes[n].live
    requires CommittedOn(nodes, nodes', hist, done) && ListsLive(nodes, done, output)
    ensures CommittedOn(nodes, nodes', hist, done + {n}) && ListsLive(nodes, done + {n}, output)
  {
  }

  lemma RemovableIsNotRoot(nodes: map<NodeId, Node>, paths: map<NodeId, seq<nat>>, next: NodeId, n: NodeId,
                           keep: NodeId)
    requires Wf(nodes, paths, next) && n in nodes && nodes[n].children == [] && keep in nodes && keep != n
    ensures n != ROOT_ID
  {
    hide Wf;
    if n == ROOT_ID { RootHasChild(nodes, paths, next, keep); }
  }

  lemma DropLeafPruned(nodes: map<NodeId, Node>, paths: map<NodeId, seq<nat>>, next: NodeId, n: NodeId, keep: NodeId)
    requires Wf(nodes, paths, next) && n in nodes && n != ROOT_ID && nodes[n].children == [] && !nodes[n].live
    requires LeavesLiveBut(nodes, n) && keep in nodes && keep != n && nodes[keep].live
    ensures nodes[n].parent in nodes && nodes[n].parent < n
    ensures var nodes' := DropLeaf(nodes, n); var par := nodes[n].parent;
            && par in nodes' && Pruned(nodes, nodes', {n}) && LeavesLiveBut(nodes', par)
            && keep in nodes' && nodes'[keep].live
  {
    Links(nodes, paths, next, n);
  }

  lemma PrunedDead(nodes0: map<NodeId, Node>, nodes1: map<NodeId, Node>, nodes: map<NodeId, Node>, n: NodeId,
                   par: NodeId)
    requires n in nodes0 && nodes1 == nodes0[n := nodes0[n].(live := false)]
    requires par in nodes1 && !nodes1[par].live && Pruned(nodes1, nodes, {n} + {par})
    ensures Pruned(nodes0, nodes, {n})
  {
  }
}
