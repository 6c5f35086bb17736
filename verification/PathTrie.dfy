/** The prefix trie of the decoder.  Nodes live in an arena, a map from node id to node record: a
    pointer of the program is an id, `new` takes the next unused id, and `delete` takes the id out of
    the map, so a dangling pointer or a second delete would show as a missing key.  Probabilities are
    exact non-negative reals: log-add is `+`, the sum of logs is `*`, and -NUM_FLT_INF is 0. */
module PathTrie {
  import opened Basics

  type NodeId = nat

  /** (unsigned) -1, the character of the root. */
  const ROOT: nat := 0xFFFF_FFFF
  const ROOT_ID: NodeId := 0

  datatype Node = Node(
    character: nat,
    parent: NodeId,
    children: seq<(nat, NodeId)>,
    live: bool,
    bPrev: real, nbPrev: real,
    bCur: real, nbCur: real,
    score: real,
    timesteps: Option<nat>,
    prevTimesteps: Option<nat>,
    newTimestep: nat,
    dictState: nat)

  /** A deterministic automaton over FST labels (label + 1). */
  datatype Dictionary = Dictionary(start: nat, delta: map<(nat, nat), nat>, finals: set<nat>)

  /** A node of the timestep tree. */
  datatype TsNode = TsNode(parent: nat, data: nat, children: seq<nat>)

  // ----- shape of the trie

  ghost predicate LinkedUp(nodes: map<NodeId, Node>, paths: map<NodeId, seq<nat>>, n: NodeId)
    requires n in nodes && paths.Keys == nodes.Keys
  {
    && nodes[n].parent in nodes && nodes[n].parent < n
    && nodes[n].character < ROOT
    && paths[n] == paths[nodes[n].parent] + [nodes[n].character]
    && (nodes[n].character, n) in nodes[nodes[n].parent].children
  }

  ghost predicate LinkedDown(nodes: map<NodeId, Node>, n: NodeId, e: (nat, NodeId))
    requires n in nodes
  {
    e.1 in nodes && e.1 != ROOT_ID && nodes[e.1].parent == n && nodes[e.1].character == e.0
  }

  ghost predicate DistinctLabels(children: seq<(nat, NodeId)>) {
    forall i, j | 0 <= i < j < |children| :: children[i].0 != children[j].0
  }

  ghost predicate Rooted(nodes: map<NodeId, Node>, paths: map<NodeId, seq<nat>>, next: NodeId) {
    && ROOT_ID in nodes && paths.Keys == nodes.Keys
    && paths[ROOT_ID] == [] && nodes[ROOT_ID].character == ROOT
    && (forall n | n in nodes :: n < next)
  }

  ghost predicate UpOk(nodes: map<NodeId, Node>, paths: map<NodeId, seq<nat>>)
    requires paths.Keys == nodes.Keys
  {
    forall n {:trigger LinkedUp(nodes, paths, n)} | n in nodes && n != ROOT_ID :: LinkedUp(nodes, paths, n)
  }

  ghost predicate DownOk(nodes: map<NodeId, Node>) {
    && (forall n, e {:trigger LinkedDown(nodes, n, e)} | n in nodes && e in nodes[n].children ::
        LinkedDown(nodes, n, e))
    && (forall n {:trigger DistinctLabels(nodes[n].children)} | n in nodes :: DistinctLabels(nodes[n].children))
  }

  ghost predicate OnePerPath(paths: map<NodeId, seq<nat>>) {
    forall m, n | m in paths && n in paths && paths[m] == paths[n] :: m == n
  }

  /** `paths[n]` is the label sequence from the root to `n`.  Parent and child links agree, siblings
      carry distinct labels, and no two nodes have the same path. */
  ghost predicate Wf(nodes: map<NodeId, Node>, paths: map<NodeId, seq<nat>>, next: NodeId) {
    Rooted(nodes, paths, next) && UpOk(nodes, paths) && DownOk(nodes) && OnePerPath(paths)
  }

  /** Every leaf is live. */
  ghost predicate LeavesLive(nodes: map<NodeId, Node>) {
    forall n | n in nodes && nodes[n].children == [] :: nodes[n].live
  }

  /** The same nodes with the same links: only marks, masses, timesteps or automaton states differ. */
  ghost predicate SameShape(nodes: map<NodeId, Node>, nodes': map<NodeId, Node>) {
    && nodes.Keys == nodes'.Keys
    && forall n | n in nodes :: nodes'[n].character == nodes[n].character
                             && nodes'[n].parent == nodes[n].parent
                             && nodes'[n].children == nodes[n].children
  }

  lemma SameShapeWf(nodes: map<NodeId, Node>, nodes': map<NodeId, Node>, paths: map<NodeId, seq<nat>>, next: NodeId)
    requires Wf(nodes, paths, next) && SameShape(nodes, nodes')
    ensures Wf(nodes', paths, next)
  {
    forall n | n in nodes' && n != ROOT_ID ensures LinkedUp(nodes', paths, n) {
      assert LinkedUp(nodes, paths, n);
    }
    forall n, e | n in nodes' && e in nodes'[n].children ensures LinkedDown(nodes', n, e) {
      assert LinkedDown(nodes, n, e);
    }
    forall n | n in nodes' ensures DistinctLabels(nodes'[n].children) {
      assert DistinctLabels(nodes[n].children);
    }
  }

  function FreshNode(c: nat, parent: NodeId, dictState: nat): Node {
    Node(c, parent, [], true, 0.0, 0.0, 0.0, 0.0, 0.0, None, None, 0, dictState)
  }

  function AddChild(nodes: map<NodeId, Node>, s: NodeId, c: nat, id: NodeId, dictState: nat): map<NodeId, Node>
    requires s in nodes
  {
    nodes[s := nodes[s].(children := nodes[s].children + [(c, id)])][id := FreshNode(c, s, dictState)]
  }

  lemma AddChildWf(nodes: map<NodeId, Node>, paths: map<NodeId, seq<nat>>, next: NodeId, s: NodeId, c: nat,
                   dictState: nat)
    requires Wf(nodes, paths, next) && s in nodes && c < ROOT
    requires forall e | e in nodes[s].children :: e.0 != c
    ensures Wf(AddChild(nodes, s, c, next, dictState), paths[next := paths[s] + [c]], next + 1)
  {
    hide UpOk, DownOk, OnePerPath, AddChild, Rooted;
    AddChildRooted(nodes, paths, next, s, c, dictState);
    AddChildUp(nodes, paths, next, s, c, dictState);
    AddChildDown(nodes, paths, next, s, c, dictState);
    AddChildOnePerPath(nodes, paths, next, s, c);
  }

  lemma AddChildRooted(nodes: map<NodeId, Node>, paths: map<NodeId, seq<nat>>, next: NodeId, s: NodeId, c: nat,
                       dictState: nat)
    requires Rooted(nodes, paths, next) && s in nodes
    ensures Rooted(AddChild(nodes, s, c, next, dictState), paths[next := paths[s] + [c]], next + 1)
  {
  }

  lemma AddChildUp(nodes: map<NodeId, Node>, paths: map<NodeId, seq<nat>>, next: NodeId, s: NodeId, c: nat,
                   dictState: nat)
    requires Rooted(nodes, paths, next) && UpOk(nodes, paths) && s in nodes && c < ROOT
    ensures UpOk(AddChild(nodes, s, c, next, dictState), paths[next := paths[s] + [c]])
  {
    var nodes', paths' := AddChild(nodes, s, c, next, dictState), paths[next := paths[s] + [c]];
    var kids := nodes[s].children + [(c, next)];
    assert nodes'[s].children == kids && kids[|kids| - 1] == (c, next);
    forall n | n in nodes' && n != ROOT_ID ensures LinkedUp(nodes', paths', n) {
      if n != next {
        assert LinkedUp(nodes, paths, n);
        if nodes[n].parent == s { assert (nodes[n].character, n) in kids; }
      }
    }
  }

  lemma AddChildDown(nodes: map<NodeId, Node>, paths: map<NodeId, seq<nat>>, next: NodeId, s: NodeId, c: nat,
                     dictState: nat)
    requires Rooted(nodes, paths, next) && DownOk(nodes) && s in nodes
    requires forall e | e in nodes[s].children :: e.0 != c
    ensures DownOk(AddChild(nodes, s, c, next, dictState))
  {
    var nodes' := AddChild(nodes, s, c, next, dictState);
    var kids := nodes[s].children + [(c, next)];
    assert nodes'[s].children == kids;
    forall n, e | n in nodes' && e in nodes'[n].children ensures LinkedDown(nodes', n, e) {
      if n != next && e in nodes[n].children {
        assert LinkedDown(nodes, n, e);
      } else {
        assert n == s && e == (c, next);
      }
    }
    forall n | n in nodes' ensures DistinctLabels(nodes'[n].children) {
      if n == s {
        assert DistinctLabels(nodes[s].children);
        assert forall i | 0 <= i < |nodes[s].children| :: nodes[s].children[i] in nodes[s].children;
      } else if n != next {
        assert DistinctLabels(nodes[n].children);
      }
    }
  }

  lemma AddChildOnePerPath(nodes: map<NodeId, Node>, paths: map<NodeId, seq<nat>>, next: NodeId, s: NodeId, c: nat)
    requires Wf(nodes, paths, next) && s in nodes
    requires forall e | e in nodes[s].children :: e.0 != c
    ensures OnePerPath(paths[next := paths[s] + [c]])
  {
    hide UpOk, DownOk;
    forall k | k in nodes ensures paths[k] != paths[s] + [c] {
      if paths[k] == paths[s] + [c] { PathOfChild(nodes, paths, next, s, c, k); }
    }
  }

  /** A node whose path extends that of `s` by `c` is listed under `s` with label `c`. */
  lemma PathOfChild(nodes: map<NodeId, Node>, paths: map<NodeId, seq<nat>>, next: NodeId, s: NodeId, c: nat, k: NodeId)
    requires Wf(nodes, paths, next) && s in nodes && k in nodes && paths[k] == paths[s] + [c]
    ensures k != ROOT_ID && nodes[k].parent == s && nodes[k].character == c && (c, k) in nodes[s].children
  {
    assert k != ROOT_ID;
    assert LinkedUp(nodes, paths, k);
    var par := nodes[k].parent;
    assert (paths[par] + [nodes[k].character])[|paths[par]|] == nodes[k].character;
    assert |paths[par]| == |paths[s]|;
    assert paths[par] == paths[k][..|paths[s]|] == paths[s];
  }

  // ----- removing a leaf

  function Without(children: seq<(nat, NodeId)>, c: nat): seq<(nat, NodeId)> {
    if children == [] then []
    else if children[0].0 == c then children[1..]
    else [children[0]] + Without(children[1..], c)
  }

  lemma {:induction false} WithoutIs(children: seq<(nat, NodeId)>, c: nat, q: NodeId)
    requires DistinctLabels(children) && (c, q) in children
    ensures DistinctLabels(Without(children, c))
    ensures forall e :: e in Without(children, c) <==> e in children && e != (c, q)
  {
    var rest := children[1..];
    assert children == [children[0]] + rest;
    if children[0].0 == c {
      var i :| 0 <= i < |children| && children[i] == (c, q);
      assert i == 0;
    } else {
      assert (c, q) in rest;
      WithoutIs(rest, c, q);
      var w := Without(rest, c);
      forall i, j | 0 <= i < j < |[children[0]] + w| ensures ([children[0]] + w)[i].0 != ([children[0]] + w)[j].0 {
        if i == 0 {
          assert w[j - 1] in rest;
          var k :| 0 <= k < |rest| && rest[k] == w[j - 1];
          assert children[k + 1] == w[j - 1];
        }
      }
      forall e ensures e in Without(children, c) <==> e in children && e != (c, q) {
        assert e in children <==> e == children[0] || e in rest;
      }
    }
  }

  function DropLeaf(nodes: map<NodeId, Node>, n: NodeId): map<NodeId, Node>
    requires n in nodes && nodes[n].parent in nodes
  {
    var par := nodes[n].parent;
    nodes[par := nodes[par].(children := Without(nodes[par].children, nodes[n].character))] - {n}
  }

  lemma Links(nodes: map<NodeId, Node>, paths: map<NodeId, seq<nat>>, next: NodeId, n: NodeId)
    requires Wf(nodes, paths, next) && n in nodes
    ensures n != ROOT_ID ==> LinkedUp(nodes, paths, n)
    ensures DistinctLabels(nodes[n].children)
  {
  }

  lemma DropLeafUp(nodes: map<NodeId, Node>, paths: map<NodeId, seq<nat>>, next: NodeId, n: NodeId)
    requires Wf(nodes, paths, next) && n in nodes && n != ROOT_ID && nodes[n].children == []
    requires nodes[n].parent in nodes
    ensures UpOk(DropLeaf(nodes, n), paths - {n})
  {
    hide Without, DownOk, OnePerPath, DistinctLabels;
    var nodes', paths' := DropLeaf(nodes, n), paths - {n};
    var par := nodes[n].parent;
    Links(nodes, paths, next, n);
    Links(nodes, paths, next, par);
    WithoutIs(nodes[par].children, nodes[n].character, n);
    forall k | k in nodes' && k != ROOT_ID ensures LinkedUp(nodes', paths', k) {
      assert LinkedUp(nodes, paths, k);
    }
  }

  lemma DropLeafDown(nodes: map<NodeId, Node>, paths: map<NodeId, seq<nat>>, next: NodeId, n: NodeId)
    requires Wf(nodes, paths, next) && n in nodes && n != ROOT_ID && nodes[n].parent in nodes
    ensures DownOk(DropLeaf(nodes, n))
  {
    hide Without, UpOk, OnePerPath, DistinctLabels;
    var nodes' := DropLeaf(nodes, n);
    var par, c := nodes[n].parent, nodes[n].character;
    Links(nodes, paths, next, n);
    Links(nodes, paths, next, par);
    WithoutIs(nodes[par].children, c, n);
    forall k, e | k in nodes' && e in nodes'[k].children ensures LinkedDown(nodes', k, e) {
      assert LinkedDown(nodes, k, e);
    }
  }

  lemma DropLeafWf(nodes: map<NodeId, Node>, paths: map<NodeId, seq<nat>>, next: NodeId, n: NodeId)
    requires Wf(nodes, paths, next) && n in nodes && n != ROOT_ID && nodes[n].children == []
    ensures nodes[n].parent in nodes
    ensures Wf(DropLeaf(nodes, n), paths - {n}, next)
  {
    hide UpOk, DownOk, Without, LinkedDown;
    Links(nodes, paths, next, n);
    DropLeafUp(nodes, paths, next, n);
    DropLeafDown(nodes, paths, next, n);
  }

  /** A trie whose root has no child is the root alone. */
  lemma {:induction false} RootHasChild(nodes: map<NodeId, Node>, paths: map<NodeId, seq<nat>>, next: NodeId, m: NodeId)
    requires Wf(nodes, paths, next) && m in nodes && m != ROOT_ID
    ensures nodes[ROOT_ID].children != []
    decreases m
  {
    assert LinkedUp(nodes, paths, m);
    if nodes[m].parent != ROOT_ID { RootHasChild(nodes, paths, next, nodes[m].parent); }
  }

  // ----- get_path_vec

  /** A node is created after its parent. */
  ghost predicate ParentsFirst(nodes: map<NodeId, Node>) {
    forall k | k in nodes && k != ROOT_ID :: nodes[k].parent in nodes && nodes[k].parent < k
  }

  lemma ParentsBelow(nodes: map<NodeId, Node>, paths: map<NodeId, seq<nat>>, next: NodeId)
    requires Wf(nodes, paths, next)
    ensures ParentsFirst(nodes)
  {
    forall k | k in nodes && k != ROOT_ID ensures nodes[k].parent in nodes && nodes[k].parent < k {
      assert LinkedUp(nodes, paths, k);
    }
  }

  /** Walks to the root and collects the characters on the way back. */
  function GetPathVec(nodes: map<NodeId, Node>, n: NodeId): seq<nat>
    requires n in nodes && ParentsFirst(nodes)
    decreases n
  {
    (if n != ROOT_ID then GetPathVec(nodes, nodes[n].parent) else [])
    + (if nodes[n].character != ROOT then [nodes[n].character] else [])
  }

  lemma {:induction false} GetPathVecIsPath(nodes: map<NodeId, Node>, paths: map<NodeId, seq<nat>>, next: NodeId,
                                            n: NodeId)
    requires Wf(nodes, paths, next) && n in nodes
    ensures n in paths && ParentsFirst(nodes) && GetPathVec(nodes, n) == paths[n]
    decreases n
  {
    ParentsBelow(nodes, paths, next);
    hide ParentsFirst;
    if n != ROOT_ID {
      assert LinkedUp(nodes, paths, n);
      GetPathVecIsPath(nodes, paths, next, nodes[n].parent);
    }
  }
}
