/** How fast the beam can grow: a frame gives every prefix itself and one child per label. */
module BeamGrowth {
  import opened Basics
  import opened PathTrie
  import opened TrieOps
  import opened Beam

  /** Live prefixes were live before the frame, or are a visited child of one that was. */
  ghost predicate Born(nodes0: map<NodeId, Node>, nodes: map<NodeId, Node>, done: set<Pair>, blank: nat) {
    forall q | q in nodes && nodes[q].live ::
      || WasLive(nodes0, q)
      || (q != ROOT_ID && WasLive(nodes0, nodes[q].parent) && nodes[q].character < blank
          && (nodes[q].character, nodes[q].parent) in done)
  }

  ghost predicate WasLive(nodes0: map<NodeId, Node>, q: NodeId) {
    q in nodes0 && nodes0[q].live
  }

  lemma BornExpand(dict: Option<Dictionary>, nodes0: map<NodeId, Node>, nodes: map<NodeId, Node>,
                   paths: map<NodeId, seq<nat>>,
                   next: NodeId, done: set<Pair>, blank: nat, s: NodeId, c: nat, r: Option<NodeId>,
                   nodes': map<NodeId, Node>, next': NodeId)
    requires Born(nodes0, nodes, done, blank) && Wf(nodes, paths, next) && s in nodes && WasLive(nodes0, s)
    requires c < blank && (c, s) in done && next !in nodes && next != ROOT_ID
    requires Expanded(dict, nodes, next, s, c, r, nodes', next')
    ensures Born(nodes0, nodes', done, blank)
  {
    hide NextDictState, Wf;
    if r.Some? && r.value in nodes { ChildIs(nodes, paths, next, s, (c, r.value)); }
  }

  ghost predicate AreLabels(path: seq<nat>, blank: nat) {
    forall l | l in path :: l < blank
  }

  /** All paths are spelled with labels. */
  ghost predicate Spelled(paths: map<NodeId, seq<nat>>, blank: nat) {
    forall q | q in paths :: AreLabels(paths[q], blank)
  }

  // ----- counting

  /** Where a live prefix came from: (0, itself) or (label + 1, parent). */
  ghost function Origin(nodes0: map<NodeId, Node>, nodes: map<NodeId, Node>, q: NodeId): (nat, NodeId)
    requires q in nodes
  {
    if WasLive(nodes0, q) then (0, q) else (nodes[q].character + 1, nodes[q].parent)
  }

  ghost function Column(n: NodeId, k: nat): set<(nat, NodeId)> {
    set a: nat | a < k :: (a, n)
  }

  ghost function Grid(beam: seq<NodeId>, k: nat): set<(nat, NodeId)> {
    set a: nat, n | a < k && n in beam :: (a, n)
  }

  lemma {:induction false} ColumnSize(n: NodeId, k: nat)
    ensures |Column(n, k)| == k
  {
    if k == 0 {
      assert Column(n, k) == {};
    } else {
      ColumnSize(n, k - 1);
      assert Column(n, k) == Column(n, k - 1) + {(k - 1, n)};
    }
  }

  lemma GridNext(beam: seq<NodeId>, n: NodeId, k: nat)
    ensures Grid(beam + [n], k) == Grid(beam, k) + Column(n, k)
  {
  }

  lemma {:induction false} GridSize(beam: seq<NodeId>, k: nat)
    ensures |Grid(beam, k)| <= |beam| * k
  {
    if beam == [] {
      assert Grid(beam, k) == {};
    } else {
      hide Grid, Column;
      var last := |beam| - 1;
      GridSize(beam[..last], k);
      ColumnSize(beam[last], k);
      GridNext(beam[..last], beam[last], k);
      assert beam == beam[..last] + [beam[last]];
      OneMore(last, k);
    }
  }

  lemma OneMore(n: nat, k: nat)
    ensures (n + 1) * k == n * k + k
  {
  }

  ghost predicate Separates(f: NodeId --> (nat, NodeId), s: seq<NodeId>, into: set<(nat, NodeId)>) {
    && (forall i | 0 <= i < |s| :: f.requires(s[i]) && f(s[i]) in into)
    && forall i, j | 0 <= i < j < |s| :: f(s[i]) != f(s[j])
  }

  lemma {:induction false} Pigeonhole(f: NodeId --> (nat, NodeId), s: seq<NodeId>, into: set<(nat, NodeId)>)
    requires Separates(f, s, into)
    ensures |s| <= |into|
  {
    if s != [] {
      var last := s[|s| - 1];
      Pigeonhole(f, s[..|s| - 1], into - {f(last)});
    }
  }

  /** A frame makes the beam at most `blank + 1` times as long. */
  lemma Growth(nodes0: map<NodeId, Node>, beam: seq<NodeId>, nodes: map<NodeId, Node>, paths: map<NodeId, seq<nat>>,
               next: NodeId,
               done: set<Pair>, blank: nat, output: seq<NodeId>)
    requires Born(nodes0, nodes, done, blank) && Wf(nodes, paths, next)
    requires ListsLive(nodes0, nodes0.Keys, beam) && ListsLive(nodes, nodes.Keys, output)
    ensures |output| <= |beam| * (blank + 1)
  {
    hide Wf;
    var f := (q: NodeId) requires q in nodes => Origin(nodes0, nodes, q);
    forall i | 0 <= i < |output| ensures f.requires(output[i]) && f(output[i]) in Grid(beam, blank + 1) {
      assert output[i] in output;
    }
    forall i, j | 0 <= i < j < |output| ensures f(output[i]) != f(output[j]) {
      assert output[i] in output && output[j] in output;
      if f(output[i]) == f(output[j]) {
        OneChild(nodes, paths, next, output[i], output[j]);
        assert false;
      }
    }
    Pigeonhole(f, output, Grid(beam, blank + 1));
    GridSize(beam, blank + 1);
  }

  function Power(b: nat, e: nat): nat {
    if e == 0 then 1 else Power(b, e - 1) * b
  }

  lemma {:induction false} PowerAdds(b: nat, e: nat, f: nat)
    ensures Power(b, e + f) == Power(b, e) * Power(b, f) && Power(b, 1) == b
  {
    assert Power(b, 1) == Power(b, 0) * b;
    if f > 0 {
      PowerAdds(b, e, f - 1);
      RegroupedProduct(Power(b, e), Power(b, f - 1), b);
      assert Power(b, e + f) == Power(b, e + (f - 1)) * b;
    }
  }

  lemma RegroupedProduct(x: nat, y: nat, z: nat)
    ensures x * y * z == x * (y * z)
  {
  }

  lemma {:induction false} PowerGrows(b: nat, e: nat, e': nat)
    requires b >= 1 && e <= e'
    ensures 1 <= Power(b, e) <= Power(b, e')
  {
    if e < e' {
      PowerGrows(b, e, e' - 1);
      assert Power(b, e') == Power(b, e' - 1) * b;
      AtLeast(Power(b, e' - 1), b);
    } else if e > 0 {
      PowerGrows(b, e - 1, e - 1);
      AtLeast(Power(b, e - 1), b);
    }
  }

  lemma AtLeast(a: nat, b: nat)
    requires b >= 1
    ensures a * b >= a
  {
  }
}
