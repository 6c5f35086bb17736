/** Timestep histories of the prefixes. */
module BeamTime {
  import opened Basics
  import opened PathTrie
  import opened TrieOps

  /** A history of a path of `len` labels, as known before frame `t`. */
  predicate HistOk(h: seq<nat>, len: nat, t: nat) {
    && |h| == len
    && (forall i, j | 0 <= i < j < |h| :: h[i] < h[j])
    && (forall i | 0 <= i < |h| :: h[i] < t)
  }

  ghost predicate TsAt(v: Node, len: nat, hist: seq<seq<nat>>, t: nat) {
    && (v.timesteps.Some? ==> v.timesteps.value < |hist| && HistOk(hist[v.timesteps.value], len, t))
    && (v.prevTimesteps.Some? ==>
          && v.live && len > 0 && v.prevTimesteps.value < |hist|
          && HistOk(hist[v.prevTimesteps.value], len - 1, t) && v.newTimestep == t && v.nbCur > 0.0)
    && (v.score > 0.0 ==> v.timesteps.Some?)
    && ((v.bCur > 0.0 || v.nbCur > 0.0) && v.prevTimesteps.None? ==> v.timesteps.Some?)
  }

  /** Every history is as long as its node's path, increasing, and before frame `t`; a node with mass
      has one, or has one recorded for the end of the frame. */
  ghost predicate TsInv(nodes: map<NodeId, Node>, paths: map<NodeId, seq<nat>>, hist: seq<seq<nat>>, t: nat) {
    && paths.Keys == nodes.Keys
    && forall q {:trigger nodes[q]} | q in nodes :: TsAt(nodes[q], |paths[q]|, hist, t)
  }

  /** During a frame histories stay as they are; new nodes are live and have none. */
  ghost predicate TimesKept(nodes0: map<NodeId, Node>, nodes: map<NodeId, Node>) {
    forall q | q in nodes ::
      if q in nodes0 then nodes[q].timesteps == nodes0[q].timesteps else nodes[q].live && nodes[q].timesteps.None?
  }

  lemma TimesExpand(dict: Option<Dictionary>, nodes0: map<NodeId, Node>, nodes: map<NodeId, Node>, next: NodeId,
                    s: NodeId, c: nat,
                    r: Option<NodeId>, nodes': map<NodeId, Node>, next': NodeId)
    requires TimesKept(nodes0, nodes) && s in nodes && Expanded(dict, nodes, next, s, c, r, nodes', next')
    requires next !in nodes && forall q | q in nodes0 :: q in nodes
    ensures TimesKept(nodes0, nodes')
  {
    hide NextDictState;
  }

  lemma TsInvUpdate(nodes: map<NodeId, Node>, paths: map<NodeId, seq<nat>>, hist: seq<seq<nat>>, t: nat, q: NodeId,
                    v: Node)
    requires TsInv(nodes, paths, hist, t) && q in nodes && TsAt(v, |paths[q]|, hist, t)
    ensures TsInv(nodes[q := v], paths, hist, t)
  {
    hide TsAt;
  }

  /** A blank or a repeat keeps the present history if it outweighs the recorded expansion. */
  lemma TsKeep(v: Node, v': Node, len: nat, hist: seq<seq<nat>>, t: nat)
    requires TsAt(v, len, hist, t) && v.score > 0.0
    requires v' == v.(bCur := v'.bCur, nbCur := v'.nbCur, prevTimesteps := v'.prevTimesteps)
    requires (v'.prevTimesteps == v.prevTimesteps || v'.prevTimesteps == None) && v'.nbCur >= v.nbCur
    ensures TsAt(v', len, hist, t)
  {
    hide HistOk;
  }

  /** An expansion records the parent's history if it outweighs what the child has so far. */
  lemma TsExtend(s: Node, v: Node, v': Node, len: nat, hist: seq<seq<nat>>, t: nat, x: real)
    requires TsAt(s, len, hist, t) && s.score > 0.0
    requires TsAt(v, len + 1, hist, t) && v.live && v.nbCur >= 0.0 && x >= 0.0
    requires v' == if v.nbCur < x then v.(nbCur := v.nbCur + x, prevTimesteps := s.timesteps, newTimestep := t)
                   else v.(nbCur := v.nbCur + x)
    ensures TsAt(v', len + 1, hist, t)
  {
    hide HistOk;
  }

  lemma TsExpand(dict: Option<Dictionary>, nodes: map<NodeId, Node>, paths: map<NodeId, seq<nat>>, next: NodeId,
                 s: NodeId, c: nat,
                 r: Option<NodeId>, nodes': map<NodeId, Node>, paths': map<NodeId, seq<nat>>, next': NodeId,
                 hist: seq<seq<nat>>, t: nat)
    requires TsInv(nodes, paths, hist, t) && s in nodes && next !in nodes
    requires Expanded(dict, nodes, next, s, c, r, nodes', next')
    requires paths' == if r.Some? && r.value !in nodes then paths[r.value := paths[s] + [c]] else paths
    ensures TsInv(nodes', paths', hist, t)
  {
    hide HistOk, NextDictState;
    forall q | q in nodes' ensures TsAt(nodes'[q], |paths'[q]|, hist, t) {
      if q in nodes { assert TsAt(nodes[q], |paths[q]|, hist, t); }
    }
  }

  lemma HistOkLater(h: seq<nat>, len: nat, t: nat)
    requires HistOk(h, len, t)
    ensures HistOk(h, len, t + 1) && HistOk(h + [t], len + 1, t + 1)
  {
  }

  /** Waiting for the first frame worth expanding changes nothing. */
  lemma TsWait(nodes: map<NodeId, Node>, paths: map<NodeId, seq<nat>>, hist: seq<seq<nat>>, t: nat)
    requires TsInv(nodes, paths, hist, t) && forall q | q in nodes :: nodes[q].prevTimesteps.None?
    ensures TsInv(nodes, paths, hist, t + 1)
  {
    hide HistOk;
    forall q | q in nodes ensures TsAt(nodes[q], |paths[q]|, hist, t + 1) {
      if nodes[q].timesteps.Some? { HistOkLater(hist[nodes[q].timesteps.value], |paths[q]|, t); }
    }
  }

  lemma TsCommit(nodes: map<NodeId, Node>, paths: map<NodeId, seq<nat>>, hist: seq<seq<nat>>, t: nat,
                 nodes': map<NodeId, Node>, hist': seq<seq<nat>>, on: set<NodeId>)
    requires TsInv(nodes, paths, hist, t) && hist <= hist'
    requires CommittedOn(nodes, nodes', hist', on) && forall q | q in nodes :: q in on
    requires forall q | q in nodes && !nodes[q].live :: nodes[q].bCur == nodes[q].nbCur == 0.0
    ensures TsInv(nodes', paths, hist', t + 1)
    ensures forall q | q in nodes' :: nodes'[q].prevTimesteps.None? && nodes'[q].bCur == nodes'[q].nbCur == 0.0
  {
    hide HistOk;
    forall q | q in nodes' ensures TsAt(nodes'[q], |paths[q]|, hist', t + 1) {
      var v := nodes[q];
      assert TsAt(v, |paths[q]|, hist, t);
      if v.timesteps.Some? { HistOkLater(hist[v.timesteps.value], |paths[q]|, t); }
      if v.prevTimesteps.Some? { HistOkLater(hist[v.prevTimesteps.value], |paths[q]| - 1, t); }
    }
  }

  lemma TsPruned(nodes: map<NodeId, Node>, paths: map<NodeId, seq<nat>>, nodes': map<NodeId, Node>,
                 paths': map<NodeId, seq<nat>>,
                 gone: set<NodeId>, hist: seq<seq<nat>>, t: nat)
    requires TsInv(nodes, paths, hist, t) && Pruned(nodes, nodes', gone) && SubMap(paths, paths')
             && paths'.Keys == nodes'.Keys
    requires forall q | q in nodes :: nodes[q].prevTimesteps.None?
    ensures TsInv(nodes', paths', hist, t)
  {
    hide HistOk;
    forall q | q in nodes' ensures TsAt(nodes'[q], |paths'[q]|, hist, t) {
      assert TsAt(nodes[q], |paths[q]|, hist, t);
    }
  }

  /** Nothing was ever taken out of the beam, and exactly the prefixes with mass have a history. */
  ghost predicate Timely(nodes: map<NodeId, Node>) {
    forall q | q in nodes :: nodes[q].live && (nodes[q].timesteps.Some? <==> nodes[q].score > 0.0)
  }

  /** A frame keeps this if every prefix with mass keeps some on its blank side. */
  lemma TimelyAfter(nodes0: map<NodeId, Node>, nodes: map<NodeId, Node>, paths: map<NodeId, seq<nat>>,
                    hist: seq<seq<nat>>, t: nat,
                    nodes': map<NodeId, Node>, hist': seq<seq<nat>>)
    requires Timely(nodes0) && TimesKept(nodes0, nodes) && TsInv(nodes, paths, hist, t)
    requires CommittedOn(nodes, nodes', hist', nodes.Keys) && TsInv(nodes', paths, hist', t + 1)
    requires forall q | q in nodes :: nodes[q].bCur >= 0.0 && nodes[q].nbCur >= 0.0 && (q in nodes0 ==> nodes[q].live)
    requires forall q | q in nodes && q in nodes0 && nodes0[q].score > 0.0 :: nodes[q].bCur > 0.0
    ensures Timely(nodes')
  {
    hide HistOk;
    forall q | q in nodes' ensures nodes'[q].live && (nodes'[q].timesteps.Some? <==> nodes'[q].score > 0.0) {
      assert TsAt(nodes[q], |paths[q]|, hist, t);
      assert TsAt(nodes'[q], |paths[q]|, hist', t + 1);
    }
  }
}
