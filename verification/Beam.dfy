/** What one frame of the beam search adds up to.  While a frame is being processed, `done` is the set
    of (class, prefix) pairs visited so far; the masses collected by every node have a closed form in
    terms of `done` and the masses before the frame, whatever the order of the visits. */
module Beam {
  import opened Basics
  import opened PathTrie
  import opened TrieOps
  import opened Ctc

  type Pair = (nat, NodeId)

  /** The external scorer, in the probability domain.  `boundary` is is_scoring_boundary, `lm` is
      exp(alpha * (log P + hot-word boost)), `lmFinal` the same without the boost, `beta` exp(beta). */
  datatype Scorer = Scorer(utf8: bool, beta: real, boundary: (seq<nat>, nat) -> bool,
                           lm: seq<nat> -> real, lmFinal: seq<nat> -> real)

  ghost predicate ValidScorer(sc: Option<Scorer>) {
    sc.Some? ==> sc.value.beta > 0.0 && (forall p :: sc.value.lm(p) > 0.0) && forall p :: sc.value.lmFinal(p) > 0.0
  }

  /** Factor applied when `path` is extended by `c`. */
  function ExtendFactor(sc: Option<Scorer>, path: seq<nat>, c: nat): real {
    match sc
    case None => 1.0
    case Some(x) =>
      var scored := if x.utf8 then path + [c] else path;
      if x.boundary(scored, c) then x.lm(scored) * x.beta else 1.0
  }

  /** Everything the scorer multiplies a label sequence by, one label after the other. */
  function Lm(sc: Option<Scorer>, path: seq<nat>): real {
    if path == [] then 1.0
    else Lm(sc, path[..|path| - 1]) * ExtendFactor(sc, path[..|path| - 1], path[|path| - 1])
  }

  lemma LmStep(sc: Option<Scorer>, q: seq<nat>, l: nat)
    ensures Lm(sc, q + [l]) == Lm(sc, q) * ExtendFactor(sc, q, l)
  {
    assert (q + [l])[..|q|] == q;
  }

  lemma FactorNonNegative(sc: Option<Scorer>, path: seq<nat>, c: nat)
    requires ValidScorer(sc)
    ensures ExtendFactor(sc, path, c) >= 0.0
  {
  }

  lemma {:induction false} LmNonNegative(sc: Option<Scorer>, path: seq<nat>)
    requires ValidScorer(sc)
    ensures Lm(sc, path) >= 0.0
  {
    hide ExtendFactor, ValidScorer;
    if path != [] {
      LmNonNegative(sc, path[..|path| - 1]);
      FactorNonNegative(sc, path[..|path| - 1], path[|path| - 1]);
    }
  }

  /** The mass a prefix offers to its extension by `c`: a repeat of its last label needs a blank in between. */
  function Base(n: Node, c: nat): real {
    if c == n.character then n.bPrev else n.score
  }

  function BlankIn(nodes: map<NodeId, Node>, done: set<Pair>, p: Frame, blank: nat, q: NodeId): real
    requires q in nodes
  {
    if (blank, q) in done then Prob(p, blank) * nodes[q].score else 0.0
  }

  function RepeatIn(nodes: map<NodeId, Node>, done: set<Pair>, p: Frame, blank: nat, q: NodeId): real
    requires q in nodes
  {
    var c := nodes[q].character;
    if c != blank && (c, q) in done then Prob(p, c) * nodes[q].nbPrev else 0.0
  }

  predicate ExtendDone(nodes: map<NodeId, Node>, done: set<Pair>, blank: nat, q: NodeId)
    requires q in nodes
  {
    q != ROOT_ID && nodes[q].character != blank && (nodes[q].character, nodes[q].parent) in done
  }

  function ExtendIn(nodes: map<NodeId, Node>, paths: map<NodeId, seq<nat>>, done: set<Pair>, p: Frame, blank: nat,
                    sc: Option<Scorer>, q: NodeId): real
    requires q in nodes && paths.Keys == nodes.Keys
  {
    var c, s := nodes[q].character, nodes[q].parent;
    if ExtendDone(nodes, done, blank, q) && s in nodes
    then Prob(p, c) * Base(nodes[s], c) * ExtendFactor(sc, paths[s], c) else 0.0
  }

  /** The closed form.  Repeats and blanks visited so far are `doneR`, extensions `doneE`. */
  ghost predicate AccumAt(nodes: map<NodeId, Node>, paths: map<NodeId, seq<nat>>, doneR: set<Pair>, doneE: set<Pair>,
                          p: Frame, blank: nat, sc: Option<Scorer>, q: NodeId)
    requires q in nodes && paths.Keys == nodes.Keys
  {
    && nodes[q].bCur == BlankIn(nodes, doneR, p, blank, q)
    && nodes[q].nbCur == RepeatIn(nodes, doneR, p, blank, q) + ExtendIn(nodes, paths, doneE, p, blank, sc, q)
    && (ExtendDone(nodes, doneE, blank, q) ==> nodes[q].live)
  }

  ghost predicate Accum(nodes: map<NodeId, Node>, paths: map<NodeId, seq<nat>>, doneR: set<Pair>, doneE: set<Pair>,
                        p: Frame, blank: nat, sc: Option<Scorer>) {
    && paths.Keys == nodes.Keys
    && forall q {:trigger AccumAt(nodes, paths, doneR, doneE, p, blank, sc, q)} | q in nodes ::
         AccumAt(nodes, paths, doneR, doneE, p, blank, sc, q)
  }

  /** Visited prefixes are live. */
  ghost predicate DoneLive(nodes: map<NodeId, Node>, done: set<Pair>) {
    forall e | e in done :: e.1 in nodes && nodes[e.1].live
  }

  // ----- the steps of one visit

  lemma AccumBlank(nodes: map<NodeId, Node>, paths: map<NodeId, seq<nat>>, doneR: set<Pair>, doneE: set<Pair>,
                   p: Frame, blank: nat, sc: Option<Scorer>, s: NodeId, v: Node)
    requires Accum(nodes, paths, doneR, doneE, p, blank, sc) && s in nodes && (blank, s) !in doneR
    requires v == nodes[s].(bCur := nodes[s].bCur + Prob(p, blank) * nodes[s].score, prevTimesteps := v.prevTimesteps)
    ensures Accum(nodes[s := v], paths, doneR + {(blank, s)}, doneE + {(blank, s)}, p, blank, sc)
  {
    hide Base, ExtendFactor, Prob;
    forall q | q in nodes ensures AccumAt(nodes[s := v], paths, doneR + {(blank, s)}, doneE + {(blank, s)}, p, blank,
      sc, q) {
      assert AccumAt(nodes, paths, doneR, doneE, p, blank, sc, q);
      BaseSame(nodes, s, v);
    }
  }

  lemma BaseSame(nodes: map<NodeId, Node>, s: NodeId, v: Node)
    requires s in nodes && v.character == nodes[s].character && v.bPrev == nodes[s].bPrev && v.score == nodes[s].score
    ensures forall t, c | t in nodes :: Base(nodes[s := v][t], c) == Base(nodes[t], c)
  {
  }

  lemma AccumRepeat(nodes: map<NodeId, Node>, paths: map<NodeId, seq<nat>>, doneR: set<Pair>, doneE: set<Pair>,
                    p: Frame, blank: nat, sc: Option<Scorer>, s: NodeId, c: nat, v: Node)
    requires Accum(nodes, paths, doneR, doneE, p, blank, sc) && s in nodes && (c, s) !in doneR && c != blank
    requires v == nodes[s].(nbCur := nodes[s].nbCur
             + (if c == nodes[s].character then Prob(p, c) * nodes[s].nbPrev else 0.0),
                            prevTimesteps := v.prevTimesteps)
    ensures Accum(nodes[s := v], paths, doneR + {(c, s)}, doneE, p, blank, sc)
  {
    hide Base, ExtendFactor, Prob;
    forall q | q in nodes ensures AccumAt(nodes[s := v], paths, doneR + {(c, s)}, doneE, p, blank, sc, q) {
      assert AccumAt(nodes, paths, doneR, doneE, p, blank, sc, q);
      BaseSame(nodes, s, v);
    }
  }

  /** Equal but for the child list and the automaton state. */
  predicate SameMass(v: Node, v': Node) {
    v' == v.(children := v'.children, dictState := v'.dictState)
  }

  lemma AccumAtSame(nodes: map<NodeId, Node>, paths: map<NodeId, seq<nat>>, nodes': map<NodeId, Node>,
                    paths': map<NodeId, seq<nat>>,
                    doneR: set<Pair>, doneE: set<Pair>, p: Frame, blank: nat, sc: Option<Scorer>, q: NodeId)
    requires paths.Keys == nodes.Keys && paths'.Keys == nodes'.Keys && q in nodes && q in nodes'
    requires AccumAt(nodes, paths, doneR, doneE, p, blank, sc, q) && SameMass(nodes[q], nodes'[q])
    requires ExtendDone(nodes, doneE, blank, q) ==>
               var s := nodes[q].parent;
               s in nodes && s in nodes' && SameMass(nodes[s], nodes'[s]) && paths'[s] == paths[s]
    ensures AccumAt(nodes', paths', doneR, doneE, p, blank, sc, q)
  {
    hide ExtendFactor, Prob;
  }

  lemma AccumSame(nodes: map<NodeId, Node>, paths: map<NodeId, seq<nat>>, nodes': map<NodeId, Node>,
                  paths': map<NodeId, seq<nat>>,
                  doneR: set<Pair>, doneE: set<Pair>, p: Frame, blank: nat, sc: Option<Scorer>, skip: NodeId)
    requires Accum(nodes, paths, doneR, doneE, p, blank, sc) && DoneLive(nodes, doneE)
    requires paths'.Keys == nodes'.Keys
    requires forall m | m in nodes :: m in nodes' && paths'[m] == paths[m]
    requires forall m | m in nodes && m != skip :: SameMass(nodes[m], nodes'[m])
    requires skip in nodes ==> !nodes[skip].live
    ensures forall q | q in nodes && q != skip :: AccumAt(nodes', paths', doneR, doneE, p, blank, sc, q)
  {
    hide AccumAt;
    forall q | q in nodes && q != skip ensures AccumAt(nodes', paths', doneR, doneE, p, blank, sc, q) {
      assert AccumAt(nodes, paths, doneR, doneE, p, blank, sc, q);
      AccumAtSame(nodes, paths, nodes', paths', doneR, doneE, p, blank, sc, q);
    }
  }

  /** Creating, reviving or refusing a child collects nothing by itself. */
  lemma AccumExpand(dict: Option<Dictionary>, nodes: map<NodeId, Node>, paths: map<NodeId, seq<nat>>, next: NodeId,
                    doneR: set<Pair>, doneE: set<Pair>, p: Frame, blank: nat, sc: Option<Scorer>, s: NodeId, c: nat,
                    r: Option<NodeId>, nodes': map<NodeId, Node>, paths': map<NodeId, seq<nat>>, next': NodeId)
    requires Accum(nodes, paths, doneR, doneE, p, blank, sc) && Wf(nodes, paths, next)
    requires s in nodes && c != blank && (c, s) !in doneE
    requires DoneLive(nodes, doneR) && DoneLive(nodes, doneE)
    requires Expanded(dict, nodes, next, s, c, r, nodes', next')
    requires paths' == if r.Some? && r.value !in nodes then paths[r.value := paths[s] + [c]] else paths
    ensures Accum(nodes', paths', doneR, doneE, p, blank, sc)
  {
    hide ExtendFactor, Prob, Wf, NextDictState, ExtendIn, BlankIn, RepeatIn, AccumAt;
    WfKeys(nodes, paths, next);
    var skip := if r.Some? && (r.value in nodes ==> !nodes[r.value].live) then r.value else next;
    AccumSame(nodes, paths, nodes', paths', doneR, doneE, p, blank, sc, skip);
    if skip in nodes' {
      if skip in nodes { ChildIs(nodes, paths, next, s, (c, skip)); }
      AccumNone(nodes', paths', doneR, doneE, p, blank, sc, skip);
    }
  }

  lemma AccumNone(nodes: map<NodeId, Node>, paths: map<NodeId, seq<nat>>, doneR: set<Pair>, doneE: set<Pair>,
                  p: Frame, blank: nat, sc: Option<Scorer>, q: NodeId)
    requires q in nodes && paths.Keys == nodes.Keys && nodes[q].bCur == nodes[q].nbCur == 0.0
    requires forall e | e in doneR :: e.1 != q
    requires (nodes[q].character, nodes[q].parent) !in doneE
    ensures AccumAt(nodes, paths, doneR, doneE, p, blank, sc, q)
  {
  }

  /** A refused extension leaves nothing to collect. */
  lemma AccumRefused(nodes: map<NodeId, Node>, paths: map<NodeId, seq<nat>>, next: NodeId, doneR: set<Pair>,
                     doneE: set<Pair>,
                     p: Frame, blank: nat, sc: Option<Scorer>, s: NodeId, c: nat)
    requires Accum(nodes, paths, doneR, doneE, p, blank, sc) && Wf(nodes, paths, next)
    requires s in nodes && forall e | e in nodes[s].children :: e.0 != c
    ensures Accum(nodes, paths, doneR, doneE + {(c, s)}, p, blank, sc)
  {
    hide ExtendFactor, Prob, Base, Wf;
    forall q | q in nodes ensures AccumAt(nodes, paths, doneR, doneE + {(c, s)}, p, blank, sc, q) {
      assert AccumAt(nodes, paths, doneR, doneE, p, blank, sc, q);
      Links(nodes, paths, next, q);
    }
  }

  lemma ChildIs(nodes: map<NodeId, Node>, paths: map<NodeId, seq<nat>>, next: NodeId, s: NodeId, e: (nat, NodeId))
    requires Wf(nodes, paths, next) && s in nodes && e in nodes[s].children
    ensures e.1 in nodes && e.1 != ROOT_ID && nodes[e.1].parent == s && nodes[e.1].character == e.0
  {
    assert LinkedDown(nodes, s, e);
  }

  /** A prefix has one child per label. */
  lemma OneChild(nodes: map<NodeId, Node>, paths: map<NodeId, seq<nat>>, next: NodeId, q: NodeId, r: NodeId)
    requires Wf(nodes, paths, next) && q in nodes && r in nodes && q != ROOT_ID && r != ROOT_ID
    requires nodes[q].parent == nodes[r].parent && nodes[q].character == nodes[r].character
    ensures q == r
  {
    assert LinkedUp(nodes, paths, q) && LinkedUp(nodes, paths, r);
  }

  lemma AccumExtend(nodes: map<NodeId, Node>, paths: map<NodeId, seq<nat>>, next: NodeId, doneR: set<Pair>,
                    doneE: set<Pair>,
                    p: Frame, blank: nat, sc: Option<Scorer>, s: NodeId, c: nat, q: NodeId, v: Node)
    requires Accum(nodes, paths, doneR, doneE, p, blank, sc) && Wf(nodes, paths, next)
    requires s in nodes && c != blank && (c, s) !in doneE
    requires q in nodes && q != ROOT_ID && nodes[q].parent == s && nodes[q].character == c && nodes[q].live
    requires v == nodes[q].(nbCur := nodes[q].nbCur + Prob(p, c) * Base(nodes[s], c) * ExtendFactor(sc, paths[s], c),
                            prevTimesteps := v.prevTimesteps, newTimestep := v.newTimestep)
    ensures Accum(nodes[q := v], paths, doneR, doneE + {(c, s)}, p, blank, sc)
  {
    hide ExtendFactor, Prob, Base, UpOk, DownOk, OnePerPath;
    forall k | k in nodes ensures AccumAt(nodes[q := v], paths, doneR, doneE + {(c, s)}, p, blank, sc, k) {
      assert AccumAt(nodes, paths, doneR, doneE, p, blank, sc, k);
      BaseSame(nodes, q, v);
      if k != ROOT_ID && nodes[k].parent == s && nodes[k].character == c { OneChild(nodes, paths, next, k, q); }
    }
  }
}
