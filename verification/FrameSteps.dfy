/** The invariant of the two nested loops of a frame, and how each visit keeps it. */
module FrameSteps {
  import opened Basics
  import opened PathTrie
  import opened TrieOps
  import opened Ctc
  import opened Beam
  import opened BeamCtc
  import opened BeamGrowth
  import opened BeamTime
  import opened BeamTotal
  import opened BeamRecord
  import opened DictionaryWalk

  /** What does not change while a frame is processed. */
  datatype Ctx = Ctx(blank: nat, scorer: Option<Scorer>, dict: Option<Dictionary>,
                     nodes0: map<NodeId, Node>, paths0: map<NodeId, seq<nat>>, hist0: seq<seq<nat>>,
                     p: Frame, t: nat, order: Order)

  /** The trie at one moment. */
  datatype View = View(nodes: map<NodeId, Node>, paths: map<NodeId, seq<nat>>, next: NodeId, hist: seq<seq<nat>>)

  /** Every permitted extension visited has a live node. */
  ghost predicate HasKids(dict: Option<Dictionary>, nodes: map<NodeId, Node>, paths: map<NodeId, seq<nat>>,
                          doneE: set<Pair>, blank: nat) {
    forall e {:trigger LiveChild(nodes, e.1, e.0)} {:trigger e in doneE} | e in doneE && e.0 != blank ::
      e.1 in paths && (Permits(dict, paths[e.1] + [e.0]) ==> LiveChild(nodes, e.1, e.0))
  }

  ghost predicate ValidCtx(x: Ctx) {
    && ValidFrame(x.p, x.blank) && x.blank < ROOT && ValidScorer(x.scorer)
    && Scored(x.nodes0) && x.paths0.Keys == x.nodes0.Keys
    && (x.scorer.None? ==> x.dict.None?) && ValidOrder(x.order)
  }

  /** Holds between any two visits of a frame; `acc` is everything collected so far. */
  ghost predicate InFrame(x: Ctx, w: View, doneR: set<Pair>, doneE: set<Pair>, acc: real) {
    && Wf(w.nodes, w.paths, w.next)
    && Accum(w.nodes, w.paths, doneR, doneE, x.p, x.blank, x.scorer)
    && DoneOld(x.nodes0, doneR, x.blank) && DoneOld(x.nodes0, doneE, x.blank)
    && Kept(x.nodes0, x.paths0, w.nodes, w.paths) && Born(x.nodes0, w.nodes, doneR, x.blank)
    && Spelled(w.paths, x.blank) && TimesKept(x.nodes0, w.nodes)
    && TsInv(w.nodes, w.paths, w.hist, x.t) && w.hist == x.hist0
    && Records(x.order, w.nodes, w.paths, doneR, doneE, x.p, x.blank, x.scorer)
    && LeavesLive(w.nodes)
    && HasKids(x.dict, w.nodes, w.paths, doneE, x.blank)
    && StatesOk(x.dict, w.nodes, w.paths)
    && SumCur(w.nodes, w.next) == acc
  }

  /** The prefix being visited. */
  ghost predicate Visitable(x: Ctx, s: NodeId) {
    s in x.nodes0 && x.nodes0[s].live && x.nodes0[s].score > 0.0
  }

  lemma DoneIsLive(x: Ctx, w: View, done: set<Pair>)
    requires DoneOld(x.nodes0, done, x.blank) && Kept(x.nodes0, x.paths0, w.nodes, w.paths)
    ensures DoneLive(w.nodes, done)
  {
  }

  lemma VisitedNode(x: Ctx, w: View, s: NodeId)
    requires Visitable(x, s) && Kept(x.nodes0, x.paths0, w.nodes, w.paths) && TsInv(w.nodes, w.paths, w.hist, x.t)
    ensures s in w.nodes && w.nodes[s].live && w.nodes[s].score == x.nodes0[s].score > 0.0
    ensures w.nodes[s].bPrev == x.nodes0[s].bPrev && w.nodes[s].nbPrev == x.nodes0[s].nbPrev
    ensures w.nodes[s].character == x.nodes0[s].character
    ensures w.nodes[s].timesteps.Some?
    ensures TsAt(w.nodes[s], |w.paths[s]|, w.hist, x.t)
  {
  }

  // ----- updates that touch one node's current masses and recorded timesteps only

  /** Only current masses and the recorded expansion differ. */
  predicate Touched(v: Node, v': Node) {
    v' == v.(bCur := v'.bCur, nbCur := v'.nbCur, prevTimesteps := v'.prevTimesteps, newTimestep := v'.newTimestep)
  }

  lemma BornTouch(nodes0: map<NodeId, Node>, nodes: map<NodeId, Node>, doneR: set<Pair>, blank: nat, q: NodeId, v: Node,
                  more: set<Pair>)
    requires Born(nodes0, nodes, doneR, blank) && TimesKept(nodes0, nodes) && q in nodes && Touched(nodes[q], v)
    ensures Born(nodes0, nodes[q := v], doneR + more, blank) && TimesKept(nodes0, nodes[q := v])
  {
  }

  lemma TouchKeeps(x: Ctx, w: View, doneE: set<Pair>, q: NodeId, v: Node)
    requires Wf(w.nodes, w.paths, w.next) && Kept(x.nodes0, x.paths0, w.nodes, w.paths)
    requires LeavesLive(w.nodes) && HasKids(x.dict, w.nodes, w.paths, doneE, x.blank)
             && StatesOk(x.dict, w.nodes, w.paths)
    requires q in w.nodes && Touched(w.nodes[q], v)
    ensures Wf(w.nodes[q := v], w.paths, w.next) && Kept(x.nodes0, x.paths0, w.nodes[q := v], w.paths)
    ensures LeavesLive(w.nodes[q := v]) && HasKids(x.dict, w.nodes[q := v], w.paths, doneE, x.blank)
    ensures StatesOk(x.dict, w.nodes[q := v], w.paths)
  {
    hide Wf, StatesOk, Permits;
    StatesOkSame(x.dict, w.nodes, w.paths, w.nodes[q := v], w.paths);
    WfKeys(w.nodes, w.paths, w.next);
    SameShapeWf(w.nodes, w.nodes[q := v], w.paths, w.next);
    forall e | e in doneE && e.0 != x.blank && e.1 in w.paths && Permits(x.dict, w.paths[e.1] + [e.0])
      ensures LiveChild(w.nodes[q := v], e.1, e.0)
    {
      TouchKeepsChild(w.nodes, q, v, e.1, e.0);
    }
  }

  lemma TouchKeepsChild(nodes: map<NodeId, Node>, q: NodeId, v: Node, s: NodeId, c: nat)
    requires q in nodes && Touched(nodes[q], v) && LiveChild(nodes, s, c)
    ensures LiveChild(nodes[q := v], s, c)
  {
    var k :| k in nodes && k != ROOT_ID && nodes[k].parent == s && nodes[k].character == c && nodes[k].live;
    assert k in nodes[q := v];
  }

  lemma DoneOldMore(x: Ctx, done: set<Pair>, c: nat, s: NodeId)
    requires DoneOld(x.nodes0, done, x.blank) && Visitable(x, s) && c <= x.blank
    ensures DoneOld(x.nodes0, done + {(c, s)}, x.blank)
  {
  }

  lemma HasKidsBlank(dict: Option<Dictionary>, nodes: map<NodeId, Node>, paths: map<NodeId, seq<nat>>, doneE: set<Pair>,
                     blank: nat, s: NodeId)
    requires HasKids(dict, nodes, paths, doneE, blank)
    ensures HasKids(dict, nodes, paths, doneE + {(blank, s)}, blank)
  {
    hide Permits, LiveChild;
  }

  /** What has been collected is never negative. */
  lemma CollectedNonNegative(x: Ctx, w: View, doneR: set<Pair>, doneE: set<Pair>, q: NodeId)
    requires ValidCtx(x) && Accum(w.nodes, w.paths, doneR, doneE, x.p, x.blank, x.scorer)
    requires DoneOld(x.nodes0, doneR, x.blank) && DoneOld(x.nodes0, doneE, x.blank)
    requires Kept(x.nodes0, x.paths0, w.nodes, w.paths) && q in w.nodes
    ensures w.nodes[q].bCur >= 0.0 && w.nodes[q].nbCur >= 0.0
  {
    hide ExtendFactor, ValidScorer;
    assert AccumAt(w.nodes, w.paths, doneR, doneE, x.p, x.blank, x.scorer, q);
    var c, s := w.nodes[q].character, w.nodes[q].parent;
    assert Prob(x.p, x.blank) >= 0.0 && Prob(x.p, c) >= 0.0;
    hide Prob;
    if (x.blank, q) in doneR { MulMonotone(Prob(x.p, x.blank), 0.0, w.nodes[q].score); }
    if (c, q) in doneR { MulMonotone(Prob(x.p, c), 0.0, w.nodes[q].nbPrev); }
    if (c, s) in doneE {
      FactorNonNegative(x.scorer, w.paths[s], c);
      MulMonotone(Prob(x.p, c), 0.0, Base(w.nodes[s], c));
      MulMonotone(ExtendFactor(x.scorer, w.paths[s], c), 0.0, Prob(x.p, c) * Base(w.nodes[s], c));
    }
  }

  /** Neither is what a visit adds. */
  lemma AddedNonNegative(x: Ctx, s: NodeId, c: nat)
    requires ValidCtx(x) && Visitable(x, s) && c < x.blank && s in x.paths0
    ensures Prob(x.p, c) * x.nodes0[s].nbPrev >= 0.0 && ExtendMass(x, s, c) >= 0.0
  {
    hide ExtendFactor, ValidScorer;
    assert Prob(x.p, c) >= 0.0;
    hide Prob;
    MulMonotone(Prob(x.p, c), 0.0, x.nodes0[s].nbPrev);
    FactorNonNegative(x.scorer, x.paths0[s], c);
    MulMonotone(Prob(x.p, c), 0.0, Base(x.nodes0[s], c));
    MulMonotone(ExtendFactor(x.scorer, x.paths0[s], c), 0.0, Prob(x.p, c) * Base(x.nodes0[s], c));
  }

  lemma KeptIn(x: Ctx, w: View)
    requires Kept(x.nodes0, x.paths0, w.nodes, w.paths)
    ensures forall q | q in x.nodes0 :: q in w.nodes
  {
  }

  lemma SpelledMore(paths: map<NodeId, seq<nat>>, blank: nat, n: NodeId, s: NodeId, c: nat)
    requires Spelled(paths, blank) && s in paths && c < blank
    ensures Spelled(paths[n := paths[s] + [c]], blank)
  {
  }

  /** The blank class: the whole score stays on the prefix, on its blank side. */
  lemma VisitBlank(x: Ctx, w: View, done: set<Pair>, acc: real, s: NodeId, v: Node)
    requires ValidCtx(x) && InFrame(x, w, done, done, acc) && Visitable(x, s) && (x.blank, s) !in done
    requires s in w.nodes && Upcoming(x.order, done, x.blank, s)
    requires var mass := Prob(x.p, x.blank) * w.nodes[s].score;
             v == w.nodes[s].(bCur := w.nodes[s].bCur + mass,
                              prevTimesteps := if w.nodes[s].nbCur < mass then None else w.nodes[s].prevTimesteps)
    ensures InFrame(x, w.(nodes := w.nodes[s := v]), done + {(x.blank, s)}, done + {(x.blank, s)},
                    acc + Prob(x.p, x.blank) * x.nodes0[s].score)
  {
    hide Wf, Accum, Born, StatesOk, DoneOld, Kept, TsInv, LeavesLive, HasKids, SumCur, TsAt, Prob, Scored, ValidFrame,
      Spelled, TimesKept, Records, Upcoming;
    VisitedNode(x, w, s);
    BornTouch(x.nodes0, w.nodes, done, x.blank, s, v, {(x.blank, s)});
    WfKeys(w.nodes, w.paths, w.next);
    AccumBlank(w.nodes, w.paths, done, done, x.p, x.blank, x.scorer, s, v);
    CollectedNonNegative(x, w, done, done, s);
    DoneIsLive(x, w, done);
    RecordBlank(x.order, w.nodes, w.paths, done, x.p, x.blank, x.scorer, s, v);
    TouchKeeps(x, w, done, s, v);
    HasKidsBlank(x.dict, w.nodes[s := v], w.paths, done, x.blank, s);
    DoneOldMore(x, done, x.blank, s);
    TsKeep(w.nodes[s], v, |w.paths[s]|, w.hist, x.t);
    TsInvUpdate(w.nodes, w.paths, w.hist, x.t, s, v);
    SumCurUpdate(w.nodes, w.next, s, v);
  }

  /** A repeat of the last label: the non-blank mass stays on the prefix. */
  lemma VisitRepeat(x: Ctx, w: View, done: set<Pair>, acc: real, s: NodeId, c: nat, v: Node)
    requires ValidCtx(x) && InFrame(x, w, done, done, acc) && Visitable(x, s) && (c, s) !in done && c < x.blank
    requires s in w.nodes && s in x.paths0 && Upcoming(x.order, done, c, s)
    requires var mass := Prob(x.p, c) * w.nodes[s].nbPrev;
             v == if c != w.nodes[s].character then w.nodes[s]
                  else w.nodes[s].(nbCur := w.nodes[s].nbCur + mass,
                                   prevTimesteps := if w.nodes[s].nbCur < mass then None else w.nodes[s].prevTimesteps)
    ensures InFrame(x, w.(nodes := w.nodes[s := v]), done + {(c, s)}, done,
                    acc + (if c == x.nodes0[s].character then Prob(x.p, c) * x.nodes0[s].nbPrev else 0.0))
  {
    hide Wf, Accum, Born, StatesOk, DoneOld, Kept, TsInv, LeavesLive, HasKids, SumCur, TsAt, Prob, Scored, ValidFrame,
      Spelled, TimesKept, Records, Upcoming;
    VisitedNode(x, w, s);
    AddedNonNegative(x, s, c);
    BornTouch(x.nodes0, w.nodes, done, x.blank, s, v, {(c, s)});
    WfKeys(w.nodes, w.paths, w.next);
    AccumRepeat(w.nodes, w.paths, done, done, x.p, x.blank, x.scorer, s, c, v);
    DoneIsLive(x, w, done);
    RecordRepeat(x.order, w.nodes, w.paths, done, x.p, x.blank, x.scorer, s, c, v);
    TouchKeeps(x, w, done, s, v);
    DoneOldMore(x, done, c, s);
    TsKeep(w.nodes[s], v, |w.paths[s]|, w.hist, x.t);
    TsInvUpdate(w.nodes, w.paths, w.hist, x.t, s, v);
    SumCurUpdate(w.nodes, w.next, s, v);
  }

  // ----- looking up the child

  lemma KeptExpand(x: Ctx, w: View, w': View, s: NodeId, c: nat, r: Option<NodeId>)
    requires Kept(x.nodes0, x.paths0, w.nodes, w.paths) && s in w.nodes && w.next !in w.nodes
    requires Expanded(x.dict, w.nodes, w.next, s, c, r, w'.nodes, w'.next)
    requires w'.paths == if r.Some? && r.value !in w.nodes then w.paths[r.value := w.paths[s] + [c]] else w.paths
    ensures Kept(x.nodes0, x.paths0, w'.nodes, w'.paths)
    ensures LeavesLive(w.nodes) ==> LeavesLive(w'.nodes)
  {
    hide NextDictState;
  }

  lemma HasKidsExpand(x: Ctx, w: View, w': View, s: NodeId, c: nat, r: Option<NodeId>, doneE: set<Pair>)
    requires HasKids(x.dict, w.nodes, w.paths, doneE, x.blank) && s in w.nodes && w.next !in w.nodes
             && w.paths.Keys == w.nodes.Keys
    requires Expanded(x.dict, w.nodes, w.next, s, c, r, w'.nodes, w'.next)
    requires w'.paths == if r.Some? && r.value !in w.nodes then w.paths[r.value := w.paths[s] + [c]] else w.paths
    ensures HasKids(x.dict, w'.nodes, w'.paths, doneE, x.blank)
  {
    hide NextDictState, Permits;
    forall e | e in doneE && e.0 != x.blank
      ensures e.1 in w'.paths && (Permits(x.dict, w'.paths[e.1] + [e.0]) ==> LiveChild(w'.nodes, e.1, e.0))
    {
      assert e.1 in w.paths && w'.paths[e.1] == w.paths[e.1];
      if LiveChild(w.nodes, e.1, e.0) {
        var k :| k in w.nodes && k != ROOT_ID && w.nodes[k].parent == e.1 && w.nodes[k].character == e.0
          && w.nodes[k].live;
        assert k in w'.nodes;
      }
    }
  }

  lemma DeadHaveNothing(x: Ctx, w: View, doneR: set<Pair>, doneE: set<Pair>)
    requires Accum(w.nodes, w.paths, doneR, doneE, x.p, x.blank, x.scorer)
    requires DoneLive(w.nodes, doneR)
    ensures forall q | q in w.nodes && !w.nodes[q].live :: w.nodes[q].bCur == w.nodes[q].nbCur == 0.0
  {
    hide Prob, Base, ExtendFactor;
    forall q | q in w.nodes && !w.nodes[q].live ensures w.nodes[q].bCur == w.nodes[q].nbCur == 0.0 {
      assert AccumAt(w.nodes, w.paths, doneR, doneE, x.p, x.blank, x.scorer, q);
    }
  }

  lemma VisitExpand(x: Ctx, w: View, w': View, doneR: set<Pair>, doneE: set<Pair>, acc: real, s: NodeId, c: nat,
                    r: Option<NodeId>)
    requires InFrame(x, w, doneR, doneE, acc) && Visitable(x, s) && (c, s) in doneR && (c, s) !in doneE && c < x.blank
    requires s in w.nodes
    requires Expanded(x.dict, w.nodes, w.next, s, c, r, w'.nodes, w'.next) && Wf(w'.nodes, w'.paths, w'.next)
    requires w'.paths == if r.Some? && r.value !in w.nodes then w.paths[r.value := w.paths[s] + [c]] else w.paths
    requires w'.hist == w.hist
    ensures InFrame(x, w', doneR, doneE, acc)
  {
    hide Wf, Accum, Born, StatesOk, DoneOld, DoneLive, Kept, TsInv, LeavesLive, HasKids, SumCur, Expanded, Spelled,
      TimesKept, Records, Upcoming;
    WfKeys(w.nodes, w.paths, w.next);
    DoneIsLive(x, w, doneR);
    DoneIsLive(x, w, doneE);
    AccumExpand(x.dict, w.nodes, w.paths, w.next, doneR, doneE, x.p, x.blank, x.scorer, s, c, r, w'.nodes, w'.paths,
      w'.next);
    DeadUnrecorded(w, x.t);
    RecordExpand(x.order, x.dict, w.nodes, w.paths, w.next, doneR, doneE, x.p, x.blank, x.scorer, s, c, r, w'.nodes,
      w'.paths, w'.next);
    KeptExpand(x, w, w', s, c, r);
    KeptIn(x, w);
    TimesExpand(x.dict, x.nodes0, w.nodes, w.next, s, c, r, w'.nodes, w'.next);
    if r.Some? { SpelledMore(w.paths, x.blank, r.value, s, c); }
    BornExpand(x.dict, x.nodes0, w.nodes, w.paths, w.next, doneR, x.blank, s, c, r, w'.nodes, w'.next);
    StatesOkExpand(x.dict, w.nodes, w.paths, w.next, s, c, r, w'.nodes, w'.paths, w'.next);
    HasKidsExpand(x, w, w', s, c, r, doneE);
    TsExpand(x.dict, w.nodes, w.paths, w.next, s, c, r, w'.nodes, w'.paths, w'.next, w.hist, x.t);
    DeadHaveNothing(x, w, doneR, doneE);
    SumCurExpand(x.dict, w.nodes, w.next, s, c, r, w'.nodes, w'.next);
  }

  lemma DeadUnrecorded(w: View, t: nat)
    requires TsInv(w.nodes, w.paths, w.hist, t)
    ensures forall q | q in w.nodes && !w.nodes[q].live :: w.nodes[q].prevTimesteps.None?
  {
    hide HistOk;
    forall q | q in w.nodes && !w.nodes[q].live ensures w.nodes[q].prevTimesteps.None? {
      assert TsAt(w.nodes[q], |w.paths[q]|, w.hist, t);
    }
  }

  lemma RefusedIsNotPermitted(dict: Option<Dictionary>, w: View, w': View, s: NodeId, c: nat)
    requires StatesOk(dict, w.nodes, w.paths) && s in w.nodes && s in w.paths
    requires Expanded(dict, w.nodes, w.next, s, c, None, w'.nodes, w'.next)
    ensures !Permits(dict, w.paths[s] + [c])
  {
    assert StateOk(dict.value, w.paths[s], w.nodes[s].dictState);
    DictStateAppend(dict.value, w.paths[s], c);
  }

  /** The dictionary refused the extension. */
  lemma VisitRefused(x: Ctx, w: View, doneR: set<Pair>, doneE: set<Pair>, acc: real, s: NodeId, c: nat)
    requires InFrame(x, w, doneR, doneE, acc) && Visitable(x, s) && c < x.blank && s in w.nodes && s in w.paths
    requires !Permits(x.dict, w.paths[s] + [c]) && forall e | e in w.nodes[s].children :: e.0 != c
    ensures InFrame(x, w, doneR, doneE + {(c, s)}, acc)
  {
    hide Wf, Accum, Born, StatesOk, DoneOld, Kept, TsInv, LeavesLive, SumCur, Permits, LiveChild, Records, Upcoming;
    WfKeys(w.nodes, w.paths, w.next);
    AccumRefused(w.nodes, w.paths, w.next, doneR, doneE, x.p, x.blank, x.scorer, s, c);
    DoneIsLive(x, w, doneE);
    RecordRefused(x.order, w.nodes, w.paths, w.next, doneR, doneE, x.p, x.blank, x.scorer, s, c);
    DoneOldMore(x, doneE, c, s);
  }

  /** What the extension of `s` by `c` is worth. */
  function ExtendMass(x: Ctx, s: NodeId, c: nat): real
    requires s in x.nodes0 && s in x.paths0
  {
    Prob(x.p, c) * Base(x.nodes0[s], c) * ExtendFactor(x.scorer, x.paths0[s], c)
  }

  lemma ExtendMassIs(x: Ctx, w: View, s: NodeId, c: nat)
    requires Visitable(x, s) && Kept(x.nodes0, x.paths0, w.nodes, w.paths)
    ensures s in w.nodes && s in x.paths0
    ensures ExtendMass(x, s, c) == Prob(x.p, c) * Base(w.nodes[s], c) * ExtendFactor(x.scorer, w.paths[s], c)
  {
  }

  lemma HasKidsMore(x: Ctx, nodes: map<NodeId, Node>, paths: map<NodeId, seq<nat>>, doneE: set<Pair>, s: NodeId, c: nat,
                    q: NodeId)
    requires HasKids(x.dict, nodes, paths, doneE, x.blank) && s in paths
    requires q in nodes && q != ROOT_ID && nodes[q].parent == s && nodes[q].character == c && nodes[q].live
    ensures HasKids(x.dict, nodes, paths, doneE + {(c, s)}, x.blank)
  {
    hide Permits;
    assert LiveChild(nodes, s, c);
    hide LiveChild;
  }

  lemma VisitExtend(x: Ctx, w: View, done: set<Pair>, acc: real, s: NodeId, c: nat, q: NodeId, v: Node)
    requires ValidCtx(x) && InFrame(x, w, done + {(c, s)}, done, acc) && Visitable(x, s) && (c, s) !in done
             && c < x.blank
    requires s in w.nodes && s in x.paths0 && Upcoming(x.order, done, c, s)
    requires q in w.nodes && q != ROOT_ID && w.nodes[q].parent == s && w.nodes[q].character == c && w.nodes[q].live
    requires var mass := ExtendMass(x, s, c);
             v == if w.nodes[q].nbCur < mass
                  then w.nodes[q].(nbCur := w.nodes[q].nbCur + mass, prevTimesteps := w.nodes[s].timesteps,
                    newTimestep := x.t)
                  else w.nodes[q].(nbCur := w.nodes[q].nbCur + mass)
    ensures InFrame(x, w.(nodes := w.nodes[q := v]), done + {(c, s)}, done + {(c, s)}, acc + ExtendMass(x, s, c))
  {
    hide Wf, Accum, Born, StatesOk, DoneOld, Kept, TsInv, LeavesLive, HasKids, SumCur, TsAt, Prob, Base, ExtendFactor,
      ExtendMass, Records, Upcoming;
    hide Scored, ValidFrame, LinkedUp, Spelled, TimesKept;
    VisitedNode(x, w, s);
    var doneR := done + {(c, s)};
    CollectedNonNegative(x, w, doneR, done, q);
    AddedNonNegative(x, s, c);
    BornTouch(x.nodes0, w.nodes, doneR, x.blank, q, v, {});
    assert doneR + {} == doneR;
    WfKeys(w.nodes, w.paths, w.next);
    ExtendMassIs(x, w, s, c);
    AccumExtend(w.nodes, w.paths, w.next, doneR, done, x.p, x.blank, x.scorer, s, c, q, v);
    TouchKeeps(x, w, done, q, v);
    HasKidsMore(x, w.nodes[q := v], w.paths, done, s, c, q);
    DoneOldMore(x, done, c, s);
    ChildLength(w.nodes, w.paths, w.next, s, q);
    DoneIsLive(x, w, done);
    RecordExtend(x.order, w.nodes, w.paths, w.next, done, x.p, x.blank, x.scorer, s, c, q, v, ExtendMass(x, s, c));
    TsNode(w, x.t, q);
    TsExtend(w.nodes[s], w.nodes[q], v, |w.paths[s]|, w.hist, x.t, ExtendMass(x, s, c));
    TsInvUpdate(w.nodes, w.paths, w.hist, x.t, q, v);
    SumCurUpdate(w.nodes, w.next, q, v);
  }

  lemma TsNode(w: View, t: nat, q: NodeId)
    requires TsInv(w.nodes, w.paths, w.hist, t) && q in w.nodes
    ensures TsAt(w.nodes[q], |w.paths[q]|, w.hist, t)
  {
  }

  lemma ChildLength(nodes: map<NodeId, Node>, paths: map<NodeId, seq<nat>>, next: NodeId, s: NodeId, q: NodeId)
    requires Wf(nodes, paths, next) && q in nodes && q != ROOT_ID && nodes[q].parent == s
    ensures q in paths && s in paths && |paths[q]| == |paths[s]| + 1
  {
    assert LinkedUp(nodes, paths, q);
  }

  /** Without a scorer a visit hands out exactly the prefix's score times the class probability. */
  lemma NothingLost(x: Ctx, s: NodeId, c: nat)
    requires ValidCtx(x) && Visitable(x, s) && x.scorer.None? && s in x.paths0
    ensures (if c == x.nodes0[s].character then Prob(x.p, c) * x.nodes0[s].nbPrev else 0.0) + ExtendMass(x, s, c)
         == Prob(x.p, c) * x.nodes0[s].score
  {
    hide Prob;
    Distribute(x.nodes0[s].nbPrev, x.nodes0[s].bPrev, Prob(x.p, c));
  }
}
