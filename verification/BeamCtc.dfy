/** The masses of the beam against the masses they stand for: exact while nothing has been cut, never above
    them otherwise. */
module BeamCtc {
  import opened Basics
  import opened PathTrie
  import opened TrieOps
  import opened Ctc
  import opened Beam
  import opened DictionaryWalk

  /** Blank class, scorer and dictionary of a decoder. */
  datatype Setting = Setting(blank: nat, scorer: Option<Scorer>, dict: Option<Dictionary>)

  /** May the dictionary's walk reach this label sequence? */
  predicate Permits(dict: Option<Dictionary>, path: seq<nat>) {
    dict.Some? ==> DictState(dict.value, path).Some?
  }

  lemma PermitsFront(dict: Option<Dictionary>, base: seq<nat>, c: nat)
    requires Permits(dict, base + [c])
    ensures Permits(dict, base)
  {
    if dict.Some? { DictStateAppend(dict.value, base, c); }
  }

  /** What a prefix should have: its CTC mass, times everything the scorer multiplies it by. */
  function Ideal(fr: seq<Frame>, g: Setting, path: seq<nat>, ends: bool): real {
    Mass(fr, g.blank, path, ends) * Lm(g.scorer, path)
  }

  lemma BlankAlgebra(mt: real, mf: real, p: real, l: real)
    ensures (mt + mf) * p * l == p * (mt * l + mf * l)
  {
  }

  lemma IdealBlankStep(fr: seq<Frame>, f: Frame, g: Setting, p: seq<nat>)
    ensures Ideal(fr + [f], g, p, true) == Prob(f, g.blank) * (Ideal(fr, g, p, true) + Ideal(fr, g, p, false))
  {
    hide Mass, Lm, Prob;
    MassBlankStep(fr, f, g.blank, p);
    BlankAlgebra(Mass(fr, g.blank, p, true), Mass(fr, g.blank, p, false), Prob(f, g.blank), Lm(g.scorer, p));
  }

  lemma LabelAlgebra(m: real, b: real, n: real, p: real, l: real, f: real)
    ensures (m * p + (b + n) * p) * (l * f) == p * (m * (l * f)) + p * (b * l + n * l) * f
  {
    assert (m * p) * (l * f) == p * (m * (l * f));
    assert ((b + n) * p) * (l * f) == p * (b * l + n * l) * f;
  }

  lemma IdealLabelStep(fr: seq<Frame>, f: Frame, g: Setting, q: seq<nat>, l: nat)
    requires l < g.blank
    ensures Ideal(fr + [f], g, q + [l], false)
         == LabelSum(Prob(f, l), Ideal(fr, g, q + [l], false),
                     Ideal(fr, g, q, true) + (if q != [] && q[|q| - 1] == l then 0.0 else Ideal(fr, g, q, false)),
                     ExtendFactor(g.scorer, q, l))
  {
    hide Mass, Lm, Prob, ExtendFactor;
    MassLabelStep(fr, f, g.blank, q, l);
    LmStep(g.scorer, q, l);
    var n := if q != [] && q[|q| - 1] == l then 0.0 else Mass(fr, g.blank, q, false);
    LabelAlgebra(Mass(fr, g.blank, q + [l], false), Mass(fr, g.blank, q, true), n, Prob(f, l), Lm(g.scorer, q),
      ExtendFactor(g.scorer, q, l));
  }

  lemma IdealNonNegative(fr: seq<Frame>, g: Setting, path: seq<nat>, ends: bool)
    requires ValidFrames(fr, g.blank) && ValidScorer(g.scorer)
    ensures Ideal(fr, g, path, ends) >= 0.0
  {
    hide Mass, Lm, ValidFrames, ValidScorer;
    MassNonNegative(fr, g.blank, path, ends);
    LmNonNegative(g.scorer, path);
  }

  lemma IdealLabelZero(fr: seq<Frame>, f: Frame, g: Setting, path: seq<nat>)
    requires path == [] || path[|path| - 1] >= g.blank
    ensures Ideal(fr + [f], g, path, false) == 0.0
  {
    hide Mass, Lm;
    MassLabelZero(fr, f, g.blank, path);
  }

  lemma IdealInitially(g: Setting, path: seq<nat>, ends: bool)
    ensures Ideal([], g, path, ends) == if path == [] && ends then 1.0 else 0.0
  {
    hide Mass;
    MassInitially(g.blank, path, ends);
  }

  /** Scores of live nodes are the sum of their two masses. */
  ghost predicate Scored(nodes: map<NodeId, Node>) {
    forall q | q in nodes && nodes[q].live ::
      nodes[q].bPrev >= 0.0 && nodes[q].nbPrev >= 0.0 && nodes[q].score == nodes[q].bPrev + nodes[q].nbPrev
  }

  /** While a frame is processed every node keeps its place, and live nodes keep their previous masses. */
  ghost predicate Kept(nodes0: map<NodeId, Node>, paths0: map<NodeId, seq<nat>>, nodes: map<NodeId, Node>,
                       paths: map<NodeId, seq<nat>>) {
    && paths0.Keys == nodes0.Keys && paths.Keys == nodes.Keys
    && forall q | q in nodes0 ::
         && q in nodes && paths[q] == paths0[q]
         && nodes[q].character == nodes0[q].character && nodes[q].parent == nodes0[q].parent
         && (nodes0[q].live ==>
               && nodes[q].live && nodes[q].bPrev == nodes0[q].bPrev
               && nodes[q].nbPrev == nodes0[q].nbPrev && nodes[q].score == nodes0[q].score)
  }

  ghost predicate DoneOld(nodes0: map<NodeId, Node>, done: set<Pair>, blank: nat) {
    forall e | e in done :: e.0 <= blank && e.1 in nodes0 && nodes0[e.1].live
  }

  ghost predicate LiveChild(nodes: map<NodeId, Node>, s: NodeId, c: nat) {
    exists q :: q in nodes && q != ROOT_ID && nodes[q].parent == s && nodes[q].character == c && nodes[q].live
  }

  /** Every class has been offered to every prefix that has mass, and every permitted extension has a live node. */
  ghost predicate Covered(nodes0: map<NodeId, Node>, nodes: map<NodeId, Node>, paths: map<NodeId, seq<nat>>,
                          done: set<Pair>, g: Setting) {
    forall s, c | s in nodes0 && nodes0[s].live && nodes0[s].score > 0.0 && 0 <= c <= g.blank ::
      (c, s) in done && (c < g.blank && s in paths && Permits(g.dict, paths[s] + [c]) ==> LiveChild(nodes, s, c))
  }

  ghost function OldB(nodes0: map<NodeId, Node>, q: NodeId): real {
    if q in nodes0 && nodes0[q].live then nodes0[q].bPrev else 0.0
  }

  ghost function OldNb(nodes0: map<NodeId, Node>, q: NodeId): real {
    if q in nodes0 && nodes0[q].live then nodes0[q].nbPrev else 0.0
  }

  ghost function OldBase(nodes0: map<NodeId, Node>, q: NodeId, repeats: bool): real {
    OldB(nodes0, q) + (if repeats then 0.0 else OldNb(nodes0, q))
  }

  lemma MulMonotone(k: real, x: real, y: real)
    requires k >= 0.0 && x <= y
    ensures k * x <= k * y
  {
  }

  /** Repeated mass and extending mass, times a class probability; the factor applies to the extension. */
  function LabelSum(k: real, repeated: real, extending: real, f: real): real {
    k * repeated + k * extending * f
  }

  /** What node `q` has collected, in terms of the masses before the frame. */
  ghost predicate Collected(nodes0: map<NodeId, Node>, v: Node, p: Frame, blank: nat, q: NodeId, exact: bool) {
    && 0.0 <= v.bCur <= Prob(p, blank) * (OldB(nodes0, q) + OldNb(nodes0, q))
    && (exact ==> v.bCur == Prob(p, blank) * (OldB(nodes0, q) + OldNb(nodes0, q)))
  }

  ghost predicate CollectedLabel(nodes0: map<NodeId, Node>, v: Node, p: Frame, q: NodeId, same: bool, f: real,
                                 exact: bool) {
    var c, s := v.character, v.parent;
    && 0.0 <= v.nbCur <= LabelSum(Prob(p, c), OldNb(nodes0, q), OldBase(nodes0, s, same), f)
    && (exact ==> v.nbCur == LabelSum(Prob(p, c), OldNb(nodes0, q), OldBase(nodes0, s, same), f))
  }

  lemma CollectBlank(nodes0: map<NodeId, Node>, paths0: map<NodeId, seq<nat>>, nodes: map<NodeId, Node>,
                     paths: map<NodeId, seq<nat>>,
                     done: set<Pair>, p: Frame, g: Setting, q: NodeId, exact: bool)
    requires Scored(nodes0) && Kept(nodes0, paths0, nodes, paths) && DoneOld(nodes0, done, g.blank)
    requires ValidFrame(p, g.blank) && q in nodes
    requires exact ==> Covered(nodes0, nodes, paths, done, g)
    requires nodes[q].bCur == BlankIn(nodes, done, p, g.blank, q)
    ensures Collected(nodes0, nodes[q], p, g.blank, q, exact)
  {
    hide LiveChild, Permits;
    assert Prob(p, g.blank) >= 0.0;
    MulMonotone(Prob(p, g.blank), 0.0, OldB(nodes0, q) + OldNb(nodes0, q));
  }

  lemma CollectLabel(nodes0: map<NodeId, Node>, paths0: map<NodeId, seq<nat>>, nodes: map<NodeId, Node>,
                     paths: map<NodeId, seq<nat>>,
                     done: set<Pair>, p: Frame, g: Setting, q: NodeId, f: real, exact: bool)
    requires Scored(nodes0) && Kept(nodes0, paths0, nodes, paths) && DoneOld(nodes0, done, g.blank)
    requires ValidFrame(p, g.blank) && q in nodes && q != ROOT_ID && nodes[q].character < g.blank
             && nodes[q].parent in nodes
    requires f == ExtendFactor(g.scorer, paths[nodes[q].parent], nodes[q].character) && f >= 0.0
    requires exact ==> Covered(nodes0, nodes, paths, done, g)
    requires nodes[q].nbCur == RepeatIn(nodes, done, p, g.blank, q)
             + ExtendIn(nodes, paths, done, p, g.blank, g.scorer, q)
    ensures CollectedLabel(nodes0, nodes[q], p, q, nodes[q].character == nodes[nodes[q].parent].character, f, exact)
  {
    hide LiveChild, Permits, ExtendFactor;
    var c, s := nodes[q].character, nodes[q].parent;
    var k := Prob(p, c);
    assert k >= 0.0;
    hide Prob;
    RepeatPart(nodes0, paths0, nodes, paths, done, p, g, q, exact);
    ExtendPart(nodes0, paths0, nodes, paths, done, p, g, q, f, exact);
  }

  lemma RepeatPart(nodes0: map<NodeId, Node>, paths0: map<NodeId, seq<nat>>, nodes: map<NodeId, Node>,
                   paths: map<NodeId, seq<nat>>,
                   done: set<Pair>, p: Frame, g: Setting, q: NodeId, exact: bool)
    requires Scored(nodes0) && Kept(nodes0, paths0, nodes, paths) && DoneOld(nodes0, done, g.blank)
    requires q in nodes && nodes[q].character < g.blank && Prob(p, nodes[q].character) >= 0.0
    requires exact ==> Covered(nodes0, nodes, paths, done, g)
    ensures var full := Prob(p, nodes[q].character) * OldNb(nodes0, q);
            var part := RepeatIn(nodes, done, p, g.blank, q);
            0.0 <= part <= full && (exact ==> part == full)
  {
    hide LiveChild, Permits, Prob;
    MulMonotone(Prob(p, nodes[q].character), 0.0, OldNb(nodes0, q));
    if exact && (nodes[q].character, q) !in done { assert OldNb(nodes0, q) == 0.0; }
  }

  lemma ExtendPart(nodes0: map<NodeId, Node>, paths0: map<NodeId, seq<nat>>, nodes: map<NodeId, Node>,
                   paths: map<NodeId, seq<nat>>,
                   done: set<Pair>, p: Frame, g: Setting, q: NodeId, f: real, exact: bool)
    requires Scored(nodes0) && Kept(nodes0, paths0, nodes, paths) && DoneOld(nodes0, done, g.blank)
    requires q in nodes && q != ROOT_ID && nodes[q].character < g.blank && nodes[q].parent in nodes
             && Prob(p, nodes[q].character) >= 0.0
    requires f == ExtendFactor(g.scorer, paths[nodes[q].parent], nodes[q].character) && f >= 0.0
    requires exact ==> Covered(nodes0, nodes, paths, done, g)
    ensures var full := Prob(p, nodes[q].character) * OldBase(nodes0, nodes[q].parent,
            nodes[q].character == nodes[nodes[q].parent].character) * f;
            var part := ExtendIn(nodes, paths, done, p, g.blank, g.scorer, q);
            0.0 <= part <= full && (exact ==> part == full)
  {
    hide LiveChild, Permits, ExtendFactor, Prob;
    var c, s := nodes[q].character, nodes[q].parent;
    var same := c == nodes[s].character;
    MulMonotone(Prob(p, c), 0.0, OldBase(nodes0, s, same));
    MulMonotone(f, 0.0, Prob(p, c) * OldBase(nodes0, s, same));
    if (c, s) in done {
      assert Base(nodes[s], c) == OldBase(nodes0, s, same);
    } else if exact {
      assert OldBase(nodes0, s, same) == 0.0;
    }
  }

  // ----- masses before the frame

  ghost predicate Absent(nodes: map<NodeId, Node>, paths: map<NodeId, seq<nat>>, path: seq<nat>) {
    forall q | q in nodes && nodes[q].live && q in paths :: paths[q] != path
  }

  /** Live prefixes have at most the masses they stand for. */
  ghost predicate Bounded(nodes: map<NodeId, Node>, paths: map<NodeId, seq<nat>>, fr: seq<Frame>, g: Setting) {
    forall q | q in nodes && nodes[q].live && q in paths ::
      0.0 <= nodes[q].bPrev <= Ideal(fr, g, paths[q], true) && 0.0 <= nodes[q].nbPrev <= Ideal(fr, g, paths[q], false)
  }

  /** Live prefixes have exactly those masses, and every other permitted label sequence has none. */
  ghost predicate Exact(nodes: map<NodeId, Node>, paths: map<NodeId, seq<nat>>, fr: seq<Frame>, g: Setting) {
    && (forall q | q in nodes && nodes[q].live && q in paths ::
         nodes[q].bPrev == Ideal(fr, g, paths[q], true) && nodes[q].nbPrev == Ideal(fr, g, paths[q], false))
    && (forall path: seq<nat> {:trigger Absent(nodes, paths, path)} | Absent(nodes, paths, path)
      && Permits(g.dict, path) ::
         Ideal(fr, g, path, true) == 0.0 && Ideal(fr, g, path, false) == 0.0)
  }

  ghost predicate OldMassIs(nodes0: map<NodeId, Node>, fr: seq<Frame>, g: Setting, q: NodeId, path: seq<nat>,
                            exact: bool) {
    && 0.0 <= OldB(nodes0, q) <= Ideal(fr, g, path, true)
    && 0.0 <= OldNb(nodes0, q) <= Ideal(fr, g, path, false)
    && (exact ==> OldB(nodes0, q) == Ideal(fr, g, path, true) && OldNb(nodes0, q) == Ideal(fr, g, path, false))
  }

  lemma OldMass(nodes0: map<NodeId, Node>, paths0: map<NodeId, seq<nat>>, nodes: map<NodeId, Node>,
                paths: map<NodeId, seq<nat>>,
                fr: seq<Frame>, g: Setting, q: NodeId, exact: bool)
    requires Kept(nodes0, paths0, nodes, paths) && OnePerPath(paths) && q in nodes && ValidFrames(fr, g.blank)
             && ValidScorer(g.scorer)
    requires Permits(g.dict, paths[q])
    requires Bounded(nodes0, paths0, fr, g) && (exact ==> Exact(nodes0, paths0, fr, g))
    ensures OldMassIs(nodes0, fr, g, q, paths[q], exact)
  {
    hide Ideal;
    IdealNonNegative(fr, g, paths[q], true);
    IdealNonNegative(fr, g, paths[q], false);
    if !(q in nodes0 && nodes0[q].live) && exact {
      assert Absent(nodes0, paths0, paths[q]);
    }
  }

  // ----- one frame

  ghost predicate CurIs(v: Node, path: seq<nat>, fr: seq<Frame>, g: Setting, exact: bool) {
    && 0.0 <= v.bCur <= Ideal(fr, g, path, true)
    && 0.0 <= v.nbCur <= Ideal(fr, g, path, false)
    && (exact ==> v.bCur == Ideal(fr, g, path, true) && v.nbCur == Ideal(fr, g, path, false))
  }

  lemma BlankAfter(nodes0: map<NodeId, Node>, v: Node, path: seq<nat>, fr: seq<Frame>, p: Frame, g: Setting, q: NodeId,
                   exact: bool)
    requires ValidFrame(p, g.blank) && OldMassIs(nodes0, fr, g, q, path, exact)
             && Collected(nodes0, v, p, g.blank, q, exact)
    ensures 0.0 <= v.bCur <= Ideal(fr + [p], g, path, true)
    ensures exact ==> v.bCur == Ideal(fr + [p], g, path, true)
  {
    hide Ideal, OldB, OldNb;
    IdealBlankStep(fr, p, g, path);
    MulMonotone(Prob(p, g.blank), OldB(nodes0, q) + OldNb(nodes0, q),
      Ideal(fr, g, path, true) + Ideal(fr, g, path, false));
  }

  lemma LabelAfter(nodes0: map<NodeId, Node>, v: Node, base: seq<nat>, same: bool, fr: seq<Frame>, p: Frame, g: Setting,
                   q: NodeId,
                   f: real, exact: bool)
    requires ValidFrame(p, g.blank) && v.character < g.blank
    requires f == ExtendFactor(g.scorer, base, v.character) && f >= 0.0
    requires OldMassIs(nodes0, fr, g, q, base + [v.character], exact) && OldMassIs(nodes0, fr, g, v.parent, base, exact)
    requires CollectedLabel(nodes0, v, p, q, same, f, exact)
    requires same <==> base != [] && base[|base| - 1] == v.character
    ensures 0.0 <= v.nbCur <= Ideal(fr + [p], g, base + [v.character], false)
    ensures exact ==> v.nbCur == Ideal(fr + [p], g, base + [v.character], false)
  {
    assert Prob(p, v.character) >= 0.0;
    hide Ideal, OldB, OldNb, ExtendFactor, Prob, LabelSum;
    var c, s := v.character, v.parent;
    IdealLabelStep(fr, p, g, base, c);
    LabelBound(v.nbCur, Prob(p, c), f, OldNb(nodes0, q), Ideal(fr, g, base + [c], false), OldBase(nodes0, s, same),
               Ideal(fr, g, base, true) + (if same then 0.0 else Ideal(fr, g, base, false)), exact);
  }

  lemma LabelBound(nb: real, k: real, f: real, x: real, x': real, y: real, y': real, exact: bool)
    requires k >= 0.0 && f >= 0.0 && x <= x' && y <= y' && nb <= LabelSum(k, x, y, f)
    requires exact ==> x == x' && y == y' && nb == LabelSum(k, x, y, f)
    ensures nb <= LabelSum(k, x', y', f)
    ensures exact ==> nb == LabelSum(k, x', y', f)
  {
    MulMonotone(k, x, x');
    MulMonotone(k, y, y');
    MulMonotone(f, k * y, k * y');
  }

  /** A node whose character is not a label collects nothing on its label side. */
  lemma NoLabelAfter(nodes0: map<NodeId, Node>, nodes: map<NodeId, Node>, paths: map<NodeId, seq<nat>>, done: set<Pair>,
                     p: Frame, g: Setting, q: NodeId)
    requires DoneOld(nodes0, done, g.blank) && ValidFrame(p, g.blank) && q in nodes && paths.Keys == nodes.Keys
    requires nodes[q].character >= g.blank
    requires nodes[q].nbCur == RepeatIn(nodes, done, p, g.blank, q)
             + ExtendIn(nodes, paths, done, p, g.blank, g.scorer, q)
    ensures nodes[q].nbCur == 0.0
  {
  }

  /** Every node after the frame: at most the mass it stands for, and exactly that if the frame was covered. */
  lemma StepNode(nodes0: map<NodeId, Node>, paths0: map<NodeId, seq<nat>>, nodes: map<NodeId, Node>,
                 paths: map<NodeId, seq<nat>>, next: NodeId,
                 done: set<Pair>, fr: seq<Frame>, p: Frame, g: Setting, q: NodeId, exact: bool)
    requires Scored(nodes0) && Kept(nodes0, paths0, nodes, paths) && DoneOld(nodes0, done, g.blank)
             && Wf(nodes, paths, next)
    requires ValidFrames(fr, g.blank) && ValidFrame(p, g.blank) && g.blank < ROOT && ValidScorer(g.scorer)
    requires StatesOk(g.dict, nodes, paths)
    requires Bounded(nodes0, paths0, fr, g)
             && (exact ==> Exact(nodes0, paths0, fr, g) && Covered(nodes0, nodes, paths, done, g))
    requires q in nodes && AccumAt(nodes, paths, done, done, p, g.blank, g.scorer, q)
    ensures CurIs(nodes[q], paths[q], fr + [p], g, exact)
  {
    hide Ideal, Scored, Kept, DoneOld, UpOk, DownOk, Bounded, Exact, Covered, BlankIn, RepeatIn, ExtendIn, ExtendDone;
    hide Collected, CollectedLabel, OldMassIs, OnePerPath, ValidFrame, ValidFrames, ValidScorer, Permits, StatesOk,
      ExtendFactor;
    HeldIsPermitted(g.dict, nodes, paths, q);
    CollectBlank(nodes0, paths0, nodes, paths, done, p, g, q, exact);
    OldMass(nodes0, paths0, nodes, paths, fr, g, q, exact);
    BlankAfter(nodes0, nodes[q], paths[q], fr, p, g, q, exact);
    Links(nodes, paths, next, q);
    var c := nodes[q].character;
    if q == ROOT_ID || c >= g.blank {
      NoLabelAfter(nodes0, nodes, paths, done, p, g, q);
      IdealLabelZero(fr, p, g, paths[q]);
    } else {
      var s := nodes[q].parent;
      var f := ExtendFactor(g.scorer, paths[s], c);
      FactorNonNegative(g.scorer, paths[s], c);
      CollectLabel(nodes0, paths0, nodes, paths, done, p, g, q, f, exact);
      HeldIsPermitted(g.dict, nodes, paths, s);
      OldMass(nodes0, paths0, nodes, paths, fr, g, s, exact);
      Links(nodes, paths, next, s);
      LabelAfter(nodes0, nodes[q], paths[s], c == nodes[s].character, fr, p, g, q, f, exact);
    }
  }

  /** The trie only holds permitted label sequences. */
  lemma HeldIsPermitted(dict: Option<Dictionary>, nodes: map<NodeId, Node>, paths: map<NodeId, seq<nat>>, q: NodeId)
    requires StatesOk(dict, nodes, paths) && q in nodes && q in paths
    ensures Permits(dict, paths[q])
  {
    if dict.Some? { assert StateOk(dict.value, paths[q], nodes[q].dictState); }
  }

  /** A permitted label sequence without a live node after a covered frame has no mass. */
  lemma StepAbsent(nodes0: map<NodeId, Node>, paths0: map<NodeId, seq<nat>>, nodes: map<NodeId, Node>,
                   paths: map<NodeId, seq<nat>>, next: NodeId,
                   done: set<Pair>, fr: seq<Frame>, p: Frame, g: Setting, path: seq<nat>)
    requires Scored(nodes0) && Kept(nodes0, paths0, nodes, paths) && Wf(nodes, paths, next)
    requires Exact(nodes0, paths0, fr, g) && Covered(nodes0, nodes, paths, done, g)
    requires Absent(nodes, paths, path) && Permits(g.dict, path)
    ensures Ideal(fr + [p], g, path, true) == 0.0 && Ideal(fr + [p], g, path, false) == 0.0
  {
    hide Ideal, UpOk, DownOk, Covered, LiveChild, OnePerPath, Permits;
    assert Absent(nodes0, paths0, path);
    IdealBlankStep(fr, p, g, path);
    if path == [] || path[|path| - 1] >= g.blank {
      IdealLabelZero(fr, p, g, path);
    } else {
      var base, c := path[..|path| - 1], path[|path| - 1];
      assert path == base + [c];
      PermitsFront(g.dict, base, c);
      IdealLabelStep(fr, p, g, base, c);
      if !Absent(nodes0, paths0, base) {
        var s :| s in nodes0 && nodes0[s].live && s in paths0 && paths0[s] == base;
        if nodes0[s].score > 0.0 { AbsentChild(nodes0, nodes, paths, next, done, g, s, c); }
      }
    }
  }

  lemma AbsentChild(nodes0: map<NodeId, Node>, nodes: map<NodeId, Node>, paths: map<NodeId, seq<nat>>, next: NodeId,
                    done: set<Pair>,
                    g: Setting, s: NodeId, c: nat)
    requires Wf(nodes, paths, next) && Covered(nodes0, nodes, paths, done, g) && s in nodes
             && Permits(g.dict, paths[s] + [c])
    requires s in nodes0 && nodes0[s].live && nodes0[s].score > 0.0 && c < g.blank
    ensures !Absent(nodes, paths, paths[s] + [c])
  {
    hide UpOk, DownOk, OnePerPath;
    assert LiveChild(nodes, s, c);
    var q :| q in nodes && q != ROOT_ID && nodes[q].parent == s && nodes[q].character == c && nodes[q].live;
    Links(nodes, paths, next, q);
  }

  /** The end of the frame: the bound carries over, and with a covered frame the equality does. */
  lemma FrameMasses(nodes0: map<NodeId, Node>, paths0: map<NodeId, seq<nat>>, nodes: map<NodeId, Node>,
                    paths: map<NodeId, seq<nat>>, next: NodeId,
                    nodes': map<NodeId, Node>, hist: seq<seq<nat>>, on: set<NodeId>,
                    done: set<Pair>, fr: seq<Frame>, p: Frame, g: Setting, exact: bool)
    requires Scored(nodes0) && Kept(nodes0, paths0, nodes, paths) && DoneOld(nodes0, done, g.blank)
             && Wf(nodes, paths, next)
    requires ValidFrames(fr, g.blank) && ValidFrame(p, g.blank) && g.blank < ROOT && ValidScorer(g.scorer)
    requires Bounded(nodes0, paths0, fr, g)
             && (exact ==> Exact(nodes0, paths0, fr, g) && Covered(nodes0, nodes, paths, done, g))
    requires Accum(nodes, paths, done, done, p, g.blank, g.scorer) && StatesOk(g.dict, nodes, paths)
    requires CommittedOn(nodes, nodes', hist, on) && forall q | q in nodes :: q in on
    ensures Bounded(nodes', paths, fr + [p], g)
    ensures exact ==> Exact(nodes', paths, fr + [p], g)
  {
    hide Ideal, Scored, Kept, DoneOld, Wf, Covered, AccumAt, StatesOk, Permits, ValidScorer;
    forall q | q in nodes ensures CurIs(nodes[q], paths[q], fr + [p], g, exact) {
      assert AccumAt(nodes, paths, done, done, p, g.blank, g.scorer, q);
      StepNode(nodes0, paths0, nodes, paths, next, done, fr, p, g, q, exact);
    }
    if exact {
      forall path: seq<nat> | Absent(nodes', paths, path) && Permits(g.dict, path)
        ensures Ideal(fr + [p], g, path, true) == 0.0 && Ideal(fr + [p], g, path, false) == 0.0
      {
        assert Absent(nodes, paths, path);
        StepAbsent(nodes0, paths0, nodes, paths, next, done, fr, p, g, path);
      }
    }
  }

  lemma PrunedBounded(nodes: map<NodeId, Node>, paths: map<NodeId, seq<nat>>, nodes': map<NodeId, Node>,
                      paths': map<NodeId, seq<nat>>,
                      gone: set<NodeId>, fr: seq<Frame>, g: Setting)
    requires Bounded(nodes, paths, fr, g) && Pruned(nodes, nodes', gone) && SubMap(paths, paths')
    ensures Bounded(nodes', paths', fr, g)
  {
    hide Ideal;
  }

  /** Before any frame: the root alone, with mass one. */
  lemma InitiallyExact(nodes: map<NodeId, Node>, paths: map<NodeId, seq<nat>>, g: Setting)
    requires nodes.Keys == {ROOT_ID} && paths == map[ROOT_ID := []]
    requires nodes[ROOT_ID].live && nodes[ROOT_ID].bPrev == 1.0 && nodes[ROOT_ID].nbPrev == 0.0
    ensures Bounded(nodes, paths, [], g) && Exact(nodes, paths, [], g)
  {
    hide Ideal;
    IdealInitially(g, [], true);
    IdealInitially(g, [], false);
    forall path: seq<nat> | Absent(nodes, paths, path) && Permits(g.dict, path)
      ensures Ideal([], g, path, true) == 0.0 && Ideal([], g, path, false) == 0.0
    {
      assert paths[ROOT_ID] != path;
      IdealInitially(g, path, true);
      IdealInitially(g, path, false);
    }
  }
}
