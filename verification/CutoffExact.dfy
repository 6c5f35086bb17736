/** Exactly which scorers skip only what is worth less than what the beam keeps. */
module CutoffExact {
  import opened Basics
  import opened PathTrie
  import opened TrieOps
  import opened Ctc
  import opened Beam
  import opened BeamCtc
  import opened BeamGrowth
  import opened BeamTime
  import opened FrameSteps
  import opened FrameEnd
  import opened Selection
  import opened Hypotheses
  import opened BeamShown
  import opened Decoder
  import opened CutoffRule

  /** The extension of `s` by `c` is worth less than what every prefix of the beam keeps by the blank alone. */
  ghost predicate WorthLess(h: Hyps, a: Pass, s: seq<nat>, c: nat) {
    s in h && forall k | k in h :: Offer(h, a, s, c) < Prob(a.p, a.g.blank) * Score(h[k])
  }

  ghost predicate SkipsAreSafe(sc: Scorer, blank: nat) {
    forall cfg: Config, h: Hyps, a: Pass, prob: seq<real>, s: seq<nat>, c: nat ::
      SkipsLabel(sc, blank, cfg, h, a, prob, s, c) ==> WorthLess(h, a, s, c)
  }

  /** In a frame of a sound decoder the offered label `c` is skipped for `s`. */
  ghost predicate SkipsLabel(sc: Scorer, blank: nat, cfg: Config, h: Hyps, a: Pass, prob: seq<real>, s: seq<nat>,
                             c: nat) {
    && FullFrame(cfg, h, a, prob) && cfg.scorer == Some(sc) && cfg.blank == blank
    && c in a.kept && c < blank && Skipped(h, a, s, c)
  }

  /** Over all frames of sound decoders: every skipped extension is worth less than what the beam keeps, if and only if
      the scorer is fair. */
  lemma SafeIffFair(sc: Scorer, blank: nat)
    requires ValidScorer(Some(sc)) && blank < ROOT
    ensures SkipsAreSafe(sc, blank) <==> Fair(sc, blank)
  {
    hide SkipsLabel, WorthLess, ExtendFactor, AtLeastOne, AreLabels, ValidScorer;
    if Fair(sc, blank) {
      forall cfg: Config, h: Hyps, a: Pass, prob: seq<real>, s: seq<nat>, c: nat
        | SkipsLabel(sc, blank, cfg, h, a, prob, s, c)
        ensures WorthLess(h, a, s, c)
      {
        SkipIsSafe(sc, blank, cfg, h, a, prob, s, c);
      }
    } else {
      var path: seq<nat>, c: nat :| AreLabels(path, blank) && c < blank
        && ExtendFactor(Some(sc), path, c) > AtLeastOne(sc.beta) * (1.0 + NUM_FLT_MIN);
      var cfg, h, a, prob := LossyFrame(sc, blank, path, c);
    }
  }

  lemma SkipIsSafe(sc: Scorer, blank: nat, cfg: Config, h: Hyps, a: Pass, prob: seq<real>, s: seq<nat>, c: nat)
    requires SkipsLabel(sc, blank, cfg, h, a, prob, s, c) && Fair(sc, blank)
    ensures WorthLess(h, a, s, c)
  {
    hide FullFrame, FullBeam, Fair, Offer, Prob, Score;
    FrameHasFullBeam(cfg, h, a, prob);
    forall k | k in h ensures Offer(h, a, s, c) < Prob(a.p, a.g.blank) * Score(h[k]) {
      SkippedIsWorthLess(h, a, prob, s, c, k);
    }
  }

  // ----- a decoder that holds two prefixes

  /** The trie of `path`, with nodes `n` and |path| live: their scores are `x` and `y`, on the blank side, and their
      timesteps count up from 0. */
  function ChainNode(path: seq<nat>, n: nat, x: real, y: real, k: nat): Node
    requires n < |path| && k <= |path|
  {
    var live := k == n || k == |path|;
    var mass := if k == n then x else if k == |path| then y else 0.0;
    Node(if k == 0 then ROOT else path[k - 1], if k == 0 then ROOT_ID else k - 1,
         if k < |path| then [(path[k], k + 1)] else [], live,
         mass, 0.0, 0.0, 0.0, mass, if live then Some(k) else None, None, 0, 0)
  }

  function ChainNodes(path: seq<nat>, n: nat, x: real, y: real): map<NodeId, Node>
    requires n < |path|
  {
    map k: nat | 0 <= k <= |path| :: ChainNode(path, n, x, y, k)
  }

  function ChainPaths(path: seq<nat>): map<NodeId, seq<nat>> {
    map k: nat | 0 <= k <= |path| :: path[..k]
  }

  function UpTo(k: nat): seq<nat> {
    seq(k, i => i)
  }

  function ChainHist(n: nat): seq<seq<nat>> {
    seq(n + 1, k requires k >= 0 => UpTo(k))
  }

  function ChainTree(n: nat): seq<TsNode> {
    seq(n + 1, k requires k >= 0 => TsNode(if k == 0 then 0 else k - 1, if k == 0 then 0 else k - 1,
      if k < n then [k + 1] else []))
  }

  function ChainView(path: seq<nat>, n: nat, x: real, y: real): View
    requires n < |path|
  {
    View(ChainNodes(path, n, x, y), ChainPaths(path), |path| + 1, ChainHist(|path|))
  }

  lemma ChainUp(path: seq<nat>, n: nat, x: real, y: real, k: nat)
    requires AreLabels(path, ROOT) && n < |path| && 0 < k <= |path|
    ensures LinkedUp(ChainNodes(path, n, x, y), ChainPaths(path), k)
  {
    assert path[k - 1] in path;
    assert path[..k] == path[..k - 1] + [path[k - 1]];
    assert ChainNodes(path, n, x, y)[k - 1].children == [(path[k - 1], k)];
  }

  lemma ChainDown(path: seq<nat>, n: nat, x: real, y: real)
    requires n < |path|
    ensures DownOk(ChainNodes(path, n, x, y))
  {
    var nodes := ChainNodes(path, n, x, y);
    forall k, e | k in nodes && e in nodes[k].children ensures LinkedDown(nodes, k, e) { assert e == (path[k], k + 1); }
  }

  lemma ChainIsTrie(path: seq<nat>, n: nat, x: real, y: real)
    requires AreLabels(path, ROOT) && n < |path|
    ensures Wf(ChainNodes(path, n, x, y), ChainPaths(path), |path| + 1)
  {
    hide LinkedUp, AreLabels, DownOk;
    var nodes, paths := ChainNodes(path, n, x, y), ChainPaths(path);
    assert paths.Keys == nodes.Keys;
    forall k | k in nodes && k != ROOT_ID ensures LinkedUp(nodes, paths, k) { ChainUp(path, n, x, y, k); }
    ChainDown(path, n, x, y);
    forall k, l | k in paths && l in paths && paths[k] == paths[l] ensures k == l {
      assert |path[..k]| == k && |path[..l]| == l;
    }
  }

  lemma ChainTimes(path: seq<nat>, n: nat, x: real, y: real, t: nat)
    requires n < |path| <= t
    ensures TsInv(ChainNodes(path, n, x, y), ChainPaths(path), ChainHist(|path|), t)
  {
    var nodes, paths, hist := ChainNodes(path, n, x, y), ChainPaths(path), ChainHist(|path|);
    forall k | k in nodes ensures TsAt(nodes[k], |paths[k]|, hist, t) { }
  }

  lemma ChainTreeOk(n: nat)
    ensures TsOk(ChainTree(n), ChainHist(n))
  {
    var tree, hist := ChainTree(n), ChainHist(n);
    forall k | 0 < k < |tree| ensures tree[k].parent < k && hist[k] == hist[tree[k].parent] + [tree[k].data] {
      assert UpTo(k) == UpTo(k - 1) + [k - 1];
    }
    forall k, l | 0 <= k < |tree| && l in tree[k].children ensures TrieOps.ChildOf(tree, k, l) { }
  }

  lemma ChainRests(path: seq<nat>, n: nat, x: real, y: real, t: nat)
    requires AreLabels(path, ROOT) && n < |path| <= t && x >= 0.0 && y >= 0.0
    ensures Rested(None, ChainView(path, n, x, y), [n, |path|], t)
  {
    hide Wf, TsInv;
    ChainIsTrie(path, n, x, y);
    ChainTimes(path, n, x, y, t);
  }

  function TwoHyps(path: seq<nat>, n: nat, x: real, y: real): Hyps
    requires n < |path|
  {
    map[path[..n] := Hyp(x, 0.0, if x > 0.0 then UpTo(n) else [])]
       [path := Hyp(y, 0.0, if y > 0.0 then UpTo(|path|) else [])]
  }

  lemma ChainShows(path: seq<nat>, n: nat, x: real, y: real)
    requires n < |path|
    ensures Shows(ChainNodes(path, n, x, y), ChainPaths(path), ChainHist(|path|), TwoHyps(path, n, x, y))
  {
    var nodes, paths := ChainNodes(path, n, x, y), ChainPaths(path);
    assert path[..|path|] == path && path[..n] != path;
    assert paths[n] == path[..n] && paths[|path|] == path;
  }

  lemma ChainSpelled(path: seq<nat>, blank: nat)
    requires AreLabels(path, blank) && blank < ROOT
    ensures AreLabels(path, ROOT) && Spelled(ChainPaths(path), blank)
  {
    forall k | k in ChainPaths(path) ensures AreLabels(path[..k], blank) {
      forall l | l in path[..k] ensures l < blank { assert l in path; }
    }
  }

  // ----- frames after which two prefixes can have mass

  /** A frame that gives every class the same probability, and its repetition. */
  function Even(blank: nat): Frame {
    Floored(seq(blank + 1, i => 1.0 / (blank + 1) as real))
  }

  function Repeated(p: Frame, n: nat): seq<Frame> {
    seq(n, i => p)
  }

  lemma EvenIs(blank: nat)
    ensures ValidFrame(Even(blank), blank) && forall c | 0 <= c <= blank :: Prob(Even(blank), c) > 0.0
  {
    assert 1.0 / (blank + 1) as real >= 0.0;
    FlooredValid(seq(blank + 1, i => 1.0 / (blank + 1) as real), blank);
  }

  lemma RepeatedMore(p: Frame, n: nat)
    ensures Repeated(p, n + 1) == Repeated(p, n) + [p]
  {
  }

  lemma RepeatedValid(p: Frame, n: nat, blank: nat)
    requires ValidFrame(p, blank)
    ensures ValidFrames(Repeated(p, n), blank) && |Repeated(p, n)| == n
  {
  }

  /** Two frames for every label are enough to give a sequence mass on its blank side. */
  lemma {:induction false} PositiveMass(p: Frame, blank: nat, q: seq<nat>, n: nat)
    requires ValidFrame(p, blank) && (forall c | 0 <= c <= blank :: Prob(p, c) > 0.0) && AreLabels(q, blank)
             && n >= 2 * |q|
    ensures Mass(Repeated(p, n), blank, q, true) > 0.0
    decreases |q|, n
  {
    hide Mass, Prob;
    if n > 2 * |q| {
      PositiveMass(p, blank, q, n - 1);
      BlankKeeps(p, blank, q, n - 1);
    } else if q == [] {
      assert Repeated(p, 0) == [];
      MassInitially(blank, [], true);
    } else {
      var front, l := q[..|q| - 1], q[|q| - 1];
      assert q == front + [l] && l in q;
      forall k | k in front ensures k < blank { assert k in q; }
      PositiveMass(p, blank, front, n - 2);
      LabelAdds(p, blank, front, l, n - 2);
      BlankKeeps(p, blank, q, n - 1);
    }
  }

  lemma BlankKeeps(p: Frame, blank: nat, q: seq<nat>, n: nat)
    requires ValidFrame(p, blank) && Prob(p, blank) > 0.0
    requires Mass(Repeated(p, n), blank, q, true) > 0.0 || Mass(Repeated(p, n), blank, q, false) > 0.0
    ensures Mass(Repeated(p, n + 1), blank, q, true) > 0.0
  {
    hide Mass, Prob, ValidFrame, ValidFrames;
    var fr := Repeated(p, n);
    RepeatedValid(p, n, blank);
    RepeatedMore(p, n);
    MassBlankStep(fr, p, blank, q);
    MassNonNegative(fr, blank, q, true);
    MassNonNegative(fr, blank, q, false);
    ProductPositive(Mass(fr, blank, q, true) + Mass(fr, blank, q, false), Prob(p, blank));
  }

  lemma LabelAdds(p: Frame, blank: nat, q: seq<nat>, l: nat, n: nat)
    requires ValidFrame(p, blank) && l < blank && Prob(p, l) > 0.0 && Mass(Repeated(p, n), blank, q, true) > 0.0
    ensures Mass(Repeated(p, n + 1), blank, q + [l], false) > 0.0
  {
    hide Mass, Prob, ValidFrame, ValidFrames;
    var fr := Repeated(p, n);
    RepeatedValid(p, n, blank);
    RepeatedMore(p, n);
    MassLabelStep(fr, p, blank, q, l);
    MassNonNegative(fr, blank, q, false);
    MassNonNegative(fr, blank, q + [l], false);
    MulMonotone(Prob(p, l), 0.0, Mass(fr, blank, q + [l], false));
    ProductPositive(Mass(fr, blank, q, true) + (if q != [] && q[|q| - 1] == l then 0.0 else Mass(fr, blank, q, false)),
      Prob(p, l));
  }

  lemma PositiveIdeal(g: Setting, q: seq<nat>, n: nat)
    requires ValidScorer(g.scorer) && AreLabels(q, g.blank) && n >= 2 * |q|
    ensures Ideal(Repeated(Even(g.blank), n), g, q, true) > 0.0
  {
    hide Mass, Lm, ValidScorer, AreLabels, Even;
    EvenIs(g.blank);
    PositiveMass(Even(g.blank), g.blank, q, n);
    LmPositive(g.scorer, q);
    ProductPositive(Mass(Repeated(Even(g.blank), n), g.blank, q, true), Lm(g.scorer, q));
  }

  lemma {:induction false} LmPositive(sc: Option<Scorer>, path: seq<nat>)
    requires ValidScorer(sc)
    ensures Lm(sc, path) > 0.0
  {
    hide ExtendFactor, ValidScorer;
    if path != [] {
      var front, c := path[..|path| - 1], path[|path| - 1];
      LmPositive(sc, front);
      FactorPositive(sc, front, c);
      ProductPositive(Lm(sc, front), ExtendFactor(sc, front, c));
    }
  }

  lemma FactorPositive(sc: Option<Scorer>, path: seq<nat>, c: nat)
    requires ValidScorer(sc)
    ensures ExtendFactor(sc, path, c) > 0.0
  {
    if sc.Some? { ProductPositive(sc.value.lm(if sc.value.utf8 then path + [c] else path), sc.value.beta); }
  }

  // ----- the decoder is sound

  /** Two places, and all classes offered. */
  function TwoPlaces(sc: Scorer, blank: nat): Config {
    Config(blank, 2, 1.0, blank + 1, Some(sc))
  }

  lemma ChainBounded(g: Setting, fr: seq<Frame>, path: seq<nat>, n: nat, x: real, y: real)
    requires n < |path| && ValidFrames(fr, g.blank) && ValidScorer(g.scorer)
    requires 0.0 <= x <= Ideal(fr, g, path[..n], true) && 0.0 <= y <= Ideal(fr, g, path, true)
    ensures Bounded(ChainNodes(path, n, x, y), ChainPaths(path), fr, g)
  {
    hide Ideal, ValidFrames, ValidScorer;
    var nodes, paths := ChainNodes(path, n, x, y), ChainPaths(path);
    assert path[..|path|] == path;
    IdealNonNegative(fr, g, path[..n], false);
    IdealNonNegative(fr, g, path, false);
    forall k | k in nodes && nodes[k].live && k in paths
      ensures 0.0 <= nodes[k].bPrev <= Ideal(fr, g, paths[k], true)
      ensures 0.0 <= nodes[k].nbPrev <= Ideal(fr, g, paths[k], false)
    {
      assert k == n || k == |path|;
    }
  }

  lemma TwoFit(sc: Scorer, blank: nat, n: nat)
    requires blank >= 1 && n >= 1
    ensures BeamFits(2, TwoPlaces(sc, blank), n, true)
  {
    PowerGrows(blank + 1, 1, n);
    assert Power(blank + 1, 1) == Power(blank + 1, 0) * (blank + 1);
  }

  lemma TwoAreHeld(sc: Scorer, blank: nat, path: seq<nat>, n: nat, x: real, y: real)
    requires ValidScorer(Some(sc)) && blank < ROOT && AreLabels(path, blank) && n < |path| && x > 0.0 && y >= 0.0
    requires var fr, g := Repeated(Even(blank), 2 * |path|), Setting(blank, Some(sc), None);
             x <= Ideal(fr, g, path[..n], true) && y <= Ideal(fr, g, path, true)
    ensures Held(TwoPlaces(sc, blank), None, 2 * |path|, TwoHyps(path, n, x, y))
  {
    hide Rested, TsOk, Shows, ChainNodes, ChainHist, ChainTree, TsInv, Bounded, Ideal, Spelled, BeamFits, ValidScorer,
      ValidFrames, ValidFrame, Even, Repeated, Exact, Timely;
    var t, fr, h := 2 * |path|, Repeated(Even(blank), 2 * |path|), TwoHyps(path, n, x, y);
    ChainSpelled(path, blank);
    ChainRests(path, n, x, y, t);
    ChainTreeOk(|path|);
    ChainShows(path, n, x, y);
    EvenIs(blank);
    RepeatedValid(Even(blank), t, blank);
    ChainBounded(Setting(blank, Some(sc), None), fr, path, n, x, y);
    assert path[0] in path;
    TwoFit(sc, blank, t);
    assert path[..n] != path && path[..n] in h && Score(h[path[..n]]) > 0.0;
    assert Holds(TwoPlaces(sc, blank), None, h, ChainView(path, n, x, y), ChainTree(|path|), [n, |path|], fr, t, true);
  }

  // ----- a frame that loses an extension

  /** All probability on the blank. */
  function BlankOnly(blank: nat): seq<real> {
    seq(blank + 1, i => if i == blank then 1.0 else 0.0)
  }

  lemma {:induction false} BlankOnlyTotal(s: seq<real>)
    requires s != [] && s[|s| - 1] == 1.0 && forall i | 0 <= i < |s| - 1 :: s[i] == 0.0
    ensures Total(s) == 1.0
  {
    NothingTotal(s[..|s| - 1]);
  }

  lemma {:induction false} NothingTotal(s: seq<real>)
    requires forall i | 0 <= i < |s| :: s[i] == 0.0
    ensures Total(s) == 0.0
  {
    if s != [] { NothingTotal(s[..|s| - 1]); }
  }

  lemma Ratio(a: real, d: real) returns (r: real)
    requires d > 0.0
    ensures r * d == a
  {
    r := a / d;
  }

  lemma Cancel(a: real, b: real, k: real)
    requires k > 0.0 && a * k < b * k
    ensures a < b
  {
  }

  /** A second score between the cutoff and the worth of the extension. */
  lemma ChooseScore(f: real, m: real, eps: real) returns (r: real)
    requires m >= 1.0 && eps > 0.0 && m * eps < 1.0 && f > m * (1.0 + eps)
    ensures 0.0 < r <= 1.0 && eps * m < r && (1.0 + eps) * r <= eps * f
  {
    var most := Ratio(eps * f, 1.0 + eps);
    ProductPositive(eps, m);
    AboveCutoff(most, f, m, eps, 1.0 + eps);
    r := if most <= 1.0 then most else 1.0;
    if most > 1.0 { MulMonotone(1.0 + eps, 1.0, most); }
  }

  lemma AboveCutoff(most: real, f: real, m: real, eps: real, k: real)
    requires eps > 0.0 && k > 0.0 && most * k == eps * f && f > m * k
    ensures eps * m < most
  {
    ProductPositive(eps, f - m * k);
    Difference(eps, f, m * k);
    Regrouped(eps, m, k);
    Cancel(eps * m, most, k);
  }

  lemma Difference(a: real, b: real, c: real)
    ensures a * (b - c) == a * b - a * c
  {
  }

  lemma Regrouped(a: real, b: real, c: real)
    ensures a * (b * c) == (a * b) * c
  {
  }

  /** For every extension that is multiplied by more than a fair scorer may: a sound decoder with two prefixes and a
      probability distribution for which the break skips it though it is worth as much as the other prefix keeps. */
  lemma LossyFrame(sc: Scorer, blank: nat, path: seq<nat>, c: nat)
      returns (cfg: Config, h: Hyps, a: Pass, prob: seq<real>)
    requires ValidScorer(Some(sc)) && blank < ROOT && AreLabels(path, blank) && c < blank
    requires AtLeastOne(sc.beta) * NUM_FLT_MIN < 1.0
    requires ExtendFactor(Some(sc), path, c) > AtLeastOne(sc.beta) * (1.0 + NUM_FLT_MIN)
    ensures SkipsLabel(sc, blank, cfg, h, a, prob, path, c) && !WorthLess(h, a, path, c)
    ensures cfg == TwoPlaces(sc, blank) && a.g.dict.None? && Total(prob) == 1.0 && |h| == 2
  {
    hide ExtendFactor, ValidScorer, AreLabels, FullFrame, Skipped, WorthLess, Total, Ideal, Floored, AtLeastOne,
      CutoffOf;
    FloorPositive();
    LargestOne(sc.beta);
    var f, m := ExtendFactor(Some(sc), path, c), AtLeastOne(sc.beta);
    var r := ChooseScore(f, m, NUM_FLT_MIN);
    var x, y := ChooseMasses(sc, blank, path, c, r);
    cfg, prob := TwoPlaces(sc, blank), BlankOnly(blank);
    BlankOnlyTotal(prob);
    h := TwoHyps(path + [c, c], |path|, x, y);
    a := Pass(Setting(blank, Some(sc), None), Floored(prob), UpTo(blank + 1), true, CutoffOf(y, 1.0, sc.beta),
      InOrder(h, path, path + [c, c]), 2 * |path + [c, c]|);
    TwoFrame(sc, blank, path, c, x, y, a);
    TwoMasses(sc, blank, path, c, x, y, r, a);
    assert a.kept[c] == c;
  }

  /** Masses in the ratio `r`, small enough for both sequences. */
  lemma ChooseMasses(sc: Scorer, blank: nat, path: seq<nat>, c: nat, r: real) returns (x: real, y: real)
    requires ValidScorer(Some(sc)) && AreLabels(path, blank) && c < blank && 0.0 < r <= 1.0
    ensures x > 0.0 && y == x * r && 0.0 < y <= x
    ensures var q := path + [c, c];
            var fr, g := Repeated(Even(blank), 2 * |q|), Setting(blank, Some(sc), None);
            x <= Ideal(fr, g, q[..|path|], true) && y <= Ideal(fr, g, q, true)
  {
    hide ValidScorer, AreLabels, Ideal, Even, Repeated;
    var q := path + [c, c];
    var fr, g := Repeated(Even(blank), 2 * |q|), Setting(blank, Some(sc), None);
    LongerLabels(path, c, blank);
    assert q[..|path|] == path;
    PositiveIdeal(g, path, 2 * |q|);
    PositiveIdeal(g, q, 2 * |q|);
    var i, j := Ideal(fr, g, path, true), Ideal(fr, g, q, true);
    x := if i <= j then i else j;
    y := x * r;
    ProductPositive(x, r);
    MulMonotone(x, r, 1.0);
    assert x * 1.0 == x;
    assert y <= x <= j;
  }

  lemma LongerLabels(path: seq<nat>, c: nat, blank: nat)
    requires AreLabels(path, blank) && c < blank
    ensures AreLabels(path + [c, c], blank)
  {
  }

  lemma TwoKeys(path: seq<nat>, c: nat, x: real, y: real)
    ensures var q := path + [c, c]; var h := TwoHyps(q, |path|, x, y);
            && path != q && h.Keys == {path, q} && |h| == 2
            && h[path].b == x && h[q].b == y && h[path].nb == h[q].nb == 0.0
  {
    var q := path + [c, c];
    var h := TwoHyps(q, |path|, x, y);
    assert q[..|path|] == path && |path| != |q|;
    assert h.Keys == {path, q};
  }

  /** Two sequences in the order of prefix_compare. */
  ghost function InOrder(h: Hyps, q: seq<nat>, r: seq<nat>): seq<seq<nat>> {
    if q in h && r in h && Ahead(h, r, q) then [r, q] else [q, r]
  }

  lemma InOrderLists(h: Hyps, q: seq<nat>, r: seq<nat>)
    requires h.Keys == {q, r} && q != r
    ensures Lists(h, InOrder(h, q, r), true, false)
  {
  }

  lemma TwoFrame(sc: Scorer, blank: nat, path: seq<nat>, c: nat, x: real, y: real, a: Pass)
    requires ValidScorer(Some(sc)) && blank < ROOT && AreLabels(path, blank) && c < blank && 0.0 < y <= x
    requires var q := path + [c, c];
             var fr, g := Repeated(Even(blank), 2 * |q|), Setting(blank, Some(sc), None);
             x <= Ideal(fr, g, q[..|path|], true) && y <= Ideal(fr, g, q, true)
    requires a == Pass(Setting(blank, Some(sc), None), Floored(BlankOnly(blank)), UpTo(blank + 1), true,
             CutoffOf(y, 1.0, sc.beta), InOrder(TwoHyps(path + [c, c], |path|, x, y), path, path + [c, c]),
             2 * |path + [c, c]|)
    ensures FullFrame(TwoPlaces(sc, blank), TwoHyps(path + [c, c], |path|, x, y), a, BlankOnly(blank))
    ensures |TwoHyps(path + [c, c], |path|, x, y)| == 2
  {
    hide ValidScorer, AreLabels, Held, Floored, CutoffOf, TwoHyps, Ideal, Even, Repeated, Choice, InOrder, Lists;
    var q := path + [c, c];
    var h := TwoHyps(q, |path|, x, y);
    LongerLabels(path, c, blank);
    TwoAreHeld(sc, blank, q, |path|, x, y);
    TwoKeys(path, c, x, y);
    InOrderAreClasses(UpTo(blank + 1));
    AllIsChoice(BlankOnly(blank), 1.0, blank + 1, UpTo(blank + 1));
    InOrderLists(h, path, q);
    assert Lowest(h, q);
    assert a.min == CutoffAt(h, q, 1.0, sc.beta);
  }

  lemma TwoMasses(sc: Scorer, blank: nat, path: seq<nat>, c: nat, x: real, y: real, r: real, a: Pass)
    requires c < blank && x > 0.0 && y == x * r && a.g.scorer == Some(sc) && a.g.blank == blank
    requires a.full && a.p == Floored(BlankOnly(blank)) && a.min == CutoffOf(y, 1.0, sc.beta)
    requires var m := AtLeastOne(sc.beta); 0.0 < r && NUM_FLT_MIN * m < r
    requires (1.0 + NUM_FLT_MIN) * r <= NUM_FLT_MIN * ExtendFactor(Some(sc), path, c)
    ensures Skipped(TwoHyps(path + [c, c], |path|, x, y), a, path, c)
    ensures !WorthLess(TwoHyps(path + [c, c], |path|, x, y), a, path, c)
  {
    hide Floored, AtLeastOne, Prob, ExtendFactor, TwoHyps, Offer, CutoffOf;
    var q, eps, f := path + [c, c], NUM_FLT_MIN, ExtendFactor(Some(sc), path, c);
    var h := TwoHyps(q, |path|, x, y);
    FlooredValid(BlankOnly(blank), blank);
    TwoKeys(path, c, x, y);
    assert Prob(a.p, c) == eps && Prob(a.p, blank) == 1.0 + eps;
    ScaledCutoff(eps, x, r, sc.beta);
    assert Skipped(h, a, path, c);
    OfferIs(h, a, path, c, x, eps);
    ScaledWorth(eps, x, r, f);
    assert q in h && Score(h[q]) == y;
    assert Offer(h, a, path, c) == eps * x * f;
    assert !(Offer(h, a, path, c) < Prob(a.p, a.g.blank) * Score(h[q]));
  }

  lemma ScaledCutoff(eps: real, x: real, r: real, beta: real)
    requires x > 0.0 && eps * AtLeastOne(beta) < r
    ensures eps * x < CutoffOf(x * r, 1.0, beta)
  {
    hide AtLeastOne;
    var m := AtLeastOne(beta);
    LargestOne(beta);
    ProductPositive(x, r - eps * m);
    Difference(x, r, eps * m);
    Regrouped(x, eps, m);
    BelowRatio(x * eps, x * r, m);
    assert x * r * 1.0 == x * r;
  }

  lemma ScaledWorth(eps: real, x: real, r: real, f: real)
    requires x > 0.0 && (1.0 + eps) * r <= eps * f
    ensures (1.0 + eps) * (x * r) <= eps * x * f
  {
    MulMonotone(x, (1.0 + eps) * r, eps * f);
    Regrouped(1.0 + eps, r, x);
    Regrouped(eps, f, x);
    assert eps * x * f == (eps * f) * x;
  }

  lemma LargestOne(beta: real)
    ensures AtLeastOne(beta) >= 1.0
  {
  }

  lemma BelowRatio(a: real, b: real, m: real)
    requires m >= 1.0 && a * m < b
    ensures a < b / m
  {
    var d := Ratio(b, m);
    if d <= a { MulMonotone(m, d, a); assert false; }
    assert d == b / m;
  }

  lemma OfferIs(h: Hyps, a: Pass, path: seq<nat>, c: nat, x: real, p: real)
    requires path in h && h[path].b == x && h[path].nb == 0.0 && Prob(a.p, c) == p
    ensures Offer(h, a, path, c) == p * x * ExtendFactor(a.g.scorer, path, c)
  {
    hide Prob, ExtendFactor;
    assert BaseOf(h, path, c) == x;
  }
}
