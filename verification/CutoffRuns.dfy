/** Runs of a new decoder after which the break loses an extension. */
module CutoffRuns {
  import opened Basics
  import opened TrieOps
  import opened Ctc
  import opened Beam
  import opened BeamCtc
  import opened BeamGrowth
  import opened Selection
  import opened Hypotheses
  import opened Decoder
  import opened CutoffRule
  import opened CutoffExact

  /** A decoder with a scorer, one place, and all classes offered. */
  ghost predicate OnePlace(cfg: Config) {
    && ValidConfig(cfg) && cfg.scorer.Some? && cfg.beamSize == 1 && cfg.cutoffProb >= 1.0
    && 2.0 * AtLeastOne(cfg.scorer.value.beta) * NUM_FLT_MIN < 1.0
  }

  /** The beam holds `q` and nothing else. */
  ghost predicate Single(h: Hyps, q: seq<nat>) {
    h.Keys == {q} && h[q].b >= 0.0 && h[q].nb >= 0.0 && Score(h[q]) > 0.0
  }

  /** Its alignments all end in blank. */
  ghost predicate Alone(h: Hyps, q: seq<nat>) {
    Single(h, q) && h[q].nb == 0.0
  }

  // ----- frames of such a decoder

  lemma SinglePass(cfg: Config, prob: seq<real>, h: Hyps, q: seq<nat>, a: Pass)
    requires OnePlace(cfg) && Single(h, q) && IsPass(cfg, None, prob, a.t, h, a)
    ensures a.full && a.g == Setting(cfg.blank, cfg.scorer, None) && ValidPass(a) && NonNegative(h)
    ensures a.min == CutoffOf(Score(h[q]), prob[cfg.blank], cfg.scorer.value.beta)
    ensures forall c | c in a.kept :: c <= cfg.blank
    ensures forall c: nat | c <= cfg.blank :: c in a.kept && Prob(a.p, c) == prob[c] + NUM_FLT_MIN
  {
    hide CutoffOf, AtLeastOne, ValidScorer, Floored;
    assert |h.Keys| == 1;
    FlooredValid(prob, cfg.blank);
    PassIsValid(cfg, None, prob, a.t, h, a);
    var r :| Lowest(h, r) && a.min == CutoffAt(h, r, prob[cfg.blank], cfg.scorer.value.beta);
  }

  lemma FloorRoom(cfg: Config)
    requires OnePlace(cfg)
    ensures var m := AtLeastOne(cfg.scorer.value.beta); m >= 1.0 && NUM_FLT_MIN * m < 0.5 && NUM_FLT_MIN > 0.0
  {
    LargestOne(cfg.scorer.value.beta);
    FloorPositive();
  }

  /** What the sequence itself and its extensions collect in a frame. */
  lemma SingleMasses(h: Hyps, a: Pass, q: seq<nat>)
    requires Single(h, q) && a.g.dict.None? && a.g.blank in a.kept && !Skipped(h, a, q, a.g.blank)
    requires forall c | c in a.kept :: c <= a.g.blank
    ensures q in Candidates(h, a) && NewHyp(h, a, q).b == Prob(a.p, a.g.blank) * Score(h[q])
    ensures NewHyp(h, a, q).nb == 0.0 || (q != [] && !Skipped(h, a, q, Last(q)) && h[q].nb != 0.0)
    ensures forall r :: r in Candidates(h, a) <==>
              r == q || (r != [] && Front(r) == q && Last(r) < a.g.blank && Last(r) in a.kept
                && !Skipped(h, a, q, Last(r)))
    ensures forall r | r in Candidates(h, a) && r != q ::
              r != [] && Front(r) == q && Weighs(NewHyp(h, a, r), 0.0, Offer(h, a, q, Last(r)))
  {
    hide Candidates, Skipped, Offer, Prob;
    forall r ensures r in Candidates(h, a) <==>
      r == q || (r != [] && Front(r) == q && Last(r) < a.g.blank && Last(r) in a.kept && !Skipped(h, a, q, Last(r)))
    {
      CandidateIff(h, a, r);
    }
    if q != [] { assert |Front(q)| != |q|; }
    if h[q].nb == 0.0 { NoMassNoRepeat(h, a, q); }
  }

  lemma NoMassNoRepeat(h: Hyps, a: Pass, q: seq<nat>)
    requires q in h && h[q].nb == 0.0
    ensures Repeats(h, a, q) == 0.0
  {
    hide Skipped, Prob;
  }

  // ----- a frame of blank: the sequence stays

  lemma BlankFrame(cfg: Config, t: nat, h: Hyps, q: seq<nat>, h': Hyps)
    requires OnePlace(cfg) && Single(h, q) && Advances(cfg, None, BlankOnly(cfg.blank), t, h, h')
    ensures Alone(h', q)
  {
    hide ValidConfig, IsPass, Candidates, NewHyp, Skipped, BlankOnly, IsCut;
    var a :| IsPass(cfg, None, BlankOnly(cfg.blank), t, h, a) && Fitted(Expand(h, a), h', 1);
    PassIsAt(cfg, None, BlankOnly(cfg.blank), t, h, a);
    BlankSkips(cfg, h, q, a);
    BlankMasses(h, a, q);
    assert Expand(h, a).Keys == {q};
    assert |Expand(h, a)| == 1;
  }

  lemma BlankSkips(cfg: Config, h: Hyps, q: seq<nat>, a: Pass)
    requires OnePlace(cfg) && Single(h, q) && IsPass(cfg, None, BlankOnly(cfg.blank), a.t, h, a)
    ensures a.g.dict.None? && a.g.blank in a.kept && Prob(a.p, a.g.blank) > 0.0 && !Skipped(h, a, q, a.g.blank)
    ensures (forall c | c in a.kept :: c <= a.g.blank) && forall c: nat | c < a.g.blank :: Skipped(h, a, q, c)
  {
    hide AtLeastOne, CutoffOf, Prob, ValidConfig, IsPass;
    SinglePass(cfg, BlankOnly(cfg.blank), h, q, a);
    FloorRoom(cfg);
    var s, beta := Score(h[q]), cfg.scorer.value.beta;
    ScaledCutoff(NUM_FLT_MIN, s, 1.0, beta);
    assert s * 1.0 == s;
    NotBelow(s, 1.0, 1.0 + NUM_FLT_MIN, beta);
  }

  lemma NotBelow(s: real, pb: real, pf: real, beta: real)
    requires s > 0.0 && 0.0 <= pb <= pf
    ensures CutoffOf(s, pb, beta) <= pf * s
  {
    DividedProduct(s, s, pb, pf, AtLeastOne(beta));
  }

  lemma BlankMasses(h: Hyps, a: Pass, q: seq<nat>)
    requires Single(h, q) && a.g.dict.None? && a.g.blank in a.kept && Prob(a.p, a.g.blank) > 0.0
    requires !Skipped(h, a, q, a.g.blank) && forall c | c in a.kept :: c <= a.g.blank
    requires forall c: nat | c < a.g.blank :: Skipped(h, a, q, c)
    ensures forall r :: r in Candidates(h, a) <==> r == q
    ensures NewHyp(h, a, q).nb == 0.0 && NewHyp(h, a, q).b > 0.0
  {
    hide Candidates, Skipped, Prob;
    SingleMasses(h, a, q);
    ProductPositive(Prob(a.p, a.g.blank), Score(h[q]));
    if q != [] { assert |Front(q)| != |q|; }
  }

  // ----- a frame of one label: the extended sequence takes the place

  /** All probability on one class. */
  function Only(blank: nat, l: nat): seq<real> {
    seq(blank + 1, i => if i == l then 1.0 else 0.0)
  }

  /** The extension by `l` is not held back so much that a competitor at the probability floor is worth more. */
  ghost predicate Likely(sc: Option<Scorer>, blank: nat, q: seq<nat>, l: nat) {
    && (1.0 + NUM_FLT_MIN) * ExtendFactor(sc, q, l) > NUM_FLT_MIN
    && forall c: nat | c < blank && c != l ::
         (1.0 + NUM_FLT_MIN) * ExtendFactor(sc, q, l) > NUM_FLT_MIN * ExtendFactor(sc, q, c)
  }

  lemma LabelFrame(cfg: Config, t: nat, h: Hyps, q: seq<nat>, l: nat, h': Hyps)
    requires OnePlace(cfg) && Alone(h, q) && l < cfg.blank && Likely(cfg.scorer, cfg.blank, q, l)
    requires Advances(cfg, None, Only(cfg.blank, l), t, h, h')
    ensures Single(h', q + [l])
  {
    hide ValidConfig, IsPass, Candidates, NewHyp, Skipped, Alone, Likely, Only, IsCut;
    var a :| IsPass(cfg, None, Only(cfg.blank, l), t, h, a) && Fitted(Expand(h, a), h', 1);
    PassIsAt(cfg, None, Only(cfg.blank, l), t, h, a);
    var u, r := Expand(h, a), q + [l];
    LabelWins(cfg, h, q, l, a);
    TwoOrMore(u, q, r);
    WinnerStays(u, h', r);
  }

  lemma TwoOrMore(u: Hyps, q: seq<nat>, r: seq<nat>)
    requires q in u && r in u && q != r
    ensures |u| >= 2
  {
    var two: set<seq<nat>> := {q, r};
    assert |two| == 2;
    BeamShown.Subset(two, u.Keys);
  }

  lemma WinnerStays(u: Hyps, h': Hyps, r: seq<nat>)
    requires IsCut(u, h', 1) && r in u && forall p | p in u && p != r :: Score(u[r]) > Score(u[p])
    ensures h'.Keys == {r} && h'[r] == u[r]
  {
    SomeKey(h');
    if r !in h' {
      var p :| p in h';
      assert Ahead(u, r, p);
      assert false;
    }
    BeamShown.Subset({r}, h'.Keys);
    forall p | p in h' ensures p == r {
      if p != r {
        TwoOrMore(h', p, r);
        assert false;
      }
    }
  }

  /** Nothing is skipped, and the extension by `l` ends the frame above everything else. */
  lemma LabelWins(cfg: Config, h: Hyps, q: seq<nat>, l: nat, a: Pass)
    requires OnePlace(cfg) && Alone(h, q) && l < cfg.blank && Likely(cfg.scorer, cfg.blank, q, l)
    requires IsPass(cfg, None, Only(cfg.blank, l), a.t, h, a)
    ensures var u, r := Expand(h, a), q + [l];
            && q in u && r in u && q != r && (forall p | p in u && p != r :: Score(u[r]) > Score(u[p]))
            && u[r].b >= 0.0 && u[r].nb >= 0.0 && Score(u[r]) > 0.0
  {
    hide ValidConfig, IsPass, Candidates, NewHyp, Skipped, Likely, Offer, Prob, Only;
    var u, r := Expand(h, a), q + [l];
    assert Front(r) == q && Last(r) == l;
    NothingSkipped(cfg, h, q, l, a);
    SingleMasses(h, a, q);
    LabelOffers(cfg, h, q, l, a);
    forall p | p in u && p != r ensures Score(u[r]) > Score(u[p]) {
      if p != q {
        assert p == q + [Last(p)];
      }
    }
  }

  lemma NothingSkipped(cfg: Config, h: Hyps, q: seq<nat>, l: nat, a: Pass)
    requires OnePlace(cfg) && Single(h, q) && l < cfg.blank && IsPass(cfg, None, Only(cfg.blank, l), a.t, h, a)
    ensures a.g == Setting(cfg.blank, cfg.scorer, None) && forall c | c in a.kept :: c <= a.g.blank
    ensures forall c: nat | c <= a.g.blank :: c in a.kept && !Skipped(h, a, q, c)
    ensures forall c: nat | c <= a.g.blank :: Prob(a.p, c) == (if c == l then 1.0 else 0.0) + NUM_FLT_MIN
  {
    hide AtLeastOne, CutoffOf, Prob, ValidConfig, IsPass;
    SinglePass(cfg, Only(cfg.blank, l), h, q, a);
    FloorPositive();
    var s := Score(h[q]);
    NoCutoff(s, cfg.scorer.value.beta);
    forall c: nat | c <= a.g.blank ensures !Skipped(h, a, q, c) { MulMonotone(s, 0.0, Prob(a.p, c)); }
  }

  lemma NoCutoff(s: real, beta: real)
    ensures CutoffOf(s, 0.0, beta) == 0.0
  {
    LargestOne(beta);
    Zero(s, AtLeastOne(beta));
  }

  lemma Zero(s: real, m: real)
    requires m >= 1.0
    ensures s * 0.0 / m == 0.0
  {
  }

  lemma LabelOffers(cfg: Config, h: Hyps, q: seq<nat>, l: nat, a: Pass)
    requires Alone(h, q) && l < cfg.blank && a.g == Setting(cfg.blank, cfg.scorer, None)
    requires Likely(cfg.scorer, cfg.blank, q, l)
    requires forall c: nat | c <= cfg.blank :: Prob(a.p, c) == (if c == l then 1.0 else 0.0) + NUM_FLT_MIN
    ensures Offer(h, a, q, l) > Prob(a.p, cfg.blank) * Score(h[q]) && Offer(h, a, q, l) > 0.0
    ensures forall c: nat | c < cfg.blank && c != l :: Offer(h, a, q, l) > Offer(h, a, q, c)
  {
    hide Prob, ExtendFactor, Offer, Likely;
    var s, eps, f := h[q].b, NUM_FLT_MIN, ExtendFactor(cfg.scorer, q, l);
    assert Score(h[q]) == s && Prob(a.p, cfg.blank) == eps && Prob(a.p, l) == 1.0 + eps;
    FloorPositive();
    OfferIs(h, a, q, l, s, 1.0 + eps);
    var best := Offer(h, a, q, l);
    BestOfLikely(cfg.scorer, cfg.blank, q, l, s, best);
    forall c: nat | c < cfg.blank && c != l ensures best > Offer(h, a, q, c) {
      assert Prob(a.p, c) == eps;
      OfferIs(h, a, q, c, s, eps);
    }
  }

  lemma BestOfLikely(sc: Option<Scorer>, blank: nat, q: seq<nat>, l: nat, s: real, best: real)
    requires Likely(sc, blank, q, l) && s > 0.0 && best == (1.0 + NUM_FLT_MIN) * s * ExtendFactor(sc, q, l)
    ensures best > NUM_FLT_MIN * s > 0.0
    ensures forall c: nat | c < blank && c != l :: best > NUM_FLT_MIN * s * ExtendFactor(sc, q, c)
  {
    hide ExtendFactor;
    var eps, f := NUM_FLT_MIN, ExtendFactor(sc, q, l);
    Larger(s, 1.0 + eps, f, eps, 1.0);
    ProductPositive(eps, s);
    forall c: nat | c < blank && c != l ensures best > eps * s * ExtendFactor(sc, q, c) {
      Larger(s, 1.0 + eps, f, eps, ExtendFactor(sc, q, c));
    }
  }

  lemma Larger(s: real, p: real, f: real, p': real, f': real)
    requires s > 0.0 && p * f > p' * f'
    ensures p * s * f > p' * s * f'
  {
    ProductPositive(s, p * f - p' * f');
    Difference(s, p * f, p' * f');
    assert p * s * f == s * (p * f);
    assert p' * s * f' == s * (p' * f');
  }

  // ----- runs

  ghost predicate LikelyPath(cfg: Config, path: seq<nat>) {
    forall i | 0 <= i < |path| :: Likely(cfg.scorer, cfg.blank, path[..i], path[i])
  }

  /** Each label in a frame of its own, followed by a frame of blank. */
  function RunFor(blank: nat, path: seq<nat>): seq<seq<real>> {
    if path == [] then []
    else RunFor(blank, path[..|path| - 1]) + [Only(blank, path[|path| - 1]), BlankOnly(blank)]
  }

  lemma {:induction false} RunForIs(blank: nat, path: seq<nat>)
    requires AreLabels(path, blank)
    ensures forall i | 0 <= i < |RunFor(blank, path)| ::
              ValidProbs(RunFor(blank, path)[i], blank) && Total(RunFor(blank, path)[i]) == 1.0
  {
    hide Total;
    if path != [] {
      var front, l := path[..|path| - 1], path[|path| - 1];
      assert l in path;
      forall k | k in front ensures k < blank { assert k in path; }
      RunForIs(blank, front);
      BlankOnlyTotal(BlankOnly(blank));
      OneTotal(Only(blank, l), l);
    }
  }

  /** Every run over these frames arrives at `path` alone. */
  lemma {:induction false} RunReaches(cfg: Config, path: seq<nat>, h: Hyps)
    requires OnePlace(cfg) && AreLabels(path, cfg.blank) && LikelyPath(cfg, path)
    requires Runs(cfg, None, false, 0, RunFor(cfg.blank, path), START, h)
    ensures Alone(h, path)
    decreases |path|
  {
    hide ValidConfig, Likely, Advances, Only, BlankOnly, Runs, RunFor, START, Alone;
    if path == [] {
      NothingRun(cfg, h);
    } else {
      var front, l := path[..|path| - 1], path[|path| - 1];
      assert path == front + [l] && l in path;
      forall k | k in front ensures k < cfg.blank { assert k in path; }
      assert forall i | 0 <= i < |front| :: front[..i] == path[..i] && front[i] == path[i];
      var m1, m2 := LastTwo(cfg, front, l, h);
      RunReaches(cfg, front, m1);
      LabelFrame(cfg, 2 * |front|, m1, front, l, m2);
      BlankFrame(cfg, 2 * |front| + 1, m2, path, h);
    }
  }

  lemma NothingRun(cfg: Config, h: Hyps)
    requires Runs(cfg, None, false, 0, RunFor(cfg.blank, []), START, h)
    ensures Alone(h, [])
  {
    hide START;
    StartIs();
  }

  lemma LastTwo(cfg: Config, front: seq<nat>, l: nat, h: Hyps) returns (m1: Hyps, m2: Hyps)
    requires l < cfg.blank && Runs(cfg, None, false, 0, RunFor(cfg.blank, front + [l]), START, h)
    ensures Runs(cfg, None, false, 0, RunFor(cfg.blank, front), START, m1)
    ensures Advances(cfg, None, Only(cfg.blank, l), 2 * |front|, m1, m2)
    ensures Advances(cfg, None, BlankOnly(cfg.blank), 2 * |front| + 1, m2, h)
  {
    hide Advances, RunFor, START;
    var r, x, y := RunFor(cfg.blank, front), Only(cfg.blank, l), BlankOnly(cfg.blank);
    RunForMore(cfg.blank, front, l);
    RunForLength(cfg.blank, front);
    var r1, r2 := r + [x], r + [x, y];
    assert r2[..|r2| - 1] == r1 && r2[|r2| - 1] == y && r1[..|r1| - 1] == r && r1[|r1| - 1] == x;
    assert Prob(x, cfg.blank) == 0.0;
    assert Started(false, r1, cfg.blank) && Started(false, r2, cfg.blank);
    m2 :| Runs(cfg, None, false, 0, r1, START, m2) && Advances(cfg, None, y, |r1|, m2, h);
    m1 :| Runs(cfg, None, false, 0, r, START, m1) && Advances(cfg, None, x, |r|, m1, m2);
  }

  lemma {:induction false} RunForLength(blank: nat, path: seq<nat>)
    ensures |RunFor(blank, path)| == 2 * |path|
  {
    if path != [] { RunForLength(blank, path[..|path| - 1]); }
  }

  lemma RunForMore(blank: nat, front: seq<nat>, l: nat)
    ensures RunFor(blank, front + [l]) == RunFor(blank, front) + [Only(blank, l), BlankOnly(blank)]
  {
    assert (front + [l])[..|front|] == front;
  }

  /** The decoder itself makes such a run. */
  method Reach(cfg: Config, path: seq<nat>) returns (state: DecoderState)
    requires OnePlace(cfg) && AreLabels(path, cfg.blank) && LikelyPath(cfg, path)
    ensures state.Valid() && state.cfg == cfg && Alone(state.hyps, path) && fresh(state)
    ensures Runs(cfg, None, false, 0, RunFor(cfg.blank, path), START, state.hyps)
  {
    hide Sound, Runs, Started, Expanding, ValidProbs, LikelyPath, Alone, RunFor, START, Trie.Valid, ValidScorer;
    RunForIs(cfg.blank, path);
    state := new DecoderState(cfg, None);
    var ok := state.Next(RunFor(cfg.blank, path));
    RunReaches(cfg, path, state.hyps);
  }

  // ----- the frame that loses

  lemma {:induction false} OneTotal(s: seq<real>, c: nat)
    requires c < |s| && forall i | 0 <= i < |s| && i != c :: s[i] == 0.0
    ensures Total(s) == s[c]
  {
    var front := s[..|s| - 1];
    if c == |s| - 1 { NothingTotal(front); } else { OneTotal(front, c); }
  }

  function HalfBlank(blank: nat, c: nat, pc: real): seq<real> {
    seq(blank + 1, i => if i == blank then 0.5 else if i == c then pc else 0.0)
  }

  lemma HalfBlankTotal(blank: nat, c: nat, pc: real)
    requires c < blank
    ensures Total(HalfBlank(blank, c, pc)) == pc + 0.5
  {
    OneTotal(HalfBlank(blank, c, pc)[..blank], c);
  }

  /** A floored probability between the cutoff and what makes the extension worth more than the blank, of
      probability `t`. */
  lemma ChooseClass(m: real, f: real, eps: real, t: real) returns (q: real)
    requires m >= 1.0 && eps > 0.0 && t > 0.0 && eps * m < t && f > 0.0 && t * f > m * (t + eps)
    ensures eps <= q <= t && q * m < t && q * f > t + eps
  {
    var low := Ratio(t + eps, f);
    LowIsLow(low, m, f, eps, t);
    if eps <= low {
      q := Halfway(low, m, t);
    } else {
      q := Halfway(eps, m, t);
    }
    Above(q, low, f);
    MulMonotone(q, 1.0, m);
  }

  lemma HalfIsEnough(m: real, f: real, eps: real)
    requires m >= 1.0 && eps > 0.0 && f > m * (1.0 + 2.0 * eps)
    ensures f > 0.0 && 0.5 * f > m * (0.5 + eps)
  {
    MulMonotone(m, 0.5, 0.5 + eps);
    assert m * (1.0 + 2.0 * eps) == 2.0 * (m * (0.5 + eps));
  }

  lemma Halfway(base: real, m: real, t: real) returns (q: real)
    requires m >= 1.0 && base * m < t
    ensures base < q && q * m < t
  {
    var top := Ratio(t, m);
    Cancel(base, top, m);
    q := (base + top) / 2.0;
    Above(top, q, m);
  }

  lemma Above(q: real, low: real, f: real)
    requires q > low && f > 0.0
    ensures q * f > low * f
  {
    ProductPositive(q - low, f);
    Difference(f, q, low);
  }

  lemma LowIsLow(low: real, m: real, f: real, eps: real, t: real)
    requires f > 0.0 && low * f == t + eps && t * f > m * (t + eps)
    ensures low * m < t
  {
    Regrouped(m, low, f);
    Cancel(m * low, t, f);
  }

  /** The break skips the label though its extension is worth more than all that the sequence itself would have. */
  ghost predicate Loses(h: Hyps, a: Pass, path: seq<nat>, c: nat) {
    && path in h && a.full && c in a.kept && Skipped(h, a, path, c)
    && Offer(h, a, path, c) > Score(NewHyp(h, Unbroken(a), path))
  }

  lemma LastFrame(cfg: Config, h: Hyps, path: seq<nat>, c: nat, q: real, m: real, f: real, a: Pass)
    requires OnePlace(cfg) && Alone(h, path) && c < cfg.blank
    requires m == AtLeastOne(cfg.scorer.value.beta) && f == ExtendFactor(cfg.scorer, path, c)
    requires NUM_FLT_MIN <= q && q * m < 0.5 && q * f > 0.5 + NUM_FLT_MIN
    requires IsPass(cfg, None, HalfBlank(cfg.blank, c, q - NUM_FLT_MIN), a.t, h, a)
    ensures Loses(h, a, path, c)
  {
    hide ValidConfig, IsPass, AtLeastOne, CutoffOf, ExtendFactor, Prob, Offer, NewHyp;
    var prob, s := HalfBlank(cfg.blank, c, q - NUM_FLT_MIN), h[path].b;
    SinglePass(cfg, prob, h, path, a);
    BelowCutoff(q, s, m, cfg.scorer.value.beta, 0.5);
    OfferIs(h, a, path, c, s, q);
    Larger(s, q, f, 0.5 + NUM_FLT_MIN, 1.0);
    KeepsBlank(h, a, path);
  }

  lemma ScaledBelow(q: real, s: real, m: real, t: real)
    requires s > 0.0 && q * m < t
    ensures (q * s) * m < s * t
  {
    ProductPositive(s, t - q * m);
    Difference(s, t, q * m);
    Regrouped(s, q, m);
    assert s * q == q * s;
  }

  lemma BelowCutoff(q: real, s: real, m: real, beta: real, t: real)
    requires s > 0.0 && m == AtLeastOne(beta) && q * m < t
    ensures q * s < CutoffOf(s, t, beta)
  {
    LargestOne(beta);
    ScaledBelow(q, s, m, t);
    BelowRatio(q * s, s * t, m);
  }

  lemma KeepsBlank(h: Hyps, a: Pass, path: seq<nat>)
    requires Alone(h, path) && a.g.blank in a.kept
    ensures Score(NewHyp(h, Unbroken(a), path)) == Prob(a.p, a.g.blank) * h[path].b
  {
    hide Prob;
    if path != [] { assert |Front(path)| != |path|; }
    NoMassNoRepeat(h, Unbroken(a), path);
  }

  /** For every path that runs can reach in this way and every extension of it multiplied by more than
      max(1, exp(beta)) (1 + 2^-125): probability distributions over which every run ends in a frame that loses it. */
  lemma RunLoses(cfg: Config, path: seq<nat>, c: nat) returns (probs: seq<seq<real>>, prob: seq<real>)
    requires OnePlace(cfg) && AreLabels(path, cfg.blank) && LikelyPath(cfg, path) && c < cfg.blank
    requires ExtendFactor(cfg.scorer, path, c) > AtLeastOne(cfg.scorer.value.beta) * (1.0 + 2.0 * NUM_FLT_MIN)
    ensures forall i | 0 <= i < |probs| :: ValidProbs(probs[i], cfg.blank) && Total(probs[i]) == 1.0
    ensures ValidProbs(prob, cfg.blank) && prob[cfg.blank] == 0.5 && Total(prob) <= 1.0 && (path == [] ==> probs == [])
    ensures forall h, a | Runs(cfg, None, false, 0, probs, START, h) && IsPass(cfg, None, prob, |probs|, h, a) ::
              Loses(h, a, path, c)
  {
    hide ValidConfig, IsPass, AtLeastOne, ExtendFactor, Total, LikelyPath, Runs, Loses, AreLabels, START, Alone;
    FloorRoom(cfg);
    var m, f := AtLeastOne(cfg.scorer.value.beta), ExtendFactor(cfg.scorer, path, c);
    HalfIsEnough(m, f, NUM_FLT_MIN);
    var q := ChooseClass(m, f, NUM_FLT_MIN, 0.5);
    probs, prob := RunFor(cfg.blank, path), HalfBlank(cfg.blank, c, q - NUM_FLT_MIN);
    RunForIs(cfg.blank, path);
    HalfBlankTotal(cfg.blank, c, q - NUM_FLT_MIN);
    forall h, a | Runs(cfg, None, false, 0, probs, START, h)
      && IsPass(cfg, None, prob, |probs|, h, a) ensures Loses(h, a, path, c) {
      PassIsAt(cfg, None, prob, |probs|, h, a);
      RunReaches(cfg, path, h);
      LastFrame(cfg, h, path, c, q, m, f, a);
    }
  }

  /** In particular the first frame of a new decoder. */
  lemma FirstFrameLoses(cfg: Config, c: nat) returns (prob: seq<real>)
    requires OnePlace(cfg) && c < cfg.blank
    requires ExtendFactor(cfg.scorer, [], c) > AtLeastOne(cfg.scorer.value.beta) * (1.0 + 2.0 * NUM_FLT_MIN)
    ensures ValidProbs(prob, cfg.blank) && prob[cfg.blank] == 0.5 && Total(prob) <= 1.0
    ensures forall a | IsPass(cfg, None, prob, 0, START, a) :: Loses(START, a, [], c)
  {
    hide ValidConfig, IsPass, AtLeastOne, ExtendFactor, Total, Loses, START;
    var probs;
    probs, prob := RunLoses(cfg, [], c);
  }
}
