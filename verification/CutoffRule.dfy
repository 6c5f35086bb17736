/** What the early break of the inner loop can and cannot lose. */
module CutoffRule {
  import opened Basics
  import opened PathTrie
  import opened TrieOps
  import opened Ctc
  import opened Beam
  import opened BeamCtc
  import opened BeamGrowth
  import opened BeamTime
  import opened DictionaryWalk
  import opened FrameSteps
  import opened FrameEnd
  import opened Selection
  import opened Hypotheses
  import opened BeamShown
  import opened Decoder
  import opened BeamSearch

  /** A sound decoder whose beam fits holds these hypotheses before frame `t`. */
  ghost predicate Held(cfg: Config, dict: Option<Dictionary>, t: nat, h: Hyps) {
    exists w: View, tree: seq<TsNode>, prefixes: seq<NodeId>, fr: seq<Frame>, over: bool ::
      Holds(cfg, dict, h, w, tree, prefixes, fr, t, over)
  }

  ghost predicate Holds(cfg: Config, dict: Option<Dictionary>, h: Hyps, w: View, tree: seq<TsNode>,
                        prefixes: seq<NodeId>, fr: seq<Frame>, t: nat, over: bool) {
    && Sound(cfg, dict, w, prefixes, h, fr, t, over) && TsOk(tree, w.hist) && |prefixes| <= cfg.beamSize
  }

  lemma HeldFacts(cfg: Config, dict: Option<Dictionary>, t: nat, h: Hyps)
    requires Held(cfg, dict, t, h)
    ensures NonNegative(h) && (forall q | q in h :: AreLabels(q, cfg.blank)) && ValidConfig(cfg)
  {
    hide Wf, TsInv, StatesOk, Idle, LeavesLive, ListsLive, TsOk, AreLabels, NonNegative, BeamFits, HasMass, Bounded,
      Exact, Timely, ValidFrames, ValidScorer, Scored, ChildrenFirst, TimesOf;
    var w: View, tree: seq<TsNode>, prefixes: seq<NodeId>, fr: seq<Frame>, over: bool
      :| Holds(cfg, dict, h, w, tree, prefixes, fr, t, over);
    ShownNonNegative(w, h);
    forall q | q in h ensures AreLabels(q, cfg.blank) {
      assert !Absent(w.nodes, w.paths, q);
      var n :| n in w.nodes && w.nodes[n].live && n in w.paths && w.paths[n] == q;
    }
  }

  /** A frame that a sound decoder with a scorer begins with a full beam. */
  ghost predicate FullFrame(cfg: Config, h: Hyps, a: Pass, prob: seq<real>) {
    Held(cfg, a.g.dict, a.t, h) && IsPass(cfg, a.g.dict, prob, a.t, h, a) && a.full && prob[cfg.blank] <= 1.0
  }

  /** All that the rules of this module need of such a frame. */
  ghost predicate FullBeam(h: Hyps, a: Pass, prob: seq<real>) {
    && NonNegative(h) && (forall q | q in h :: AreLabels(q, a.g.blank))
    && a.full && a.g.scorer.Some? && ValidScorer(a.g.scorer) && a.g.blank < ROOT
    && ValidProbs(prob, a.g.blank) && prob[a.g.blank] <= 1.0 && a.p == Floored(prob)
    && (forall c | c in a.kept :: c <= a.g.blank)
    && IsCutoff(h, prob[a.g.blank], a.g.scorer.value.beta, a.min)
  }

  lemma FrameHasFullBeam(cfg: Config, h: Hyps, a: Pass, prob: seq<real>)
    requires FullFrame(cfg, h, a, prob)
    ensures FullBeam(h, a, prob) && a.g == Setting(cfg.blank, cfg.scorer, a.g.dict)
  {
    hide Held, NonNegative, AreLabels, ValidScorer, Floored, IsCutoff, Choice;
    HeldFacts(cfg, a.g.dict, a.t, h);
    KeptOk(prob, cfg, a.kept);
  }

  /** What a decoder makes of probabilities when its beam is full is such a frame. */
  lemma FrameIsFull(state: DecoderState, prob: seq<real>, a: Pass)
    requires state.Valid() && IsPass(state.cfg, state.trie.dict, prob, state.absTimeStep, state.hyps, a) && a.full
             && prob[state.cfg.blank] <= 1.0
    ensures FullFrame(state.cfg, state.hyps, a, prob)
  {
    hide Sound, TsOk, Wf, Floored, IsCutoff, Choice, ValidProbs, START;
    AsManyHyps(state);
    assert Holds(state.cfg, state.trie.dict, state.hyps, Look(state.trie), state.trie.tsTree, state.prefixes,
           state.frames,
                 state.absTimeStep, state.overflowed);
  }

  /** The same frame without the break. */
  function Unbroken(a: Pass): Pass {
    a.(full := false)
  }

  // ----- fair scorers

  /** alpha >= 0 and a language model score plus hot-word boost of at most 0: the model never raises a score. */
  ghost predicate NeverRaises(sc: Scorer) {
    forall p :: 0.0 <= sc.lm(p) <= 1.0
  }

  /** No extension is multiplied by more than max(1, exp(beta)), up to the relative size of the probability floor.
      For exp(beta) of 2 to the power 126 and more the cutoff is below the floor and skips nothing. */
  ghost predicate Fair(sc: Scorer, blank: nat) {
    || AtLeastOne(sc.beta) * NUM_FLT_MIN >= 1.0
    || forall path: seq<nat>, c: nat | AreLabels(path, blank) && c < blank ::
         ExtendFactor(Some(sc), path, c) <= AtLeastOne(sc.beta) * (1.0 + NUM_FLT_MIN)
  }

  lemma ScaledDown(f: real, g: real)
    requires 0.0 <= f <= 1.0 && g > 0.0
    ensures f * g <= g <= AtLeastOne(g)
  {
    MulMonotone(g, f, 1.0);
  }

  lemma AboveOne(m: real)
    requires m >= 1.0
    ensures m <= m * (1.0 + NUM_FLT_MIN) && 1.0 <= m * (1.0 + NUM_FLT_MIN)
  {
    MulMonotone(m, 1.0, 1.0 + NUM_FLT_MIN);
  }

  lemma NeverRaisesIsFair(sc: Scorer, blank: nat)
    requires NeverRaises(sc) && sc.beta > 0.0
    ensures Fair(sc, blank)
  {
    forall path: seq<nat>, c: nat ensures ExtendFactor(Some(sc), path, c) <= AtLeastOne(sc.beta) * (1.0 + NUM_FLT_MIN) {
      var scored := if sc.utf8 then path + [c] else path;
      ScaledDown(sc.lm(scored), sc.beta);
      AboveOne(AtLeastOne(sc.beta));
    }
  }

  // ----- skipped extensions of a fair scorer

  lemma FloorPositive()
    ensures NUM_FLT_MIN > 0.0
  {
  }

  /** With `low` the lowest score, `x` the score of a prefix and `q` the floored probability of a class: if the
      prefix is skipped, the cutoff is above the floor. */
  lemma SkipNeedsRoom(low: real, x: real, pb: real, m: real, q: real, eps: real, min: real)
    requires 0.0 <= low <= x && 0.0 <= pb <= 1.0 && m >= 1.0 && 0.0 < eps <= q && min == low * pb / m && q * x < min
    ensures m * eps < 1.0
  {
    if m * eps >= 1.0 {
      NothingBelowFloor(low, x, pb, m, q, eps, min);
      assert false;
    }
  }

  lemma NothingBelowFloor(low: real, x: real, pb: real, m: real, q: real, eps: real, min: real)
    requires 0.0 <= low <= x && 0.0 <= pb <= 1.0 && m >= 1.0 && 0.0 < eps <= q && m * eps >= 1.0 && min == low * pb / m
    ensures q * x >= min
  {
    MulMonotone(x, eps, q);
    MulMonotone(eps, low, x);
    MulMonotone(low, pb, 1.0);
    MulMonotone(low, 1.0, m * eps);
    assert low * pb <= (eps * low) * m;
    DivideBound(low * pb, eps * low, m);
  }

  lemma DivideBound(a: real, b: real, m: real)
    requires m >= 1.0 && a <= b * m
    ensures a / m <= b
  {
    var r := a / m;
    assert r * m == a;
    if r > b {
      ProductPositive(r - b, m);
      assert false;
    }
  }

  lemma WorthBelow(low: real, x: real, base: real, pb: real, m: real, q: real, f: real, eps: real, min: real)
    requires 0.0 <= low <= x && 0.0 <= base <= x && 0.0 <= pb <= 1.0 && m >= 1.0 && eps > 0.0 && q >= 0.0
    requires min == low * pb / m && q * x < min && 0.0 <= f <= m * (1.0 + eps)
    ensures q * base * f < (pb + eps) * low
  {
    MulMonotone(q, base, x);
    MulMonotone(q, 0.0, base);
    MulMonotone(f, q * base, q * x);
    MulMonotone(q, 0.0, x);
    MulMonotone(q * x, f, m * (1.0 + eps));
    LimitTimes(low, pb, m, eps, min, q * x);
  }

  lemma LimitTimes(low: real, pb: real, m: real, eps: real, min: real, y: real)
    requires low >= 0.0 && 0.0 <= pb <= 1.0 && m >= 1.0 && eps > 0.0 && min == low * pb / m && y < min
    ensures y * (m * (1.0 + eps)) < (pb + eps) * low
  {
    assert min * m == low * pb;
    ProductPositive(min - y, m);
    assert (min - y) * m == min * m - y * m;
    var ym := y * m;
    ProductPositive(low * pb - ym, 1.0 + eps);
    assert y * (m * (1.0 + eps)) == ym * (1.0 + eps);
    MulMonotone(low * eps, pb, 1.0);
    SplitProduct(low, pb, eps);
  }

  lemma SplitProduct(low: real, pb: real, eps: real)
    requires low >= 0.0 && 0.0 <= pb <= 1.0 && eps > 0.0
    ensures low * pb * (1.0 + eps) <= (pb + eps) * low
  {
    MulMonotone(low, pb * eps, eps);
  }

  /** A skipped extension is worth strictly less than what every prefix of the beam keeps by the blank alone. */
  lemma SkippedIsWorthLess(h: Hyps, a: Pass, prob: seq<real>, s: seq<nat>, c: nat, k: seq<nat>)
    requires FullBeam(h, a, prob) && Fair(a.g.scorer.value, a.g.blank)
    requires s in h && k in h && c < a.g.blank && Skipped(h, a, s, c)
    ensures Offer(h, a, s, c) < Prob(a.p, a.g.blank) * Score(h[k])
  {
    hide ValidScorer, Prob, ExtendFactor, AreLabels, NonNegative, Floored, ValidProbs, AtLeastOne, Score, Fair,
      CutoffAt, BaseOf;
    ProbLength(prob, a.g.blank);
    var sc, pb, eps := a.g.scorer.value, prob[a.g.blank], NUM_FLT_MIN;
    ProbsAre(a, prob, c);
    var r :| Lowest(h, r) && a.min == CutoffAt(h, r, pb, sc.beta);
    CutoffIs(h, r, pb, sc.beta);
    ScoreNonNegative(h, r);
    BaseBelow(h, s, c);
    FactorLimit(a, s, c);
    FloorPositive();
    var low, x, m, q, f := Score(h[r]), Score(h[s]), AtLeastOne(sc.beta), Prob(a.p, c), ExtendFactor(a.g.scorer, s, c);
    SkipNeedsRoom(low, x, pb, m, q, eps, a.min);
    WorthBelow(low, x, BaseOf(h, s, c), pb, m, q, f, eps, a.min);
    assert low <= Score(h[k]);
    MulMonotone(pb + eps, low, Score(h[k]));
    assert Offer(h, a, s, c) == q * BaseOf(h, s, c) * f;
  }

  lemma ProbsAre(a: Pass, prob: seq<real>, c: nat)
    requires ValidProbs(prob, a.g.blank) && a.p == Floored(prob) && c < a.g.blank && prob[a.g.blank] <= 1.0
    ensures Prob(a.p, c) >= NUM_FLT_MIN && 0.0 <= prob[a.g.blank] <= 1.0
            && Prob(a.p, a.g.blank) == prob[a.g.blank] + NUM_FLT_MIN
  {
    FlooredValid(prob, a.g.blank);
    assert prob[c] >= 0.0;
  }

  lemma CutoffIs(h: Hyps, r: seq<nat>, pb: real, beta: real)
    requires r in h
    ensures CutoffAt(h, r, pb, beta) == Score(h[r]) * pb / AtLeastOne(beta) && AtLeastOne(beta) >= 1.0
  {
  }

  lemma BaseBelow(h: Hyps, s: seq<nat>, c: nat)
    requires NonNegative(h) && s in h
    ensures 0.0 <= BaseOf(h, s, c) <= Score(h[s])
  {
  }

  lemma FactorLimit(a: Pass, s: seq<nat>, c: nat)
    requires a.g.scorer.Some? && ValidScorer(a.g.scorer) && Fair(a.g.scorer.value, a.g.blank) && AreLabels(s, a.g.blank)
             && c < a.g.blank
    ensures ExtendFactor(a.g.scorer, s, c) >= 0.0
    ensures var m := AtLeastOne(a.g.scorer.value.beta);
            m * NUM_FLT_MIN < 1.0 ==> ExtendFactor(a.g.scorer, s, c) <= m * (1.0 + NUM_FLT_MIN)
  {
    hide ExtendFactor, AreLabels, AtLeastOne;
    FactorNonNegative(a.g.scorer, s, c);
    assert a.g.scorer == Some(a.g.scorer.value);
  }

  // ----- prefixes that are not in the beam

  lemma PassIsFine(h: Hyps, a: Pass, prob: seq<real>)
    requires FullBeam(h, a, prob)
    ensures ValidPass(a) && ValidPass(Unbroken(a)) && NonNegative(h) && forall q | q in h :: AreLabels(q, a.g.blank)
  {
    hide ValidScorer, Floored, AreLabels, NonNegative, IsCutoff;
    FlooredValid(prob, a.g.blank);
  }

  /** Every prefix of the beam keeps at least its blank mass, with and without the break. */
  lemma BlankStays(h: Hyps, a: Pass, prob: seq<real>, b: seq<nat>)
    requires FullBeam(h, a, prob) && b in h && a.g.blank in a.kept && Score(h[b]) > 0.0
    ensures Stays(h, a, b) == Stays(h, Unbroken(a), b) == Prob(a.p, a.g.blank) * Score(h[b])
    ensures Score(NewHyp(h, a, b)) >= Stays(h, a, b) && Score(NewHyp(h, Unbroken(a), b)) >= Stays(h, a, b)
  {
    hide ValidScorer, Floored, AreLabels, NonNegative, IsCutoff, Repeats, Grows, Prob, Skipped, FullBeam;
    PassIsFine(h, a, prob);
    NeverSkipsBlank(h, a, prob, b);
    PartsNonNegative(h, a, b);
    PartsNonNegative(h, Unbroken(a), b);
  }

  lemma NeverSkipsBlank(h: Hyps, a: Pass, prob: seq<real>, b: seq<nat>)
    requires FullBeam(h, a, prob)
    ensures !Skipped(h, a, b, a.g.blank) && forall q, c :: !Skipped(h, Unbroken(a), q, c)
  {
    hide ValidScorer, Floored, AreLabels, NonNegative, IsCutoff, Prob;
    FlooredValid(prob, a.g.blank);
    BlankIsNeverSkipped(h, a, prob[a.g.blank], a.g.scorer.value.beta, b);
  }

  /** A skip shows that all scores are positive. */
  lemma SkipMeansMass(h: Hyps, a: Pass, prob: seq<real>, s: seq<nat>, c: nat, b: seq<nat>)
    requires FullBeam(h, a, prob) && s in h && b in h && c < a.g.blank && Skipped(h, a, s, c)
    ensures Score(h[b]) > 0.0
  {
    hide ValidScorer, Floored, AreLabels, NonNegative, Prob, Score, CutoffAt, ValidProbs;
    ProbLength(prob, a.g.blank);
    ProbsAre(a, prob, c);
    FloorPositive();
    var r :| Lowest(h, r) && a.min == CutoffAt(h, r, prob[a.g.blank], a.g.scorer.value.beta);
    ScoreNonNegative(h, r);
    ScoreNonNegative(h, s);
    MulMonotone(Prob(a.p, c), 0.0, Score(h[s]));
    CutoffIs(h, r, prob[a.g.blank], a.g.scorer.value.beta);
    if Score(h[r]) == 0.0 { NoCutoff(prob[a.g.blank], AtLeastOne(a.g.scorer.value.beta)); assert false; }
  }

  lemma NoCutoff(pb: real, m: real)
    requires m >= 1.0
    ensures 0.0 * pb / m == 0.0
  {
  }

  /** What a sequence outside the beam collects. */
  lemma NewScore(h: Hyps, a: Pass, q: seq<nat>)
    requires q !in h && Reached(h, a, q)
    ensures Score(NewHyp(h, a, q)) == Offer(h, a, Front(q), Last(q))
  {
    hide Offer, Skipped, Permits;
  }

  /** Every prefix of the beam ends the frame, with or without the break, above a sequence reached only by a skipped
      visit. */
  lemma Outranks(h: Hyps, a: Pass, prob: seq<real>, q: seq<nat>, b: seq<nat>)
    requires FullBeam(h, a, prob) && Fair(a.g.scorer.value, a.g.blank) && a.g.blank in a.kept
    requires q !in h && Reached(h, Unbroken(a), q) && Skipped(h, a, Front(q), Last(q)) && b in h
    ensures Score(NewHyp(h, Unbroken(a), q)) < Score(NewHyp(h, a, b))
    ensures Score(NewHyp(h, Unbroken(a), q)) < Score(NewHyp(h, Unbroken(a), b))
  {
    hide FullBeam, Fair, Offer, Skipped, Permits, NewHyp, Score, Prob, Stays;
    SkipMeansMass(h, a, prob, Front(q), Last(q), b);
    SkippedIsWorthLess(h, a, prob, Front(q), Last(q), b);
    SameOffer(h, a, Front(q), Last(q));
    NewScore(h, Unbroken(a), q);
    BlankStays(h, a, prob, b);
  }

  lemma SameOffer(h: Hyps, a: Pass, q: seq<nat>, c: nat)
    requires q in h
    ensures Offer(h, a, q, c) == Offer(h, Unbroken(a), q, c)
  {
    hide ExtendFactor, Prob, BaseOf;
  }

  /** Someone in the beam is not in a cut that has as many places and holds a sequence from outside. */
  lemma LeftOut(h: Hyps, h': Hyps, q: seq<nat>) returns (b: seq<nat>)
    requires |h'| == |h| && q in h' && q !in h
    ensures b in h && b !in h'
  {
    if h.Keys <= h'.Keys {
      assert h.Keys <= h'.Keys - {q};
      Subset(h.Keys, h'.Keys - {q});
      assert false;
    }
    b :| b in h.Keys && b !in h'.Keys;
  }

  /** Without the break, a sequence from outside the beam that only a skipped visit reaches would not survive the
      cut. */
  lemma SkippedCannotSurvive(h: Hyps, a: Pass, prob: seq<real>, h': Hyps, q: seq<nat>)
    requires FullBeam(h, a, prob) && Fair(a.g.scorer.value, a.g.blank) && a.g.blank in a.kept
    requires IsCut(Expand(h, Unbroken(a)), h', |h|)
    requires q !in h && Reached(h, Unbroken(a), q) && Skipped(h, a, Front(q), Last(q))
    ensures q !in h'
  {
    hide FullBeam, Fair, Skipped, Reached, NewHyp, Score, Candidates;
    if q in h' {
      var b := LeftOut(h, h', q);
      CandidateIff(h, Unbroken(a), b);
      CandidateIff(h, Unbroken(a), q);
      Outranks(h, a, prob, q, b);
      assert false;
    }
  }

  // ----- prefixes in the beam

  /** The break skips a repeat that carries mass. */
  ghost predicate LosesRepeat(h: Hyps, a: Pass, b: seq<nat>) {
    b in h && b != [] && Last(b) in a.kept && Skipped(h, a, b, Last(b)) && h[b].nb > 0.0
  }

  /** The break skips an extension that ends in `b` and is worth something. */
  ghost predicate LosesExtension(h: Hyps, a: Pass, b: seq<nat>) {
    b != [] && Last(b) in a.kept && Skipped(h, a, Front(b), Last(b)) && Offer(h, a, Front(b), Last(b)) > 0.0
  }

  lemma RepeatKept(h: Hyps, a: Pass, prob: seq<real>, b: seq<nat>)
    requires FullBeam(h, a, prob) && b in h
    ensures Repeats(h, a, b) <= Repeats(h, Unbroken(a), b)
    ensures Repeats(h, a, b) == Repeats(h, Unbroken(a), b) <==> !LosesRepeat(h, a, b)
  {
    hide ValidScorer, Floored, NonNegative, IsCutoff, Prob, FullBeam;
    PassIsFine(h, a, prob);
    if b != [] {
      var c := Last(b);
      assert c in b;
      MassOfBoth(h, b);
      if c in a.kept { ZeroIff(Prob(a.p, c), h[b].nb); }
    }
  }

  lemma MassOfBoth(h: Hyps, b: seq<nat>)
    requires NonNegative(h) && b in h
    ensures h[b].b >= 0.0 && h[b].nb >= 0.0 && (h[b].nb > 0.0 ==> Score(h[b]) > 0.0)
  {
  }

  lemma ZeroIff(k: real, x: real)
    requires k > 0.0 && x >= 0.0
    ensures k * x >= 0.0 && (k * x > 0.0 <==> x > 0.0)
  {
    if x > 0.0 { ProductPositive(k, x); }
  }

  lemma ExtensionKept(h: Hyps, a: Pass, prob: seq<real>, b: seq<nat>)
    requires FullBeam(h, a, prob) && AreLabels(b, a.g.blank)
    ensures Grows(h, a, b) <= Grows(h, Unbroken(a), b)
    ensures Grows(h, a, b) == Grows(h, Unbroken(a), b) <==> !LosesExtension(h, a, b)
  {
    hide ValidScorer, Floored, NonNegative, IsCutoff, Prob, FullBeam, Offer;
    PassIsFine(h, a, prob);
    if b != [] {
      var c := Last(b);
      assert c in b;
      if c in a.kept && Front(b) in h {
        OfferNonNegative(h, a, Front(b), c);
        SameOffer(h, a, Front(b), c);
        OfferNeedsMass(h, a, Front(b), c);
      }
    }
  }

  lemma OfferNeedsMass(h: Hyps, a: Pass, q: seq<nat>, c: nat)
    requires NonNegative(h) && q in h
    ensures Offer(h, a, q, c) > 0.0 ==> Score(h[q]) > 0.0
  {
    hide Prob, ExtendFactor, BaseOf, Score, NonNegative;
    BaseBelow(h, q, c);
    if Score(h[q]) <= 0.0 { NoMass(Prob(a.p, c), BaseOf(h, q, c), ExtendFactor(a.g.scorer, q, c)); }
  }

  lemma NoMass(k: real, base: real, f: real)
    requires base == 0.0
    ensures k * base * f == 0.0
  {
  }

  /** A prefix of the beam keeps what it would have without the break if and only if the break skips neither a repeat
      nor an extension that has mass for it. */
  lemma KeepsMassIff(h: Hyps, a: Pass, prob: seq<real>, b: seq<nat>)
    requires FullBeam(h, a, prob) && b in h
    ensures Score(NewHyp(h, a, b)) <= Score(NewHyp(h, Unbroken(a), b))
    ensures Score(NewHyp(h, a, b)) == Score(NewHyp(h, Unbroken(a), b)) <==>
              !LosesRepeat(h, a, b) && !LosesExtension(h, a, b)
    ensures !LosesRepeat(h, a, b) && !LosesExtension(h, a, b) ==> NewHyp(h, a, b) == NewHyp(h, Unbroken(a), b)
  {
    hide FullBeam, Repeats, Grows, LosesRepeat, LosesExtension, Skipped, Prob, AreLabels;
    PassIsFine(h, a, prob);
    NeverSkipsBlank(h, a, prob, b);
    RepeatKept(h, a, prob, b);
    ExtensionKept(h, a, prob, b);
  }

  // ----- when the break is harmless

  lemma VisitedUnbroken(h: Hyps, a: Pass, q: seq<nat>)
    requires Reached(h, a, q)
    ensures Reached(h, Unbroken(a), q)
  {
    hide Permits;
  }

  /** A candidate of the broken frame has the same masses without the break. */
  lemma SameHyp(h: Hyps, a: Pass, prob: seq<real>, q: seq<nat>)
    requires FullBeam(h, a, prob) && q in Candidates(h, a)
    requires forall b | b in h :: !LosesRepeat(h, a, b) && !LosesExtension(h, a, b)
    ensures q in Candidates(h, Unbroken(a)) && NewHyp(h, a, q) == NewHyp(h, Unbroken(a), q)
  {
    hide FullBeam, LosesRepeat, LosesExtension, Offer, Permits, Candidates;
    CandidateIff(h, a, q);
    CandidateIff(h, Unbroken(a), q);
    if q in h {
      KeepsMassIff(h, a, prob, q);
    } else {
      VisitedUnbroken(h, a, q);
      SameOffer(h, a, Front(q), Last(q));
    }
  }

  /** If the break costs no prefix of the beam any mass and the scorer is fair, then every choice of survivors is also
      one without the break. */
  lemma BreakIsHarmless(h: Hyps, a: Pass, prob: seq<real>, h': Hyps)
    requires FullBeam(h, a, prob) && Fair(a.g.scorer.value, a.g.blank) && a.g.blank in a.kept
    requires forall b | b in h :: !LosesRepeat(h, a, b) && !LosesExtension(h, a, b)
    requires IsCut(Expand(h, a), h', |h|)
    ensures IsCut(Expand(h, Unbroken(a)), h', |h|)
  {
    hide FullBeam, Fair, LosesRepeat, LosesExtension, Candidates, NewHyp, Ahead;
    var e, u := Expand(h, a), Expand(h, Unbroken(a));
    forall q | q in h' ensures q in u && h'[q] == u[q] { SameHyp(h, a, prob, q); }
    forall q, r | q in h' && r in u && r !in h' ensures !Ahead(u, r, q) {
      SameHyp(h, a, prob, q);
      if r in e {
        SameHyp(h, a, prob, r);
        SameAhead(e, u, r, q);
      } else {
        NotAhead(h, a, prob, h', q, r);
      }
    }
  }

  lemma SameAhead(e: Hyps, u: Hyps, r: seq<nat>, q: seq<nat>)
    requires r in e && q in e && r in u && q in u && e[r] == u[r] && e[q] == u[q]
    ensures Ahead(e, r, q) == Ahead(u, r, q)
  {
  }

  /** A sequence that only a skipped visit reaches is not ahead of any survivor. */
  lemma NotAhead(h: Hyps, a: Pass, prob: seq<real>, h': Hyps, q: seq<nat>, r: seq<nat>)
    requires FullBeam(h, a, prob) && Fair(a.g.scorer.value, a.g.blank) && a.g.blank in a.kept
    requires IsCut(Expand(h, a), h', |h|) && q in h' && r in Candidates(h, Unbroken(a)) && r !in Candidates(h, a)
    requires q in Candidates(h, Unbroken(a)) && NewHyp(h, a, q) == NewHyp(h, Unbroken(a), q)
    ensures !Ahead(Expand(h, Unbroken(a)), r, q)
  {
    hide FullBeam, Fair, Candidates, NewHyp, Score, Permits;
    CandidateIff(h, a, r);
    CandidateIff(h, Unbroken(a), r);
    if q in h {
      Outranks(h, a, prob, r, q);
    } else {
      var b := LeftOut(h, h', q);
      CandidateIff(h, a, b);
      assert !Ahead(Expand(h, a), b, q);
      Outranks(h, a, prob, r, b);
    }
  }
}
