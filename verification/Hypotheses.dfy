/** The beam search on label sequences: no trie and no loops, only which sequence has which mass and timesteps. */
module Hypotheses {
  import opened Basics
  import opened PathTrie
  import opened Ctc
  import opened Beam
  import opened BeamCtc

  /** Mass of the alignments that end in blank, and of the others; and when each label was heard.  A sequence
      without mass has no timesteps. */
  datatype Hyp = Hyp(b: real, nb: real, times: seq<nat>)

  type Hyps = map<seq<nat>, Hyp>

  /** Frame number `t`: its probabilities, the classes offered in order, the sequences in the order in which they
      are gone through, and the cutoff that applies to a full beam. */
  datatype Pass = Pass(g: Setting, p: Frame, kept: seq<nat>, full: bool, min: real, order: seq<seq<nat>>, t: nat)

  const START: Hyps := map[[] := Hyp(1.0, 0.0, [])]

  lemma StartIs()
    ensures START.Keys == {[]} && |START| == 1 && START[[]] == Hyp(1.0, 0.0, [])
  {
    assert START.Keys == {[]};
  }

  predicate Weighs(m: Hyp, b: real, nb: real) {
    m.b == b && m.nb == nb
  }

  function Score(m: Hyp): real { m.b + m.nb }

  function Front(q: seq<nat>): seq<nat>
    requires q != []
  {
    q[..|q| - 1]
  }

  function Last(q: seq<nat>): nat
    requires q != []
  {
    q[|q| - 1]
  }

  /** The character of the node of a sequence. */
  function Character(q: seq<nat>): nat {
    if q == [] then ROOT else Last(q)
  }

  /** The product of class and sequence is below the cutoff of a full beam. */
  predicate Skipped(h: Hyps, a: Pass, q: seq<nat>, c: nat) {
    q in h && a.full && Prob(a.p, c) * Score(h[q]) < a.min
  }

  predicate Visited(h: Hyps, a: Pass, q: seq<nat>, c: nat) {
    c in a.kept && q in h && Score(h[q]) > 0.0 && !Skipped(h, a, q, c)
  }

  /** What extending `q` by `c` is worth. */
  function Offer(h: Hyps, a: Pass, q: seq<nat>, c: nat): real
    requires q in h
  {
    Prob(a.p, c) * BaseOf(h, q, c) * ExtendFactor(a.g.scorer, q, c)
  }

  function Stays(h: Hyps, a: Pass, q: seq<nat>): real {
    if Visited(h, a, q, a.g.blank) then Prob(a.p, a.g.blank) * Score(h[q]) else 0.0
  }

  function Repeats(h: Hyps, a: Pass, q: seq<nat>): real {
    if q != [] && Last(q) < a.g.blank && Visited(h, a, q, Last(q)) then Prob(a.p, Last(q)) * h[q].nb else 0.0
  }

  function Grows(h: Hyps, a: Pass, q: seq<nat>): real {
    if q != [] && Last(q) < a.g.blank && Visited(h, a, Front(q), Last(q)) then Offer(h, a, Front(q), Last(q)) else 0.0
  }

  /** Does the extension put a new timestep?  Staying (`s`), repeating (`r`) and growing (`g`) compete.  Growing
      must outweigh repeating, or equal it if it came first; and a blank that comes behind the label must not
      outweigh both. */
  predicate Wins(repeatFirst: bool, blankLast: bool, s: real, r: real, g: real) {
    && 0.0 < g && (if repeatFirst then r < g else r <= g)
    && !(blankLast && r + g < s)
  }

  ghost predicate Lengthened(h: Hyps, a: Pass, q: seq<nat>) {
    && q != [] && Front(q) in h
    && Wins(Precedes(a.order, q, Front(q)), Precedes(a.kept, Last(q), a.g.blank),
            Stays(h, a, q), Repeats(h, a, q), Grows(h, a, q))
  }

  /** The timesteps of the sequence it grew from and this one, or those it had. */
  ghost function NewTimes(h: Hyps, a: Pass, q: seq<nat>): seq<nat> {
    if Stays(h, a, q) + (Repeats(h, a, q) + Grows(h, a, q)) == 0.0 then []
    else if Lengthened(h, a, q) then h[Front(q)].times + [a.t]
    else if q in h then h[q].times else []
  }

  ghost function NewHyp(h: Hyps, a: Pass, q: seq<nat>): Hyp {
    Hyp(Stays(h, a, q), Repeats(h, a, q) + Grows(h, a, q), NewTimes(h, a, q))
  }

  /** Is `q` a permitted extension of a visited sequence? */
  predicate Reached(h: Hyps, a: Pass, q: seq<nat>) {
    q != [] && Last(q) < a.g.blank && Visited(h, a, Front(q), Last(q)) && Permits(a.g.dict, q)
  }

  /** The sequences that were there, and their permitted extensions. */
  function Candidates(h: Hyps, a: Pass): set<seq<nat>> {
    h.Keys + set q, c | q in h.Keys && c in a.kept && Reached(h, a, q + [c]) :: q + [c]
  }

  lemma CandidateIff(h: Hyps, a: Pass, q: seq<nat>)
    ensures q in Candidates(h, a) <==> q in h || Reached(h, a, q)
  {
    hide Permits, Skipped;
    if Reached(h, a, q) { assert q == Front(q) + [Last(q)]; }
  }

  /** One frame. */
  ghost function Expand(h: Hyps, a: Pass): (h': Hyps)
    ensures h'.Keys == Candidates(h, a)
  {
    map q | q in Candidates(h, a) :: NewHyp(h, a, q)
  }

  /** prefix_compare on sequences. */
  predicate Ahead(h: Hyps, q: seq<nat>, r: seq<nat>)
    requires q in h && r in h
  {
    if Score(h[q]) == Score(h[r]) then Character(q) < Character(r) else Score(h[q]) > Score(h[r])
  }

  /** The order in which the sequences are gone through: each once; sorted if there is a scorer, and otherwise, as
      long as the beam was never cut, no sequence in front of one that it begins. */
  ghost predicate Lists(h: Hyps, order: seq<seq<nat>>, sorted: bool, whole: bool) {
    && NoDup(order) && (forall q :: q in order <==> q in h)
    && (sorted ==> forall i, j | 0 <= i < j < |order| ::
          order[i] in h && order[j] in h && !Ahead(h, order[j], order[i]))
    && (whole ==> forall i, j | 0 <= i < j < |order| :: !(order[i] < order[j]))
  }

  /** `kept` is `k` of the sequences of `h`, with their masses and timesteps, and none of the others is ahead of any of
      them. */
  ghost predicate IsCut(h: Hyps, kept: Hyps, k: nat) {
    && kept.Keys <= h.Keys && (forall q | q in kept :: kept[q] == h[q]) && |kept| == k
    && forall q, r | q in kept && r in h && r !in kept :: !Ahead(h, r, q)
  }

  /** Any number of sequences may stay if they fit; otherwise the beam is cut to its size. */
  ghost predicate Fitted(h: Hyps, h': Hyps, beamSize: nat) {
    if |h| <= beamSize then h' == h else IsCut(h, h', beamSize)
  }

  ghost predicate Lowest(h: Hyps, q: seq<nat>) {
    q in h && forall r | r in h :: Score(h[q]) <= Score(h[r])
  }

  // ----- mass

  ghost predicate NonNegative(h: Hyps) {
    forall q | q in h :: h[q].b >= 0.0 && h[q].nb >= 0.0
  }

  ghost predicate HasMass(h: Hyps) {
    exists q :: q in h && Score(h[q]) > 0.0
  }

  ghost predicate ValidPass(a: Pass) {
    && ValidScorer(a.g.scorer) && (forall c | c in a.kept :: c <= a.g.blank && Prob(a.p, c) > 0.0)
  }

  lemma ProductNonNegative(k: real, x: real, f: real)
    requires k >= 0.0 && x >= 0.0 && f >= 0.0
    ensures k * x >= 0.0 && k * x * f >= 0.0
  {
    MulMonotone(k, 0.0, x);
    MulMonotone(f, 0.0, k * x);
  }

  lemma ProductPositive(k: real, x: real)
    requires k > 0.0 && x > 0.0
    ensures k * x > 0.0 && k * x * 1.0 > 0.0
  {
  }

  /** What a sequence offers its extension by `c`, before any factor. */
  function BaseOf(h: Hyps, q: seq<nat>, c: nat): real
    requires q in h
  {
    if Character(q) == c then h[q].b else Score(h[q])
  }

  lemma OfferNonNegative(h: Hyps, a: Pass, q: seq<nat>, c: nat)
    requires NonNegative(h) && ValidPass(a) && q in h && c in a.kept
    ensures Offer(h, a, q, c) >= 0.0
  {
    hide ExtendFactor, ValidScorer, Character, Prob;
    FactorNonNegative(a.g.scorer, q, c);
    ProductNonNegative(Prob(a.p, c), BaseOf(h, q, c), ExtendFactor(a.g.scorer, q, c));
  }

  lemma PartsNonNegative(h: Hyps, a: Pass, q: seq<nat>)
    requires NonNegative(h) && ValidPass(a)
    ensures Stays(h, a, q) >= 0.0 && Repeats(h, a, q) >= 0.0 && Grows(h, a, q) >= 0.0
  {
    hide Offer, ValidScorer, Skipped, Prob;
    if Visited(h, a, q, a.g.blank) { MulMonotone(Prob(a.p, a.g.blank), 0.0, Score(h[q])); }
    if q != [] {
      var c := Last(q);
      if Visited(h, a, q, c) { MulMonotone(Prob(a.p, c), 0.0, h[q].nb); }
      if Visited(h, a, Front(q), c) { OfferNonNegative(h, a, Front(q), c); }
    }
  }

  /** A sequence with mass for which the blank is visited keeps mass. */
  lemma BlankKeepsMass(h: Hyps, a: Pass, q: seq<nat>)
    requires NonNegative(h) && ValidPass(a) && Visited(h, a, q, a.g.blank)
    ensures q in Expand(h, a) && Score(Expand(h, a)[q]) > 0.0
  {
    hide Repeats, Grows, ValidScorer, Prob, Skipped, Candidates;
    CandidateIff(h, a, q);
    PartsNonNegative(h, a, q);
    ProductPositive(Prob(a.p, a.g.blank), Score(h[q]));
  }

  /** Without a scorer any class keeps mass: a blank on the sequence, a label on it or on its extension. */
  lemma LabelKeepsMass(h: Hyps, a: Pass, q: seq<nat>, c: nat)
    requires NonNegative(h) && ValidPass(a) && a.g.scorer.None? && a.g.dict.None? && Visited(h, a, q, c)
             && c < a.g.blank
    requires a.g.blank < ROOT
    ensures HasMass(Expand(h, a))
  {
    hide Candidates, ValidScorer, Prob, Skipped;
    if Character(q) == c && h[q].nb > 0.0 {
      CandidateIff(h, a, q);
      RepeatKeepsMass(h, a, q, c);
      assert Score(Expand(h, a)[q]) > 0.0;
    } else {
      var r := q + [c];
      assert Front(r) == q && Last(r) == c;
      CandidateIff(h, a, r);
      ExtensionKeepsMass(h, a, q, c, r);
      assert Score(Expand(h, a)[r]) > 0.0;
    }
  }

  lemma RepeatKeepsMass(h: Hyps, a: Pass, q: seq<nat>, c: nat)
    requires NonNegative(h) && ValidPass(a) && Visited(h, a, q, c) && c < a.g.blank < ROOT && Character(q) == c
             && h[q].nb > 0.0
    ensures Score(NewHyp(h, a, q)) > 0.0
  {
    hide Stays, Grows, ValidScorer, Prob, Skipped;
    PartsNonNegative(h, a, q);
    ProductPositive(Prob(a.p, c), h[q].nb);
  }

  lemma ExtensionKeepsMass(h: Hyps, a: Pass, q: seq<nat>, c: nat, r: seq<nat>)
    requires NonNegative(h) && ValidPass(a) && a.g.scorer.None? && Visited(h, a, q, c) && c < a.g.blank
    requires r != [] && Front(r) == q && Last(r) == c && !(Character(q) == c && h[q].nb > 0.0)
    ensures Score(NewHyp(h, a, r)) > 0.0
  {
    hide Stays, Repeats, ValidScorer, Prob, Skipped;
    PartsNonNegative(h, a, r);
    ProductPositive(Prob(a.p, c), BaseOf(h, q, c));
  }

  /** A frame never loses all mass if the blank is offered and not skipped, or if there is no scorer. */
  lemma MassRemains(h: Hyps, a: Pass)
    requires NonNegative(h) && ValidPass(a) && HasMass(h) && a.kept != []
    requires || (a.g.blank in a.kept && forall q | q in h :: !Skipped(h, a, q, a.g.blank))
             || (a.g.scorer.None? && a.g.dict.None? && !a.full && a.g.blank < ROOT)
    ensures HasMass(Expand(h, a))
  {
    hide Prob, ValidScorer, Permits;
    var q :| q in h && Score(h[q]) > 0.0;
    if a.g.blank in a.kept {
      assert Visited(h, a, q, a.g.blank);
      BlankKeepsMass(h, a, q);
    } else {
      var c := a.kept[0];
      assert c in a.kept;
      LabelKeepsMass(h, a, q, c);
    }
  }

  /** Neither does a cut. */
  lemma CutKeepsMass(h: Hyps, h': Hyps, k: nat)
    requires IsCut(h, h', k) && HasMass(h) && k > 0
    ensures HasMass(h')
  {
    var q :| q in h && Score(h[q]) > 0.0;
    if q !in h' {
      SomeKey(h');
      var r :| r in h';
      assert !Ahead(h, q, r);
    }
  }

  lemma SomeKey(h: Hyps)
    requires |h| > 0
    ensures exists q :: q in h
  {
    assert h.Keys != {};
  }

  // ----- timesteps

  /** The heaviest part decides the timesteps, in whatever order the parts come: if that is the extension a new one is
      put, if it is the repeat none is.  When the blank outweighs both, it counts only if it comes behind the label. */
  lemma TimesRule(h: Hyps, a: Pass, q: seq<nat>)
    requires NonNegative(h) && ValidPass(a) && q != [] && Front(q) in h
    ensures var s, r, g := Stays(h, a, q), Repeats(h, a, q), Grows(h, a, q);
            && (r < g && s <= r + g ==> NewTimes(h, a, q) == h[Front(q)].times + [a.t])
            && (g < r ==> q in h && NewTimes(h, a, q) == h[q].times)
            && (r < g && r + g < s && !Precedes(a.kept, Last(q), a.g.blank) ==>
                  NewTimes(h, a, q) == h[Front(q)].times + [a.t])
            && (r + g < s && Precedes(a.kept, Last(q), a.g.blank) ==> q in h && NewTimes(h, a, q) == h[q].times)
  {
    hide Offer, Prob, Skipped, Precedes, ValidPass;
    PartsNonNegative(h, a, q);
  }

  // ----- the cutoff

  function AtLeastOne(beta: real): real {
    if beta > 1.0 then beta else 1.0
  }

  /** A score, times the blank probability, over max(1, exp(beta)). */
  function CutoffOf(score: real, probBlank: real, beta: real): real {
    score * probBlank / AtLeastOne(beta)
  }

  /** The smaller of two products: without and with division by exp(beta). */
  lemma CutoffIsSmaller(score: real, probBlank: real, beta: real)
    requires score >= 0.0 && probBlank >= 0.0 && beta > 0.0
    ensures var least, product := CutoffOf(score, probBlank, beta), score * probBlank;
            && least <= product && least * beta <= product
            && (least == product || least * beta == product)
  {
    MulMonotone(score, 0.0, probBlank);
    Shrinks(score * probBlank, AtLeastOne(beta));
    if beta <= 1.0 { MulMonotone(score * probBlank, beta, 1.0); }
  }

  /** The cutoff of a sequence. */
  function CutoffAt(h: Hyps, q: seq<nat>, probBlank: real, beta: real): real
    requires q in h
  {
    CutoffOf(Score(h[q]), probBlank, beta)
  }

  ghost predicate IsCutoff(h: Hyps, probBlank: real, beta: real, min: real) {
    exists q :: Lowest(h, q) && min == CutoffAt(h, q, probBlank, beta)
  }

  /** For no sequence the blank is below the cutoff. */
  lemma BlankIsNeverSkipped(h: Hyps, a: Pass, probBlank: real, beta: real, q: seq<nat>)
    requires NonNegative(h) && IsCutoff(h, probBlank, beta, a.min) && 0.0 <= probBlank <= Prob(a.p, a.g.blank)
    ensures !Skipped(h, a, q, a.g.blank)
  {
    hide Prob, CutoffAt, Score, NonNegative;
    if q in h {
      var r :| Lowest(h, r) && a.min == CutoffAt(h, r, probBlank, beta);
      ScoreNonNegative(h, r);
      CutoffBelow(h, r, q, probBlank, Prob(a.p, a.g.blank), beta);
    }
  }

  lemma ScoreNonNegative(h: Hyps, q: seq<nat>)
    requires NonNegative(h) && q in h
    ensures Score(h[q]) >= 0.0
  {
  }

  lemma CutoffBelow(h: Hyps, r: seq<nat>, q: seq<nat>, pb: real, pf: real, beta: real)
    requires r in h && q in h && 0.0 <= Score(h[r]) <= Score(h[q]) && 0.0 <= pb <= pf
    ensures 0.0 <= CutoffAt(h, r, pb, beta) <= pf * Score(h[q])
  {
    DividedProduct(Score(h[r]), Score(h[q]), pb, pf, AtLeastOne(beta));
  }

  lemma DividedProduct(low: real, high: real, pb: real, pf: real, m: real)
    requires 0.0 <= low <= high && 0.0 <= pb <= pf && m >= 1.0
    ensures 0.0 <= low * pb / m <= pf * high
  {
    MulMonotone(pb, low, high);
    MulMonotone(high, pb, pf);
    MulMonotone(low, 0.0, pb);
    Shrinks(low * pb, m);
  }

  lemma Shrinks(a: real, m: real)
    requires a >= 0.0 && m >= 1.0
    ensures 0.0 <= a / m <= a && a / m * m == a
  {
    var r := a / m;
    assert r * m == a;
    if r < 0.0 { assert false; }
    MulMonotone(r, 1.0, m);
  }

  // ----- counting

  ghost function Positive(h: Hyps): nat {
    |set q | q in h && Score(h[q]) > 0.0|
  }

  lemma MassCounts(h: Hyps)
    ensures HasMass(h) <==> Positive(h) > 0
  {
    var pos := set q | q in h && Score(h[q]) > 0.0;
    if HasMass(h) {
      var q :| q in h && Score(h[q]) > 0.0;
      assert q in pos;
    } else {
      assert pos == {};
    }
  }
}
