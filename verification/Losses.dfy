/** Three short runs of the decoder that do not end as one would like: the break of a full beam drops the best
    transcript, decoding fails when it is asked for more transcripts than have mass, and a limit on the number of
    classes that leaves out none changes the timesteps. */
module Losses {
  import opened Basics
  import opened TrieOps
  import opened Ctc
  import opened Beam
  import opened BeamCtc
  import opened BeamTotal
  import opened Selection
  import opened Hypotheses
  import opened BeamShown
  import opened Decoder
  import opened BeamSearch
  import opened CutoffRule

  // ----- evaluating a frame

  lemma Tiny()
    ensures 0.0 < NUM_FLT_MIN < 0.0001
  {
  }

  lemma Bounds(x: real, y: real, xl: real, xh: real, yl: real, yh: real)
    requires 0.0 <= xl <= x <= xh && 0.0 <= yl <= y <= yh
    ensures xl * yl <= x * y <= xh * yh
  {
    MulMonotone(xl, yl, y);
    MulMonotone(y, xl, x);
    MulMonotone(x, y, yh);
    MulMonotone(yh, x, xh);
  }

  /** All classes are offered. */
  lemma AllKept(cfg: Config, prob: seq<real>, h: Hyps, a: Pass, c: nat)
    requires IsPass(cfg, None, prob, a.t, h, a) && cfg.cutoffProb >= 1.0 && c <= cfg.blank
    ensures c in a.kept && Prob(a.p, c) == prob[c] + NUM_FLT_MIN
  {
    hide IsCutoff, Floored;
    FlooredValid(prob, cfg.blank);
  }

  // ----- asking for too many transcripts

  const HALVES: seq<real> := [0.5, 0.5]
  const FOUR_PLACES: Config := Config(1, 4, 1.0, 40, None)

  ghost predicate AfterHalves(h: Hyps) {
    && h.Keys == {[], [0]}
    && Weighs(h[[]], 0.5 + NUM_FLT_MIN, 0.0) && Weighs(h[[0]], 0.0, 0.5 + NUM_FLT_MIN)
  }

  /** With one label, a sequence is a candidate if it is there or one longer than one that has mass. */
  lemma HalvesCandidate(h: Hyps, a: Pass, q: seq<nat>)
    requires IsPass(FOUR_PLACES, None, HALVES, a.t, h, a)
    ensures q in Candidates(h, a) <==>
              q in h || (q != [] && Last(q) == 0 && Front(q) in h && Score(h[Front(q)]) > 0.0)
  {
    hide Candidates, Prob, IsCutoff, Choice, Floored, Lists, NewTimes;
    AllKept(FOUR_PLACES, HALVES, h, a, 0);
    CandidateIff(h, a, q);
  }

  lemma FirstHalves(a: Pass)
    requires IsPass(FOUR_PLACES, None, HALVES, a.t, START, a)
    ensures AfterHalves(Expand(START, a)) && |Expand(START, a)| == 2
  {
    hide Candidates, IsPass, START, NewHyp;
    StartIs();
    forall q ensures q in Candidates(START, a) <==> q in {[], [0]} {
      HalvesCandidate(START, a, q);
      if q != [] && Front(q) == [] { assert q == [Last(q)]; }
      if q == [0] { assert Front(q) == [] && Last(q) == 0; }
    }
    assert Expand(START, a).Keys == {[], [0]};
    assert [0] != [];
    FirstHalfMasses(a);
  }

  lemma FirstHalfMasses(a: Pass)
    requires IsPass(FOUR_PLACES, None, HALVES, a.t, START, a)
    ensures Weighs(NewHyp(START, a, []), 0.5 + NUM_FLT_MIN, 0.0)
    ensures Weighs(NewHyp(START, a, [0]), 0.0, 0.5 + NUM_FLT_MIN)
  {
    hide Prob, START, IsCutoff, Choice, Floored, Lists, NewTimes;
    StartIs();
    AllKept(FOUR_PLACES, HALVES, START, a, 0);
    AllKept(FOUR_PLACES, HALVES, START, a, 1);
    assert Front([0]) == [] && Last([0]) == 0 && [0] !in START;
  }

  /** The double label is there, without mass. */
  lemma SecondHalves(h: Hyps, a: Pass)
    requires AfterHalves(h) && IsPass(FOUR_PLACES, None, HALVES, a.t, h, a)
    ensures Expand(h, a).Keys == {[], [0], [0, 0]} && Score(Expand(h, a)[[0, 0]]) == 0.0
  {
    hide Candidates, IsPass, NewHyp;
    Tiny();
    forall q ensures q in Candidates(h, a) <==> q in {[], [0], [0, 0]} {
      HalvesCandidate(h, a, q);
      if q != [] { assert q == Front(q) + [Last(q)]; }
      if q == [0, 0] { assert Front(q) == [0] && Last(q) == 0; }
    }
    assert Expand(h, a).Keys == {[], [0], [0, 0]};
    DoubleHasNothing(h, a);
  }

  lemma DoubleHasNothing(h: Hyps, a: Pass)
    requires AfterHalves(h)
    ensures Score(NewHyp(h, a, [0, 0])) == 0.0
  {
    hide Prob, ExtendFactor, Skipped;
    assert Front([0, 0]) == [0] && Last([0, 0]) == 0 && [0, 0] !in h;
    NoMass(Prob(a.p, 0), BaseOf(h, [0], 0), ExtendFactor(a.g.scorer, [0], 0));
  }

  lemma TwoPositive(h: Hyps)
    requires h.Keys == {[], [0], [0, 0]} && Score(h[[0, 0]]) == 0.0
    ensures |h| == 3 && Positive(h) <= 2
  {
    var few: set<seq<nat>> := {[], [0]};
    assert [0, 0] !in few && |few| == 2;
    assert h.Keys == few + {[0, 0]};
    var pos := set q | q in h && Score(h[q]) > 0.0;
    assert pos <= few;
    Subset(pos, few);
  }

  /** One label and a blank, equally likely in both frames, a beam that is never cut and no scorer: three transcripts
      cannot be decoded, because the label twice is in the beam without mass or timesteps. */
  method DecodeFails() returns (r: Option<seq<Output>>)
    ensures r.None?
  {
    hide Sound, Advances, Started, Expand, START, Positive, Trie.Valid, AreOutputs, Timed, LiveMass, Total, Floored,
      Scaled;
    var state := new DecoderState(FOUR_PLACES, None);
    ghost var lossy;
    var ok;
    ok, lossy := state.NextFrame(HALVES);
    AfterFirst(0, state.hyps);
    AsManyHyps(state);
    ghost var h1 := state.hyps;
    ok, lossy := state.NextFrame(HALVES);
    AfterSecond(1, h1, state.hyps);
    AsManyHyps(state);
    ghost var chosen, rescored;
    r, chosen, rescored := state.Decode(3);
  }

  lemma AfterFirst(t: nat, h: Hyps)
    requires Advances(FOUR_PLACES, None, HALVES, t, START, h)
    ensures AfterHalves(h) && |h| == 2
  {
    hide IsPass, Expand, START, AfterHalves;
    var a :| IsPass(FOUR_PLACES, None, HALVES, t, START, a) && Fitted(Expand(START, a), h, 4);
    PassIsAt(FOUR_PLACES, None, HALVES, t, START, a);
    FirstHalves(a);
  }

  lemma AfterSecond(t: nat, h: Hyps, h': Hyps)
    requires AfterHalves(h)
    requires Advances(FOUR_PLACES, None, HALVES, t, h, h')
    ensures |h'| == 3 && Positive(h') <= 2
  {
    hide IsPass, Expand, Positive, AfterHalves;
    var a :| IsPass(FOUR_PLACES, None, HALVES, t, h, a) && Fitted(Expand(h, a), h', 4);
    PassIsAt(FOUR_PLACES, None, HALVES, t, h, a);
    SecondHalves(h, a);
    TwoPositive(Expand(h, a));
  }

  // ----- the break drops the best transcript

  /** A scorer whose factors are all one. */
  const PLAIN: Scorer := Scorer(false, 1.0, (p, c) => false, p => 1.0, p => 1.0)
  const TWO_PLACES: Config := Config(2, 2, 1.0, 40, Some(PLAIN))
  const ROW1: seq<real> := [1.0 / 3.0, 0.0, 2.0 / 3.0]
  const ROW2: seq<real> := [0.2, 0.3, 0.5]

  lemma PlainFactors(path: seq<nat>, c: nat)
    ensures ExtendFactor(Some(PLAIN), path, c) == 1.0 && FinalFactor(Some(PLAIN), path) == 1.0
  {
  }

  lemma {:induction false} PlainLm(path: seq<nat>)
    ensures Lm(Some(PLAIN), path) == 1.0
  {
    hide ExtendFactor;
    if path != [] {
      PlainLm(path[..|path| - 1]);
      PlainFactors(path[..|path| - 1], path[|path| - 1]);
    }
  }

  lemma FirstKeys(a: Pass)
    requires IsPass(TWO_PLACES, None, ROW1, a.t, START, a) && !a.full
    ensures Candidates(START, a) == {[], [0], [1]}
  {
    hide Candidates, Prob, START, IsCutoff, Choice, Floored, ExtendFactor, Lists, NewTimes;
    StartIs();
    AllKept(TWO_PLACES, ROW1, START, a, 0);
    AllKept(TWO_PLACES, ROW1, START, a, 1);
    forall q ensures q in Candidates(START, a) <==> q in {[], [0], [1]} {
      CandidateIff(START, a, q);
      if q != [] && Front(q) == [] { assert q == [Last(q)]; }
      if q == [0] || q == [1] { assert Front(q) == []; }
    }
  }

  lemma FirstScores(a: Pass)
    requires IsPass(TWO_PLACES, None, ROW1, a.t, START, a) && !a.full
    ensures Weighs(NewHyp(START, a, []), 2.0 / 3.0 + NUM_FLT_MIN, 0.0)
    ensures Weighs(NewHyp(START, a, [0]), 0.0, 1.0 / 3.0 + NUM_FLT_MIN)
    ensures Weighs(NewHyp(START, a, [1]), 0.0, NUM_FLT_MIN)
  {
    hide Prob, START, IsCutoff, Choice, Floored, ExtendFactor, Lists, NewTimes;
    StartIs();
    AllKept(TWO_PLACES, ROW1, START, a, 0);
    AllKept(TWO_PLACES, ROW1, START, a, 1);
    AllKept(TWO_PLACES, ROW1, START, a, 2);
    PlainFactors([], 0);
    PlainFactors([], 1);
    assert Front([0]) == [] && Last([0]) == 0 && Front([1]) == [] && Last([1]) == 1;
    assert [0] !in START && [1] !in START;
  }

  /** The masses after the first frame: of the empty sequence, 0 and 1. */
  lemma FirstRow(a: Pass)
    requires IsPass(TWO_PLACES, None, ROW1, a.t, START, a)
    ensures var h, e := Expand(START, a), NUM_FLT_MIN;
            && h.Keys == {[], [0], [1]} && |h| == 3
            && Weighs(h[[]], 2.0 / 3.0 + e, 0.0) && Weighs(h[[0]], 0.0, 1.0 / 3.0 + e) && Weighs(h[[1]], 0.0, e)
  {
    hide Candidates, START, IsCutoff, Choice, Floored, NewHyp, Lists, NewTimes;
    StartIs();
    FirstKeys(a);
    FirstScores(a);
    var keys: set<seq<nat>> := {[], [0], [1]};
    assert [1] !in {[], [0]} && |keys| == 3;
    assert Expand(START, a).Keys == keys;
  }

  /** The lowest of three does not survive the cut to two. */
  lemma CutToTwo(h: Hyps, h': Hyps, x: seq<nat>, y: seq<nat>, low: seq<nat>)
    requires x != y && x != low && y != low && h.Keys == {x, y, low} && IsCut(h, h', 2)
    requires Score(h[x]) > Score(h[low]) && Score(h[y]) > Score(h[low])
    ensures h'.Keys == {x, y} && h'[x] == h[x] && h'[y] == h[y]
  {
    var two: set<seq<nat>> := {x, y};
    assert |two| == 2;
    if low in h' {
      assert !Ahead(h, x, low) || x in h';
      assert !Ahead(h, y, low) || y in h';
      assert two + {low} <= h'.Keys && low !in two;
      Subset(two + {low}, h'.Keys);
      assert false;
    }
    assert h'.Keys <= two;
    SameSize(h'.Keys, two);
  }

  lemma SameSize(x: set<seq<nat>>, y: set<seq<nat>>)
    requires x <= y && |x| == |y|
    ensures x == y
  {
    if q :| q in y && q !in x {
      Subset(x, y - {q});
      assert false;
    }
  }

  ghost predicate AfterRow1(h: Hyps) {
    && h.Keys == {[], [0]}
    && Weighs(h[[]], 2.0 / 3.0 + NUM_FLT_MIN, 0.0) && Weighs(h[[0]], 0.0, 1.0 / 3.0 + NUM_FLT_MIN)
  }

  lemma FirstStep(t: nat, h: Hyps)
    requires Advances(TWO_PLACES, None, ROW1, t, START, h)
    ensures AfterRow1(h)
  {
    hide IsPass, Expand, START, IsCut;
    Tiny();
    var a :| IsPass(TWO_PLACES, None, ROW1, t, START, a) && Fitted(Expand(START, a), h, 2);
    PassIsAt(TWO_PLACES, None, ROW1, t, START, a);
    FirstRow(a);
    CutToTwo(Expand(START, a), h, [], [0], [1]);
  }

  /** In the second frame class 0 is skipped for both prefixes. */
  lemma SecondSkips(h: Hyps, a: Pass)
    requires AfterRow1(h) && IsPass(TWO_PLACES, None, ROW2, a.t, h, a)
    ensures Skipped(h, a, [], 0) && Skipped(h, a, [0], 0) && Skipped(h, a, [0], 1) && !Skipped(h, a, [], 1)
    ensures !Skipped(h, a, [], 2) && !Skipped(h, a, [0], 2)
  {
    hide Prob, Choice, Floored, Lists, NewTimes;
    Tiny();
    var two: set<seq<nat>> := {[], [0]};
    assert [0] != [] && |two| == 2 && h.Keys == two;
    AllKept(TWO_PLACES, ROW2, h, a, 0);
    AllKept(TWO_PLACES, ROW2, h, a, 1);
    var q :| Lowest(h, q) && a.min == CutoffAt(h, q, 0.5, 1.0);
    assert q == [0];
    var e := NUM_FLT_MIN;
    assert a.min == (1.0 / 3.0 + e) * 0.5;
    Bounds(0.2 + e, 2.0 / 3.0 + e, 0.2, 0.2001, 0.6666, 0.6668);
    Bounds(0.2 + e, 1.0 / 3.0 + e, 0.2, 0.2001, 0.3333, 0.3335);
    Bounds(0.3 + e, 1.0 / 3.0 + e, 0.3, 0.3001, 0.3333, 0.3335);
    Bounds(0.3 + e, 2.0 / 3.0 + e, 0.3, 0.3001, 0.6666, 0.6668);
    AllKept(TWO_PLACES, ROW2, h, a, 2);
    Bounds(0.5 + e, 2.0 / 3.0 + e, 0.5, 0.5001, 0.6666, 0.6668);
    MulMonotone(1.0 / 3.0 + e, 0.5, 0.5 + e);
  }

  lemma SecondKeys(h: Hyps, a: Pass)
    requires AfterRow1(h) && IsPass(TWO_PLACES, None, ROW2, a.t, h, a)
    ensures Candidates(h, a) == {[], [1], [0]}
  {
    hide Candidates, Prob, IsCutoff, Choice, Floored, ExtendFactor, Skipped, Lists, NewTimes;
    Tiny();
    SecondSkips(h, a);
    AllKept(TWO_PLACES, ROW2, h, a, 1);
    forall q ensures q in Candidates(h, a) <==> q in {[], [1], [0]} {
      CandidateIff(h, a, q);
      if q != [] { assert q == Front(q) + [Last(q)]; }
      if q == [1] { assert Front(q) == [] && Last(q) == 1; }
    }
  }

  lemma SecondScores(h: Hyps, a: Pass)
    requires AfterRow1(h) && IsPass(TWO_PLACES, None, ROW2, a.t, h, a)
    ensures Score(NewHyp(h, a, [0])) < 0.17 && 0.19 < Score(NewHyp(h, a, [1])) <= 0.34
    ensures 0.33 < Score(NewHyp(h, a, [])) <= 0.34
  {
    hide Prob, IsCutoff, Choice, Floored, ExtendFactor, Skipped, Lists, NewTimes;
    Tiny();
    var e := NUM_FLT_MIN;
    SecondSkips(h, a);
    AllKept(TWO_PLACES, ROW2, h, a, 1);
    AllKept(TWO_PLACES, ROW2, h, a, 2);
    PlainFactors([], 1);
    assert Front([0]) == [] && Last([0]) == 0 && Front([1]) == [] && Last([1]) == 1;
    assert [1] !in h;
    Bounds(0.5 + e, 2.0 / 3.0 + e, 0.5, 0.5001, 0.6666, 0.6668);
    Bounds(0.5 + e, 1.0 / 3.0 + e, 0.5, 0.5001, 0.3333, 0.3335);
    Bounds(0.3 + e, 2.0 / 3.0 + e, 0.3, 0.3001, 0.6666, 0.6668);
  }

  /** So the sequence 0 ends the frame below the other two, and none with more than 0.34. */
  lemma SecondRow(h: Hyps, a: Pass)
    requires AfterRow1(h) && IsPass(TWO_PLACES, None, ROW2, a.t, h, a)
    ensures var u := Expand(h, a);
            && u.Keys == {[], [1], [0]} && |u| == 3
            && Score(u[[0]]) < 0.17 && 0.19 < Score(u[[1]]) <= 0.34 && 0.33 < Score(u[[]]) <= 0.34
  {
    hide AfterRow1, IsPass, NewHyp, Candidates;
    SecondKeys(h, a);
    SecondScores(h, a);
    var keys: set<seq<nat>> := {[], [1], [0]};
    assert [0] !in {[], [1]} && |keys| == 3;
    assert Expand(h, a).Keys == keys;
  }

  lemma SecondStep(t: nat, h: Hyps, h': Hyps)
    requires AfterRow1(h) && Advances(TWO_PLACES, None, ROW2, t, h, h')
    ensures [0] !in h' && forall q | q in h' :: Score(h'[q]) <= 0.34
  {
    hide IsPass, NewHyp, Candidates, AfterRow1, Expand;
    var a :| IsPass(TWO_PLACES, None, ROW2, t, h, a) && Fitted(Expand(h, a), h', 2);
    PassIsAt(TWO_PLACES, None, ROW2, t, h, a);
    SecondRow(h, a);
    CutToTwo(Expand(h, a), h', [], [1], [0]);
  }

  /** The sequence 0 is worth more. */
  lemma WorthOfZero()
    ensures Worth([Floored(ROW1), Floored(ROW2)], Setting(2, Some(PLAIN), None), [0]) > 0.36
  {
    hide Mass, Lm, FinalFactor, Prob, Floored;
    var p1, p2, e := Floored(ROW1), Floored(ROW2), NUM_FLT_MIN;
    Tiny();
    FlooredValid(ROW1, 2);
    FlooredValid(ROW2, 2);
    PlainLm([0]);
    PlainFactors([0], 0);
    assert [] + [p1] == [p1] && [p1] + [p2] == [p1, p2] && [] + [0] == [0];
    MassInitially(2, [], true);
    MassInitially(2, [], false);
    MassInitially(2, [0], true);
    MassInitially(2, [0], false);
    MassBlankStep([], p1, 2, []);
    MassLabelZero([], p1, 2, []);
    MassBlankStep([], p1, 2, [0]);
    MassLabelStep([], p1, 2, [], 0);
    MassBlankStep([p1], p2, 2, [0]);
    MassLabelStep([p1], p2, 2, [], 0);
    Bounds(1.0 / 3.0 + e, 0.5 + e, 0.3333, 0.3335, 0.5, 0.5001);
    Bounds(1.0 / 3.0 + e, 0.2 + e, 0.3333, 0.3335, 0.2, 0.2001);
    Bounds(2.0 / 3.0 + e, 0.2 + e, 0.6666, 0.6668, 0.2, 0.2001);
  }

  /** Two labels, a beam of two, all classes offered and a scorer that changes nothing: after two frames the decoder
      returns a transcript, but the sequence 0, which it dropped, is worth more.  The scorer is fair. */
  method BreakLosesTheBest() returns (r: Option<seq<Output>>)
    ensures Fair(PLAIN, 2) && r.Some? && |r.value| == 1
    ensures r.value[0].tokens != [0]
    ensures Worth([Floored(ROW1), Floored(ROW2)], Setting(2, Some(PLAIN), None), [0]) > r.value[0].confidence
  {
    hide Sound, Advances, Started, START, Positive, Trie.Valid, AreOutputs, Timed, LiveMass, Total, Floored, Scaled,
      DecoderState.Rescored;
    hide AfterRow1, Worth, FinalScores, SortedTo, Fair;
    NeverRaisesIsFair(PLAIN, 2);
    var state := new DecoderState(TWO_PLACES, None);
    ghost var lossy;
    var ok;
    ok, lossy := state.NextFrame(ROW1);
    FirstStep(0, state.hyps);
    ghost var h1 := state.hyps;
    ok, lossy := state.NextFrame(ROW2);
    SecondStep(1, h1, state.hyps);
    RoomEnough(state);
    ghost var chosen, rescored;
    r, chosen, rescored := state.Decode(1);
    RescoredIs(state, rescored);
    OutputFromHyps(state, chosen, rescored, r.value, 0);
    PlainFactors(r.value[0].tokens, 0);
    WorthOfZero();
  }

  // ----- timesteps follow the order of the classes

  const FIRST: seq<real> := [0.4, 0.6]
  const SECOND: seq<real> := [0.2, 0.8]

  /** One label, a beam that is never cut, all classes offered and no scorer. */
  function Offering(topN: nat): Config { Config(1, 4, 1.0, topN, None) }

  ghost predicate AfterFirstFrame(h: Hyps) {
    && h.Keys == {[], [0]}
    && h[[]] == Hyp(0.6 + NUM_FLT_MIN, 0.0, []) && h[[0]] == Hyp(0.0, 0.4 + NUM_FLT_MIN, [0])
  }

  lemma OneLabelCandidate(topN: nat, prob: seq<real>, t: nat, h: Hyps, a: Pass, q: seq<nat>)
    requires IsPass(Offering(topN), None, prob, t, h, a)
    ensures q in Candidates(h, a) <==>
              q in h || (q != [] && Last(q) == 0 && Front(q) in h && Score(h[Front(q)]) > 0.0)
  {
    hide Candidates, Prob, IsCutoff, Choice, Floored, Lists, NewTimes;
    AllKept(Offering(topN), prob, h, a, 0);
    CandidateIff(h, a, q);
  }

  lemma FirstTimes(topN: nat, a: Pass)
    requires IsPass(Offering(topN), None, FIRST, 0, START, a)
    ensures NewHyp(START, a, []) == Hyp(0.6 + NUM_FLT_MIN, 0.0, [])
    ensures NewHyp(START, a, [0]) == Hyp(0.0, 0.4 + NUM_FLT_MIN, [0])
  {
    hide Prob, START, IsCutoff, Choice, Floored, Lists, Precedes;
    StartIs();
    Tiny();
    AllKept(Offering(topN), FIRST, START, a, 0);
    AllKept(Offering(topN), FIRST, START, a, 1);
    assert Front([0]) == [] && Last([0]) == 0 && [0] !in START;
  }

  lemma FirstFrame(topN: nat, h: Hyps)
    requires Advances(Offering(topN), None, FIRST, 0, START, h)
    ensures AfterFirstFrame(h) && |h| == 2
  {
    hide IsPass, Candidates, START, NewHyp;
    StartIs();
    var a :| IsPass(Offering(topN), None, FIRST, 0, START, a) && Fitted(Expand(START, a), h, 4);
    forall q ensures q in Candidates(START, a) <==> q in {[], [0]} {
      OneLabelCandidate(topN, FIRST, 0, START, a, q);
      if q != [] && Front(q) == [] { assert q == [Last(q)]; }
      if q == [0] { assert Front(q) == [] && Last(q) == 0; }
    }
    assert Expand(START, a).Keys == {[], [0]};
    assert [0] != [];
    FirstTimes(topN, a);
  }

  /** The order of the two classes in the second frame. */
  lemma ClassOrder(topN: nat, h: Hyps, a: Pass)
    requires IsPass(Offering(topN), None, SECOND, 1, h, a) && topN in {1, 2}
    ensures Precedes(a.kept, 0, 1) <==> topN == 2
  {
    hide IsCutoff, Lists, Floored;
    if topN == 2 { assert a.kept[0] == 0 && a.kept[1] == 1; }
  }

  lemma SecondParts(topN: nat, h: Hyps, a: Pass)
    requires AfterFirstFrame(h) && IsPass(Offering(topN), None, SECOND, 1, h, a)
    ensures 0.31 < Stays(h, a, [0]) < 0.33 && 0.07 < Repeats(h, a, [0]) < 0.09 && 0.11 < Grows(h, a, [0]) < 0.13
    ensures Score(NewHyp(h, a, [])) < 0.49
  {
    hide Prob, IsCutoff, Choice, Floored, Lists, Precedes, NewTimes;
    var e := NUM_FLT_MIN;
    Tiny();
    AllKept(Offering(topN), SECOND, h, a, 0);
    AllKept(Offering(topN), SECOND, h, a, 1);
    assert Front([0]) == [] && Last([0]) == 0;
    Bounds(0.8 + e, 0.4 + e, 0.8, 0.8001, 0.4, 0.4001);
    Bounds(0.2 + e, 0.4 + e, 0.2, 0.2001, 0.4, 0.4001);
    Bounds(0.2 + e, 0.6 + e, 0.2, 0.2001, 0.6, 0.6001);
    Bounds(0.8 + e, 0.6 + e, 0.8, 0.8001, 0.6, 0.6001);
  }

  /** The blank outweighs repeating and growing.  It takes the record away only if it comes behind the label. */
  lemma SecondTimes(topN: nat, h: Hyps, a: Pass)
    requires AfterFirstFrame(h) && IsPass(Offering(topN), None, SECOND, 1, h, a) && topN in {1, 2}
    ensures NewTimes(h, a, [0]) == if topN == 1 then [1] else [0]
    ensures Score(NewHyp(h, a, [0])) > 0.49
  {
    hide Stays, Repeats, Grows, IsCutoff, Choice, Floored, Lists, Precedes;
    SecondParts(topN, h, a);
    ClassOrder(topN, h, a);
    assert Front([0]) == [] && Last([0]) == 0;
  }

  lemma DoubledHasNothing(h: Hyps, a: Pass)
    requires AfterFirstFrame(h)
    ensures Score(NewHyp(h, a, [0, 0])) == 0.0
  {
    hide Prob, ExtendFactor, Skipped, NewTimes;
    assert Front([0, 0]) == [0] && Last([0, 0]) == 0 && [0, 0] !in h;
    NoMass(Prob(a.p, 0), BaseOf(h, [0], 0), ExtendFactor(a.g.scorer, [0], 0));
  }

  lemma SecondFrame(topN: nat, h: Hyps, h': Hyps)
    requires AfterFirstFrame(h) && Advances(Offering(topN), None, SECOND, 1, h, h') && topN in {1, 2}
    ensures |h'| == 3 && [0] in h' && h'[[0]].times == (if topN == 1 then [1] else [0]) && Score(h'[[0]]) > 0.49
    ensures forall q | q in h' && q != [0] :: Score(h'[q]) < 0.49
  {
    hide IsPass, Candidates, NewTimes, Stays, Repeats, Grows;
    Tiny();
    var a :| IsPass(Offering(topN), None, SECOND, 1, h, a) && Fitted(Expand(h, a), h', 4);
    var keys: set<seq<nat>> := {[], [0], [0, 0]};
    forall q ensures q in Candidates(h, a) <==> q in keys {
      OneLabelCandidate(topN, SECOND, 1, h, a, q);
      if q != [] { assert q == Front(q) + [Last(q)]; }
      if q == [0, 0] { assert Front(q) == [0] && Last(q) == 0; }
    }
    assert Expand(h, a).Keys == keys;
    assert [0, 0] !in {[], [0]} && |keys| == 3;
    SecondParts(topN, h, a);
    SecondTimes(topN, h, a);
    DoubledHasNothing(h, a);
  }

  lemma RunOfTwo(topN: nat, h: Hyps)
    requires Runs(Offering(topN), None, false, 0, [FIRST, SECOND], START, h) && topN in {1, 2}
    ensures |h| == 3 && [0] in h && h[[0]].times == (if topN == 1 then [1] else [0]) && Score(h[[0]]) > 0.49
    ensures forall q | q in h && q != [0] :: Score(h[q]) < 0.49
  {
    hide Advances, START, AfterFirstFrame;
    var cfg, two, one := Offering(topN), [FIRST, SECOND], [FIRST];
    assert two[..1] == one && one[..0] == [];
    assert Started(false, one, 1) && Started(false, two, 1);
    var mid :| Runs(cfg, None, false, 0, one, START, mid) && Advances(cfg, None, SECOND, 1, mid, h);
    var start :| Runs(cfg, None, false, 0, one[..0], START, start) && Advances(cfg, None, FIRST, 0, start, mid);
    FirstFrame(topN, mid);
    SecondFrame(topN, mid, h);
  }

  /** Both classes are offered in every frame, whether the limit on their number is two or one.  The transcript is the
      label; with a limit of two it is heard in the first frame, with a limit of one in the second. */
  method TimesFollowOrder(topN: nat) returns (r: Option<seq<Output>>)
    requires topN in {1, 2}
    ensures r.Some? && |r.value| == 1 && r.value[0].tokens == [0]
    ensures r.value[0].timesteps == if topN == 1 then [1] else [0]
  {
    hide Started, Expanding, Confident, Best, RoomFor, START, Positive, Runs;
    var cfg := Offering(topN);
    ghost var over, h;
    r, over, h := CtcBeamSearchDecoder(cfg, None, [FIRST, SECOND], 1);
    RunOfTwo(topN, h);
  }
}
