/** The decoder from end to end, and what holds of its trie between frames. */
module BeamSearch {
  import opened Basics
  import opened PathTrie
  import opened TrieOps
  import opened Ctc
  import opened Beam
  import opened BeamCtc
  import opened BeamGrowth
  import opened BeamTime
  import opened DictionaryWalk
  import opened FrameSteps
  import opened FrameEnd
  import opened Selection
  import opened Hypotheses
  import opened BeamShown
  import opened Decoder

  /** The CTC probability of a label sequence. */
  function CtcMass(fr: seq<Frame>, blank: nat, p: seq<nat>): real {
    Mass(fr, blank, p, true) + Mass(fr, blank, p, false)
  }

  /** What decoding multiplies a label sequence by at the end: its last unit is scored if it is not complete. */
  function FinalFactor(sc: Option<Scorer>, path: seq<nat>): real {
    match sc
    case None => 1.0
    case Some(x) =>
      var last := if path == [] then ROOT else path[|path| - 1];
      if x.utf8 then
        if x.boundary(path, last) then 1.0 else x.lmFinal(path) * x.beta
      else if path == [] || x.boundary(path[..|path| - 1], last) then 1.0
      else x.lmFinal(path) * x.beta
  }

  /** The objective of the search: CTC probability, times the scorer's factors along the sequence, times the
      final one. */
  function Worth(fr: seq<Frame>, g: Setting, p: seq<nat>): real {
    CtcMass(fr, g.blank, p) * Lm(g.scorer, p) * FinalFactor(g.scorer, p)
  }

  /** The confidence of a transcript never exceeds its worth; when nothing was lost it equals it. */
  ghost predicate Confident(fr: seq<Frame>, g: Setting, t: nat, o: Output, exact: bool) {
    && Permits(g.dict, o.tokens)
    && 0.0 <= o.confidence <= Worth(fr, g, o.tokens)
    && (exact ==> o.confidence == Worth(fr, g, o.tokens))
    && HistOk(o.timesteps, |o.tokens|, t)
  }

  /** No label sequence the dictionary permits is worth more than this one. */
  ghost predicate Best(fr: seq<Frame>, g: Setting, o: Output) {
    forall p: seq<nat> | Permits(g.dict, p) :: Worth(fr, g, p) <= o.confidence
  }

  /** What a hypothesis is worth in the end. */
  function FinalOf(h: Hyps, sc: Option<Scorer>, q: seq<nat>): real
    requires q in h
  {
    Score(h[q]) * FinalFactor(sc, q)
  }

  /** The transcripts are different hypotheses with their final scores, in falling order, and no other hypothesis has a
      higher one.  Those with mass come with the timesteps of their hypothesis. */
  ghost predicate Top(h: Hyps, sc: Option<Scorer>, outs: seq<Output>) {
    && (forall i | 0 <= i < |outs| ::
          && outs[i].tokens in h && outs[i].confidence == FinalOf(h, sc, outs[i].tokens)
          && (Score(h[outs[i].tokens]) > 0.0 ==> outs[i].timesteps == h[outs[i].tokens].times))
    && (forall i, j | 0 <= i < j < |outs| ::
          outs[i].tokens != outs[j].tokens && outs[i].confidence >= outs[j].confidence)
    && forall q, i | q in h && 0 <= i < |outs| ::
         (exists j :: 0 <= j < |outs| && outs[j].tokens == q) || FinalOf(h, sc, q) <= outs[i].confidence
  }

  /** ctc_beam_search_decoder.  Nothing is lost if all classes are offered and the beam has room for
      (blank + 1)^frames prefixes.  `h` is what the search on label sequences arrives at, and the transcripts are the
      best of it.  A beam without places only works as long as no frame is expanded. */
  method CtcBeamSearchDecoder(cfg: Config, dict: Option<Dictionary>, probs: seq<seq<real>>, numResults: nat)
      returns (r: Option<seq<Output>>, ghost overflowed: bool, ghost h: Hyps)
    requires ValidConfig(cfg) && (cfg.scorer.None? ==> dict.None?)
    requires forall i | 0 <= i < |probs| :: ValidProbs(probs[i], cfg.blank)
    ensures cfg.beamSize == 0 && Started(false, probs, cfg.blank) ==> r.None?
    ensures (cfg.scorer.None? || cfg.cutoffProb >= 1.0) && numResults <= 1 ==>
              (r.Some? <==> cfg.beamSize > 0 || !Started(false, probs, cfg.blank))
    ensures r.Some? ==> |r.value| <= numResults
    ensures cfg.beamSize > 0 && RoomFor(cfg, |Expanding(false, probs, cfg.blank)|) ==> !overflowed
    ensures cfg.beamSize > 0 && r.Some? ==> forall o | o in r.value ::
              Confident(Expanding(false, probs, cfg.blank), Setting(cfg.blank, cfg.scorer, dict), |probs|, o,
                        cfg.cutoffProb >= 1.0 && !overflowed)
    ensures cfg.beamSize > 0 && r.Some? && numResults > 0 && cfg.cutoffProb >= 1.0 && !overflowed ==>
              r.value != [] && Best(Expanding(false, probs, cfg.blank), Setting(cfg.blank, cfg.scorer, dict),
                r.value[0])
    ensures cfg.beamSize > 0 ==> Runs(cfg, dict, false, 0, probs, START, h)
    ensures cfg.beamSize > 0 && Min(|h|, numResults) <= Positive(h) ==> r.Some?
    ensures cfg.beamSize > 0 && cfg.cutoffProb >= 1.0 && !overflowed ==>
              (r.Some? <==> Min(|h|, numResults) <= Positive(h))
    ensures cfg.beamSize > 0 && r.Some? ==> |r.value| == Min(|h|, numResults) && Top(h, cfg.scorer, r.value)
  {
    hide Expanding, Started, Confident, Best, AreOutputs, SortedTo, ValidProbs, Sound, RoomFor, Trie.Valid,
      DecoderState.Rescored, START;
    hide Positive, Timed, ValidScorer, Runs, Top;
    overflowed, h := false, START;
    var state := new DecoderState(cfg, dict);
    var ok := state.Next(probs);
    if !ok { return None, true, START; }
    h := state.hyps;
    assert state.frames == Expanding(false, probs, cfg.blank);
    ghost var chosen, rescored;
    r, chosen, rescored := state.Decode(numResults);
    overflowed := state.overflowed;
    RoomEnough(state);
    AsManyHyps(state);
    if r.Some? && cfg.beamSize > 0 {
      RescoredIs(state, rescored);
      AllOutputs(state, chosen, rescored, Min(|state.prefixes|, numResults), r.value,
        cfg.cutoffProb >= 1.0 && !overflowed);
      OutputsAreTop(state, chosen, rescored, r.value);
    }
  }

  lemma RoomEnough(state: DecoderState)
    requires state.Valid()
    ensures RoomFor(state.cfg, |state.frames|) ==> !state.overflowed
    ensures |state.prefixes| >= 1
  {
    hide Rested, Shows, Spelled, HasMass, Bounded, Exact, Timely, START, RoomFor;
  }

  /** Without a scorer the objective is the CTC probability. */
  lemma {:induction false} PlainWorth(fr: seq<Frame>, blank: nat, dict: Option<Dictionary>, p: seq<nat>)
    ensures Lm(None, p) == 1.0 && Worth(fr, Setting(blank, None, dict), p) == CtcMass(fr, blank, p)
  {
    hide Mass;
    if p != [] { PlainWorth(fr, blank, dict, p[..|p| - 1]); }
  }

  // ----- final scores

  /** The nodes with their final scores. */
  ghost predicate FinalScores(w: View, scores: map<NodeId, Node>, sc: Option<Scorer>) {
    && scores.Keys == w.nodes.Keys && w.paths.Keys == w.nodes.Keys
    && forall n | n in w.nodes :: scores[n].score == w.nodes[n].score * FinalFactor(sc, w.paths[n])
  }

  lemma RescoredIs(state: DecoderState, rescored: map<NodeId, Node>)
    requires state.Rescored(rescored) && state.trie.Valid() && state.cfg.beamSize > 0
    ensures FinalScores(Look(state.trie), rescored, state.cfg.scorer)
  {
    hide Wf, FinalFactor, TsOk, DecoderState.FinalScore, ParentsFirst;
    WfKeys(state.trie.nodes, state.trie.paths, state.trie.nextId);
    forall n | n in state.trie.nodes
      ensures state.FinalScore(n) == state.trie.nodes[n].score * FinalFactor(state.cfg.scorer, state.trie.paths[n])
    {
      FinalScoreIs(state, n);
    }
  }

  lemma FinalScoreIs(state: DecoderState, n: NodeId)
    requires Wf(state.trie.nodes, state.trie.paths, state.trie.nextId) && n in state.trie.nodes && n in state.trie.paths
    requires ParentsFirst(state.trie.nodes) && state.cfg.beamSize > 0
    ensures state.FinalScore(n) == state.trie.nodes[n].score * FinalFactor(state.cfg.scorer, state.trie.paths[n])
  {
    hide UpOk, DownOk, OnePerPath, GetPathVec, ParentsFirst;
    var nodes, paths, next := state.trie.nodes, state.trie.paths, state.trie.nextId;
    GetPathVecIsPath(nodes, paths, next, n);
    Links(nodes, paths, next, n);
    if n != ROOT_ID {
      GetPathVecIsPath(nodes, paths, next, nodes[n].parent);
      assert paths[n][..|paths[n]| - 1] == paths[nodes[n].parent];
    }
  }

  lemma FinalNonNegative(sc: Option<Scorer>, path: seq<nat>)
    requires ValidScorer(sc)
    ensures FinalFactor(sc, path) >= 0.0
  {
  }

  /** What a live prefix is worth, against its score. */
  lemma ScoreAgainstWorth(w: View, scores: map<NodeId, Node>, fr: seq<Frame>, g: Setting, n: NodeId, exact: bool)
    requires FinalScores(w, scores, g.scorer) && ValidScorer(g.scorer) && Scored(w.nodes) && n in w.nodes
             && w.nodes[n].live
    requires Bounded(w.nodes, w.paths, fr, g) && (exact ==> Exact(w.nodes, w.paths, fr, g))
    ensures 0.0 <= scores[n].score <= Worth(fr, g, w.paths[n])
    ensures exact ==> scores[n].score == Worth(fr, g, w.paths[n])
  {
    hide Mass, Lm, FinalFactor, ValidScorer, Absent;
    var path := w.paths[n];
    FinalNonNegative(g.scorer, path);
    IdealSum(fr, g, path);
    MulMonotone(FinalFactor(g.scorer, path), w.nodes[n].score, CtcMass(fr, g.blank, path) * Lm(g.scorer, path));
    MulMonotone(FinalFactor(g.scorer, path), 0.0, w.nodes[n].score);
  }

  lemma IdealSum(fr: seq<Frame>, g: Setting, p: seq<nat>)
    ensures Ideal(fr, g, p, true) + Ideal(fr, g, p, false) == CtcMass(fr, g.blank, p) * Lm(g.scorer, p)
  {
    hide Mass, Lm;
    Distribute(Mass(fr, g.blank, p, true), Mass(fr, g.blank, p, false), Lm(g.scorer, p));
  }

  lemma AllOutputs(state: DecoderState, chosen: seq<NodeId>, scores: map<NodeId, Node>, num: nat, outs: seq<Output>,
                   exact: bool)
    requires state.Valid() && multiset(chosen) == multiset(state.prefixes) && |chosen| == |state.prefixes| > 0
    requires FinalScores(Look(state.trie), scores, state.cfg.scorer)
    requires AllIn(scores, chosen) && SortedTo(scores, chosen, num) && |outs| == num <= |chosen|
    requires AreOutputs(Look(state.trie), state.absTimeStep, chosen, scores, outs)
    requires exact ==> state.cfg.cutoffProb >= 1.0 && !state.overflowed
    ensures forall o | o in outs :: Confident(state.frames, state.Setup(), state.absTimeStep, o, exact)
    ensures exact && num > 0 ==> Best(state.frames, state.Setup(), outs[0])
  {
    hide Rested, Bounded, Exact, Confident, Best, IsOutput, SortedTo, FinalScores, ValidScorer, Shows, Spelled, Timely,
      HasMass, START;
    hide BeamFits, ValidFrames, Trie.Valid;
    var w, g, t := Look(state.trie), state.Setup(), state.absTimeStep;
    forall i | 0 <= i < |outs| ensures Confident(state.frames, g, t, outs[i], exact) {
      OutputIsConfident(w, state.prefixes, chosen, scores, state.frames, g, t, i, outs[i], exact);
    }
    if exact && num > 0 { FirstIsBest(w, state.prefixes, chosen, scores, num, state.frames, g, t, outs[0]); }
  }

  /** Tokens and confidence of a transcript, told by the hypotheses. */
  lemma OutputFromHyps(state: DecoderState, chosen: seq<NodeId>, scores: map<NodeId, Node>, outs: seq<Output>, i: nat)
    requires state.Valid() && multiset(chosen) == multiset(state.prefixes)
    requires FinalScores(Look(state.trie), scores, state.cfg.scorer) && i < |outs|
    requires AreOutputs(Look(state.trie), state.absTimeStep, chosen, scores, outs)
    ensures chosen[i] in state.trie.paths && outs[i].tokens == state.trie.paths[chosen[i]] && chosen[i] in scores
    ensures outs[i].tokens in state.hyps && outs[i].confidence == scores[chosen[i]].score
    ensures outs[i].confidence == FinalOf(state.hyps, state.cfg.scorer, outs[i].tokens)
    ensures Score(state.hyps[outs[i].tokens]) > 0.0 ==> outs[i].timesteps == state.hyps[outs[i].tokens].times
  {
    hide Wf, LeavesLive, TsInv, StatesOk, Idle, ListsLive, HistOk, Bounded, Exact, Spelled, Timely, HasMass, START,
      BeamFits, ValidFrames;
    hide FinalFactor, ValidScorer, Absent, TimesOf, ChildrenFirst;
    var w := Look(state.trie);
    assert IsOutput(w, state.absTimeStep, chosen[i], scores[chosen[i]].score, outs[i]);
    assert chosen[i] in chosen;
    ChosenIsLive(w.nodes, state.prefixes, chosen, chosen[i]);
  }

  /** The place of a hypothesis among the sorted prefixes. */
  lemma PlaceOf(state: DecoderState, chosen: seq<NodeId>, scores: map<NodeId, Node>, q: seq<nat>) returns (j: nat)
    requires state.Valid() && multiset(chosen) == multiset(state.prefixes) && q in state.hyps
    requires FinalScores(Look(state.trie), scores, state.cfg.scorer)
    ensures j < |chosen| && chosen[j] in scores && chosen[j] in state.trie.paths && state.trie.paths[chosen[j]] == q
    ensures scores[chosen[j]].score == FinalOf(state.hyps, state.cfg.scorer, q)
  {
    hide Wf, LeavesLive, TsInv, StatesOk, Idle, ListsLive, HistOk, Bounded, Exact, Spelled, Timely, HasMass, START,
      BeamFits, ValidFrames;
    hide FinalFactor, ValidScorer, ChildrenFirst, TimesOf;
    var w := Look(state.trie);
    assert !Absent(w.nodes, w.paths, q);
    var n :| n in w.nodes && w.nodes[n].live && n in w.paths && w.paths[n] == q;
    ChosenIsLive(w.nodes, state.prefixes, chosen, n);
    j :| 0 <= j < |chosen| && chosen[j] == n;
  }

  lemma OutputsAreTop(state: DecoderState, chosen: seq<NodeId>, scores: map<NodeId, Node>, outs: seq<Output>)
    requires state.Valid() && multiset(chosen) == multiset(state.prefixes) && |outs| <= |chosen|
    requires FinalScores(Look(state.trie), scores, state.cfg.scorer)
    requires AllIn(scores, chosen) && SortedTo(scores, chosen, |outs|)
    requires AreOutputs(Look(state.trie), state.absTimeStep, chosen, scores, outs)
    ensures Top(state.hyps, state.cfg.scorer, outs)
  {
    hide DecoderState.Valid, FinalScores, AreOutputs, FinalOf;
    forall i | 0 <= i < |outs|
      ensures outs[i].tokens in state.hyps && chosen[i] in scores && outs[i].confidence == scores[chosen[i]].score
      ensures outs[i].confidence == FinalOf(state.hyps, state.cfg.scorer, outs[i].tokens)
      ensures Score(state.hyps[outs[i].tokens]) > 0.0 ==> outs[i].timesteps == state.hyps[outs[i].tokens].times
      ensures chosen[i] in state.trie.paths && outs[i].tokens == state.trie.paths[chosen[i]]
    {
      OutputFromHyps(state, chosen, scores, outs, i);
    }
    ChosenOnce(state, chosen);
    forall i, j | 0 <= i < j < |outs|
      ensures outs[i].tokens != outs[j].tokens && outs[i].confidence >= outs[j].confidence
    {
      assert !Before(scores, chosen[j], chosen[i]);
    }
    forall q, i | q in state.hyps && 0 <= i < |outs|
      ensures (exists j :: 0 <= j < |outs| && outs[j].tokens == q)
              || FinalOf(state.hyps, state.cfg.scorer, q) <= outs[i].confidence
    {
      var j := PlaceOf(state, chosen, scores, q);
      if j >= |outs| { assert !Before(scores, chosen[j], chosen[i]); }
    }
  }

  /** The prefixes spell different sequences. */
  lemma ChosenOnce(state: DecoderState, chosen: seq<NodeId>)
    requires state.Valid() && multiset(chosen) == multiset(state.prefixes)
    ensures forall i, j | 0 <= i < j < |chosen| && chosen[i] in state.trie.paths && chosen[j] in state.trie.paths ::
              state.trie.paths[chosen[i]] != state.trie.paths[chosen[j]]
  {
    hide UpOk, DownOk, LeavesLive, TsInv, StatesOk, Idle, Bounded, Exact, Spelled, Timely, HasMass, START, BeamFits,
      ValidFrames, Scored, Shows, TsOk;
    ReorderNoDup(state.prefixes, chosen);
  }

  /** As many prefixes as hypotheses. */
  lemma AsManyHyps(state: DecoderState)
    requires state.Valid()
    ensures |state.prefixes| == |state.hyps|
  {
    hide TsInv, StatesOk, Scored, Idle, LeavesLive, ListsLive, Shows, BeamFits, HasMass, Bounded, Exact, Timely, TsOk,
      START;
    hide UpOk, DownOk, ValidConfig, ValidFrames;
    var w := Look(state.trie);
    ShownLength(w.nodes, w.paths, w.hist, state.hyps, state.prefixes);
  }

  lemma ChosenIsLive(nodes: map<NodeId, Node>, prefixes: seq<NodeId>, chosen: seq<NodeId>, n: NodeId)
    requires ListsLive(nodes, nodes.Keys, prefixes) && multiset(chosen) == multiset(prefixes)
    ensures n in chosen <==> n in nodes && nodes[n].live
  {
    Occurs(prefixes, n);
    Occurs(chosen, n);
  }

  lemma OutputIsConfident(w: View, prefixes: seq<NodeId>, chosen: seq<NodeId>, scores: map<NodeId, Node>,
                          fr: seq<Frame>, g: Setting, t: nat,
                          i: nat, o: Output, exact: bool)
    requires Rested(g.dict, w, prefixes, t) && multiset(chosen) == multiset(prefixes) && i < |chosen|
             && chosen[i] in scores
    requires FinalScores(w, scores, g.scorer) && ValidScorer(g.scorer)
    requires Bounded(w.nodes, w.paths, fr, g) && (exact ==> Exact(w.nodes, w.paths, fr, g))
    requires IsOutput(w, t, chosen[i], scores[chosen[i]].score, o)
    ensures Confident(fr, g, t, o, exact)
  {
    hide Worth, Wf, LeavesLive, TsInv, StatesOk, Idle, ListsLive, HistOk, Bounded, Exact, Permits, FinalFactor;
    assert chosen[i] in chosen;
    ChosenIsLive(w.nodes, prefixes, chosen, chosen[i]);
    HeldIsPermitted(g.dict, w.nodes, w.paths, chosen[i]);
    ScoreAgainstWorth(w, scores, fr, g, chosen[i], exact);
  }

  lemma FirstIsBest(w: View, prefixes: seq<NodeId>, chosen: seq<NodeId>, scores: map<NodeId, Node>, k: nat,
                    fr: seq<Frame>, g: Setting,
                    t: nat, o: Output)
    requires Rested(g.dict, w, prefixes, t) && multiset(chosen) == multiset(prefixes) && k > 0 && |chosen| > 0
    requires FinalScores(w, scores, g.scorer) && ValidScorer(g.scorer)
    requires AllIn(scores, chosen) && SortedTo(scores, chosen, k)
    requires Bounded(w.nodes, w.paths, fr, g) && Exact(w.nodes, w.paths, fr, g)
    requires IsOutput(w, t, chosen[0], scores[chosen[0]].score, o)
    ensures Best(fr, g, o)
  {
    hide Worth, LeavesLive, TsInv, StatesOk, Idle, ListsLive, HistOk, Wf, Exact, Bounded, Permits, FinalScores,
      SortedTo;
    forall p: seq<nat> | Permits(g.dict, p) ensures Worth(fr, g, p) <= o.confidence {
      AtMostFirst(w, prefixes, chosen, scores, k, fr, g, p);
    }
  }

  lemma AtMostFirst(w: View, prefixes: seq<NodeId>, chosen: seq<NodeId>, scores: map<NodeId, Node>, k: nat,
                    fr: seq<Frame>, g: Setting,
                    p: seq<nat>)
    requires Scored(w.nodes) && ListsLive(w.nodes, w.nodes.Keys, prefixes)
    requires FinalScores(w, scores, g.scorer) && ValidScorer(g.scorer) && Permits(g.dict, p)
    requires multiset(chosen) == multiset(prefixes) && k > 0 && |chosen| > 0
    requires AllIn(scores, chosen) && SortedTo(scores, chosen, k)
    requires Bounded(w.nodes, w.paths, fr, g) && Exact(w.nodes, w.paths, fr, g)
    ensures Worth(fr, g, p) <= scores[chosen[0]].score
  {
    hide Worth, ListsLive, Exact, Bounded, FinalFactor, ValidScorer, Permits;
    assert chosen[0] in chosen;
    ChosenIsLive(w.nodes, prefixes, chosen, chosen[0]);
    ScoreAgainstWorth(w, scores, fr, g, chosen[0], true);
    if Absent(w.nodes, w.paths, p) {
      AbsentIsWorthless(w, fr, g, p);
    } else {
      var q :| q in w.nodes && w.nodes[q].live && q in w.paths && w.paths[q] == p;
      ChosenIsLive(w.nodes, prefixes, chosen, q);
      ScoreAgainstWorth(w, scores, fr, g, q, true);
      var j :| 0 <= j < |chosen| && chosen[j] == q;
      assert j > 0 ==> !Before(scores, chosen[j], chosen[0]);
    }
  }

  lemma AbsentIsWorthless(w: View, fr: seq<Frame>, g: Setting, p: seq<nat>)
    requires Exact(w.nodes, w.paths, fr, g) && Absent(w.nodes, w.paths, p) && Permits(g.dict, p)
    ensures Worth(fr, g, p) == 0.0
  {
    hide Mass, Lm, FinalFactor, Absent, Permits;
    IdealSum(fr, g, p);
  }

  // ----- the trie between frames

  /** At most as many nodes are live as the beam has places. */
  lemma BeamSizeBoundsLive(dict: Option<Dictionary>, w: View, prefixes: seq<NodeId>, t: nat, beamSize: nat)
    requires Rested(dict, w, prefixes, t) && |prefixes| <= beamSize
    ensures |set n | n in w.nodes && w.nodes[n].live| <= beamSize
    ensures forall n | n in w.nodes && w.nodes[n].children == [] :: w.nodes[n].live
  {
    hide Wf, TsInv, StatesOk, Scored, Idle;
    var live := set n | n in w.nodes && w.nodes[n].live;
    assert live == Members(prefixes);
    CountMembers(prefixes);
  }

  lemma {:induction false} CountMembers(s: seq<NodeId>)
    ensures |Members(s)| <= |s|
  {
    if s == [] {
      assert Members(s) == {};
    } else {
      var front := s[..|s| - 1];
      CountMembers(front);
      assert s == front + [s[|s| - 1]];
      assert Members(s) == Members(front) + {s[|s| - 1]};
    }
  }

  /** Every ancestor of a node is in the trie: each beginning of its path is the path of a node. */
  lemma {:induction false} AncestorsStay(nodes: map<NodeId, Node>, paths: map<NodeId, seq<nat>>, next: NodeId,
                                         n: NodeId, k: nat)
      returns (a: NodeId)
    requires Wf(nodes, paths, next) && n in nodes && n in paths && k <= |paths[n]|
    ensures a in nodes && a in paths && paths[a] == paths[n][..k]
    decreases n
  {
    hide DownOk, OnePerPath;
    if k == |paths[n]| {
      a := n;
    } else {
      Links(nodes, paths, next, n);
      a := AncestorsStay(nodes, paths, next, nodes[n].parent, k);
    }
  }

  // ----- the trie and the dictionary

  /** Every path in the trie is complete entries and an unfinished one. */
  lemma PathsDecompose(d: Dictionary, entries: set<seq<nat>>, nodes: map<NodeId, Node>, paths: map<NodeId, seq<nat>>,
                       n: NodeId)
      returns (es: seq<seq<nat>>, rest: seq<nat>)
    requires StatesOk(Some(d), nodes, paths) && n in nodes && n in paths
    requires Recognises(d, entries)
    ensures Decomposes(entries, paths[n], es, rest)
  {
    hide Recognises, DictState, Decomposes;
    assert StateOk(d, paths[n], nodes[n].dictState);
    es, rest := AllowedDecomposes(d, entries, paths[n]);
  }

  /** The dictionary accepts exactly the one-label extensions of this form. */
  lemma AcceptsExactly(d: Dictionary, entries: set<seq<nat>>, nodes: map<NodeId, Node>, paths: map<NodeId, seq<nat>>,
                       s: NodeId, c: nat)
    requires StatesOk(Some(d), nodes, paths) && s in nodes && s in paths
    requires Recognises(d, entries)
    ensures (nodes[s].dictState, c + 1) in d.delta <==> exists es, rest :: Decomposes(entries, paths[s] + [c], es, rest)
  {
    hide Recognises, DictState, Decomposes;
    assert StateOk(d, paths[s], nodes[s].dictState);
    DictStateAppend(d, paths[s], c);
    if (nodes[s].dictState, c + 1) in d.delta {
      var es, rest := AllowedDecomposes(d, entries, paths[s] + [c]);
    }
    forall es, rest | Decomposes(entries, paths[s] + [c], es, rest) ensures (nodes[s].dictState, c + 1) in d.delta {
      DecomposesAllowed(d, entries, paths[s] + [c], es, rest);
    }
  }
}
