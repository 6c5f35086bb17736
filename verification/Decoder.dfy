/** The CTC prefix beam search decoder. */
module Decoder {
  import opened Basics
  import opened PathTrie
  import opened TrieOps
  import opened Ctc
  import opened Beam
  import opened BeamCtc
  import opened BeamGrowth
  import opened BeamTime
  import opened BeamTotal
  import opened BeamRecord
  import opened DictionaryWalk
  import opened FrameSteps
  import opened FrameEnd
  import opened FrameRows
  import opened Hypotheses
  import opened BeamShown
  import opened Selection

  /** Labels are 0..blank-1 and `blank` is the last class. */
  datatype Config = Config(blank: nat, beamSize: nat, cutoffProb: real, cutoffTopN: nat, scorer: Option<Scorer>)

  /** One decoded transcript. */
  datatype Output = Output(tokens: seq<nat>, timesteps: seq<nat>, confidence: real)

  ghost predicate ValidConfig(cfg: Config) {
    cfg.blank < ROOT && ValidScorer(cfg.scorer)
  }

  ghost function Look(trie: Trie): View
    reads trie
  {
    View(trie.nodes, trie.paths, trie.nextId, trie.hist)
  }

  // ----- a frame of hypotheses

  /** What the program makes of a frame before its loops. */
  ghost predicate IsPass(cfg: Config, dict: Option<Dictionary>, prob: seq<real>, t: nat, h: Hyps, a: Pass) {
    && ValidProbs(prob, cfg.blank) && a.g == Setting(cfg.blank, cfg.scorer, dict) && a.p == Floored(prob) && a.t == t
    && Lists(h, a.order, cfg.scorer.Some?, cfg.scorer.None? && |h| < cfg.beamSize)
    && Choice(prob, cfg.cutoffProb, cfg.cutoffTopN, a.kept)
    && (a.full <==> cfg.scorer.Some? && |h| == cfg.beamSize)
    && (cfg.scorer.Some? ==> IsCutoff(h, prob[cfg.blank], cfg.scorer.value.beta, a.min))
  }

  /** Frame number `t` turns the hypotheses `h` into `h'`. */
  ghost predicate Advances(cfg: Config, dict: Option<Dictionary>, prob: seq<real>, t: nat, h: Hyps, h': Hyps) {
    exists a :: IsPass(cfg, dict, prob, t, h, a) && Fitted(Expand(h, a), h', cfg.beamSize)
  }

  /** What holds of a decoder between two frames: the trie is at rest and shows the hypotheses, no mass is above what it
      stands for, and if nothing was lost every mass is exact and exactly the prefixes with mass have timesteps. */
  ghost predicate Sound(cfg: Config, dict: Option<Dictionary>, w: View, prefixes: seq<NodeId>, h: Hyps, fr: seq<Frame>,
                        t: nat,
                        overflowed: bool) {
    && ValidConfig(cfg) && (cfg.scorer.None? ==> dict.None?)
    && Rested(dict, w, prefixes, t) && Spelled(w.paths, cfg.blank) && Shows(w.nodes, w.paths, w.hist, h)
    && (cfg.scorer.None? && |prefixes| < cfg.beamSize ==> ChildrenFirst(w.paths, prefixes))
    && 1 <= |prefixes| && ValidFrames(fr, cfg.blank) && BeamFits(|prefixes|, cfg, |fr|, overflowed)
    && (cfg.scorer.None? || cfg.cutoffProb >= 1.0 ==> HasMass(h))
    && Bounded(w.nodes, w.paths, fr, Setting(cfg.blank, cfg.scorer, dict))
    && (cfg.cutoffProb >= 1.0 && !overflowed ==>
          Exact(w.nodes, w.paths, fr, Setting(cfg.blank, cfg.scorer, dict)) && Timely(w.nodes))
  }

  lemma SumScoreNext(nodes: map<NodeId, Node>, beam: seq<NodeId>, i: nat)
    requires i < |beam| && beam[i] in nodes
    ensures SumScore(nodes, beam[..i + 1]) == SumScore(nodes, beam[..i]) + nodes[beam[i]].score
  {
    assert beam[..i + 1][..i] == beam[..i];
  }

  class DecoderState {
    const cfg: Config
    const trie: Trie
    var absTimeStep: nat
    var startExpanding: bool
    var prefixes: seq<NodeId>

    /** The label sequences in the beam, with their masses. */
    ghost var hyps: Hyps
    /** The frames expanded so far, with floored probabilities. */
    ghost var frames: seq<Frame>
    /** Has the beam ever been cut down to its size or, with a scorer, been full when a frame began? */
    ghost var overflowed: bool

    ghost function Setup(): Setting {
      Setting(cfg.blank, cfg.scorer, trie.dict)
    }

    ghost predicate Valid()
      reads this, trie
    {
      && trie.Valid() && Sound(cfg, trie.dict, Look(trie), prefixes, hyps, frames, absTimeStep, overflowed)
      && if startExpanding then |prefixes| <= cfg.beamSize else |prefixes| == 1 && hyps == START && frames == []
    }

    /** What every step of a frame may rely on. */
    ghost predicate Framed(x: Ctx)
      reads this, trie
    {
      && ValidCtx(x) && trie.Valid()
      && x.blank == cfg.blank && x.scorer == cfg.scorer && x.dict == trie.dict && x.t == absTimeStep
    }

    constructor (cfg: Config, dict: Option<Dictionary>)
      requires ValidConfig(cfg) && (cfg.scorer.None? ==> dict.None?)
      ensures Valid() && this.cfg == cfg && trie.dict == dict && fresh(trie)
      ensures absTimeStep == 0 && !startExpanding && frames == [] && !overflowed && hyps == START
    {
      hide Exact, Bounded, Wf, Shows, HasMass, Timely, START, ValidScorer, Rested;
      this.cfg := cfg;
      trie := new Trie(dict);
      absTimeStep, startExpanding, prefixes := 0, false, [ROOT_ID];
      frames, overflowed, hyps := [], false, START;
      new;
      InitiallyExact(trie.nodes, trie.paths, Setting(cfg.blank, cfg.scorer, dict));
      InitiallyRested(dict, Look(trie));
      InitiallyShown(Look(trie));
      OneFirst(trie.paths, ROOT_ID);
    }

    /** One prefix and the blank class. */
    method VisitBlankClass(s: NodeId, p: Frame, ghost x: Ctx, ghost done: set<Pair>, ghost acc: real)
      requires Framed(x) && x.p == p && InFrame(x, Look(trie), done, done, acc)
      requires Visitable(x, s) && (cfg.blank, s) !in done && s in trie.nodes
      requires Upcoming(x.order, done, cfg.blank, s)
      modifies trie`nodes
      ensures Framed(x)
      ensures InFrame(x, Look(trie), done + {(cfg.blank, s)}, done + {(cfg.blank, s)},
                      acc + Prob(p, cfg.blank) * x.nodes0[s].score)
    {
      hide Wf, Accum, Born, DoneOld, Kept, TsInv, LeavesLive, HasKids, StatesOk, SumCur, Prob, TsOk, ValidCtx, Records;
      ghost var w := Look(trie);
      var v := trie.nodes[s];
      var mass := Prob(p, cfg.blank) * v.score;
      if v.nbCur < mass { v := v.(prevTimesteps := None); }
      v := v.(bCur := v.bCur + mass);
      VisitBlank(x, w, done, acc, s, v);
      trie.nodes := trie.nodes[s := v];
      assert Look(trie) == w.(nodes := w.nodes[s := v]);
    }

    /** One prefix and a label: a repeat of its last label stays, and every label extends it. */
    method VisitLabel(s: NodeId, c: nat, p: Frame, ghost x: Ctx, ghost done: set<Pair>, ghost acc: real)
        returns (ghost acc': real)
      requires Framed(x) && x.p == p && InFrame(x, Look(trie), done, done, acc) && Upcoming(x.order, done, c, s)
      requires Visitable(x, s) && c < cfg.blank && (c, s) !in done && s in trie.nodes && s in x.paths0
      modifies trie
      ensures Framed(x)
      ensures InFrame(x, Look(trie), done + {(c, s)}, done + {(c, s)}, acc')
      ensures cfg.scorer.None? ==> acc' == acc + Prob(p, c) * x.nodes0[s].score
    {
      hide Wf, Accum, Born, DoneOld, Kept, TsInv, LeavesLive, HasKids, StatesOk, SumCur, Prob, TsOk, ValidCtx, Records;
      hide Base, ExtendFactor, ExtendMass;
      // repeated character
      ghost var w := Look(trie);
      var v := trie.nodes[s];
      if c == v.character {
        var mass := Prob(p, c) * v.nbPrev;
        if v.nbCur < mass { v := v.(prevTimesteps := None); }
        v := v.(nbCur := v.nbCur + mass);
      }
      VisitRepeat(x, w, done, acc, s, c, v);
      trie.nodes := trie.nodes[s := v];
      w := w.(nodes := w.nodes[s := v]);
      assert Look(trie) == w;
      acc' := acc + (if c == x.nodes0[s].character then Prob(p, c) * x.nodes0[s].nbPrev else 0.0);
      acc' := Extend(s, c, p, x, done, acc');
      if cfg.scorer.None? { NothingLost(x, s, c); }
    }

    /** The new prefix after appending `c` to `s`. */
    method Extend(s: NodeId, c: nat, p: Frame, ghost x: Ctx, ghost done: set<Pair>, ghost acc: real)
        returns (ghost acc': real)
      requires Framed(x) && x.p == p && InFrame(x, Look(trie), done + {(c, s)}, done, acc)
      requires Upcoming(x.order, done, c, s)
      requires Visitable(x, s) && c < cfg.blank && (c, s) !in done && s in trie.nodes && s in x.paths0
      modifies trie
      ensures Framed(x)
      ensures InFrame(x, Look(trie), done + {(c, s)}, done + {(c, s)}, acc')
      ensures cfg.scorer.None? ==> acc' == acc + ExtendMass(x, s, c)
    {
      hide Wf, Accum, Born, DoneOld, Kept, TsInv, LeavesLive, HasKids, StatesOk, SumCur, Prob, TsOk, Expanded, Records;
      hide Base, ExtendFactor, ExtendMass, ValidFrame, ValidScorer, Scored, Permits;
      ghost var w := Look(trie);
      WfKeys(w.nodes, w.paths, w.next);
      var r := trie.GetPathTrie(s, c);
      ghost var w' := Look(trie);
      VisitExpand(x, w, w', done + {(c, s)}, done, acc, s, c, r);
      ExpandedChild(x.dict, w, w', s, c, r);
      acc' := acc;
      if r.None? {
        RefusedIsNotPermitted(x.dict, w, w', s, c);
        VisitRefused(x, w', done + {(c, s)}, done, acc, s, c);
      } else {
        var mass := ScoreExtension(s, r.value, c, p, x, w');
        Credit(r.value, s, c, mass, x, done, acc);
        acc' := acc + mass;
      }
    }

    /** Acoustic mass of the extension of `s` to `q`, times the language model's factor at a scoring boundary.  In word
        mode the prefix without the new label is scored, in byte mode the one with it. */
    method ScoreExtension(s: NodeId, q: NodeId, c: nat, p: Frame, ghost x: Ctx, ghost w: View) returns (mass: real)
      requires w.nodes == trie.nodes && w.paths == trie.paths && w.next == trie.nextId
      requires x.p == p && x.scorer == cfg.scorer && s in trie.nodes && s in x.paths0
      requires q in trie.nodes && q != ROOT_ID && trie.nodes[q].parent == s && trie.nodes[q].character == c
      requires Wf(w.nodes, w.paths, w.next) && Visitable(x, s) && Kept(x.nodes0, x.paths0, w.nodes, w.paths)
      ensures mass == ExtendMass(x, s, c)
    {
      hide *;
      VisitedPath(x, w, s);
      ExtendedPath(w, s, q, c);
      var acoustic := Prob(p, c) * Base(trie.nodes[s], c);
      var factor := 1.0;
      if cfg.scorer.Some? {
        var scorer := cfg.scorer.value;
        var toScore := if scorer.utf8 then q else s;
        GetPathVecIsPath(trie.nodes, trie.paths, trie.nextId, toScore);
        var path := GetPathVec(trie.nodes, toScore);
        if scorer.boundary(path, c) { factor := scorer.lm(path) * scorer.beta; }
        FactorIs(cfg.scorer, w.paths[s], c, factor);
      }
      mass := acoustic * factor;
      MassOfParts(x, w, s, c, acoustic, factor);
    }

    /** Adds the mass to the new prefix, recording the expansion if it is the heaviest so far. */
    method Credit(q: NodeId, s: NodeId, c: nat, mass: real, ghost x: Ctx, ghost done: set<Pair>, ghost acc: real)
      requires Framed(x) && InFrame(x, Look(trie), done + {(c, s)}, done, acc) && Upcoming(x.order, done, c, s)
      requires Visitable(x, s) && c < cfg.blank && (c, s) !in done && s in trie.nodes && s in x.paths0
      requires q in trie.nodes && q != ROOT_ID && trie.nodes[q].parent == s && trie.nodes[q].character == c
               && trie.nodes[q].live
      requires mass == ExtendMass(x, s, c)
      modifies trie`nodes
      ensures Framed(x)
      ensures InFrame(x, Look(trie), done + {(c, s)}, done + {(c, s)}, acc + mass)
    {
      hide Wf, Accum, Born, DoneOld, Kept, TsInv, LeavesLive, HasKids, StatesOk, SumCur, TsOk, ExtendMass, ValidCtx,
        Records;
      ghost var w := Look(trie);
      var v := trie.nodes[q];
      if v.nbCur < mass { v := v.(prevTimesteps := trie.nodes[s].timesteps, newTimestep := absTimeStep); }
      v := v.(nbCur := v.nbCur + mass);
      VisitExtend(x, w, done, acc, s, c, q, v);
      trie.nodes := trie.nodes[q := v];
      assert Look(trie) == w.(nodes := w.nodes[q := v]);
    }

    /** One prefix and one class. */
    method VisitOne(s: NodeId, c: nat, p: Frame, ghost x: Ctx, ghost done: set<Pair>, ghost acc: real)
        returns (ghost acc': real)
      requires Framed(x) && x.p == p && InFrame(x, Look(trie), done, done, acc) && Upcoming(x.order, done, c, s)
      requires Visitable(x, s) && c <= cfg.blank && (c, s) !in done && s in trie.nodes && s in x.paths0
      modifies trie
      ensures Framed(x)
      ensures InFrame(x, Look(trie), done + {(c, s)}, done + {(c, s)}, acc')
      ensures cfg.scorer.None? ==> acc' == acc + Prob(p, c) * x.nodes0[s].score
    {
      hide InFrame, Prob, ValidCtx, Upcoming;
      if c == cfg.blank {
        VisitBlankClass(s, p, x, done, acc);
        acc' := acc + Prob(p, cfg.blank) * x.nodes0[s].score;
        assert done + {(cfg.blank, s)} == done + {(c, s)};
      } else {
        acc' := VisitLabel(s, c, p, x, done, acc);
      }
    }

    /** The loop over prefixes, for one class. */
    method OfferClass(c: nat, p: Frame, full: bool, minCutoff: real, ghost x: Ctx, ghost done: set<Pair>,
                      ghost acc: real)
        returns (ghost acc': real)
      requires Framed(x) && x.p == p && InFrame(x, Look(trie), done, done, acc)
      requires c <= cfg.blank && forall s :: (c, s) !in done
      requires BeamOk(x, cfg, prefixes, full)
      requires x.order.beam == prefixes && forall e | e in done :: Precedes(x.order.kept, e.0, c)
      modifies trie
      ensures Framed(x)
      ensures InFrame(x, Look(trie), done + Row(x, full, minCutoff, c, prefixes),
              done + Row(x, full, minCutoff, c, prefixes), acc')
      ensures cfg.scorer.None? && !full ==> acc' == acc + Prob(p, c) * SumScore(x.nodes0, prefixes)
    {
      hide InFrame, SumScore, Prob, Row, ValidCtx, Wf, TsOk, ScoresFall, Upcoming, Precedes;
      ClassProbOk(x, c);
      acc' := acc;
      var i := 0;
      RowsStart(x, full, minCutoff, c, prefixes, done);
      while i < |prefixes| && i < cfg.beamSize
        invariant 0 <= i <= |prefixes|
        invariant Framed(x)
        invariant InFrame(x, Look(trie), done + Row(x, full, minCutoff, c, prefixes[..i]),
                          done + Row(x, full, minCutoff, c, prefixes[..i]), acc')
        invariant cfg.scorer.None? && !full ==> acc' == acc + Prob(p, c) * SumScore(x.nodes0, prefixes[..i])
      {
        var s := prefixes[i];
        ghost var seen := done + Row(x, full, minCutoff, c, prefixes[..i]);
        InBeam(x, cfg, prefixes, full, Look(trie), seen, acc', i);
        if full && Prob(p, c) * trie.nodes[s].score < minCutoff {
          BreakSkipsTheRest(x, full, minCutoff, c, prefixes, i);
          return;
        }
        RowStep(x, full, minCutoff, c, prefixes, i, done);
        SumScoreStep(x, c, prefixes, i);
        RowUpcoming(x, full, minCutoff, c, done, i);
        if trie.nodes[s].score != 0.0 { acc' := VisitOne(s, c, p, x, seen, acc'); }
        i := i + 1;
      }
      assert prefixes[..i] == prefixes;
    }

    /** The loop over classes: afterwards every node has collected what the visits hand it. */
    method OfferClasses(kept: seq<nat>, p: Frame, full: bool, minCutoff: real, ghost x: Ctx) returns (ghost acc: real)
      requires Framed(x) && x.p == p && InFrame(x, Look(trie), {}, {}, 0.0)
      requires NoDup(kept) && forall c | c in kept :: c <= cfg.blank
      requires BeamOk(x, cfg, prefixes, full) && x.order == Order(kept, prefixes)
      modifies trie
      ensures Framed(x)
      ensures InFrame(x, Look(trie), Rows(x, full, minCutoff, kept, prefixes), Rows(x, full, minCutoff, kept, prefixes),
              acc)
      ensures cfg.scorer.None? && !full ==> acc == Scaled(SumProb(p, kept), SumScore(x.nodes0, prefixes))
    {
      hide InFrame, SumScore, SumProb, Prob, Row, Rows, ValidCtx, BeamOk, Precedes;
      acc := 0.0;
      var a := 0;
      NoRows(x, full, minCutoff, prefixes, p);
      assert kept[..0] == [];
      while a < |kept|
        invariant 0 <= a <= |kept|
        invariant Framed(x)
        invariant InFrame(x, Look(trie), Rows(x, full, minCutoff, kept[..a], prefixes),
                  Rows(x, full, minCutoff, kept[..a], prefixes), acc)
        invariant cfg.scorer.None? && !full ==> acc == SumProb(p, kept[..a]) * SumScore(x.nodes0, prefixes)
      {
        RowsNext(x, full, minCutoff, kept, prefixes, a);
        RowsUpcoming(x, full, minCutoff, a);
        SumProbNext(p, kept, a);
        Distribute(SumProb(p, kept[..a]), Prob(p, kept[a]), SumScore(x.nodes0, prefixes));
        assert kept[a] in kept;
        acc := OfferClass(kept[a], p, full, minCutoff, x, Rows(x, full, minCutoff, kept[..a], prefixes), acc);
        a := a + 1;
      }
      assert kept[..a] == kept;
    }

    /** Keeps the best `beamSize` prefixes and removes the others from the trie. */
    method CutBeam(ghost t: nat)
      requires cfg.beamSize >= 1 && |prefixes| > cfg.beamSize
      requires trie.Valid() && Rested(trie.dict, Look(trie), prefixes, t)
      modifies this`prefixes, trie
      ensures trie.Valid() && Rested(trie.dict, Look(trie), prefixes, t) && |prefixes| == cfg.beamSize
      ensures trie.nextId == old(trie.nextId) && trie.hist == old(trie.hist)
      ensures Pruned(old(trie.nodes), trie.nodes, Members(old(prefixes)) - Members(prefixes))
              && SubMap(old(trie.paths), trie.paths)
      ensures Survivors(old(trie.nodes), old(prefixes), prefixes)
    {
      hide Wf, TsOk, TsInv, StatesOk, Scored, Idle, LeavesLive, ListsLive, Before;
      ghost var w, before := Look(trie), prefixes;
      ListedIn(w.nodes, prefixes);
      prefixes := NthElement(trie.nodes, prefixes, cfg.beamSize);
      Reorder(w.nodes, w.nodes.Keys, before, prefixes);
      assert Rested(trie.dict, w, prefixes, t);
      ghost var all, k := prefixes, cfg.beamSize;
      NothingCut(w, all, k);
      var i := cfg.beamSize;
      while i < |prefixes|
        invariant k <= i <= |prefixes| && prefixes == all
        invariant trie.Valid() && LeavesLive(trie.nodes)
        invariant Pruned(w.nodes, trie.nodes, Members(all[k..i])) && SubMap(w.paths, trie.paths)
        invariant trie.nextId == w.next && trie.hist == w.hist
      {
        NextToCut(w, trie.nodes, all, k, i);
        ghost var nodes1, paths1 := trie.nodes, trie.paths;
        trie.Remove(prefixes[i], all[0]);
        PrunedMore(w.nodes, nodes1, trie.nodes, Members(all[k..i]), {all[i]});
        SubMapMore(w.paths, paths1, trie.paths);
        i := i + 1;
      }
      assert all[k..i] == all[k..];
      CutRests(trie.dict, w, Look(trie), all, k, t);
      SplitMembers(w.nodes, before, all, k);
      prefixes := prefixes[..cfg.beamSize];
    }

    /** With a scorer: sorts the prefixes and computes the score below which a visit is not worth making. */
    method PrepareCutoff(prob: seq<real>) returns (full: bool, minCutoff: real)
      requires cfg.beamSize >= 1 && 1 <= |prefixes| <= cfg.beamSize && |prob| == cfg.blank + 1
      requires ListsLive(trie.nodes, trie.nodes.Keys, prefixes)
      modifies this`prefixes
      ensures ListsLive(trie.nodes, trie.nodes.Keys, prefixes) && |prefixes| == old(|prefixes|)
      ensures cfg.scorer.None? ==> !full && prefixes == old(prefixes)
      ensures cfg.scorer.Some? ==>
                && (full <==> |prefixes| == cfg.beamSize) && ByScore(trie.nodes, prefixes)
                && minCutoff == Cutoff(trie.nodes, prefixes, prob[cfg.blank], cfg.scorer.value.beta)
    {
      hide ListsLive, Before, CutoffOf, ByScore, SortedTo;
      full, minCutoff := false, 0.0;
      if cfg.scorer.Some? {
        ghost var before := prefixes;
        ListedIn(trie.nodes, prefixes);
        var num := if |prefixes| < cfg.beamSize then |prefixes| else cfg.beamSize;
        prefixes := PartialSort(trie.nodes, prefixes, num);
        Reorder(trie.nodes, trie.nodes.Keys, before, prefixes);
        SortedByScore(trie.nodes, prefixes);
        minCutoff := CutoffOf(trie.nodes[prefixes[num - 1]].score, prob[cfg.blank], cfg.scorer.value.beta);
        full := num == cfg.beamSize;
      }
    }

    /** Turns what was collected into the masses of the next frame. */
    method FinishFrame(ghost x: Ctx, ghost done: set<Pair>, ghost acc: real, ghost beam: seq<NodeId>)
      requires Framed(x) && InFrame(x, Look(trie), done, done, acc)
      requires ListsLive(x.nodes0, x.nodes0.Keys, beam) && |beam| >= 1
      modifies this`prefixes, trie`nodes, trie`tsTree, trie`hist
      ensures trie.Valid() && Rested(trie.dict, Look(trie), prefixes, x.t + 1) && 1 <= |prefixes|
      ensures CommittedOn(old(trie.nodes), trie.nodes, trie.hist, old(trie.nodes.Keys))
      ensures LiveMass(trie.nodes, trie.nextId) == acc
      ensures |prefixes| <= |beam| * (x.blank + 1)
      ensures ChildrenFirst(trie.paths, prefixes) && old(trie.hist) <= trie.hist
    {
      hide ChildrenFirst;
      hide InFrame, Wf, TsOk, TsInv, StatesOk, Scored, Idle, LeavesLive, ListsLive, LiveMass, CommittedOn, Subtree,
        ValidCtx;
      ghost var w := Look(trie);
      CanIterate(x, w, done, acc);
      prefixes := trie.IterateToVec(ROOT_ID, trie.nextId);
      FrameEnds(x, w, done, acc, Look(trie), w.nodes.Keys, prefixes);
      StillSome(x, w, done, acc, beam, prefixes);
      BeamGrows(x, w, done, acc, beam, prefixes);
    }

    /** The expansion of one frame, up to the cut of the beam. */
    method ExpandFrame(prob: seq<real>) returns (ghost pass: Pass)
      requires trie.Valid() && Sound(cfg, trie.dict, Look(trie), prefixes, hyps, frames, absTimeStep, overflowed)
      requires ValidProbs(prob, cfg.blank) && |prefixes| <= cfg.beamSize
      modifies this`prefixes, this`frames, this`hyps, trie
      ensures trie.Valid()
      ensures Sound(cfg, trie.dict, Look(trie), prefixes, hyps, frames, absTimeStep + 1, overflowed || pass.full)
      ensures IsPass(cfg, trie.dict, prob, absTimeStep, old(hyps), pass) && hyps == Expand(old(hyps), pass)
              && |hyps| == |prefixes|
      ensures frames == old(frames) + [Floored(prob)]
      ensures cfg.scorer.None? && cfg.cutoffProb >= 1.0 ==>
                LiveMass(trie.nodes, trie.nextId)
                  == Scaled(Total(Floored(prob)), old(LiveMass(trie.nodes, trie.nextId)))
    {
      hide Sound, InFrame, Rested, ListsLive, LiveMass, SumScore, SumProb, Prob, Rows, Total, ByScore, Cutoff, BeamOk,
        CommittedOn;
      hide AreClasses, NoDup, Choice, IsPass, Expand, Floored, ValidProbs, ValidCtx, Trie.Valid, DecoderState.Framed,
        Scaled, Alongside;
      ghost var w0, h := Look(trie), hyps;
      SoundLists(cfg, trie.dict, w0, prefixes, h, frames, absTimeStep, overflowed);
      ProbLength(prob, cfg.blank);
      var full, minCutoff := PrepareCutoff(prob);
      ghost var beam := prefixes;
      SoundReorder(cfg, trie.dict, w0, old(prefixes), beam, h, frames, absTimeStep, overflowed);
      var p := Floored(prob);
      var kept := ChooseClasses(prob, cfg.cutoffProb, cfg.cutoffTopN);
      pass := Pass(Setup(), p, kept, full, minCutoff, Spell(w0.paths, beam), absTimeStep);
      ghost var x := Ctx(cfg.blank, cfg.scorer, trie.dict, w0.nodes, w0.paths, w0.hist, p, absTimeStep,
        Order(kept, beam));
      FrameBegins(cfg, trie.dict, prob, w0, beam, h, frames, absTimeStep, overflowed, x, pass);
      RunFrame(prob, kept, p, full, minCutoff, x, h, pass);
      frames, hyps := frames + [p], Expand(h, pass);
    }

    /** Both loops and the end of the frame. */
    method RunFrame(prob: seq<real>, kept: seq<nat>, p: Frame, full: bool, minCutoff: real, ghost x: Ctx, ghost h: Hyps,
                    ghost pass: Pass)
      requires trie.Valid() && Sound(cfg, trie.dict, Look(trie), prefixes, h, frames, absTimeStep, overflowed)
      requires ValidProbs(prob, cfg.blank) && p == Floored(prob)
      requires pass == Pass(Setup(), p, kept, full, minCutoff, Spell(trie.paths, prefixes), absTimeStep)
      requires Choice(prob, cfg.cutoffProb, cfg.cutoffTopN, kept) && (cfg.scorer.None? ==> !full)
      requires x == Ctx(cfg.blank, cfg.scorer, trie.dict, trie.nodes, trie.paths, trie.hist, p, absTimeStep,
                        Order(kept, prefixes))
      requires ValidCtx(x) && InFrame(x, Look(trie), {}, {}, 0.0) && BeamOk(x, cfg, prefixes, full)
      requires NoDup(kept) && forall c | c in kept :: c <= cfg.blank
      requires IsPass(cfg, trie.dict, prob, absTimeStep, h, pass) && |h| == |prefixes|
               && Alongside(x, prefixes, h, pass)
      requires ListsLive(x.nodes0, x.nodes0.Keys, prefixes) && |prefixes| >= 1
      modifies this`prefixes, trie
      ensures trie.Valid()
      ensures Sound(cfg, trie.dict, Look(trie), prefixes, Expand(h, pass), frames + [p], absTimeStep + 1,
              overflowed || full)
      ensures |Expand(h, pass)| == |prefixes|
      ensures cfg.scorer.None? && cfg.cutoffProb >= 1.0 ==>
                LiveMass(trie.nodes, trie.nextId)
                  == Scaled(Total(Floored(prob)), old(LiveMass(trie.nodes, trie.nextId)))
    {
      hide Sound, InFrame, Rested, ListsLive, LiveMass, SumScore, SumProb, Prob, Rows, Total, ByScore, BeamOk,
        CommittedOn, Alongside, BeamFits;
      hide AreClasses, NoDup, Choice, IsPass, Expand, Floored, ValidProbs, ValidCtx, Trie.Valid, DecoderState.Framed,
        Scaled;
      ghost var w0, beam := Look(trie), prefixes;
      StartsFramed(x);
      ghost var acc := OfferClasses(kept, p, full, minCutoff, x);
      ghost var done, w := Rows(x, full, minCutoff, kept, beam), Look(trie);
      FinishFrame(x, done, acc, beam);
      FitsAfter(cfg, trie.dict, prob, w0, beam, h, frames, absTimeStep, overflowed, pass, |prefixes|);
      FrameIsSound(cfg, trie.dict, prob, w0, beam, h, frames, absTimeStep, overflowed, x, pass, w, acc, Look(trie),
        prefixes);
      if cfg.scorer.None? && cfg.cutoffProb >= 1.0 { WholeTotal(cfg, x, w0, prob, kept, beam, acc); }
    }

    lemma StartsFramed(x: Ctx)
      requires trie.Valid() && ValidCtx(x) && x.blank == cfg.blank && x.scorer == cfg.scorer && x.dict == trie.dict
               && x.t == absTimeStep
      ensures Framed(x)
    {
    }

    /** The expansion of one frame, and the cut of the beam. */
    method ExpandAndCut(prob: seq<real>) returns (ghost lossy: bool)
      requires trie.Valid() && Sound(cfg, trie.dict, Look(trie), prefixes, hyps, frames, absTimeStep, overflowed)
      requires ValidProbs(prob, cfg.blank) && |prefixes| <= cfg.beamSize && cfg.beamSize > 0
      modifies this`prefixes, this`frames, this`hyps, trie
      ensures trie.Valid() && |prefixes| <= cfg.beamSize
      ensures Sound(cfg, trie.dict, Look(trie), prefixes, hyps, frames, absTimeStep + 1, overflowed || lossy)
      ensures Advances(cfg, trie.dict, prob, absTimeStep, old(hyps), hyps) && frames == old(frames) + [Floored(prob)]
      ensures lossy && cfg.scorer.None? ==> |prefixes| == cfg.beamSize
      ensures cfg.scorer.None? && cfg.cutoffProb >= 1.0 && !lossy ==>
                LiveMass(trie.nodes, trie.nextId)
                  == Scaled(Total(Floored(prob)), old(LiveMass(trie.nodes, trie.nextId)))
    {
      hide Sound, LiveMass, Total, IsPass, Advances, Expand, Floored, Trie.Valid, Fitted, Scaled, ValidProbs;
      ghost var pass := ExpandFrame(prob);
      ghost var cut := FitBeam(absTimeStep + 1, overflowed || pass.full);
      PassIsAt(cfg, trie.dict, prob, absTimeStep, old(hyps), pass);
      StepTaken(cfg, trie.dict, prob, absTimeStep, old(hyps), pass, hyps);
      lossy := pass.full || cut;
    }

    /** Cuts the beam if it has grown too long. */
    method FitBeam(ghost t: nat, ghost over: bool) returns (ghost cut: bool)
      requires trie.Valid() && Sound(cfg, trie.dict, Look(trie), prefixes, hyps, frames, t, over)
      requires |hyps| == |prefixes| && cfg.beamSize > 0
      modifies this`prefixes, this`hyps, trie
      ensures trie.Valid() && Sound(cfg, trie.dict, Look(trie), prefixes, hyps, frames, t, over || cut)
      ensures |prefixes| <= cfg.beamSize && Fitted(old(hyps), hyps, cfg.beamSize)
      ensures cut ==> |prefixes| == cfg.beamSize
      ensures !cut ==> trie.nodes == old(trie.nodes) && trie.nextId == old(trie.nextId)
    {
      hide Sound, Rested, Pruned, Survivors, Trie.Valid, IsCut, Restricted;
      cut := false;
      if |prefixes| > cfg.beamSize {
        ghost var w, before, h := Look(trie), prefixes, hyps;
        SoundRests(cfg, trie.dict, w, before, h, frames, t, over);
        CutBeam(t);
        CutIsSound(cfg, trie.dict, w, Look(trie), h, before, prefixes, frames, t, over);
        hyps := Restricted(h, Look(trie));
        cut := true;
      }
    }

    /** One frame of class probabilities.  `lossy` says whether the beam had to be cut down or, with a scorer,
        was full to begin with, so that visits may have been skipped.  A beam without places fails on the first frame
        that is expanded: there the program reads in front of its list or removes the root. */
    method NextFrame(prob: seq<real>) returns (ok: bool, ghost lossy: bool)
      requires Valid() && ValidProbs(prob, cfg.blank)
      modifies this, trie
      ensures ok <==> cfg.beamSize > 0 || !(old(startExpanding) || prob[cfg.blank] < 0.999)
      ensures ok ==> Valid() && absTimeStep == old(absTimeStep) + 1
      ensures ok ==> startExpanding == (old(startExpanding) || prob[cfg.blank] < 0.999)
      ensures ok ==> frames == old(frames) + (if startExpanding then [Floored(prob)] else [])
      ensures ok ==> overflowed == (old(overflowed) || lossy)
      ensures ok && lossy && cfg.scorer.None? ==> |prefixes| == cfg.beamSize
      ensures ok && startExpanding ==> Advances(cfg, trie.dict, prob, old(absTimeStep), old(hyps), hyps)
      ensures ok && startExpanding && cfg.scorer.None? && cfg.cutoffProb >= 1.0 && !lossy ==>
                LiveMass(trie.nodes, trie.nextId)
                  == Scaled(Total(Floored(prob)), old(LiveMass(trie.nodes, trie.nextId)))
      ensures ok && !startExpanding ==> prefixes == old(prefixes) && trie.nodes == old(trie.nodes) && hyps == old(hyps)
    {
      hide Sound, LiveMass, Total, Advances, START, Floored, Trie.Valid, Scaled;
      lossy := false;
      if (startExpanding || prob[cfg.blank] < 0.999) && cfg.beamSize == 0 { return false, false; }
      ok := true;
      if prob[cfg.blank] < 0.999 { startExpanding := true; }
      if !startExpanding {
        SoundWait(cfg, trie.dict, Look(trie), prefixes, hyps, frames, absTimeStep, overflowed);
      } else {
        lossy := ExpandAndCut(prob);
        overflowed := overflowed || lossy;
      }
      absTimeStep := absTimeStep + 1;
    }

    /** Any number of frames.  Which frames get expanded depends only on the frames, not on how they
        are divided over calls. */
    method Next(probs: seq<seq<real>>) returns (ok: bool)
      requires Valid() && forall i | 0 <= i < |probs| :: ValidProbs(probs[i], cfg.blank)
      modifies this, trie
      ensures ok <==> cfg.beamSize > 0 || !Started(old(startExpanding), probs, cfg.blank)
      ensures ok ==> Valid() && absTimeStep == old(absTimeStep) + |probs|
      ensures ok ==> startExpanding == Started(old(startExpanding), probs, cfg.blank)
      ensures ok ==> frames == old(frames) + Expanding(old(startExpanding), probs, cfg.blank)
      ensures ok && old(overflowed) ==> overflowed
      ensures ok ==> Runs(cfg, trie.dict, old(startExpanding), old(absTimeStep), probs, old(hyps), hyps)
    {
      hide Valid, Prob, ValidProbs, Advances, LiveMass, Total, Floored, Runs;
      NoFrames(cfg, trie.dict, startExpanding, absTimeStep, probs, hyps);
      NoPlaces();
      for i := 0 to |probs|
        invariant Valid() && absTimeStep == old(absTimeStep) + i
        invariant startExpanding == Started(old(startExpanding), probs[..i], cfg.blank)
        invariant frames == old(frames) + Expanding(old(startExpanding), probs[..i], cfg.blank)
        invariant old(overflowed) ==> overflowed
        invariant cfg.beamSize == 0 ==> !startExpanding
        invariant Runs(cfg, trie.dict, old(startExpanding), old(absTimeStep), probs[..i], old(hyps), hyps)
      {
        ghost var before := hyps;
        assert probs[..i + 1][..i] == probs[..i];
        BlankProb(probs[i], cfg.blank);
        ghost var lossy;
        ok, lossy := NextFrame(probs[i]);
        if ok {
          NoPlaces();
          OneMoreFrame(cfg, trie.dict, old(startExpanding), old(absTimeStep), probs, i, old(hyps), before, hyps);
        }
        if !ok {
          StaysStarted(old(startExpanding), probs, i + 1, cfg.blank);
          return false;
        }
      }
      assert probs[..|probs|] == probs;
      return true;
    }

    lemma NoPlaces()
      requires Valid()
      ensures cfg.beamSize == 0 ==> !startExpanding
    {
      hide Rested, Shows, Spelled, BeamFits, HasMass, Bounded, Exact, Timely, START;
    }

    /** Score of a prefix for the output: the last unit is scored if it is not complete.  Only the first `beamSize`
        prefixes are scored; that is all of them, or none for a beam without places. */
    function FinalScore(n: NodeId): real
      requires n in trie.nodes && ParentsFirst(trie.nodes)
      reads this, trie
    {
      trie.nodes[n].score *
      match cfg.scorer
      case None => 1.0
      case Some(x) =>
        var path := GetPathVec(trie.nodes, n);
        if cfg.beamSize == 0 then 1.0
        else if x.utf8 then
          if x.boundary(path, trie.nodes[n].character) then 1.0 else x.lmFinal(path) * x.beta
        else if n == ROOT_ID
          || x.boundary(GetPathVec(trie.nodes, trie.nodes[n].parent), trie.nodes[n].character) then 1.0
        else x.lmFinal(path) * x.beta
    }

    /** The best `numResults` transcripts.  The result is None when a chosen prefix has no timesteps: there the
        program's assertion on the output lengths fails.  It never fails while there are enough hypotheses with mass,
        and if nothing was lost, that is exactly when it does not fail. */
    method Decode(numResults: nat) returns (r: Option<seq<Output>>, ghost chosen: seq<NodeId>,
                  ghost rescored: map<NodeId, Node>)
      requires Valid()
      ensures Rescored(rescored) && AllIn(rescored, chosen) && SortedTo(rescored, chosen, Min(|prefixes|, numResults))
      ensures multiset(chosen) == multiset(prefixes) && |chosen| == |prefixes|
      ensures r.Some? <==> Timed(trie.nodes, chosen, Min(|prefixes|, numResults))
      ensures Min(|prefixes|, numResults) <= Positive(hyps) ==> r.Some?
      ensures cfg.cutoffProb >= 1.0 && !overflowed ==> (r.Some? <==> Min(|prefixes|, numResults) <= Positive(hyps))
      ensures (cfg.scorer.None? || cfg.cutoffProb >= 1.0) && numResults <= 1 ==> r.Some?
      ensures r.Some? ==>
                |r.value| == Min(|prefixes|, numResults)
                  && AreOutputs(Look(trie), absTimeStep, chosen, rescored, r.value)
    {
      hide Wf, TsOk, TsInv, StatesOk, Scored, Idle, LeavesLive, ListsLive, Bounded, Exact, Before, IsOutput, Rescored,
        SortedTo, ValidConfig;
      hide ValidFrames, BeamFits, Shows, Spelled, HasMass, Positive, START, Timely;
      ListedIn(trie.nodes, prefixes);
      var scores := Rescore();
      rescored := scores;
      var num := Min(|prefixes|, numResults);
      var sorted := PartialSort(scores, prefixes, num);
      chosen := sorted;
      r := MakeOutputs(sorted, num, scores);
      EnoughMass(this, scores, sorted, num);
      if HasMass(hyps) { MassCounts(hyps); }
    }

    /** `scores` holds every node with its final score. */
    ghost predicate Rescored(scores: map<NodeId, Node>)
      reads this, trie
    {
      && ParentsFirst(trie.nodes) && scores.Keys == trie.nodes.Keys
      && forall n | n in trie.nodes :: scores[n] == trie.nodes[n].(score := FinalScore(n))
    }

    method Rescore() returns (scores: map<NodeId, Node>)
      requires trie.Valid() && Wf(trie.nodes, trie.paths, trie.nextId)
      ensures Rescored(scores) && scores.Keys == trie.nodes.Keys
    {
      hide FinalScore, Wf;
      ParentsBelow(trie.nodes, trie.paths, trie.nextId);
      scores := map n | n in trie.nodes :: trie.nodes[n].(score := FinalScore(n));
    }

    /** Labels, timesteps and confidence of the first `num` prefixes of the list. */
    method MakeOutputs(sorted: seq<NodeId>, num: nat, scores: map<NodeId, Node>) returns (r: Option<seq<Output>>)
      requires trie.Valid() && TsInv(trie.nodes, trie.paths, trie.hist, absTimeStep)
      requires num <= |sorted| && AllIn(trie.nodes, sorted) && AllIn(scores, sorted)
      ensures r.Some? <==> Timed(trie.nodes, sorted, num)
      ensures r.Some? ==> |r.value| == num && AreOutputs(Look(trie), absTimeStep, sorted, scores, r.value)
    {
      hide Wf, TsOk, TsInv, IsOutput, GetPathVec, GetHistory, ParentsFirst;
      ParentsBelow(trie.nodes, trie.paths, trie.nextId);
      TimestepsBelow(trie.tsTree, trie.hist);
      var outputs := [];
      for i := 0 to num
        invariant |outputs| == i
        invariant forall j | 0 <= j < i :: trie.nodes[sorted[j]].timesteps.Some?
        invariant forall j | 0 <= j < i ::
                    IsOutput(Look(trie), absTimeStep, sorted[j], scores[sorted[j]].score, outputs[j])
      {
        var n := sorted[i];
        HistoryOf(Look(trie), absTimeStep, n);
        if trie.nodes[n].timesteps.None? { return None; }
        var o := Output(GetPathVec(trie.nodes, n), GetHistory(trie.tsTree, trie.nodes[n].timesteps.value),
          scores[n].score);
        GetPathVecIsPath(trie.nodes, trie.paths, trie.nextId, n);
        GetHistoryIsHist(trie.tsTree, trie.hist, trie.nodes[n].timesteps.value);
        MakeOutput(Look(trie), absTimeStep, n, scores[n].score, o);
        outputs := outputs + [o];
      }
      return Some(outputs);
    }
  }

  /** The first `num` of a list of prefixes have timesteps. */
  ghost predicate Timed(nodes: map<NodeId, Node>, s: seq<NodeId>, num: nat) {
    num <= |s| && forall i | 0 <= i < num :: s[i] in nodes && nodes[s[i]].timesteps.Some?
  }

  /** Final scores are positive exactly for prefixes with mass. */
  lemma FinalPositive(state: DecoderState, n: NodeId)
    requires ValidScorer(state.cfg.scorer) && n in state.trie.nodes && ParentsFirst(state.trie.nodes)
             && state.trie.nodes[n].score >= 0.0
    ensures state.FinalScore(n) >= 0.0 && (state.FinalScore(n) > 0.0 <==> state.trie.nodes[n].score > 0.0)
  {
    hide GetPathVec, ParentsFirst;
    if state.cfg.scorer.Some? {
      var x := state.cfg.scorer.value;
      ScaledPositive(x.lmFinal(GetPathVec(state.trie.nodes, n)), x.beta, state.trie.nodes[n].score);
    }
  }

  lemma ScaledPositive(f: real, g: real, x: real)
    requires f > 0.0 && g > 0.0 && x >= 0.0
    ensures x * (f * g) >= 0.0 && (x * (f * g) > 0.0 <==> x > 0.0)
  {
    ProductPositive(f, g);
    if x > 0.0 { ProductPositive(x, f * g); }
  }

  /** When the first `num` of the sorted prefixes have timesteps. */
  lemma EnoughMass(state: DecoderState, scores: map<NodeId, Node>, sorted: seq<NodeId>, num: nat)
    requires state.Valid() && state.Rescored(scores) && num <= |sorted|
    requires multiset(sorted) == multiset(state.prefixes) && AllIn(scores, sorted) && SortedTo(scores, sorted, num)
    ensures num <= Positive(state.hyps) ==> Timed(state.trie.nodes, sorted, num)
    ensures state.cfg.cutoffProb >= 1.0 && !state.overflowed ==>
              (Timed(state.trie.nodes, sorted, num) <==> num <= Positive(state.hyps))
  {
    hide Wf, TsOk, TsInv, StatesOk, LeavesLive, Bounded, Exact, ValidFrames, Idle, BeamFits, Shows, Spelled, HasMass,
      START, SortedTo;
    hide Positive, ValidScorer, DecoderState.FinalScore, ParentsFirst, OnePerPath, ListsLive;
    var w := Look(state.trie);
    WfKeys(w.nodes, w.paths, w.next);
    WfPaths(w);
    Reorder(w.nodes, w.nodes.Keys, state.prefixes, sorted);
    SortedLive(w.nodes, sorted);
    forall n | n in sorted ensures scores[n].score >= 0.0 && (scores[n].score > 0.0 <==> w.nodes[n].score > 0.0) {
      FinalPositive(state, n);
    }
    FirstHaveMass(w, state.hyps, sorted, scores, num);
    forall i | 0 <= i < num ensures w.nodes[sorted[i]].score > 0.0 ==> w.nodes[sorted[i]].timesteps.Some? {
      HistoryOf(w, state.absTimeStep, sorted[i]);
    }
  }

  lemma SortedLive(nodes: map<NodeId, Node>, s: seq<NodeId>)
    requires ListsLive(nodes, nodes.Keys, s)
    ensures forall n | n in s :: n in nodes && nodes[n].live
    ensures forall i | 0 <= i < |s| :: s[i] in s
  {
  }

  function Min(a: nat, b: nat): nat {
    if a < b then a else b
  }

  ghost predicate ValidProbs(prob: seq<real>, blank: nat) {
    |prob| == blank + 1 && forall c | 0 <= c < |prob| :: prob[c] >= 0.0
  }

  lemma BlankProb(prob: seq<real>, blank: nat)
    requires ValidProbs(prob, blank)
    ensures blank < |prob| && Prob(prob, blank) == prob[blank]
  {
  }

  /** Has a frame with blank probability below 0.999 been seen? */
  function Started(already: bool, probs: seq<seq<real>>, blank: nat): bool {
    if probs == [] then already
    else Started(already, probs[..|probs| - 1], blank) || Prob(probs[|probs| - 1], blank) < 0.999
  }

  /** The frames that get expanded: everything from the first such frame on. */
  function Expanding(already: bool, probs: seq<seq<real>>, blank: nat): seq<Frame> {
    if probs == [] then []
    else Expanding(already, probs[..|probs| - 1], blank)
         + (if Started(already, probs, blank) then [Floored(probs[|probs| - 1])] else [])
  }

  lemma {:induction false} StaysStarted(already: bool, probs: seq<seq<real>>, i: nat, blank: nat)
    requires i <= |probs| && Started(already, probs[..i], blank)
    ensures Started(already, probs, blank)
  {
    hide Prob;
    if i == |probs| {
      assert probs[..i] == probs;
    } else {
      var front := probs[..|probs| - 1];
      assert front[..i] == probs[..i];
      StaysStarted(already, front, i, blank);
    }
  }

  /** A run of the search on label sequences: one step for every frame from the first with blank probability below
      0.999 on.  The frames are numbered from `t`. */
  ghost predicate Runs(cfg: Config, dict: Option<Dictionary>, already: bool, t: nat, probs: seq<seq<real>>, h: Hyps,
                       h': Hyps) {
    if probs == [] then h' == h
    else
      var last := |probs| - 1;
      if Started(already, probs, cfg.blank)
      then exists mid ::
          Runs(cfg, dict, already, t, probs[..last], h, mid) && Advances(cfg, dict, probs[last], t + last, mid, h')
      else Runs(cfg, dict, already, t, probs[..last], h, h')
  }

  lemma NoFrames(cfg: Config, dict: Option<Dictionary>, already: bool, t: nat, probs: seq<seq<real>>, h: Hyps)
    ensures Runs(cfg, dict, already, t, probs[..0], h, h)
  {
  }

  lemma OneMoreFrame(cfg: Config, dict: Option<Dictionary>, already: bool, t: nat, probs: seq<seq<real>>, i: nat,
                     h: Hyps, mid: Hyps, h': Hyps)
    requires i < |probs| && Runs(cfg, dict, already, t, probs[..i], h, mid)
    requires if Started(already, probs[..i + 1], cfg.blank) then Advances(cfg, dict, probs[i], t + i, mid, h')
             else h' == mid
    ensures Runs(cfg, dict, already, t, probs[..i + 1], h, h')
  {
    hide Advances, Started;
    assert probs[..i + 1][..i] == probs[..i];
  }

  /** Splitting the frames over two calls makes no difference. */
  lemma {:induction false} ExpandingConcat(already: bool, a: seq<seq<real>>, b: seq<seq<real>>, blank: nat)
    ensures Started(already, a + b, blank) == Started(Started(already, a, blank), b, blank)
    ensures Expanding(already, a + b, blank) == Expanding(already, a, blank)
            + Expanding(Started(already, a, blank), b, blank)
  {
    hide Prob, Floored;
    if b == [] {
      assert a + b == a;
    } else {
      var front := b[..|b| - 1];
      assert (a + b)[..|a + b| - 1] == a + front;
      ExpandingConcat(already, a, front, blank);
    }
  }

  lemma {:induction false} RunsParts(cfg: Config, dict: Option<Dictionary>, already: bool, t: nat, a: seq<seq<real>>,
                                     b: seq<seq<real>>, h: Hyps, h': Hyps)
    requires Runs(cfg, dict, already, t, a + b, h, h')
    ensures RunsTwice(cfg, dict, already, t, a, b, h, h')
    decreases |b|
  {
    hide Advances, Started, Expanding;
    ExpandingConcat(already, a, b, cfg.blank);
    if b == [] {
      assert a + b == a;
    } else {
      var front, last := b[..|b| - 1], b[|b| - 1];
      assert (a + b)[..|a + b| - 1] == a + front && (a + b)[|a + b| - 1] == last;
      if Started(already, a + b, cfg.blank) {
        var m :| Runs(cfg, dict, already, t, a + front, h, m) && Advances(cfg, dict, last, t + |a + front|, m, h');
        RunsParts(cfg, dict, already, t, a, front, h, m);
      } else {
        RunsParts(cfg, dict, already, t, a, front, h, h');
      }
    }
  }

  lemma {:induction false} RunsJoined(cfg: Config, dict: Option<Dictionary>, already: bool, t: nat, a: seq<seq<real>>,
                                      b: seq<seq<real>>, h: Hyps, mid: Hyps, h': Hyps)
    requires Runs(cfg, dict, already, t, a, h, mid)
             && Runs(cfg, dict, Started(already, a, cfg.blank), t + |a|, b, mid, h')
    ensures Runs(cfg, dict, already, t, a + b, h, h')
    decreases |b|
  {
    hide Advances, Started, Expanding;
    ExpandingConcat(already, a, b, cfg.blank);
    if b == [] {
      assert a + b == a;
    } else {
      var front, last, on := b[..|b| - 1], b[|b| - 1], Started(already, a, cfg.blank);
      assert (a + b)[..|a + b| - 1] == a + front && (a + b)[|a + b| - 1] == last;
      if Started(already, a + b, cfg.blank) {
        var m :| Runs(cfg, dict, on, t + |a|, front, mid, m) && Advances(cfg, dict, last, t + |a + front|, m, h');
        RunsJoined(cfg, dict, already, t, a, front, h, mid, m);
      } else {
        RunsJoined(cfg, dict, already, t, a, front, h, mid, h');
      }
    }
  }

  /** Splitting the frames over two calls makes no difference to the run either. */
  lemma RunsConcat(cfg: Config, dict: Option<Dictionary>, already: bool, t: nat, a: seq<seq<real>>, b: seq<seq<real>>,
                   h: Hyps, h': Hyps)
    ensures Runs(cfg, dict, already, t, a + b, h, h') <==> RunsTwice(cfg, dict, already, t, a, b, h, h')
  {
    hide Runs;
    if Runs(cfg, dict, already, t, a + b, h, h') { RunsParts(cfg, dict, already, t, a, b, h, h'); }
    if RunsTwice(cfg, dict, already, t, a, b, h, h') {
      var mid :| Runs(cfg, dict, already, t, a, h, mid)
        && Runs(cfg, dict, Started(already, a, cfg.blank), t + |a|, b, mid, h');
      RunsJoined(cfg, dict, already, t, a, b, h, mid, h');
    }
  }

  ghost predicate RunsTwice(cfg: Config, dict: Option<Dictionary>, already: bool, t: nat, a: seq<seq<real>>,
                            b: seq<seq<real>>,
                            h: Hyps, h': Hyps) {
    exists mid :: Runs(cfg, dict, already, t, a, h, mid)
      && Runs(cfg, dict, Started(already, a, cfg.blank), t + |a|, b, mid, h')
  }

  /** A transcript: the labels of the path, one timestep per label, in order and among the frames seen. */
  ghost predicate IsOutput(w: View, t: nat, n: NodeId, score: real, o: Output) {
    && n in w.paths && o.tokens == w.paths[n]
    && HistOk(o.timesteps, |o.tokens|, t)
    && n in w.nodes && (w.nodes[n].score > 0.0 ==> o.timesteps == TimesOf(w.nodes[n], w.hist))
    && o.confidence == score
  }

  /** The transcripts of the first prefixes of a list. */
  ghost predicate AreOutputs(w: View, t: nat, s: seq<NodeId>, scores: map<NodeId, Node>, outs: seq<Output>) {
    |outs| <= |s| && forall i | 0 <= i < |outs| :: s[i] in scores && IsOutput(w, t, s[i], scores[s[i]].score, outs[i])
  }

  lemma MakeOutput(w: View, t: nat, n: NodeId, score: real, o: Output)
    requires TsInv(w.nodes, w.paths, w.hist, t) && n in w.nodes && w.nodes[n].timesteps.Some?
    requires w.nodes[n].timesteps.value < |w.hist| && o.timesteps == w.hist[w.nodes[n].timesteps.value]
    requires o.tokens == w.paths[n] && o.confidence == score
    ensures IsOutput(w, t, n, score, o)
  {
    hide HistOk;
    assert TsAt(w.nodes[n], |w.paths[n]|, w.hist, t);
  }

  lemma HistoryOf(w: View, t: nat, n: NodeId)
    requires TsInv(w.nodes, w.paths, w.hist, t) && n in w.nodes
    ensures w.nodes[n].timesteps.Some? ==> w.nodes[n].timesteps.value < |w.hist|
    ensures w.nodes[n].score > 0.0 ==> w.nodes[n].timesteps.Some?
  {
    assert TsAt(w.nodes[n], |w.paths[n]|, w.hist, t);
  }

  lemma TimestepsBelow(tree: seq<TsNode>, hist: seq<seq<nat>>)
    requires TsOk(tree, hist)
    ensures |tree| == |hist| && forall k | 0 < k < |tree| :: tree[k].parent < k
  {
    GetHistoryIsHist(tree, hist, 0);
  }

  function Scaled(factor: real, mass: real): real {
    factor * mass
  }

  /** The list is in the order of prefix_compare, so that scores never rise along it. */
  ghost predicate ByScore(nodes: map<NodeId, Node>, s: seq<NodeId>) {
    && AllIn(nodes, s)
    && forall i, j | 0 <= i < j < |s| :: nodes[s[i]].score >= nodes[s[j]].score && !Before(nodes, s[j], s[i])
  }

  lemma SortedByScore(nodes: map<NodeId, Node>, s: seq<NodeId>)
    requires AllIn(nodes, s) && SortedTo(nodes, s, |s|)
    ensures ByScore(nodes, s)
  {
    forall i, j | 0 <= i < j < |s| ensures nodes[s[i]].score >= nodes[s[j]].score && !Before(nodes, s[j], s[i]) {
      assert !Before(nodes, s[j], s[i]);
    }
  }

  /** The cutoff of the last prefix. */
  ghost function Cutoff(nodes: map<NodeId, Node>, beam: seq<NodeId>, probBlank: real, beta: real): real
    requires AllIn(nodes, beam) && beam != []
  {
    CutoffOf(nodes[beam[|beam| - 1]].score, probBlank, beta)
  }

  // ----- hypotheses

  lemma InitiallyShown(w: View)
    requires w.nodes.Keys == {ROOT_ID} && w.paths == map[ROOT_ID := []]
    requires w.nodes[ROOT_ID].live && w.nodes[ROOT_ID].bPrev == w.nodes[ROOT_ID].score == 1.0
             && w.nodes[ROOT_ID].nbPrev == 0.0
    requires w.nodes[ROOT_ID].timesteps.Some?
    requires w.nodes[ROOT_ID].timesteps.value < |w.hist| && w.hist[w.nodes[ROOT_ID].timesteps.value] == []
    ensures Shows(w.nodes, w.paths, w.hist, START) && HasMass(START) && Timely(w.nodes)
  {
    assert [] in START && Score(START[[]]) > 0.0;
    assert w.paths[ROOT_ID] == [];
  }

  lemma KeptOk(prob: seq<real>, cfg: Config, kept: seq<nat>)
    requires Choice(prob, cfg.cutoffProb, cfg.cutoffTopN, kept) && |prob| == cfg.blank + 1
    ensures NoDup(kept) && kept != [] && (forall c | c in kept :: c <= cfg.blank)
    ensures cfg.cutoffProb >= 1.0 ==> AreClasses(kept, cfg.blank + 1) && cfg.blank in kept
  {
  }

  /** The beam as a list of label sequences. */
  lemma OrderListed(w: View, h: Hyps, beam: seq<NodeId>, sorted: bool, whole: bool)
    requires Shows(w.nodes, w.paths, w.hist, h) && Scored(w.nodes) && Wf(w.nodes, w.paths, w.next)
    requires OnePerPath(w.paths) && w.paths.Keys == w.nodes.Keys && ListsLive(w.nodes, w.nodes.Keys, beam)
    requires sorted ==> ByScore(w.nodes, beam)
    requires whole ==> ChildrenFirst(w.paths, beam)
    ensures Lists(h, Spell(w.paths, beam), sorted, whole)
  {
    hide Wf, Scored, Ahead, Before;
    var o := Spell(w.paths, beam);
    forall i | 0 <= i < |beam| ensures beam[i] in w.nodes && w.nodes[beam[i]].live && o[i] == w.paths[beam[i]] {
      assert beam[i] in beam;
    }
    forall q | q in h ensures q in o {
      assert !Absent(w.nodes, w.paths, q);
      var n :| n in w.nodes && w.nodes[n].live && n in w.paths && w.paths[n] == q;
      assert n in beam;
      var i :| 0 <= i < |beam| && beam[i] == n;
      assert o[i] == q;
    }
    if sorted {
      forall i, j | 0 <= i < j < |o| ensures o[i] in h && o[j] in h && !Ahead(h, o[j], o[i]) {
        SameOrder(w, h, beam[j], beam[i]);
      }
    }
  }

  lemma PassIs(cfg: Config, prob: seq<real>, t: nat, w: View, h: Hyps, beam: seq<NodeId>, a: Pass)
    requires ValidProbs(prob, cfg.blank) && Choice(prob, cfg.cutoffProb, cfg.cutoffTopN, a.kept) && a.p == Floored(prob)
    requires Shows(w.nodes, w.paths, w.hist, h) && Scored(w.nodes) && Wf(w.nodes, w.paths, w.next)
    requires a.t == t && a.order == Spell(w.paths, beam)
    requires cfg.scorer.None? && |beam| < cfg.beamSize ==> ChildrenFirst(w.paths, beam)
    requires ListsLive(w.nodes, w.nodes.Keys, beam) && beam != [] && a.g == Setting(cfg.blank, cfg.scorer, a.g.dict)
    requires a.full <==> cfg.scorer.Some? && |beam| == cfg.beamSize
    requires cfg.scorer.Some? ==>
               ByScore(w.nodes, beam) && a.min == Cutoff(w.nodes, beam, prob[cfg.blank], cfg.scorer.value.beta)
    ensures IsPass(cfg, a.g.dict, prob, t, h, a) && |h| == |beam|
  {
    hide Shows, Scored, Wf, ListsLive, Choice, OnePerPath, Lists, Spell, ChildrenFirst;
    WfKeys(w.nodes, w.paths, w.next);
    WfPaths(w);
    ShownLength(w.nodes, w.paths, w.hist, h, beam);
    OrderListed(w, h, beam, cfg.scorer.Some?, cfg.scorer.None? && |beam| < cfg.beamSize);
    if cfg.scorer.Some? {
      LowestShown(w, h, beam);
      assert Lowest(h, w.paths[beam[|beam| - 1]]);
    }
  }

  // ----- keeping a decoder sound

  lemma SoundLists(cfg: Config, dict: Option<Dictionary>, w: View, prefixes: seq<NodeId>, h: Hyps, fr: seq<Frame>,
                   t: nat, over: bool)
    requires Sound(cfg, dict, w, prefixes, h, fr, t, over)
    ensures ListsLive(w.nodes, w.nodes.Keys, prefixes) && 1 <= |prefixes|
  {
    hide ListsLive;
  }

  lemma SoundRests(cfg: Config, dict: Option<Dictionary>, w: View, prefixes: seq<NodeId>, h: Hyps, fr: seq<Frame>,
                   t: nat, over: bool)
    requires Sound(cfg, dict, w, prefixes, h, fr, t, over)
    ensures Rested(dict, w, prefixes, t)
  {
  }

  lemma SoundReorder(cfg: Config, dict: Option<Dictionary>, w: View, prefixes: seq<NodeId>, prefixes': seq<NodeId>,
                     h: Hyps,
                     fr: seq<Frame>, t: nat, over: bool)
    requires Sound(cfg, dict, w, prefixes, h, fr, t, over)
    requires ListsLive(w.nodes, w.nodes.Keys, prefixes') && |prefixes'| == |prefixes|
    requires cfg.scorer.None? ==> prefixes' == prefixes
    ensures Sound(cfg, dict, w, prefixes', h, fr, t, over)
  {
    hide Wf, TsInv, StatesOk, Scored, Idle, LeavesLive, ListsLive, Spelled, Shows, BeamFits, HasMass, Bounded, Exact,
      Timely;
  }

  lemma SoundWait(cfg: Config, dict: Option<Dictionary>, w: View, prefixes: seq<NodeId>, h: Hyps, fr: seq<Frame>,
                  t: nat, over: bool)
    requires Sound(cfg, dict, w, prefixes, h, fr, t, over)
    ensures Sound(cfg, dict, w, prefixes, h, fr, t + 1, over)
  {
    hide Wf, TsInv, StatesOk, Scored, LeavesLive, ListsLive, Spelled, Shows, BeamFits, HasMass, Bounded, Exact, Timely;
    TsWait(w.nodes, w.paths, w.hist, t);
  }

  lemma BlankPositive(prob: seq<real>, blank: nat)
    requires ValidProbs(prob, blank)
    ensures Prob(Floored(prob), blank) > 0.0
  {
    FlooredValid(prob, blank);
  }

  lemma ProbLength(prob: seq<real>, blank: nat)
    requires ValidProbs(prob, blank)
    ensures |prob| == blank + 1
  {
  }

  lemma PassIsAt(cfg: Config, dict: Option<Dictionary>, prob: seq<real>, t: nat, h: Hyps, a: Pass)
    requires IsPass(cfg, dict, prob, t, h, a)
    ensures a.t == t && (a.full ==> cfg.scorer.Some?)
  {
  }

  lemma EachOnce(nodes: map<NodeId, Node>, beam: seq<NodeId>)
    requires ListsLive(nodes, nodes.Keys, beam)
    ensures NoDup(beam)
  {
  }

  /** The loops may start. */
  lemma FrameBegins(cfg: Config, dict: Option<Dictionary>, prob: seq<real>, w: View, beam: seq<NodeId>, h: Hyps,
                    fr: seq<Frame>,
                    t: nat, over: bool, x: Ctx, a: Pass)
    requires Sound(cfg, dict, w, beam, h, fr, t, over) && |beam| <= cfg.beamSize && ValidProbs(prob, cfg.blank)
    requires x == Ctx(cfg.blank, cfg.scorer, dict, w.nodes, w.paths, w.hist, Floored(prob), t, Order(a.kept, beam))
    requires a.t == t && a.order == Spell(w.paths, beam)
    requires a.g == Setting(cfg.blank, cfg.scorer, dict) && a.p == Floored(prob)
             && Choice(prob, cfg.cutoffProb, cfg.cutoffTopN, a.kept)
    requires cfg.scorer.None? ==> !a.full
    requires cfg.scorer.Some? ==>
               && (a.full <==> |beam| == cfg.beamSize) && ByScore(w.nodes, beam)
               && |prob| == cfg.blank + 1 && a.min == Cutoff(w.nodes, beam, prob[cfg.blank], cfg.scorer.value.beta)
    ensures ValidCtx(x) && InFrame(x, w, {}, {}, 0.0) && BeamOk(x, cfg, beam, a.full)
    ensures NoDup(a.kept) && forall c | c in a.kept :: c <= cfg.blank
    ensures IsPass(cfg, dict, prob, t, h, a) && |h| == |beam| && Alongside(x, beam, h, a)
    ensures ListsLive(x.nodes0, x.nodes0.Keys, beam) && |beam| >= 1
  {
    hide Wf, TsInv, StatesOk, Idle, LeavesLive, ListsLive, Spelled, Shows, BeamFits, HasMass, Bounded, Exact, Timely,
      Floored, InFrame;
    hide ByScore, BeamOk, Choice, Cutoff, ValidScorer, Scored, IsPass, ValidFrame, ValidFrames;
    FlooredValid(prob, cfg.blank);
    WfKeys(w.nodes, w.paths, w.next);
    KeptOk(prob, cfg, a.kept);
    EachOnce(w.nodes, beam);
    FrameStarts(x, w, beam);
    BeamIsOk(x, cfg, beam, a.full);
    PassIs(cfg, prob, t, w, h, beam, a);
  }

  /** The loops and the end of the frame leave the decoder sound. */
  lemma FrameIsSound(cfg: Config, dict: Option<Dictionary>, prob: seq<real>, w0: View, beam: seq<NodeId>, h: Hyps,
                     fr: seq<Frame>,
                     t: nat, over: bool, x: Ctx, a: Pass, w: View, acc: real, w': View, prefixes: seq<NodeId>)
    requires Sound(cfg, dict, w0, beam, h, fr, t, over) && ValidProbs(prob, cfg.blank)
    requires x == Ctx(cfg.blank, cfg.scorer, dict, w0.nodes, w0.paths, w0.hist, Floored(prob), t, Order(a.kept, beam))
    requires Alongside(x, beam, h, a) && IsPass(cfg, dict, prob, t, h, a) && |h| == |beam|
    requires var done := Rows(x, a.full, a.min, a.kept, beam); InFrame(x, w, done, done, acc)
    requires Rested(dict, w', prefixes, t + 1) && 1 <= |prefixes|
    requires BeamFits(|prefixes|, cfg, |fr| + 1, over || a.full)
    requires w'.paths == w.paths && CommittedOn(w.nodes, w'.nodes, w'.hist, w.nodes.Keys) && w.hist <= w'.hist
    requires ChildrenFirst(w'.paths, prefixes)
    ensures Sound(cfg, dict, w', prefixes, Expand(h, a), fr + [Floored(prob)], t + 1, over || a.full)
    ensures |Expand(h, a)| == |prefixes|
  {
    hide Wf, TsInv, StatesOk, Scored, Idle, LeavesLive, ListsLive, Spelled, Shows, BeamFits, HasMass, Bounded, Exact,
      Timely, Floored;
    hide InFrame, CommittedOn, Rows, ValidScorer, ValidCtx, Expand, AreClasses, ValidFrames, ValidProbs, ChildrenFirst,
      IsPass, Alongside, RoomFor;
    PassKept(cfg, dict, prob, t, h, a);
    AlongsideIs(x, beam, h, a);
    HypsAfter(cfg, x, w, w', beam, prefixes, h, prob, a, acc);
    ExactAfter(cfg, dict, prob, w0, beam, h, fr, t, over, x, a, w, acc, w', prefixes);
  }

  lemma PassKept(cfg: Config, dict: Option<Dictionary>, prob: seq<real>, t: nat, h: Hyps, a: Pass)
    requires IsPass(cfg, dict, prob, t, h, a)
    ensures cfg.cutoffProb >= 1.0 ==> AreClasses(a.kept, cfg.blank + 1)
  {
    hide Choice, AreClasses, Lists, IsCutoff, Floored;
    KeptOk(prob, cfg, a.kept);
  }

  lemma AlongsideIs(x: Ctx, beam: seq<NodeId>, h: Hyps, a: Pass)
    requires Alongside(x, beam, h, a)
    ensures ValidCtx(x) && ListsLive(x.nodes0, x.nodes0.Keys, beam)
  {
    hide ValidCtx, ListsLive;
  }

  lemma FitsAfter(cfg: Config, dict: Option<Dictionary>, prob: seq<real>, w0: View, beam: seq<NodeId>, h: Hyps,
                  fr: seq<Frame>, t: nat, over: bool, a: Pass, length: nat)
    requires Sound(cfg, dict, w0, beam, h, fr, t, over) && IsPass(cfg, dict, prob, t, h, a) && |h| == |beam|
    requires length <= |beam| * (cfg.blank + 1)
    ensures BeamFits(length, cfg, |fr| + 1, over || a.full)
  {
    hide Rested, Spelled, Shows, HasMass, Bounded, Exact, Timely, BeamFits, Choice, IsCutoff, Floored, ValidScorer,
      ValidFrames, ValidProbs;
    StillFits(|beam|, cfg, |fr|, over, length, length, over || a.full);
  }

  lemma ExactAfter(cfg: Config, dict: Option<Dictionary>, prob: seq<real>, w0: View, beam: seq<NodeId>, h: Hyps,
                   fr: seq<Frame>, t: nat, over: bool, x: Ctx, a: Pass, w: View, acc: real, w': View,
                   prefixes: seq<NodeId>)
    requires Sound(cfg, dict, w0, beam, h, fr, t, over) && ValidProbs(prob, cfg.blank)
    requires x == Ctx(cfg.blank, cfg.scorer, dict, w0.nodes, w0.paths, w0.hist, Floored(prob), t, Order(a.kept, beam))
    requires ValidCtx(x) && ListsLive(x.nodes0, x.nodes0.Keys, beam)
    requires cfg.cutoffProb >= 1.0 ==> AreClasses(a.kept, cfg.blank + 1)
    requires var done := Rows(x, a.full, a.min, a.kept, beam); InFrame(x, w, done, done, acc)
    requires Rested(dict, w', prefixes, t + 1) && w'.paths == w.paths
    requires CommittedOn(w.nodes, w'.nodes, w'.hist, w.nodes.Keys)
    ensures ValidFrames(fr + [Floored(prob)], cfg.blank)
    ensures Bounded(w'.nodes, w'.paths, fr + [Floored(prob)], Setting(cfg.blank, cfg.scorer, dict))
    ensures cfg.cutoffProb >= 1.0 && !over && !a.full ==>
              && Exact(w'.nodes, w'.paths, fr + [Floored(prob)], Setting(cfg.blank, cfg.scorer, dict))
              && Timely(w'.nodes)
  {
    hide Wf, TsInv, StatesOk, Scored, Idle, LeavesLive, ListsLive, Spelled, Shows, BeamFits, HasMass, Bounded, Exact;
    hide InFrame, CommittedOn, Rows, ValidScorer, ValidFrame, AreClasses, ValidFrames, ValidProbs, Timely, Floored;
    BlankPositive(prob, cfg.blank);
    var exact := cfg.cutoffProb >= 1.0 && !over && !a.full;
    MassesAfter(x, w, Rows(x, a.full, a.min, a.kept, beam), acc, w', fr, beam, a.kept, a.full, a.min, exact);
    if exact { TimesAfter(x, w, Rows(x, a.full, a.min, a.kept, beam), acc, w', beam, a.kept, a.min); }
  }

  lemma WholeTotal(cfg: Config, x: Ctx, w0: View, prob: seq<real>, kept: seq<nat>, beam: seq<NodeId>, acc: real)
    requires ValidProbs(prob, cfg.blank) && Choice(prob, cfg.cutoffProb, cfg.cutoffTopN, kept) && cfg.cutoffProb >= 1.0
    requires x.blank == cfg.blank && acc == Scaled(SumProb(Floored(prob), kept), SumScore(x.nodes0, beam))
    requires ListsLive(x.nodes0, x.nodes0.Keys, beam) && x.nodes0 == w0.nodes && InFrame(x, w0, {}, {}, 0.0)
    ensures acc == Scaled(Total(Floored(prob)), LiveMass(w0.nodes, w0.next))
  {
    hide Wf, Accum, Born, DoneOld, Kept, TsInv, LeavesLive, HasKids, StatesOk, SumCur, TimesKept, Spelled, ListsLive,
      Choice, AreClasses, Records;
    hide SumProb, SumScore, LiveMass, Total;
    KeptOk(prob, cfg, kept);
    TotalAfter(x, w0, Floored(prob), kept, beam);
  }

  lemma HypsAfter(cfg: Config, x: Ctx, w: View, w': View, beam: seq<NodeId>, prefixes: seq<NodeId>, h: Hyps,
                  prob: seq<real>,
                  a: Pass, acc: real)
    requires Alongside(x, beam, h, a) && InFrame(x, w, Done(x, beam, a), Done(x, beam, a), acc)
    requires w'.paths == w.paths && CommittedOn(w.nodes, w'.nodes, w'.hist, w.nodes.Keys) && w.hist <= w'.hist
    requires Wf(w'.nodes, w'.paths, w'.next) && ListsLive(w'.nodes, w'.nodes.Keys, prefixes)
    requires IsPass(cfg, x.dict, prob, x.t, h, a)
    ensures Shows(w'.nodes, w'.paths, w'.hist, Expand(h, a)) && |Expand(h, a)| == |prefixes|
            && Spelled(w'.paths, x.blank)
    ensures HasMass(h) && (cfg.scorer.None? || cfg.cutoffProb >= 1.0) ==> HasMass(Expand(h, a))
  {
    hide Wf, Accum, Born, DoneOld, Kept, TsInv, LeavesLive, HasKids, StatesOk, SumCur, TimesKept, Done, Spelled, Shows,
      ListsLive, Records;
    hide CommittedOn, OnePerPath, Expand, HasMass, IsPass, ValidScorer, ValidFrame, Scored;
    FrameShown(x, w, w', beam, h, a, acc);
    WfKeys(w'.nodes, w'.paths, w'.next);
    WfPaths(w');
    ShownLength(w'.nodes, w'.paths, w'.hist, Expand(h, a), prefixes);
    if HasMass(h) && (cfg.scorer.None? || cfg.cutoffProb >= 1.0) { MassStays(cfg, x, beam, h, prob, a); }
  }

  lemma PassIsValid(cfg: Config, dict: Option<Dictionary>, prob: seq<real>, t: nat, h: Hyps, a: Pass)
    requires IsPass(cfg, dict, prob, t, h, a) && ValidScorer(cfg.scorer)
    ensures ValidPass(a) && a.kept != []
  {
    hide ValidScorer;
    FlooredValid(prob, cfg.blank);
    KeptOk(prob, cfg, a.kept);
  }

  lemma MassStays(cfg: Config, x: Ctx, beam: seq<NodeId>, h: Hyps, prob: seq<real>, a: Pass)
    requires Alongside(x, beam, h, a) && IsPass(cfg, x.dict, prob, x.t, h, a)
    requires HasMass(h) && (cfg.scorer.None? || cfg.cutoffProb >= 1.0)
    ensures HasMass(Expand(h, a))
  {
    hide Shows, ListsLive, Choice, HasMass, Expand, Skipped, IsCutoff, Floored, Prob, ValidFrame;
    PassIsValid(cfg, x.dict, prob, x.t, h, a);
    KeptOk(prob, cfg, a.kept);
    ShownNonNegative(View(x.nodes0, x.paths0, 0, x.hist0), h);
    if cfg.scorer.Some? {
      FlooredValid(prob, cfg.blank);
      forall q | q in h ensures !Skipped(h, a, q, a.g.blank) {
        BlankIsNeverSkipped(h, a, prob[cfg.blank], cfg.scorer.value.beta, q);
      }
    }
    MassRemains(h, a);
  }

  lemma TimesAfter(x: Ctx, w: View, done: set<Pair>, acc: real, w': View, beam: seq<NodeId>, kept: seq<nat>,
                   minCutoff: real)
    requires ValidCtx(x) && InFrame(x, w, done, done, acc) && Timely(x.nodes0) && Prob(x.p, x.blank) > 0.0
    requires w'.paths == w.paths && CommittedOn(w.nodes, w'.nodes, w'.hist, w.nodes.Keys)
             && TsInv(w'.nodes, w'.paths, w'.hist, x.t + 1)
    requires AreClasses(kept, x.blank + 1)
    requires ListsLive(x.nodes0, x.nodes0.Keys, beam) && done == Rows(x, false, minCutoff, kept, beam)
    ensures Timely(w'.nodes)
  {
    hide Wf, Accum, Born, DoneOld, TsInv, LeavesLive, HasKids, StatesOk, SumCur, ListsLive, Rows, CommittedOn, Spelled,
      TimesKept, Records;
    hide ValidFrame, ValidScorer, AreClasses, Covered, Prob;
    FrameCovered(x, w, done, kept, minCutoff, beam);
    forall q | q in w.nodes ensures w.nodes[q].bCur >= 0.0 && w.nodes[q].nbCur >= 0.0 {
      CollectedNonNegative(x, w, done, done, q);
    }
    forall q | q in w.nodes && q in x.nodes0 && x.nodes0[q].score > 0.0 ensures w.nodes[q].bCur > 0.0 {
      KeepsBlankMass(x, w, done, q);
    }
    TimelyAfter(x.nodes0, w.nodes, w.paths, w.hist, x.t, w'.nodes, w'.hist);
  }

  lemma KeepsBlankMass(x: Ctx, w: View, done: set<Pair>, q: NodeId)
    requires ValidCtx(x) && Accum(w.nodes, w.paths, done, done, x.p, x.blank, x.scorer)
             && Kept(x.nodes0, x.paths0, w.nodes, w.paths)
    requires Covered(x.nodes0, w.nodes, w.paths, done, Setting(x.blank, x.scorer, x.dict))
    requires q in w.nodes && q in x.nodes0 && x.nodes0[q].live && x.nodes0[q].score > 0.0 && Prob(x.p, x.blank) > 0.0
    ensures w.nodes[q].bCur > 0.0
  {
    hide Prob, LiveChild, Permits, RepeatIn, ExtendIn, ValidScorer, ValidFrame;
    assert AccumAt(w.nodes, w.paths, done, done, x.p, x.blank, x.scorer, q);
    assert (x.blank, q) in done;
    ProductPositive(Prob(x.p, x.blank), x.nodes0[q].score);
  }

  /** So does the cut. */
  lemma CutIsSound(cfg: Config, dict: Option<Dictionary>, w: View, w': View, h: Hyps, before: seq<NodeId>,
                   after: seq<NodeId>,
                   fr: seq<Frame>, t: nat, over: bool)
    requires Sound(cfg, dict, w, before, h, fr, t, over) && |h| == |before| > cfg.beamSize > 0
    requires Rested(dict, w', after, t) && |after| == cfg.beamSize && Survivors(w.nodes, before, after)
    requires Pruned(w.nodes, w'.nodes, Members(before) - Members(after)) && SubMap(w.paths, w'.paths)
    requires w'.hist == w.hist
    ensures Sound(cfg, dict, w', after, Restricted(h, w'), fr, t, true) && IsCut(h, Restricted(h, w'), cfg.beamSize)
  {
    hide Shows, Wf, Scored, ListsLive, Survivors, Pruned, Bounded, Exact, HasMass, IsCut, Restricted, TsInv, StatesOk,
      Idle, LeavesLive;
    hide AreLabels, Timely, ValidScorer, ValidFrames, Power;
    CutShown(w, w', h, before, after);
    PrunedBounded(w.nodes, w.paths, w'.nodes, w'.paths, Members(before) - Members(after), fr,
      Setting(cfg.blank, cfg.scorer, dict));
    if HasMass(h) { CutKeepsMass(h, Restricted(h, w'), cfg.beamSize); }
  }

  lemma StepTaken(cfg: Config, dict: Option<Dictionary>, prob: seq<real>, t: nat, h: Hyps, a: Pass, h': Hyps)
    requires IsPass(cfg, dict, prob, t, h, a) && Fitted(Expand(h, a), h', cfg.beamSize)
    ensures Advances(cfg, dict, prob, t, h, h')
  {
    hide IsPass, Fitted, Expand;
  }

  lemma BeamIsOk(x: Ctx, cfg: Config, beam: seq<NodeId>, full: bool)
    requires ListsLive(x.nodes0, x.nodes0.Keys, beam) && |beam| <= cfg.beamSize
    requires full ==> ByScore(x.nodes0, beam)
    ensures BeamOk(x, cfg, beam, full)
  {
    forall i | 0 <= i < |beam| ensures beam[i] in x.nodes0 && x.nodes0[beam[i]].live { assert beam[i] in beam; }
  }

  lemma CanIterate(x: Ctx, w: View, done: set<Pair>, acc: real)
    requires InFrame(x, w, done, done, acc)
    ensures ROOT_ID in w.nodes && w.paths.Keys == w.nodes.Keys && Subtree(w.paths, ROOT_ID) == w.nodes.Keys
    ensures forall m | m in w.paths :: |w.paths[m]| <= w.next
    ensures forall m | m in w.nodes && w.nodes[m].prevTimesteps.Some? :: w.nodes[m].prevTimesteps.value < |w.hist|
  {
    hide Wf, Accum, Born, DoneOld, Kept, LeavesLive, HasKids, StatesOk, SumCur, Subtree, HistOk, Records;
    WfKeys(w.nodes, w.paths, w.next);
    WholeTrie(w.nodes, w.paths, w.next);
    forall m | m in w.paths ensures |w.paths[m]| <= w.next { DepthBelowId(w.nodes, w.paths, w.next, m); }
  }

  lemma StillSome(x: Ctx, w: View, done: set<Pair>, acc: real, beam: seq<NodeId>, output: seq<NodeId>)
    requires InFrame(x, w, done, done, acc) && ListsLive(x.nodes0, x.nodes0.Keys, beam) && |beam| >= 1
    requires ListsLive(w.nodes, w.nodes.Keys, output)
    ensures |output| >= 1
  {
    hide Wf, Accum, Born, DoneOld, TsInv, LeavesLive, HasKids, StatesOk, SumCur, Records;
    assert beam[0] in beam;
    assert beam[0] in output;
  }

  lemma BeamGrows(x: Ctx, w: View, done: set<Pair>, acc: real, beam: seq<NodeId>, output: seq<NodeId>)
    requires InFrame(x, w, done, done, acc) && ListsLive(x.nodes0, x.nodes0.Keys, beam)
    requires ListsLive(w.nodes, w.nodes.Keys, output)
    ensures |output| <= |beam| * (x.blank + 1)
  {
    hide Wf, Accum, Born, DoneOld, Kept, TsInv, LeavesLive, HasKids, StatesOk, SumCur, ListsLive, Records;
    Growth(x.nodes0, beam, w.nodes, w.paths, w.next, done, x.blank, output);
  }

  /** Is the beam large enough for everything `n` frames can bring?  With a scorer there must be a place to spare. */
  predicate RoomFor(cfg: Config, n: nat) {
    if cfg.scorer.None? then Power(cfg.blank + 1, n) <= cfg.beamSize else Power(cfg.blank + 1, n) < cfg.beamSize
  }

  /** After `n` frames there are at most (blank + 1)^n prefixes, so with that much room nothing is lost. */
  ghost predicate BeamFits(length: nat, cfg: Config, n: nat, overflowed: bool) {
    length <= Power(cfg.blank + 1, n) && (overflowed ==> !RoomFor(cfg, n))
  }

  lemma StillFits(length: nat, cfg: Config, n: nat, overflowed: bool, grown: nat, length': nat, overflowed': bool)
    requires BeamFits(length, cfg, n, overflowed) && length' <= grown <= length * (cfg.blank + 1)
    requires overflowed' ==> overflowed || cfg.beamSize < grown || (cfg.scorer.Some? && cfg.beamSize <= length)
    ensures BeamFits(length', cfg, n + 1, overflowed')
  {
    PowerGrows(cfg.blank + 1, n, n + 1);
    LessTimes(length, Power(cfg.blank + 1, n), cfg.blank + 1);
  }

  lemma LessTimes(a: nat, b: nat, k: nat)
    requires a <= b
    ensures a * k <= b * k
  {
  }

  lemma MassesAfter(x: Ctx, w: View, done: set<Pair>, acc: real, w': View, fr: seq<Frame>, beam: seq<NodeId>,
                    kept: seq<nat>, full: bool, minCutoff: real, exact: bool)
    requires ValidCtx(x) && InFrame(x, w, done, done, acc) && ValidFrames(fr, x.blank)
    requires w'.paths == w.paths && CommittedOn(w.nodes, w'.nodes, w'.hist, w.nodes.Keys)
    requires var g := Setting(x.blank, x.scorer, x.dict);
             Bounded(x.nodes0, x.paths0, fr, g) && (exact ==> Exact(x.nodes0, x.paths0, fr, g))
    requires exact ==> AreClasses(kept, x.blank + 1) && !full
    requires ListsLive(x.nodes0, x.nodes0.Keys, beam) && done == Rows(x, full, minCutoff, kept, beam)
    ensures ValidFrames(fr + [x.p], x.blank)
    ensures var g := Setting(x.blank, x.scorer, x.dict);
            Bounded(w'.nodes, w'.paths, fr + [x.p], g) && (exact ==> Exact(w'.nodes, w'.paths, fr + [x.p], g))
  {
    hide Wf, Accum, Born, DoneOld, Kept, TsInv, LeavesLive, HasKids, StatesOk, SumCur, Bounded, Exact, Scored,
      ListsLive, Rows, CommittedOn, Records;
    hide ValidFrame, Covered, ValidScorer;
    if exact { FrameCovered(x, w, done, kept, minCutoff, beam); }
    FrameMasses(x.nodes0, x.paths0, w.nodes, w.paths, w.next, w'.nodes, w'.hist, w.nodes.Keys, done, fr, x.p,
                Setting(x.blank, x.scorer, x.dict), exact);
  }

  lemma FrameCovered(x: Ctx, w: View, done: set<Pair>, kept: seq<nat>, minCutoff: real, beam: seq<NodeId>)
    requires HasKids(x.dict, w.nodes, w.paths, done, x.blank)
    requires AreClasses(kept, x.blank + 1)
    requires ListsLive(x.nodes0, x.nodes0.Keys, beam) && done == Rows(x, false, minCutoff, kept, beam)
    ensures Covered(x.nodes0, w.nodes, w.paths, done, Setting(x.blank, x.scorer, x.dict))
  {
    hide LiveChild, Prob, Permits;
    forall s, c | s in x.nodes0 && x.nodes0[s].live && x.nodes0[s].score > 0.0 && 0 <= c <= x.blank
      ensures (c, s) in done && (c < x.blank && s in w.paths && Permits(x.dict, w.paths[s] + [c]) ==>
                LiveChild(w.nodes, s, c))
    {
      assert s in beam;
      assert Enters(x, false, minCutoff, c, s);
      assert (c, s) in done;
    }
  }

  lemma TotalAfter(x: Ctx, w0: View, p: Frame, kept: seq<nat>, beam: seq<NodeId>)
    requires |p| == x.blank + 1 && AreClasses(kept, x.blank + 1)
    requires ListsLive(x.nodes0, x.nodes0.Keys, beam) && x.nodes0 == w0.nodes && Wf(w0.nodes, w0.paths, w0.next)
    ensures SumProb(p, kept) == Total(p) && SumScore(x.nodes0, beam) == LiveMass(w0.nodes, w0.next)
  {
    hide Wf, SumProb, Total, SumScore, LiveMass;
    WfKeys(w0.nodes, w0.paths, w0.next);
    SumProbIsTotal(p, kept, x.blank + 1);
    assert p[..x.blank + 1] == p;
    SumScoreIsLiveMass(w0.nodes, beam, w0.next);
  }

  lemma ListedIn(nodes: map<NodeId, Node>, s: seq<NodeId>)
    requires ListsLive(nodes, nodes.Keys, s)
    ensures AllIn(nodes, s)
  {
    forall i | 0 <= i < |s| ensures s[i] in nodes { assert s[i] in s; }
  }

  lemma NothingCut(w: View, all: seq<NodeId>, k: nat)
    requires k <= |all|
    ensures Pruned(w.nodes, w.nodes, Members(all[k..k])) && SubMap(w.paths, w.paths)
  {
  }

  lemma SubMapMore(p0: map<NodeId, seq<nat>>, p1: map<NodeId, seq<nat>>, p2: map<NodeId, seq<nat>>)
    requires SubMap(p0, p1) && SubMap(p1, p2)
    ensures SubMap(p0, p2)
  {
  }

  lemma NextToCut(w: View, nodes: map<NodeId, Node>, all: seq<NodeId>, k: nat, i: nat)
    requires ListsLive(w.nodes, w.nodes.Keys, all) && 1 <= k <= i < |all|
    requires Pruned(w.nodes, nodes, Members(all[k..i])) && LeavesLive(nodes)
    ensures all[i] in nodes && all[0] in nodes && all[0] != all[i] && nodes[all[0]].live
    ensures LeavesLiveBut(nodes, all[i])
    ensures Members(all[k..i + 1]) == Members(all[k..i]) + {all[i]}
  {
    assert all[i] in all && all[0] in all;
    assert all[k..i + 1] == all[k..i] + [all[i]];
    assert forall j | k <= j < i :: all[j] != all[i] && all[j] != all[0];
  }

  lemma SplitMembers(nodes: map<NodeId, Node>, before: seq<NodeId>, all: seq<NodeId>, k: nat)
    requires multiset(before) == multiset(all) && k <= |all| && ListsLive(nodes, nodes.Keys, all)
             && AllIn(nodes, before)
    requires AllIn(nodes, all) && SplitAt(nodes, all, k)
    ensures Members(all[k..]) == Members(before) - Members(all[..k])
    ensures Survivors(nodes, before, all[..k])
  {
    hide Before, ListsLive, SplitAt;
    SameMembers(before, all);
    FrontAndBack(nodes, all, k);
    forall n, m | n in all[..k] && m in before && m !in all[..k] ensures !Before(nodes, m, n) {
      RankedAfter(nodes, all, k, n, m);
    }
  }

  lemma SameMembers(before: seq<NodeId>, all: seq<NodeId>)
    requires multiset(before) == multiset(all)
    ensures forall n :: n in before <==> n in all
  {
    forall n ensures n in before <==> n in all { Occurs(before, n); Occurs(all, n); }
  }

  lemma FrontAndBack(nodes: map<NodeId, Node>, all: seq<NodeId>, k: nat)
    requires k <= |all| && ListsLive(nodes, nodes.Keys, all)
    ensures forall n :: n in all <==> n in all[..k] || n in all[k..]
    ensures forall n | n in all[..k] :: n !in all[k..]
  {
    assert all == all[..k] + all[k..];
    forall n | n in all[..k] ensures n !in all[k..] {
      var i :| 0 <= i < k && all[i] == n;
      assert forall j | k <= j < |all| :: all[j] != all[i];
    }
  }

  lemma RankedAfter(nodes: map<NodeId, Node>, all: seq<NodeId>, k: nat, n: NodeId, m: NodeId)
    requires k <= |all| && AllIn(nodes, all) && SplitAt(nodes, all, k) && n in all[..k] && m in all[k..]
    ensures n in nodes && m in nodes && !Before(nodes, m, n)
  {
    hide Before;
    var i :| 0 <= i < k && all[i] == n;
    var j :| 0 <= j < |all[k..]| && all[k..][j] == m;
    assert all[k + j] == m;
  }

  /** The beam a frame works on: live prefixes, each once, in order if the beam is full. */
  ghost predicate BeamOk(x: Ctx, cfg: Config, beam: seq<NodeId>, full: bool) {
    && NoDup(beam) && |beam| <= cfg.beamSize
    && (forall i | 0 <= i < |beam| :: beam[i] in x.nodes0 && x.nodes0[beam[i]].live)
    && (full ==> ScoresFall(x, beam))
  }

  lemma RowsStart(x: Ctx, full: bool, minCutoff: real, c: nat, beam: seq<NodeId>, done: set<Pair>)
    ensures done + Row(x, full, minCutoff, c, beam[..0]) == done
    ensures SumScore(x.nodes0, beam[..0]) == 0.0
  {
  }

  lemma RowStep(x: Ctx, full: bool, minCutoff: real, c: nat, beam: seq<NodeId>, i: nat, done: set<Pair>)
    requires i < |beam| && NoDup(beam) && beam[i] in x.nodes0 && x.nodes0[beam[i]].score >= 0.0
    requires !(full && Prob(x.p, c) * x.nodes0[beam[i]].score < minCutoff)
    requires forall s :: (c, s) !in done
    ensures x.nodes0[beam[i]].score == 0.0 ==>
              done + Row(x, full, minCutoff, c, beam[..i + 1]) == done + Row(x, full, minCutoff, c, beam[..i])
    ensures x.nodes0[beam[i]].score != 0.0 ==>
              && done + Row(x, full, minCutoff, c, beam[..i + 1]) == done + Row(x, full, minCutoff, c, beam[..i])
                + {(c, beam[i])}
              && (c, beam[i]) !in done + Row(x, full, minCutoff, c, beam[..i])
  {
    hide Row, Prob;
    RowNext(x, full, minCutoff, c, beam, i);
  }

  lemma SumScoreStep(x: Ctx, c: nat, beam: seq<NodeId>, i: nat)
    requires i < |beam| && beam[i] in x.nodes0
    ensures Prob(x.p, c) * SumScore(x.nodes0, beam[..i + 1])
         == Prob(x.p, c) * SumScore(x.nodes0, beam[..i]) + Prob(x.p, c) * x.nodes0[beam[i]].score
    ensures x.nodes0[beam[i]].score == 0.0 ==>
              Prob(x.p, c) * SumScore(x.nodes0, beam[..i + 1]) == Prob(x.p, c) * SumScore(x.nodes0, beam[..i])
  {
    hide SumScore, Prob;
    SumScoreNext(x.nodes0, beam, i);
    Distribute(SumScore(x.nodes0, beam[..i]), x.nodes0[beam[i]].score, Prob(x.p, c));
  }

  lemma NoRows(x: Ctx, full: bool, minCutoff: real, beam: seq<NodeId>, p: Frame)
    ensures Rows(x, full, minCutoff, [], beam) == {}
    ensures SumProb(p, []) == 0.0
  {
  }

  lemma ClassProbOk(x: Ctx, c: nat)
    requires ValidCtx(x) && c <= x.blank
    ensures Prob(x.p, c) >= 0.0
  {
  }

  lemma InBeam(x: Ctx, cfg: Config, beam: seq<NodeId>, full: bool, w: View, done: set<Pair>, acc: real, i: nat)
    requires ValidCtx(x) && BeamOk(x, cfg, beam, full) && i < |beam| && InFrame(x, w, done, done, acc)
    ensures beam[i] in x.nodes0 && beam[i] in x.paths0 && beam[i] in w.nodes
    ensures w.nodes[beam[i]].score == x.nodes0[beam[i]].score >= 0.0
    ensures w.nodes[beam[i]].score != 0.0 ==> Visitable(x, beam[i])
  {
    hide Wf, Accum, Born, DoneOld, TsInv, LeavesLive, HasKids, StatesOk, SumCur, Records;
  }

  lemma VisitedPath(x: Ctx, w: View, s: NodeId)
    requires Visitable(x, s) && Kept(x.nodes0, x.paths0, w.nodes, w.paths)
    ensures s in w.nodes && s in w.paths
  {
  }

  lemma ExtendedPath(w: View, s: NodeId, q: NodeId, c: nat)
    requires Wf(w.nodes, w.paths, w.next) && q in w.nodes && q != ROOT_ID && w.nodes[q].parent == s
             && w.nodes[q].character == c
    ensures q in w.paths && s in w.paths && w.paths[q] == w.paths[s] + [c]
  {
    assert LinkedUp(w.nodes, w.paths, q);
  }

  lemma FactorIs(sc: Option<Scorer>, path: seq<nat>, c: nat, factor: real)
    requires sc.Some?
    requires var scored := if sc.value.utf8 then path + [c] else path;
             factor == if sc.value.boundary(scored, c) then sc.value.lm(scored) * sc.value.beta else 1.0
    ensures factor == ExtendFactor(sc, path, c)
  {
  }

  lemma MassOfParts(x: Ctx, w: View, s: NodeId, c: nat, acoustic: real, factor: real)
    requires Visitable(x, s) && Kept(x.nodes0, x.paths0, w.nodes, w.paths) && s in w.nodes && s in w.paths
             && s in x.paths0
    requires acoustic == Prob(x.p, c) * Base(w.nodes[s], c)
    requires factor == if x.scorer.Some? then ExtendFactor(x.scorer, w.paths[s], c) else 1.0
    ensures acoustic * factor == ExtendMass(x, s, c)
  {
    hide Prob, Base, Kept;
    ExtendMassIs(x, w, s, c);
  }

  lemma ExpandedChild(dict: Option<Dictionary>, w: View, w': View, s: NodeId, c: nat, r: Option<NodeId>)
    requires Wf(w.nodes, w.paths, w.next) && s in w.nodes
    requires Expanded(dict, w.nodes, w.next, s, c, r, w'.nodes, w'.next)
    ensures s in w'.nodes
    ensures r.None? ==> dict.Some? && forall e | e in w'.nodes[s].children :: e.0 != c
    ensures r.Some? ==> r.value in w'.nodes && r.value != ROOT_ID && w'.nodes[r.value].parent == s
                        && w'.nodes[r.value].character == c && w'.nodes[r.value].live
  {
    hide UpOk, OnePerPath;
    if r.Some? && r.value in w.nodes {
      ChildIs(w.nodes, w.paths, w.next, s, (c, r.value));
      KidPath(w.nodes, w.paths, w.next, s, (c, r.value));
    }
  }
}
