/** The trie shows the hypotheses: what one frame and one cut do to it is what they do to the label sequences. */
module BeamShown {
  import opened Basics
  import opened PathTrie
  import opened TrieOps
  import opened Ctc
  import opened Beam
  import opened BeamCtc
  import opened BeamGrowth
  import opened BeamTime
  import opened BeamTotal
  import opened BeamRecord
  import opened DictionaryWalk
  import opened FrameSteps
  import opened FrameEnd
  import opened FrameRows
  import opened Selection
  import opened Hypotheses

  /** The timesteps of a node with mass. */
  function TimesOf(v: Node, hist: seq<seq<nat>>): seq<nat> {
    if v.score > 0.0 && v.timesteps.Some? && v.timesteps.value < |hist| then hist[v.timesteps.value] else []
  }

  function HypOf(v: Node, hist: seq<seq<nat>>): Hyp {
    Hyp(v.bPrev, v.nbPrev, TimesOf(v, hist))
  }

  /** The live nodes spell exactly the hypotheses, and hold their masses and timesteps. */
  ghost predicate Shows(nodes: map<NodeId, Node>, paths: map<NodeId, seq<nat>>, hist: seq<seq<nat>>, h: Hyps) {
    && (forall n | n in nodes && nodes[n].live && n in paths :: paths[n] in h && h[paths[n]] == HypOf(nodes[n], hist))
    && (forall q | q in h :: !Absent(nodes, paths, q))
  }

  /** A frame of the trie next to a frame of the hypotheses. */
  ghost predicate Alongside(x: Ctx, beam: seq<NodeId>, h: Hyps, a: Pass) {
    && ValidCtx(x) && ListsLive(x.nodes0, x.nodes0.Keys, beam) && Shows(x.nodes0, x.paths0, x.hist0, h)
    && a.g == Setting(x.blank, x.scorer, x.dict) && a.p == x.p && a.t == x.t
    && x.order == Order(a.kept, beam) && a.order == Spell(x.paths0, beam)
  }

  /** The label sequences of a list of nodes. */
  ghost function Spell(paths: map<NodeId, seq<nat>>, beam: seq<NodeId>): seq<seq<nat>> {
    seq(|beam|, i requires 0 <= i < |beam| => if beam[i] in paths then paths[beam[i]] else [])
  }

  ghost function Done(x: Ctx, beam: seq<NodeId>, a: Pass): set<Pair> {
    Rows(x, a.full, a.min, a.kept, beam)
  }

  lemma VisitShown(x: Ctx, beam: seq<NodeId>, h: Hyps, a: Pass, n: NodeId, c: nat)
    requires Alongside(x, beam, h, a) && WasLive(x.nodes0, n)
    ensures n in x.paths0 && x.paths0[n] in h && Score(h[x.paths0[n]]) == x.nodes0[n].score
    ensures (c, n) in Done(x, beam, a) <==> Visited(h, a, x.paths0[n], c)
  {
    hide Absent, ValidScorer, ValidFrame;
    assert n in beam;
  }

  lemma NotShown(x: Ctx, w: View, beam: seq<NodeId>, h: Hyps, a: Pass, q: NodeId)
    requires Alongside(x, beam, h, a) && Wf(w.nodes, w.paths, w.next) && Kept(x.nodes0, x.paths0, w.nodes, w.paths)
    requires q in w.nodes && q in w.paths && !WasLive(x.nodes0, q)
    ensures w.paths[q] !in h && forall c :: (c, q) !in Done(x, beam, a)
  {
    hide ValidScorer, ValidFrame, UpOk, DownOk;
  }

  /** A pair was visited in the trie exactly if it was visited among the hypotheses. */
  lemma SameVisits(x: Ctx, w: View, beam: seq<NodeId>, h: Hyps, a: Pass, q: NodeId, c: nat)
    requires Alongside(x, beam, h, a) && Wf(w.nodes, w.paths, w.next) && Kept(x.nodes0, x.paths0, w.nodes, w.paths)
    requires q in w.nodes && q in w.paths
    ensures (c, q) in Done(x, beam, a) <==> Visited(h, a, w.paths[q], c)
    ensures Visited(h, a, w.paths[q], c) ==>
              && w.paths[q] in h && h[w.paths[q]].b == w.nodes[q].bPrev && h[w.paths[q]].nb == w.nodes[q].nbPrev
              && Score(h[w.paths[q]]) == w.nodes[q].score
              && q in x.nodes0 && x.nodes0[q].live && h[w.paths[q]].times == TimesOf(x.nodes0[q], x.hist0)
  {
    hide ValidScorer, ValidFrame, Wf, Done, Skipped, Absent, TimesOf;
    if WasLive(x.nodes0, q) { VisitShown(x, beam, h, a, q, c); } else { NotShown(x, w, beam, h, a, q); }
  }

  lemma NodeShown(x: Ctx, w: View, beam: seq<NodeId>, h: Hyps, a: Pass, acc: real, q: NodeId)
    requires Alongside(x, beam, h, a) && InFrame(x, w, Done(x, beam, a), Done(x, beam, a), acc)
    requires q in w.nodes && q in w.paths
    ensures Stays(h, a, w.paths[q]) == BlankIn(w.nodes, Done(x, beam, a), x.p, x.blank, q) == w.nodes[q].bCur
    ensures w.paths.Keys == w.nodes.Keys
    ensures Repeats(h, a, w.paths[q]) == RepeatIn(w.nodes, Done(x, beam, a), x.p, x.blank, q)
    ensures Grows(h, a, w.paths[q]) == ExtendIn(w.nodes, w.paths, Done(x, beam, a), x.p, x.blank, x.scorer, q)
    ensures Repeats(h, a, w.paths[q]) + Grows(h, a, w.paths[q]) == w.nodes[q].nbCur
  {
    hide Alongside, Done, Visited, Born, StatesOk, Kept, TsInv, LeavesLive, HasKids, SumCur, TimesKept, UpOk, DownOk,
      OnePerPath, Records;
    hide Prob, ExtendFactor;
    var done, path := Done(x, beam, a), w.paths[q];
    assert AccumAt(w.nodes, w.paths, done, done, x.p, x.blank, x.scorer, q);
    SettingIs(x, beam, h, a);
    SameVisits(x, w, beam, h, a, q, x.blank);
    Links(w.nodes, w.paths, w.next, q);
    if q != ROOT_ID {
      var s, c := w.nodes[q].parent, w.nodes[q].character;
      assert c in path;
      assert Front(path) == w.paths[s] && Last(path) == c;
      SameVisits(x, w, beam, h, a, q, c);
      SameVisits(x, w, beam, h, a, s, c);
      LastIsCharacter(w, s);
    } else {
      NoRootRepeat(x, w, done);
    }
  }

  lemma SettingIs(x: Ctx, beam: seq<NodeId>, h: Hyps, a: Pass)
    requires Alongside(x, beam, h, a)
    ensures a.g == Setting(x.blank, x.scorer, x.dict) && a.p == x.p && x.blank < ROOT
  {
  }

  lemma LastIsCharacter(w: View, s: NodeId)
    requires Wf(w.nodes, w.paths, w.next) && s in w.nodes && s in w.paths
    ensures Character(w.paths[s]) == w.nodes[s].character
  {
    hide UpOk, DownOk, OnePerPath;
    Links(w.nodes, w.paths, w.next, s);
  }

  lemma NoRootRepeat(x: Ctx, w: View, done: set<Pair>)
    requires DoneOld(x.nodes0, done, x.blank) && x.blank < ROOT && Wf(w.nodes, w.paths, w.next)
    ensures ROOT_ID in w.nodes && (w.nodes[ROOT_ID].character, ROOT_ID) !in done
  {
    hide UpOk, DownOk, OnePerPath;
  }

  /** Every live node is the node of a candidate. */
  lemma LiveIsCandidate(x: Ctx, w: View, beam: seq<NodeId>, h: Hyps, a: Pass, acc: real, q: NodeId)
    requires Alongside(x, beam, h, a) && InFrame(x, w, Done(x, beam, a), Done(x, beam, a), acc)
    requires q in w.nodes && q in w.paths && w.nodes[q].live
    ensures w.paths[q] in Candidates(h, a)
  {
    hide Alongside, Done, Visited, StatesOk, Kept, TsInv, LeavesLive, HasKids, SumCur, TimesKept, UpOk, DownOk,
      OnePerPath, Accum, Records;
    hide Permits, Candidates;
    SettingIs(x, beam, h, a);
    CandidateIff(h, a, w.paths[q]);
    if WasLive(x.nodes0, q) {
      WasShown(x, w, beam, h, a, q);
    } else {
      var s, c := w.nodes[q].parent, w.nodes[q].character;
      Links(w.nodes, w.paths, w.next, q);
      SameVisits(x, w, beam, h, a, s, c);
      assert Front(w.paths[q]) == w.paths[s] && Last(w.paths[q]) == c;
      HeldIsPermitted(x.dict, w.nodes, w.paths, q);
    }
  }

  lemma WasShown(x: Ctx, w: View, beam: seq<NodeId>, h: Hyps, a: Pass, q: NodeId)
    requires Alongside(x, beam, h, a) && Kept(x.nodes0, x.paths0, w.nodes, w.paths) && WasLive(x.nodes0, q)
    ensures q in w.paths && w.paths[q] in h
  {
    hide Absent, ValidScorer, ValidFrame;
  }

  /** Every candidate has a live node. */
  lemma CandidateIsLive(x: Ctx, w: View, beam: seq<NodeId>, h: Hyps, a: Pass, acc: real, q: seq<nat>)
    requires Alongside(x, beam, h, a) && InFrame(x, w, Done(x, beam, a), Done(x, beam, a), acc)
    requires q in Candidates(h, a)
    ensures !Absent(w.nodes, w.paths, q)
  {
    hide Done, Visited, StatesOk, TsInv, LeavesLive, SumCur, TimesKept, UpOk, DownOk, OnePerPath, Accum, Born, Spelled,
      DoneOld, Records;
    hide Permits, Candidates, LiveChild, ValidFrame, ValidScorer, Scored, ListsLive;
    CandidateIff(h, a, q);
    var front := if q in h then q else Front(q);
    assert front in h by { hide *; if q !in h { ReachedFront(h, a, q); } }
    assert !Absent(x.nodes0, x.paths0, front);
    var s :| s in x.nodes0 && x.nodes0[s].live && s in x.paths0 && x.paths0[s] == front;
    if q !in h {
      var c := Last(q);
      assert q == front + [c];
      SameVisits(x, w, beam, h, a, s, c);
      assert (c, s) in Done(x, beam, a);
      ChildPath(w, s, c);
    }
  }

  lemma ReachedFront(h: Hyps, a: Pass, q: seq<nat>)
    requires Reached(h, a, q)
    ensures q != [] && Front(q) in h
  {
  }

  lemma ChildPath(w: View, s: NodeId, c: nat)
    requires Wf(w.nodes, w.paths, w.next) && s in w.nodes && s in w.paths && LiveChild(w.nodes, s, c)
    ensures !Absent(w.nodes, w.paths, w.paths[s] + [c])
  {
    hide UpOk, DownOk, OnePerPath;
    var q :| q in w.nodes && q != ROOT_ID && w.nodes[q].parent == s && w.nodes[q].character == c && w.nodes[q].live;
    Links(w.nodes, w.paths, w.next, q);
  }

  // ----- timesteps

  /** Nodes and their label sequences come in the same order. */
  lemma OrderShown(x: Ctx, w: View, beam: seq<NodeId>, q: NodeId, s: NodeId)
    requires OnePerPath(w.paths) && w.paths.Keys == w.nodes.Keys && Kept(x.nodes0, x.paths0, w.nodes, w.paths)
    requires q in w.nodes && s in w.nodes && x.paths0.Keys == x.nodes0.Keys && forall n | n in beam :: n in x.nodes0
    ensures Precedes(Spell(x.paths0, beam), w.paths[q], w.paths[s]) <==> Precedes(beam, q, s)
  {
    var o := Spell(x.paths0, beam);
    forall i | 0 <= i < |beam| ensures beam[i] in w.paths && o[i] == w.paths[beam[i]] { assert beam[i] in beam; }
    if Precedes(beam, q, s) {
      var i, j :| 0 <= i < j < |beam| && beam[i] == q && beam[j] == s;
      assert o[i] == w.paths[q] && o[j] == w.paths[s];
    }
    if Precedes(o, w.paths[q], w.paths[s]) {
      var i, j :| 0 <= i < j < |o| && o[i] == w.paths[q] && o[j] == w.paths[s];
      assert beam[i] == q && beam[j] == s;
    }
  }

  /** An expansion is recorded exactly if it lengthens the timesteps of the hypothesis. */
  lemma RecordShown(x: Ctx, w: View, beam: seq<NodeId>, h: Hyps, a: Pass, acc: real, q: NodeId)
    requires Alongside(x, beam, h, a) && InFrame(x, w, Done(x, beam, a), Done(x, beam, a), acc)
    requires q in w.nodes && q in w.paths && w.paths.Keys == w.nodes.Keys
    ensures Recorded(x.order, w.nodes, w.paths, Done(x, beam, a), Done(x, beam, a), x.p, x.blank, x.scorer, q) <==>
              Lengthened(h, a, w.paths[q])
  {
    hide Done, Born, StatesOk, TsInv, LeavesLive, HasKids, SumCur, TimesKept, UpOk, DownOk, Accum, Records, DoneOld,
      Spelled, Kept;
    hide Stays, Repeats, BlankIn, RepeatIn, Precedes, Visited, ValidScorer, ValidFrame, Shows, Offer, Prob,
      ExtendFactor, Base, Scored, OnePerPath, NoDup;
    NodeShown(x, w, beam, h, a, acc, q);
    Links(w.nodes, w.paths, w.next, q);
    if q != ROOT_ID {
      var s, c := w.nodes[q].parent, w.nodes[q].character;
      assert Front(w.paths[q]) == w.paths[s] && Last(w.paths[q]) == c;
      SameVisits(x, w, beam, h, a, s, c);
      WfPaths(w);
      ListedOnly(x.nodes0, beam);
      OrderShown(x, w, beam, q, s);
    }
  }

  lemma ListedOnly(nodes: map<NodeId, Node>, beam: seq<NodeId>)
    requires ListsLive(nodes, nodes.Keys, beam)
    ensures forall n | n in beam :: n in nodes
  {
  }

  /** A hypothesis with mass that does not get a new timestep was there before, with mass. */
  lemma KeepsOld(h: Hyps, a: Pass, q: seq<nat>) returns (c: nat)
    requires Stays(h, a, q) + (Repeats(h, a, q) + Grows(h, a, q)) > 0.0 && !Lengthened(h, a, q)
    ensures Visited(h, a, q, c)
  {
    hide Offer, Prob, Precedes, Skipped;
    c := if Visited(h, a, q, a.g.blank) then a.g.blank else Last(q);
  }

  /** The timesteps of a node after the frame are those of its hypothesis. */
  lemma TimesShown(x: Ctx, w: View, w': View, beam: seq<NodeId>, h: Hyps, a: Pass, acc: real, q: NodeId)
    requires Alongside(x, beam, h, a) && InFrame(x, w, Done(x, beam, a), Done(x, beam, a), acc)
    requires CommittedOn(w.nodes, w'.nodes, w'.hist, w.nodes.Keys) && w.hist <= w'.hist
    requires q in w.nodes && q in w.paths && w.nodes[q].live
    ensures TimesOf(w'.nodes[q], w'.hist) == NewTimes(h, a, w.paths[q])
  {
    hide Alongside, Done, Born, StatesOk, TsInv, LeavesLive, HasKids, SumCur, TimesKept, UpOk, DownOk, OnePerPath, Wf,
      Accum, DoneOld, Spelled, Kept, Records;
    hide Stays, Repeats, Grows, BlankIn, RepeatIn, ExtendIn, Lengthened, Recorded;
    NodeShown(x, w, beam, h, a, acc, q);
    RecordShown(x, w, beam, h, a, acc, q);
    RecordOf(x, w, Done(x, beam, a), acc, q);
    if w.nodes[q].bCur + w.nodes[q].nbCur > 0.0 {
      if Lengthened(h, a, w.paths[q]) {
        NewTimesShown(x, w, beam, h, a, acc, q);
      } else {
        OldTimesShown(x, w, beam, h, a, acc, q);
      }
    } else {
      NodeNonNegative(x, w, Done(x, beam, a), acc, beam, h, a, q);
    }
  }

  lemma NodeNonNegative(x: Ctx, w: View, done: set<Pair>, acc: real, beam: seq<NodeId>, h: Hyps, a: Pass,
                        q: NodeId)
    requires Alongside(x, beam, h, a) && InFrame(x, w, done, done, acc) && q in w.nodes
    ensures w.nodes[q].bCur >= 0.0 && w.nodes[q].nbCur >= 0.0
  {
    hide Born, StatesOk, TsInv, LeavesLive, HasKids, SumCur, TimesKept, Wf, Accum, DoneOld, Spelled, Kept, Records;
    hide Shows, ListsLive, Spell, ValidCtx;
    CollectedNonNegative(x, w, done, done, q);
  }

  lemma RecordOf(x: Ctx, w: View, done: set<Pair>, acc: real, q: NodeId)
    requires InFrame(x, w, done, done, acc) && q in w.nodes && w.paths.Keys == w.nodes.Keys
    ensures RecordAt(x.order, w.nodes, w.paths, done, done, x.p, x.blank, x.scorer, q)
    ensures TsAt(w.nodes[q], |w.paths[q]|, w.hist, x.t)
    ensures w.hist == x.hist0
  {
    hide Born, StatesOk, LeavesLive, HasKids, SumCur, TimesKept, Wf, Accum, DoneOld, Spelled, Kept, RecordAt, TsAt;
  }

  lemma NewTimesShown(x: Ctx, w: View, beam: seq<NodeId>, h: Hyps, a: Pass, acc: real, q: NodeId)
    requires Alongside(x, beam, h, a) && InFrame(x, w, Done(x, beam, a), Done(x, beam, a), acc)
    requires q in w.nodes && q in w.paths && w.paths.Keys == w.nodes.Keys
    requires Recorded(x.order, w.nodes, w.paths, Done(x, beam, a), Done(x, beam, a), x.p, x.blank, x.scorer, q)
    requires Lengthened(h, a, w.paths[q])
    ensures w.nodes[q].parent in w.nodes && a.t == x.t
    ensures var ts := w.nodes[w.nodes[q].parent].timesteps;
            ts.Some? && ts.value < |w.hist| && w.hist[ts.value] == h[Front(w.paths[q])].times
  {
    hide Done, Born, StatesOk, TsInv, LeavesLive, HasKids, SumCur, UpOk, DownOk, OnePerPath, Accum, DoneOld, Spelled,
      Records;
    hide Stays, Repeats, Grows, BlankIn, RepeatIn, ExtendIn, Wins, Visited, Shows, Precedes, ValidScorer, ValidFrame;
    var s, c := w.nodes[q].parent, w.nodes[q].character;
    Links(w.nodes, w.paths, w.next, q);
    assert Front(w.paths[q]) == w.paths[s];
    SameVisits(x, w, beam, h, a, s, c);
    VisitedHasMass(h, a, w.paths[s], c);
    RecordOf(x, w, Done(x, beam, a), acc, s);
  }

  lemma OldTimesShown(x: Ctx, w: View, beam: seq<NodeId>, h: Hyps, a: Pass, acc: real, q: NodeId)
    requires Alongside(x, beam, h, a) && InFrame(x, w, Done(x, beam, a), Done(x, beam, a), acc)
    requires q in w.nodes && q in w.paths && w.paths.Keys == w.nodes.Keys
    requires Stays(h, a, w.paths[q]) + (Repeats(h, a, w.paths[q]) + Grows(h, a, w.paths[q])) > 0.0
    requires !Lengthened(h, a, w.paths[q])
    ensures w.paths[q] in h
    ensures var ts := w.nodes[q].timesteps;
            ts.Some? && ts.value < |w.hist| && w.hist[ts.value] == h[w.paths[q]].times
  {
    hide Done, Born, StatesOk, TsInv, LeavesLive, HasKids, SumCur, Wf, Accum, DoneOld, Spelled, Records;
    hide Stays, Repeats, Grows, Lengthened, Visited, Shows, ValidScorer, ValidFrame, ListsLive, Spell;
    var c := KeepsOld(h, a, w.paths[q]);
    SameVisits(x, w, beam, h, a, q, c);
    VisitedHasMass(h, a, w.paths[q], c);
    RecordOf(x, w, Done(x, beam, a), acc, q);
  }

  /** As many timesteps as labels, rising, and before the frame. */
  ghost predicate TimesInOrder(h: Hyps, t: nat) {
    forall q | q in h && Score(h[q]) > 0.0 :: HistOk(h[q].times, |q|, t)
  }

  /** A frame keeps that, whatever the order of classes and sequences. */
  lemma TimesStayInOrder(h: Hyps, a: Pass)
    requires TimesInOrder(h, a.t)
    ensures TimesInOrder(Expand(h, a), a.t + 1)
  {
    hide Candidates, Stays, Repeats, HistOk, Precedes, Offer;
    forall q | q in Expand(h, a) && Score(Expand(h, a)[q]) > 0.0
      ensures HistOk(Expand(h, a)[q].times, |q|, a.t + 1)
    {
      if Lengthened(h, a, q) {
        HistOkLater(h[Front(q)].times, |q| - 1, a.t);
      } else {
        var c := KeepsOld(h, a, q);
        HistOkLater(h[q].times, |q|, a.t);
      }
    }
  }

  lemma VisitedHasMass(h: Hyps, a: Pass, q: seq<nat>, c: nat)
    requires Visited(h, a, q, c)
    ensures q in h && Score(h[q]) > 0.0
  {
  }

  /** One frame: the trie shows what the frame makes of the hypotheses. */
  lemma FrameShown(x: Ctx, w: View, w': View, beam: seq<NodeId>, h: Hyps, a: Pass, acc: real)
    requires Alongside(x, beam, h, a) && InFrame(x, w, Done(x, beam, a), Done(x, beam, a), acc)
    requires w'.paths == w.paths && CommittedOn(w.nodes, w'.nodes, w'.hist, w.nodes.Keys) && w.hist <= w'.hist
    ensures Shows(w'.nodes, w'.paths, w'.hist, Expand(h, a))
  {
    hide Alongside, InFrame, Done, NewTimes, Candidates, Stays, Repeats, Grows, TimesOf, BlankIn, RepeatIn, ExtendIn;
    forall n | n in w'.nodes && w'.nodes[n].live && n in w'.paths
      ensures w'.paths[n] in Expand(h, a) && Expand(h, a)[w'.paths[n]] == HypOf(w'.nodes[n], w'.hist)
    {
      LiveIsCandidate(x, w, beam, h, a, acc, n);
      NodeShown(x, w, beam, h, a, acc, n);
      TimesShown(x, w, w', beam, h, a, acc, n);
    }
    forall q | q in Expand(h, a) ensures !Absent(w'.nodes, w'.paths, q) {
      CandidateIsLive(x, w, beam, h, a, acc, q);
      var n :| n in w.nodes && w.nodes[n].live && n in w.paths && w.paths[n] == q;
      assert w'.nodes[n].live;
    }
  }

  // ----- as many hypotheses as prefixes

  ghost function PathsOf(paths: map<NodeId, seq<nat>>, s: seq<NodeId>): set<seq<nat>>
    requires forall n | n in s :: n in paths
  {
    set n | n in s :: paths[n]
  }

  lemma {:induction false} DistinctPaths(paths: map<NodeId, seq<nat>>, s: seq<NodeId>)
    requires OnePerPath(paths) && NoDup(s) && forall n | n in s :: n in paths
    ensures |PathsOf(paths, s)| == |s|
  {
    if s == [] {
      assert PathsOf(paths, s) == {};
    } else {
      var front, last := s[..|s| - 1], s[|s| - 1];
      assert s == front + [last];
      DistinctPaths(paths, front);
      assert PathsOf(paths, s) == PathsOf(paths, front) + {paths[last]};
      assert paths[last] !in PathsOf(paths, front);
    }
  }

  lemma ShownLength(nodes: map<NodeId, Node>, paths: map<NodeId, seq<nat>>, hist: seq<seq<nat>>, h: Hyps,
                    prefixes: seq<NodeId>)
    requires Shows(nodes, paths, hist, h) && ListsLive(nodes, nodes.Keys, prefixes) && OnePerPath(paths)
             && paths.Keys == nodes.Keys
    ensures |h| == |prefixes|
  {
    DistinctPaths(paths, prefixes);
    forall q | q in h ensures q in PathsOf(paths, prefixes) {
      var n :| n in nodes && nodes[n].live && n in paths && paths[n] == q;
      assert n in prefixes;
    }
    assert h.Keys == PathsOf(paths, prefixes);
  }

  // ----- the cut

  lemma SameOrder(w: View, h: Hyps, m: NodeId, n: NodeId)
    requires Shows(w.nodes, w.paths, w.hist, h) && Wf(w.nodes, w.paths, w.next) && Scored(w.nodes)
    requires m in w.nodes && n in w.nodes && w.nodes[m].live && w.nodes[n].live && m in w.paths && n in w.paths
    ensures Ahead(h, w.paths[m], w.paths[n]) <==> Before(w.nodes, m, n)
  {
    hide Wf, Absent, Character;
    LastIsCharacter(w, m);
    LastIsCharacter(w, n);
  }

  ghost function Restricted(h: Hyps, w: View): Hyps {
    map q | q in h && !Absent(w.nodes, w.paths, q) :: h[q]
  }

  lemma RestrictionShown(w: View, w': View, h: Hyps, before: seq<NodeId>, after: seq<NodeId>)
    requires Shows(w.nodes, w.paths, w.hist, h) && w.paths.Keys == w.nodes.Keys && w'.paths.Keys == w'.nodes.Keys
    requires ListsLive(w.nodes, w.nodes.Keys, before) && (forall n | n in after :: n in before)
    requires Pruned(w.nodes, w'.nodes, Members(before) - Members(after)) && SubMap(w.paths, w'.paths)
    requires ListsLive(w'.nodes, w'.nodes.Keys, after)
    requires w'.hist == w.hist
    ensures Shows(w'.nodes, w'.paths, w'.hist, Restricted(h, w'))
  {
    forall n | n in w'.nodes && w'.nodes[n].live && n in w'.paths
      ensures var h' := Restricted(h, w');
              w'.paths[n] in h' && h'[w'.paths[n]] == HypOf(w'.nodes[n], w'.hist)
    {
      assert n in after;
      assert !Absent(w'.nodes, w'.paths, w'.paths[n]);
    }
  }

  lemma RestrictionInOrder(w: View, w': View, h: Hyps, before: seq<NodeId>, after: seq<NodeId>, q: seq<nat>,
                           r: seq<nat>)
    requires Shows(w.nodes, w.paths, w.hist, h) && Wf(w.nodes, w.paths, w.next) && Scored(w.nodes)
             && w'.paths.Keys == w'.nodes.Keys
    requires ListsLive(w.nodes, w.nodes.Keys, before) && Survivors(w.nodes, before, after)
    requires Pruned(w.nodes, w'.nodes, Members(before) - Members(after)) && SubMap(w.paths, w'.paths)
    requires ListsLive(w'.nodes, w'.nodes.Keys, after)
    requires q in Restricted(h, w') && r in h && r !in Restricted(h, w')
    ensures !Ahead(h, r, q)
  {
    hide Wf, Scored, Ahead, Pruned, ListsLive, Survivors, Before, SubMap;
    var n :| n in w'.nodes && w'.nodes[n].live && n in w'.paths && w'.paths[n] == q;
    assert !Absent(w.nodes, w.paths, r);
    var m :| m in w.nodes && w.nodes[m].live && m in w.paths && w.paths[m] == r;
    CutApart(w, w', before, after, m, n);
    SameOrder(w, h, m, n);
  }

  /** Cutting the beam: the trie shows a cut of the hypotheses. */
  lemma CutShown(w: View, w': View, h: Hyps, before: seq<NodeId>, after: seq<NodeId>)
    requires Shows(w.nodes, w.paths, w.hist, h) && Wf(w.nodes, w.paths, w.next) && Scored(w.nodes)
             && Wf(w'.nodes, w'.paths, w'.next)
    requires ListsLive(w.nodes, w.nodes.Keys, before) && Survivors(w.nodes, before, after)
    requires Pruned(w.nodes, w'.nodes, Members(before) - Members(after)) && SubMap(w.paths, w'.paths)
    requires ListsLive(w'.nodes, w'.nodes.Keys, after)
    requires w'.hist == w.hist
    ensures Shows(w'.nodes, w'.paths, w'.hist, Restricted(h, w')) && IsCut(h, Restricted(h, w'), |after|)
  {
    hide Shows, Wf, Scored, Ahead, Pruned, ListsLive, SubMap, Absent, Before, OnePerPath;
    WfKeys(w.nodes, w.paths, w.next);
    WfKeys(w'.nodes, w'.paths, w'.next);
    WfPaths(w');
    RestrictionShown(w, w', h, before, after);
    ShownLength(w'.nodes, w'.paths, w'.hist, Restricted(h, w'), after);
    forall q, r | q in Restricted(h, w') && r in h && r !in Restricted(h, w') ensures !Ahead(h, r, q) {
      RestrictionInOrder(w, w', h, before, after, q, r);
    }
  }

  lemma WfPaths(w: View)
    requires Wf(w.nodes, w.paths, w.next)
    ensures OnePerPath(w.paths)
  {
  }

  lemma CutApart(w: View, w': View, before: seq<NodeId>, after: seq<NodeId>, m: NodeId, n: NodeId)
    requires ListsLive(w.nodes, w.nodes.Keys, before) && Survivors(w.nodes, before, after)
    requires Pruned(w.nodes, w'.nodes, Members(before) - Members(after)) && SubMap(w.paths, w'.paths)
    requires ListsLive(w'.nodes, w'.nodes.Keys, after)
    requires n in w'.nodes && w'.nodes[n].live && n in w'.paths
    requires m in w.nodes && w.nodes[m].live && m in w.paths && Absent(w'.nodes, w'.paths, w.paths[m])
    requires w'.paths.Keys == w'.nodes.Keys
    ensures n in w.nodes && w.nodes[n].live && n in w.paths && w.paths[n] == w'.paths[n] && !Before(w.nodes, m, n)
  {
    hide Before;
    assert n in after && n in before && m in before;
  }

  // ----- the lowest score, and how many have mass

  lemma ShownNonNegative(w: View, h: Hyps)
    requires Shows(w.nodes, w.paths, w.hist, h) && Scored(w.nodes)
    ensures NonNegative(h)
  {
    forall q | q in h ensures h[q].b >= 0.0 && h[q].nb >= 0.0 {
      assert !Absent(w.nodes, w.paths, q);
      var n :| n in w.nodes && w.nodes[n].live && n in w.paths && w.paths[n] == q;
    }
  }

  lemma LowestShown(w: View, h: Hyps, prefixes: seq<NodeId>)
    requires Shows(w.nodes, w.paths, w.hist, h) && Scored(w.nodes) && w.paths.Keys == w.nodes.Keys
    requires ListsLive(w.nodes, w.nodes.Keys, prefixes) && prefixes != []
    requires forall i | 0 <= i < |prefixes| :: prefixes[i] in w.nodes
    requires forall i | 0 <= i < |prefixes| :: w.nodes[prefixes[i]].score >= w.nodes[prefixes[|prefixes| - 1]].score
    ensures var n := prefixes[|prefixes| - 1]; Lowest(h, w.paths[n]) && Score(h[w.paths[n]]) == w.nodes[n].score
  {
    var n := prefixes[|prefixes| - 1];
    assert n in prefixes;
    forall r | r in h ensures Score(h[w.paths[n]]) <= Score(h[r]) {
      assert !Absent(w.nodes, w.paths, r);
      var m :| m in w.nodes && w.nodes[m].live && m in w.paths && w.paths[m] == r;
      assert m in prefixes;
    }
  }

  ghost function WithMass(h: Hyps): set<seq<nat>> {
    set q | q in h && Score(h[q]) > 0.0
  }

  /** Sorted by any scores that are positive where the masses are: the first `num` all have mass exactly if at least
      `num` hypotheses have mass. */
  lemma FirstHaveMass(w: View, h: Hyps, chosen: seq<NodeId>, scores: map<NodeId, Node>, num: nat)
    requires Shows(w.nodes, w.paths, w.hist, h) && Scored(w.nodes) && OnePerPath(w.paths)
             && w.paths.Keys == w.nodes.Keys
    requires ListsLive(w.nodes, w.nodes.Keys, chosen) && AllIn(scores, chosen) && SortedTo(scores, chosen, num)
             && num <= |chosen|
    requires forall n | n in chosen ::
               n in w.nodes && n in scores && (scores[n].score > 0.0 <==> w.nodes[n].score > 0.0)
    requires forall n | n in chosen :: scores[n].score >= 0.0
    ensures (forall i | 0 <= i < num :: chosen[i] in w.nodes && w.nodes[chosen[i]].score > 0.0) <==> num <= Positive(h)
  {
    hide OnePerPath, SortedTo, Scored;
    if forall i | 0 <= i < num :: chosen[i] in w.nodes && w.nodes[chosen[i]].score > 0.0 {
      FrontWithMass(w, h, chosen, num);
    } else {
      var i :| 0 <= i < num && !(chosen[i] in w.nodes && w.nodes[chosen[i]].score > 0.0);
      assert chosen[i] in chosen;
      MassIsInFront(w, h, chosen, scores, num, i);
    }
  }

  lemma FrontWithMass(w: View, h: Hyps, chosen: seq<NodeId>, num: nat)
    requires Shows(w.nodes, w.paths, w.hist, h) && Scored(w.nodes) && OnePerPath(w.paths)
             && w.paths.Keys == w.nodes.Keys
    requires ListsLive(w.nodes, w.nodes.Keys, chosen) && num <= |chosen|
    requires forall i | 0 <= i < num :: chosen[i] in w.nodes && w.nodes[chosen[i]].score > 0.0
    ensures num <= Positive(h)
  {
    var front := chosen[..num];
    forall n | n in front ensures n in w.paths && n in chosen { }
    DistinctPaths(w.paths, front);
    forall q | q in PathsOf(w.paths, front) ensures q in WithMass(h) { }
    Subset(PathsOf(w.paths, front), WithMass(h));
  }

  lemma PositiveFirst(chosen: seq<NodeId>, scores: map<NodeId, Node>, num: nat, i: nat, j: nat)
    requires AllIn(scores, chosen) && SortedTo(scores, chosen, num) && i < num <= |chosen| && j < |chosen|
    requires scores[chosen[i]].score <= 0.0 < scores[chosen[j]].score
    ensures j < i
  {
  }

  lemma MassIsInFront(w: View, h: Hyps, chosen: seq<NodeId>, scores: map<NodeId, Node>, num: nat, i: nat)
    requires Shows(w.nodes, w.paths, w.hist, h) && Scored(w.nodes) && OnePerPath(w.paths)
             && w.paths.Keys == w.nodes.Keys
    requires ListsLive(w.nodes, w.nodes.Keys, chosen) && AllIn(scores, chosen) && SortedTo(scores, chosen, num)
             && i < num <= |chosen|
    requires forall n | n in chosen ::
               n in w.nodes && n in scores && (scores[n].score > 0.0 <==> w.nodes[n].score > 0.0)
    requires forall n | n in chosen :: scores[n].score >= 0.0
    requires chosen[i] in w.nodes && !(w.nodes[chosen[i]].score > 0.0)
    ensures Positive(h) < num
  {
    hide SortedTo, OnePerPath;
    var front := chosen[..i];
    forall n | n in front ensures n in w.paths && n in chosen { }
    DistinctPaths(w.paths, front);
    forall q | q in WithMass(h) ensures q in PathsOf(w.paths, front) {
      assert !Absent(w.nodes, w.paths, q);
      var n :| n in w.nodes && w.nodes[n].live && n in w.paths && w.paths[n] == q;
      assert n in chosen && w.nodes[n].score > 0.0;
      var j :| 0 <= j < |chosen| && chosen[j] == n;
      assert chosen[i] in chosen;
      PositiveFirst(chosen, scores, num, i, j);
      assert n in front;
    }
    Subset(WithMass(h), PathsOf(w.paths, front));
  }

  lemma {:induction false} Subset<T>(a: set<T>, b: set<T>)
    requires a <= b
    ensures |a| <= |b|
  {
    if a != {} {
      var x :| x in a;
      Subset(a - {x}, b - {x});
    }
  }
}
