/** What holds when the loops of a frame are over, and when the beam has been cut. */
module FrameEnd {
  import opened Basics
  import opened PathTrie
  import opened TrieOps
  import opened Ctc
  import opened Beam
  import opened BeamCtc
  import opened BeamGrowth
  import opened BeamTime
  import opened BeamTotal
  import opened BeamRecord
  import opened DictionaryWalk
  import opened FrameSteps

  /** Nothing collected and nothing recorded: the trie between two frames. */
  ghost predicate Idle(nodes: map<NodeId, Node>) {
    forall q | q in nodes :: nodes[q].bCur == nodes[q].nbCur == 0.0 && nodes[q].prevTimesteps.None?
  }

  /** The state between two frames, before frame `t`, but for the size of the beam. */
  ghost predicate Rested(dict: Option<Dictionary>, w: View, prefixes: seq<NodeId>, t: nat) {
    && Wf(w.nodes, w.paths, w.next) && LeavesLive(w.nodes)
    && TsInv(w.nodes, w.paths, w.hist, t)
    && StatesOk(dict, w.nodes, w.paths)
    && Scored(w.nodes) && Idle(w.nodes)
    && ListsLive(w.nodes, w.nodes.Keys, prefixes)
  }

  lemma InitiallyRested(dict: Option<Dictionary>, w: View)
    requires w.nodes == map[ROOT_ID := FreshNode(ROOT, ROOT_ID, if dict.Some? then dict.value.start else 0)
                              .(score := 1.0, bPrev := 1.0, timesteps := Some(0))]
    requires Wf(w.nodes, w.paths, w.next) && w.paths == map[ROOT_ID := []] && w.hist == [[]]
    ensures Rested(dict, w, [ROOT_ID], 0)
  {
    hide Wf;
    assert w.nodes.Keys == {ROOT_ID};
  }

  // ----- the start of a frame

  lemma FrameStarts(x: Ctx, w: View, prefixes: seq<NodeId>)
    requires ValidCtx(x) && Rested(x.dict, w, prefixes, x.t) && x.nodes0 == w.nodes && x.paths0 == w.paths
    requires Spelled(w.paths, x.blank) && x.hist0 == w.hist
    ensures InFrame(x, w, {}, {}, 0.0)
  {
    hide Wf, TsInv, StatesOk, LeavesLive, SumCur, LiveChild, Prob, ExtendFactor, Base, Scored, Records;
    WfKeys(w.nodes, w.paths, w.next);
    SumCurZero(w.nodes, w.next);
    NoRecords(x.order, w.nodes, w.paths, x.p, x.blank, x.scorer);
    forall q | q in w.nodes ensures AccumAt(w.nodes, w.paths, {}, {}, x.p, x.blank, x.scorer, q) { }
  }

  // ----- the end of a frame

  lemma WholeTrie(nodes: map<NodeId, Node>, paths: map<NodeId, seq<nat>>, next: NodeId)
    requires Wf(nodes, paths, next)
    ensures ROOT_ID in paths && Subtree(paths, ROOT_ID) == nodes.Keys
  {
    hide UpOk, DownOk, OnePerPath;
  }

  lemma {:induction false} DepthBelowId(nodes: map<NodeId, Node>, paths: map<NodeId, seq<nat>>, next: NodeId, n: NodeId)
    requires Wf(nodes, paths, next) && n in nodes
    ensures n in paths && |paths[n]| <= n < next
    decreases n
  {
    hide DownOk, OnePerPath;
    Links(nodes, paths, next, n);
    if n != ROOT_ID { DepthBelowId(nodes, paths, next, nodes[n].parent); }
  }

  lemma CommitScores(nodes: map<NodeId, Node>, nodes': map<NodeId, Node>, hist: seq<seq<nat>>, on: set<NodeId>)
    requires CommittedOn(nodes, nodes', hist, on) && forall q | q in nodes :: q in on
    requires forall q | q in nodes :: nodes[q].bCur >= 0.0 && nodes[q].nbCur >= 0.0
    ensures Scored(nodes')
  {
  }

  lemma CommitKeepsLeaves(nodes: map<NodeId, Node>, nodes': map<NodeId, Node>, hist: seq<seq<nat>>, on: set<NodeId>)
    requires CommittedOn(nodes, nodes', hist, on) && LeavesLive(nodes)
    ensures LeavesLive(nodes')
    ensures forall q | q in nodes' ::
              q in nodes && nodes'[q].dictState == nodes[q].dictState && nodes'[q].live == nodes[q].live
  {
  }

  /** The trie rests again; the collected total is the new total score. */
  lemma FrameEnds(x: Ctx, w: View, done: set<Pair>, acc: real, w': View, on: set<NodeId>, output: seq<NodeId>)
    requires ValidCtx(x) && InFrame(x, w, done, done, acc)
    requires on == w.nodes.Keys && CommittedOn(w.nodes, w'.nodes, w'.hist, on) && ListsLive(w.nodes, on, output)
    requires w'.paths == w.paths && w'.next == w.next && w.hist <= w'.hist && Wf(w'.nodes, w'.paths, w'.next)
    ensures Rested(x.dict, w', output, x.t + 1)
    ensures LiveMass(w'.nodes, w'.next) == acc
  {
    hide Wf, Accum, Born, DoneOld, DoneLive, Kept, TsInv, LeavesLive, HasKids, StatesOk, SumCur, LiveMass, CommittedOn,
      ListsLive, Scored, ValidCtx, Records;
    WfKeys(w.nodes, w.paths, w.next);
    WfKeys(w'.nodes, w'.paths, w'.next);
    DoneIsLive(x, w, done);
    DeadHaveNothing(x, w, done, done);
    TsCommit(w.nodes, w.paths, w.hist, x.t, w'.nodes, w'.hist, on);
    forall q | q in w.nodes ensures w.nodes[q].bCur >= 0.0 && w.nodes[q].nbCur >= 0.0 {
      CollectedNonNegative(x, w, done, done, q);
    }
    CommitScores(w.nodes, w'.nodes, w'.hist, on);
    CommitKeepsLeaves(w.nodes, w'.nodes, w'.hist, on);
    StatesOkSame(x.dict, w.nodes, w.paths, w'.nodes, w'.paths);
    ListsLiveSame(w.nodes, w'.nodes, on, output);
    SumCurIsLiveMass(w.nodes, w'.nodes, w'.hist, on, w.next);
  }

  // ----- cutting the beam

  ghost function Members(s: seq<NodeId>): set<NodeId> {
    set n | n in s
  }

  /** After the prefixes from `k` on have been removed, the first `k` are exactly the live nodes. */
  lemma CutRests(dict: Option<Dictionary>, w: View, w': View, s: seq<NodeId>, k: nat, t: nat)
    requires Rested(dict, w, s, t) && k <= |s|
    requires Wf(w'.nodes, w'.paths, w'.next) && LeavesLive(w'.nodes) && w'.hist == w.hist
    requires Pruned(w.nodes, w'.nodes, Members(s[k..])) && SubMap(w.paths, w'.paths)
    ensures Rested(dict, w', s[..k], t)
  {
    hide Wf, TsInv, StatesOk, LeavesLive;
    WfKeys(w'.nodes, w'.paths, w'.next);
    TsPruned(w.nodes, w.paths, w'.nodes, w'.paths, Members(s[k..]), w.hist, t);
    StatesOkSame(dict, w.nodes, w.paths, w'.nodes, w'.paths);
    CutLists(w.nodes, w'.nodes, s, k);
  }

  lemma CutLists(nodes: map<NodeId, Node>, nodes': map<NodeId, Node>, s: seq<NodeId>, k: nat)
    requires ListsLive(nodes, nodes.Keys, s) && k <= |s| && Pruned(nodes, nodes', Members(s[k..]))
    ensures ListsLive(nodes', nodes'.Keys, s[..k])
  {
    assert s == s[..k] + s[k..];
    forall m | m in s[..k] ensures m in s && m !in s[k..] {
      var i :| 0 <= i < k && s[i] == m;
      assert forall j | k <= j < |s| :: s[j] != s[i];
    }
  }

  /** Reordering the list of prefixes. */
  lemma {:induction false} Occurs(s: seq<NodeId>, m: NodeId)
    ensures NoDup(s) ==> multiset(s)[m] <= 1
    ensures multiset(s)[m] > 0 <==> m in s
  {
    if s != [] {
      var rest := s[..|s| - 1];
      assert s == rest + [s[|s| - 1]];
      Occurs(rest, m);
    }
  }

  lemma ReorderNoDup(s: seq<NodeId>, r: seq<NodeId>)
    requires NoDup(s) && multiset(s) == multiset(r)
    ensures NoDup(r)
  {
    forall i, j | 0 <= i < j < |r| ensures r[i] != r[j] {
      if r[i] == r[j] {
        Occurs(s, r[i]);
        TwoOccurrences(r, i, j);
        assert false;
      }
    }
  }

  lemma TwoOccurrences(r: seq<NodeId>, i: nat, j: nat)
    requires i < j < |r| && r[i] == r[j]
    ensures multiset(r)[r[i]] >= 2
  {
    assert r == r[..j] + [r[j]] + r[j + 1..];
    assert r[i] in r[..j];
    assert multiset(r) == multiset(r[..j]) + multiset([r[j]]) + multiset(r[j + 1..]);
    assert multiset(r[..j])[r[i]] >= 1;
  }

  lemma Reorder(nodes: map<NodeId, Node>, on: set<NodeId>, s: seq<NodeId>, r: seq<NodeId>)
    requires ListsLive(nodes, on, s) && multiset(s) == multiset(r)
    ensures ListsLive(nodes, on, r) && |r| == |s|
  {
    ReorderNoDup(s, r);
    forall m ensures m in r <==> m in s { Occurs(s, m); Occurs(r, m); }
    assert |multiset(s)| == |s| && |multiset(r)| == |r|;
  }
}
