/** Which visits the loops of a frame make. */
module FrameRows {
  import opened Basics
  import opened PathTrie
  import opened Ctc
  import opened Beam
  import opened BeamCtc
  import opened BeamRecord
  import opened FrameSteps

  /** Is prefix `s` visited for class `c`?  Skipped are prefixes without mass and, when the beam is
      full, those whose product with the class probability is below the cutoff. */
  ghost predicate Enters(x: Ctx, full: bool, minCutoff: real, c: nat, s: NodeId) {
    s in x.nodes0 && x.nodes0[s].score > 0.0 && !(full && Prob(x.p, c) * x.nodes0[s].score < minCutoff)
  }

  ghost function Row(x: Ctx, full: bool, minCutoff: real, c: nat, beam: seq<NodeId>): set<Pair> {
    set s | s in beam && Enters(x, full, minCutoff, c, s) :: (c, s)
  }

  ghost function Rows(x: Ctx, full: bool, minCutoff: real, classes: seq<nat>, beam: seq<NodeId>): set<Pair> {
    set c, s | c in classes && s in beam && Enters(x, full, minCutoff, c, s) :: (c, s)
  }

  lemma RowNext(x: Ctx, full: bool, minCutoff: real, c: nat, beam: seq<NodeId>, i: nat)
    requires i < |beam| && NoDup(beam)
    ensures Row(x, full, minCutoff, c, beam[..i + 1])
         == if Enters(x, full, minCutoff, c, beam[i]) then Row(x, full, minCutoff, c, beam[..i]) + {(c, beam[i])}
            else Row(x, full, minCutoff, c, beam[..i])
    ensures (c, beam[i]) !in Row(x, full, minCutoff, c, beam[..i])
  {
    hide Enters;
    assert beam[..i + 1] == beam[..i] + [beam[i]];
  }

  ghost predicate ScoresFall(x: Ctx, beam: seq<NodeId>) {
    && (forall i | 0 <= i < |beam| :: beam[i] in x.nodes0)
    && forall i, j | 0 <= i < j < |beam| :: x.nodes0[beam[i]].score >= x.nodes0[beam[j]].score
  }

  /** In a beam in order of falling score, leaving the loop at the first prefix below the cutoff skips
      exactly the prefixes below the cutoff. */
  lemma BreakSkipsTheRest(x: Ctx, full: bool, minCutoff: real, c: nat, beam: seq<NodeId>, i: nat)
    requires ScoresFall(x, beam) && i < |beam| && full && Prob(x.p, c) >= 0.0
    requires Prob(x.p, c) * x.nodes0[beam[i]].score < minCutoff
    ensures Row(x, full, minCutoff, c, beam) == Row(x, full, minCutoff, c, beam[..i])
  {
    forall j | i <= j < |beam| ensures !Enters(x, full, minCutoff, c, beam[j]) {
      MulMonotone(Prob(x.p, c), x.nodes0[beam[j]].score, x.nodes0[beam[i]].score);
    }
    hide Enters;
    forall s | s in beam && Enters(x, full, minCutoff, c, s) ensures s in beam[..i] {
      var j :| 0 <= j < |beam| && beam[j] == s;
    }
    forall s | s in beam[..i] ensures s in beam { }
  }

  lemma RowUpcoming(x: Ctx, full: bool, minCutoff: real, c: nat, done: set<Pair>, i: nat)
    requires i < |x.order.beam| && forall e | e in done :: Precedes(x.order.kept, e.0, c)
    ensures Upcoming(x.order, done + Row(x, full, minCutoff, c, x.order.beam[..i]), c, x.order.beam[i])
  {
    hide Enters;
    var beam := x.order.beam;
    forall s | s in beam[..i] ensures Precedes(beam, s, beam[i]) {
      var k :| 0 <= k < i && beam[k] == s;
    }
  }

  lemma RowsUpcoming(x: Ctx, full: bool, minCutoff: real, a: nat)
    requires a < |x.order.kept|
    ensures forall e | e in Rows(x, full, minCutoff, x.order.kept[..a], x.order.beam) ::
              Precedes(x.order.kept, e.0, x.order.kept[a])
  {
    hide Enters;
    var kept := x.order.kept;
    forall c | c in kept[..a] ensures Precedes(kept, c, kept[a]) {
      var k :| 0 <= k < a && kept[k] == c;
    }
  }

  lemma RowsNext(x: Ctx, full: bool, minCutoff: real, classes: seq<nat>, beam: seq<NodeId>, a: nat)
    requires a < |classes| && NoDup(classes)
    ensures Rows(x, full, minCutoff, classes[..a + 1], beam)
         == Rows(x, full, minCutoff, classes[..a], beam) + Row(x, full, minCutoff, classes[a], beam)
    ensures forall s :: (classes[a], s) !in Rows(x, full, minCutoff, classes[..a], beam)
  {
    hide Enters;
    assert classes[..a + 1] == classes[..a] + [classes[a]];
  }
}
