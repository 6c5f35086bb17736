/** Connectionist temporal classification, stated on its own: what an alignment is, the label
    sequence it collapses to, and the probability mass a label sequence collects from all the
    alignments that collapse to it.  Nothing here mentions the decoder. */
module Ctc {

  /** One frame of class probabilities, indexed by class.  Class `blank` is the last class. */
  type Frame = seq<real>

  predicate ValidFrame(p: Frame, blank: nat) {
    |p| == blank + 1 && forall c | 0 <= c < |p| :: p[c] >= 0.0
  }

  predicate ValidFrames(fr: seq<Frame>, blank: nat) {
    forall t | 0 <= t < |fr| :: ValidFrame(fr[t], blank)
  }

  // ----- alignments and the label sequence they stand for

  /** Runs of the same class count once. */
  function MergeRepeats(a: seq<nat>): seq<nat> {
    if |a| <= 1 then a
    else if a[0] == a[1] then MergeRepeats(a[1..])
    else [a[0]] + MergeRepeats(a[1..])
  }

  function DropBlanks(a: seq<nat>, blank: nat): seq<nat> {
    if a == [] then []
    else (if a[0] == blank then [] else [a[0]]) + DropBlanks(a[1..], blank)
  }

  /** The label sequence of an alignment: merge repeats first, then drop the blanks. */
  function Collapse(a: seq<nat>, blank: nat): seq<nat> {
    DropBlanks(MergeRepeats(a), blank)
  }

  /** The empty alignment counts as ending in blank: it has no label to repeat. */
  predicate EndsBlank(a: seq<nat>, blank: nat) {
    a == [] || a[|a| - 1] == blank
  }

  lemma {:induction false} DropBlanksAppend(a: seq<nat>, c: nat, blank: nat)
    ensures DropBlanks(a + [c], blank) == DropBlanks(a, blank) + (if c == blank then [] else [c])
  {
    if a == [] {
      assert [c][1..] == [];
    } else {
      assert (a + [c])[1..] == a[1..] + [c];
      DropBlanksAppend(a[1..], c, blank);
      Regroup(if a[0] == blank then [] else [a[0]], DropBlanks(a[1..], blank), if c == blank then [] else [c]);
    }
  }

  lemma Regroup(x: seq<nat>, y: seq<nat>, z: seq<nat>)
    ensures x + (y + z) == x + y + z
  {
  }

  lemma {:induction false} MergeRepeatsAppend(a: seq<nat>, c: nat)
    requires a != []
    ensures MergeRepeats(a + [c]) == MergeRepeats(a) + (if a[|a| - 1] == c then [] else [c])
  {
    if |a| == 1 {
      assert (a + [c])[1..] == [c];
    } else {
      assert (a + [c])[1..] == a[1..] + [c];
      MergeRepeatsAppend(a[1..], c);
    }
  }

  /** How one more class changes the collapsed sequence: blanks and repeats add nothing. */
  lemma CollapseAppend(a: seq<nat>, c: nat, blank: nat)
    ensures Collapse(a + [c], blank)
         == if c == blank || (a != [] && a[|a| - 1] == c) then Collapse(a, blank)
            else Collapse(a, blank) + [c]
  {
    if a == [] {
      assert a + [c] == [c];
      DropBlanksAppend([], c, blank);
    } else {
      MergeRepeatsAppend(a, c);
      DropBlanksAppend(MergeRepeats(a), c, blank);
      assert MergeRepeats(a) + [] == MergeRepeats(a);
    }
  }

  /** An alignment that ends in a label collapses to a sequence ending in that label. */
  lemma {:induction false} CollapseLast(a: seq<nat>, blank: nat)
    requires !EndsBlank(a, blank)
    ensures Collapse(a, blank) != []
    ensures Collapse(a, blank)[|Collapse(a, blank)| - 1] == a[|a| - 1]
  {
    var b, c := a[..|a| - 1], a[|a| - 1];
    assert a == b + [c];
    CollapseAppend(b, c, blank);
    if b != [] && b[|b| - 1] == c { CollapseLast(b, blank); }
  }

  // ----- all alignments of a given length, and sums over them

  /** `a` followed by each of the classes 0..n-1. */
  function Extensions(a: seq<nat>, n: nat): seq<seq<nat>> {
    if n == 0 then [] else Extensions(a, n - 1) + [a + [n - 1]]
  }

  function ExtendAll(al: seq<seq<nat>>, n: nat): seq<seq<nat>> {
    if al == [] then [] else Extensions(al[0], n) + ExtendAll(al[1..], n)
  }

  /** Every alignment of `len` frames over classes 0..n-1 (see AlignmentsComplete). */
  function Alignments(len: nat, n: nat): seq<seq<nat>> {
    if len == 0 then [[]] else ExtendAll(Alignments(len - 1, n), n)
  }

  function Prob(p: Frame, c: nat): real {
    if c < |p| then p[c] else 0.0
  }

  /** Product of the frame probabilities along an alignment. */
  function Weight(fr: seq<Frame>, a: seq<nat>): real
    requires |a| == |fr|
  {
    if fr == [] then 1.0
    else Weight(fr[..|fr| - 1], a[..|a| - 1]) * Prob(fr[|fr| - 1], a[|a| - 1])
  }

  /** Does alignment `a` count towards prefix `p`, on its blank or its non-blank side? */
  predicate Counts(a: seq<nat>, blank: nat, p: seq<nat>, ends: bool) {
    Collapse(a, blank) == p && EndsBlank(a, blank) == ends
  }

  predicate AllOfLength(al: seq<seq<nat>>, len: nat) {
    forall a | a in al :: |a| == len
  }

  function SumOver(fr: seq<Frame>, blank: nat, al: seq<seq<nat>>, p: seq<nat>, ends: bool): real
    requires AllOfLength(al, |fr|)
  {
    if al == [] then 0.0
    else (if Counts(al[0], blank, p, ends) then Weight(fr, al[0]) else 0.0)
         + SumOver(fr, blank, al[1..], p, ends)
  }

  /** The CTC mass of label sequence `p` after frames `fr`, split by whether the alignment ends in
      blank: the sum, over all alignments that collapse to `p`, of the product of frame probabilities. */
  function Mass(fr: seq<Frame>, blank: nat, p: seq<nat>, ends: bool): real {
    AlignmentsLength(|fr|, blank + 1);
    SumOver(fr, blank, Alignments(|fr|, blank + 1), p, ends)
  }

  // ----- the enumeration holds every alignment exactly once

  predicate IsAlignment(a: seq<nat>, len: nat, n: nat) {
    |a| == len && forall i | 0 <= i < len :: a[i] < n
  }

  lemma {:induction false} CountInExtensions(a: seq<nat>, n: nat, b: seq<nat>, c: nat)
    ensures multiset(Extensions(a, n))[b + [c]] == if a == b && c < n then 1 else 0
    ensures [] !in Extensions(a, n)
  {
    if n > 0 {
      CountInExtensions(a, n - 1, b, c);
      if a + [n - 1] == b + [c] {
        assert (a + [n - 1])[..|a|] == a && (b + [c])[..|b|] == b;
        assert (a + [n - 1])[|a|] == n - 1 && (b + [c])[|b|] == c;
      }
    }
  }

  lemma {:induction false} CountInExtendAll(al: seq<seq<nat>>, n: nat, b: seq<nat>, c: nat)
    ensures multiset(ExtendAll(al, n))[b + [c]] == if c < n then multiset(al)[b] else 0
    ensures [] !in ExtendAll(al, n)
  {
    if al != [] {
      assert al == [al[0]] + al[1..];
      CountInExtensions(al[0], n, b, c);
      CountInExtendAll(al[1..], n, b, c);
    }
  }

  lemma {:induction false} AlignmentsComplete(len: nat, n: nat, a: seq<nat>)
    ensures multiset(Alignments(len, n))[a] == if IsAlignment(a, len, n) then 1 else 0
  {
    hide Alignments, ExtendAll, IsAlignment;
    if len == 0 {
      NoAlignments(n, a);
    } else {
      var prev := Alignments(len - 1, n);
      AlignmentsStep(len - 1, n);
      if a == [] {
        CountInExtendAll(prev, n, [], 0);
        NotEmpty(len, n);
      } else {
        var b, c := a[..|a| - 1], a[|a| - 1];
        assert a == b + [c];
        CountInExtendAll(prev, n, b, c);
        AlignmentsComplete(len - 1, n, b);
        AlignmentAppend(b, c, len - 1, n);
      }
    }
  }

  lemma NoAlignments(n: nat, a: seq<nat>)
    ensures multiset(Alignments(0, n))[a] == if IsAlignment(a, 0, n) then 1 else 0
  {
    assert Alignments(0, n) == [[]];
  }

  lemma NotEmpty(len: nat, n: nat)
    requires len > 0
    ensures !IsAlignment([], len, n)
  {
  }

  lemma AlignmentAppend(b: seq<nat>, c: nat, len: nat, n: nat)
    ensures IsAlignment(b + [c], len + 1, n) <==> IsAlignment(b, len, n) && c < n
  {
    if IsAlignment(b + [c], len + 1, n) {
      assert (b + [c])[|b|] == c;
      assert forall i | 0 <= i < |b| :: b[i] == (b + [c])[i];
    }
  }

  lemma AlignmentsLength(len: nat, n: nat)
    ensures AllOfLength(Alignments(len, n), len)
  {
    forall a | a in Alignments(len, n) ensures |a| == len {
      AlignmentsComplete(len, n, a);
      assert multiset(Alignments(len, n))[a] > 0;
    }
  }

  // ----- the forward recurrence of the masses

  lemma {:induction false} WeightAppend(fr: seq<Frame>, p: Frame, a: seq<nat>, c: nat)
    requires |a| == |fr|
    ensures Weight(fr + [p], a + [c]) == Weight(fr, a) * Prob(p, c)
  {
    var g, b := fr + [p], a + [c];
    assert g[..|g| - 1] == fr && b[..|b| - 1] == a;
    assert g[|g| - 1] == p && b[|b| - 1] == c;
    assert Weight(g, b) == Weight(g[..|g| - 1], b[..|b| - 1]) * Prob(g[|g| - 1], b[|b| - 1]);
  }

  lemma SumOverConcat(fr: seq<Frame>, blank: nat, x: seq<seq<nat>>, y: seq<seq<nat>>, p: seq<nat>, ends: bool)
    requires AllOfLength(x, |fr|) && AllOfLength(y, |fr|)
    ensures AllOfLength(x + y, |fr|)
    ensures SumOver(fr, blank, x + y, p, ends) == SumOver(fr, blank, x, p, ends) + SumOver(fr, blank, y, p, ends)
  {
    if x == [] {
      assert x + y == y;
    } else {
      assert (x + y)[1..] == x[1..] + y;
      SumOverConcat(fr, blank, x[1..], y, p, ends);
    }
  }

  lemma ExtensionsLength(a: seq<nat>, n: nat)
    ensures AllOfLength(Extensions(a, n), |a| + 1)
  {
  }

  lemma ExtendAllLength(al: seq<seq<nat>>, n: nat, len: nat)
    requires AllOfLength(al, len)
    ensures AllOfLength(ExtendAll(al, n), len + 1)
  {
    if al != [] {
      ExtensionsLength(al[0], n);
      ExtendAllLength(al[1..], n, len);
    }
  }

  /** Which single class, appended to `a`, makes it count towards `p` (on side `ends`)? */
  predicate Reaches(a: seq<nat>, blank: nat, p: seq<nat>, ends: bool) {
    if ends then Collapse(a, blank) == p
    else p != [] &&
         if a != [] && a[|a| - 1] == p[|p| - 1] then Collapse(a, blank) == p
         else Collapse(a, blank) == p[..|p| - 1]
  }

  /** The class that does it. */
  function Via(blank: nat, p: seq<nat>, ends: bool): nat {
    if ends || p == [] then blank else p[|p| - 1]
  }

  lemma CountsAppend(a: seq<nat>, c: nat, blank: nat, p: seq<nat>, ends: bool)
    ensures Counts(a + [c], blank, p, ends)
        <==> Reaches(a, blank, p, ends) && c == Via(blank, p, ends) && ((c == blank) == ends)
  {
    hide Collapse;
    CollapseAppend(a, c, blank);
    if !EndsBlank(a, blank) { CollapseLast(a, blank); }
    if p != [] {
      assert p == p[..|p| - 1] + [p[|p| - 1]];
    }
  }

  /** Among the extensions of `a`, only the one by class Via counts. */
  lemma {:induction false} SumOverExtensions(fr: seq<Frame>, f: Frame, blank: nat, a: seq<nat>, n: nat, p: seq<nat>,
                                             ends: bool)
    requires |a| == |fr|
    ensures AllOfLength(Extensions(a, n), |fr + [f]|)
    ensures SumOver(fr + [f], blank, Extensions(a, n), p, ends)
         == if Reaches(a, blank, p, ends) && Via(blank, p, ends) < n && ((Via(blank, p, ends) == blank) == ends)
            then Weight(fr, a) * Prob(f, Via(blank, p, ends)) else 0.0
  {
    ExtensionsLength(a, n);
    hide Weight, Counts, Reaches, Via, Prob;
    if n > 0 {
      var g, x, y := fr + [f], Extensions(a, n - 1), [a + [n - 1]];
      ExtensionsLength(a, n - 1);
      SumOverExtensions(fr, f, blank, a, n - 1, p, ends);
      SumOverConcat(g, blank, x, y, p, ends);
      CountsAppend(a, n - 1, blank, p, ends);
      WeightAppend(fr, f, a, n - 1);
      assert y[1..] == [];
      assert SumOver(g, blank, y, p, ends) == if Counts(y[0], blank, p, ends) then Weight(g, y[0]) else 0.0;
    }
  }

  /** Total weight of the alignments that reach `p` with one more class. */
  function ReachSum(fr: seq<Frame>, blank: nat, al: seq<seq<nat>>, p: seq<nat>, ends: bool): real
    requires AllOfLength(al, |fr|)
  {
    if al == [] then 0.0
    else (if Reaches(al[0], blank, p, ends) then Weight(fr, al[0]) else 0.0)
         + ReachSum(fr, blank, al[1..], p, ends)
  }

  lemma {:induction false} SumOverExtendAll(fr: seq<Frame>, f: Frame, blank: nat, al: seq<seq<nat>>, n: nat,
                                            p: seq<nat>, ends: bool)
    requires AllOfLength(al, |fr|)
    ensures AllOfLength(ExtendAll(al, n), |fr + [f]|)
    ensures SumOver(fr + [f], blank, ExtendAll(al, n), p, ends)
         == if Via(blank, p, ends) < n && ((Via(blank, p, ends) == blank) == ends)
            then ReachSum(fr, blank, al, p, ends) * Prob(f, Via(blank, p, ends)) else 0.0
  {
    hide Weight, Counts, Reaches, Via, Prob, Extensions, SumOver;
    ExtendAllLength(al, n, |fr|);
    if al == [] {
      SumOverEmpty(fr + [f], blank, p, ends);
    } else {
      var g := fr + [f];
      ExtendAllLength(al[1..], n, |fr|);
      SumOverExtensions(fr, f, blank, al[0], n, p, ends);
      SumOverExtendAll(fr, f, blank, al[1..], n, p, ends);
      SumOverConcat(g, blank, Extensions(al[0], n), ExtendAll(al[1..], n), p, ends);
      var w := if Reaches(al[0], blank, p, ends) then Weight(fr, al[0]) else 0.0;
      Distribute(w, ReachSum(fr, blank, al[1..], p, ends), Prob(f, Via(blank, p, ends)));
    }
  }

  lemma SumOverEmpty(fr: seq<Frame>, blank: nat, p: seq<nat>, ends: bool)
    ensures SumOver(fr, blank, [], p, ends) == 0.0
  {
  }

  lemma Distribute(x: real, y: real, k: real)
    ensures (x + y) * k == x * k + y * k
  {
  }

  /** The weight reaching `p` on its blank side is all of its own mass. */
  lemma {:induction false} ReachBlank(fr: seq<Frame>, blank: nat, al: seq<seq<nat>>, p: seq<nat>)
    requires AllOfLength(al, |fr|)
    ensures ReachSum(fr, blank, al, p, true)
         == SumOver(fr, blank, al, p, true) + SumOver(fr, blank, al, p, false)
  {
    if al != [] { ReachBlank(fr, blank, al[1..], p); }
  }

  lemma ReachesLabel(a: seq<nat>, blank: nat, q: seq<nat>, l: nat)
    requires l != blank
    ensures Reaches(a, blank, q + [l], false)
        <==> || Counts(a, blank, q + [l], false)
             || Counts(a, blank, q, true)
             || (!(q != [] && q[|q| - 1] == l) && Counts(a, blank, q, false))
    ensures !(Counts(a, blank, q + [l], false) && (Counts(a, blank, q, true) || Counts(a, blank, q, false)))
    ensures !(Counts(a, blank, q, true) && Counts(a, blank, q, false))
  {
    var p := q + [l];
    assert p[..|p| - 1] == q && p != q;
    hide Collapse;
    if !EndsBlank(a, blank) { CollapseLast(a, blank); }
  }

  /** The weight reaching `q + [l]` on its non-blank side: its own non-blank mass (a repeat of `l`),
      and the mass of `q`, of which only the blank part may add a second `l`. */
  lemma {:induction false} ReachLabel(fr: seq<Frame>, blank: nat, al: seq<seq<nat>>, q: seq<nat>, l: nat)
    requires AllOfLength(al, |fr|) && l != blank
    ensures ReachSum(fr, blank, al, q + [l], false)
         == SumOver(fr, blank, al, q + [l], false)
            + SumOver(fr, blank, al, q, true)
            + (if q != [] && q[|q| - 1] == l then 0.0 else SumOver(fr, blank, al, q, false))
  {
    hide Weight, Counts, Reaches;
    if al != [] {
      ReachLabel(fr, blank, al[1..], q, l);
      ReachesLabel(al[0], blank, q, l);
    }
  }

  lemma AlignmentsStep(len: nat, n: nat)
    ensures Alignments(len + 1, n) == ExtendAll(Alignments(len, n), n)
  {
  }

  /** Blank side of the recurrence. */
  lemma MassBlankStep(fr: seq<Frame>, f: Frame, blank: nat, p: seq<nat>)
    ensures Mass(fr + [f], blank, p, true)
         == (Mass(fr, blank, p, true) + Mass(fr, blank, p, false)) * Prob(f, blank)
  {
    hide SumOver, ReachSum, Alignments, ExtendAll, Reaches, Prob;
    assert Alignments(|fr| + 1, blank + 1)
           == ExtendAll(Alignments(|fr|, blank + 1), blank + 1) by { AlignmentsStep(|fr|, blank + 1); }
    var al := Alignments(|fr|, blank + 1);
    AlignmentsLength(|fr|, blank + 1);
    SumOverExtendAll(fr, f, blank, al, blank + 1, p, true);
    ReachBlank(fr, blank, al, p);
  }

  /** Label side of the recurrence. */
  lemma MassLabelStep(fr: seq<Frame>, f: Frame, blank: nat, q: seq<nat>, l: nat)
    requires l < blank
    ensures Mass(fr + [f], blank, q + [l], false)
         == Mass(fr, blank, q + [l], false) * Prob(f, l)
            + (Mass(fr, blank, q, true)
               + (if q != [] && q[|q| - 1] == l then 0.0 else Mass(fr, blank, q, false))) * Prob(f, l)
  {
    hide SumOver, ReachSum, Alignments, ExtendAll, Reaches, Prob;
    assert Alignments(|fr| + 1, blank + 1)
           == ExtendAll(Alignments(|fr|, blank + 1), blank + 1) by { AlignmentsStep(|fr|, blank + 1); }
    var al := Alignments(|fr|, blank + 1);
    AlignmentsLength(|fr|, blank + 1);
    SumOverExtendAll(fr, f, blank, al, blank + 1, q + [l], false);
    ReachLabel(fr, blank, al, q, l);
    Distribute(Mass(fr, blank, q + [l], false),
               Mass(fr, blank, q, true) + (if q != [] && q[|q| - 1] == l then 0.0 else Mass(fr, blank, q, false)),
               Prob(f, l));
  }

  /** No alignment ends in a label and collapses to nothing, or to a sequence that ends in a
      class that is not a label. */
  lemma MassLabelZero(fr: seq<Frame>, f: Frame, blank: nat, p: seq<nat>)
    requires p == [] || p[|p| - 1] >= blank
    ensures Mass(fr + [f], blank, p, false) == 0.0
  {
    hide SumOver, ReachSum, Alignments, ExtendAll, Reaches, Prob;
    assert Alignments(|fr| + 1, blank + 1)
           == ExtendAll(Alignments(|fr|, blank + 1), blank + 1) by { AlignmentsStep(|fr|, blank + 1); }
    AlignmentsLength(|fr|, blank + 1);
    SumOverExtendAll(fr, f, blank, Alignments(|fr|, blank + 1), blank + 1, p, false);
  }

  /** Before any frame only the empty sequence has mass, all of it on the blank side. */
  lemma MassInitially(blank: nat, p: seq<nat>, ends: bool)
    ensures Mass([], blank, p, ends) == if p == [] && ends then 1.0 else 0.0
  {
    assert Alignments(0, blank + 1) == [[]];
    assert Alignments(0, blank + 1)[1..] == [];
    assert Collapse([], blank) == [];
    assert Weight([], []) == 1.0;
    var al: seq<seq<nat>> := [[]];
    assert al[1..] == [];
    assert SumOver([], blank, al, p, ends) == if Counts([], blank, p, ends) then 1.0 else 0.0;
  }

  lemma {:induction false} SumOverNonNegative(fr: seq<Frame>, blank: nat, al: seq<seq<nat>>, p: seq<nat>, ends: bool)
    requires AllOfLength(al, |fr|) && ValidFrames(fr, blank)
    ensures SumOver(fr, blank, al, p, ends) >= 0.0
  {
    if al != [] {
      WeightNonNegative(fr, blank, al[0]);
      SumOverNonNegative(fr, blank, al[1..], p, ends);
    }
  }

  lemma {:induction false} WeightNonNegative(fr: seq<Frame>, blank: nat, a: seq<nat>)
    requires |a| == |fr| && ValidFrames(fr, blank)
    ensures Weight(fr, a) >= 0.0
  {
    if fr != [] {
      WeightNonNegative(fr[..|fr| - 1], blank, a[..|a| - 1]);
      var f := fr[|fr| - 1];
      assert ValidFrame(f, blank);
      assert Prob(f, a[|a| - 1]) >= 0.0;
    }
  }

  lemma MassNonNegative(fr: seq<Frame>, blank: nat, p: seq<nat>, ends: bool)
    requires ValidFrames(fr, blank)
    ensures Mass(fr, blank, p, ends) >= 0.0
  {
    AlignmentsLength(|fr|, blank + 1);
    SumOverNonNegative(fr, blank, Alignments(|fr|, blank + 1), p, ends);
  }
}
