/** Ordering and selection: prefix_compare, the contracts of partial_sort and nth_element, and the
    per-frame choice of classes. */
module Selection {
  import opened Basics
  import opened PathTrie
  import opened Ctc

  /** numeric_limits<float>::min(), 2 to the power -126. */
  const NUM_FLT_MIN: real := 1.0 / 85070591730234615865843651857942052864.0

  /** prefix_compare: higher score first, then smaller character (the root's is the largest). */
  predicate Before(nodes: map<NodeId, Node>, x: NodeId, y: NodeId)
    requires x in nodes && y in nodes
  {
    if nodes[x].score == nodes[y].score then nodes[x].character < nodes[y].character
    else nodes[x].score > nodes[y].score
  }

  ghost predicate AllIn(nodes: map<NodeId, Node>, s: seq<NodeId>) {
    forall i | 0 <= i < |s| :: s[i] in nodes
  }

  /** The first `k` elements are in order, and nothing after them comes before them. */
  ghost predicate SortedTo(nodes: map<NodeId, Node>, s: seq<NodeId>, k: nat)
    requires AllIn(nodes, s)
  {
    forall i, j | 0 <= i < j < |s| && i < k :: !Before(nodes, s[j], s[i])
  }

  /** Nothing from position `k` on comes before anything in front of it. */
  ghost predicate SplitAt(nodes: map<NodeId, Node>, s: seq<NodeId>, k: nat)
    requires AllIn(nodes, s)
  {
    forall i, j | 0 <= i < k <= j < |s| :: !Before(nodes, s[j], s[i])
  }

  /** Every prefix that was left out is not ranked before any that was kept. */
  ghost predicate Survivors(nodes: map<NodeId, Node>, before: seq<NodeId>, after: seq<NodeId>) {
    && AllIn(nodes, before) && AllIn(nodes, after)
    && (forall n | n in after :: n in before)
    && (forall n, m | n in after && m in before && m !in after :: !Before(nodes, m, n))
  }

  lemma SwapPermutes(s: seq<NodeId>, i: nat, j: nat)
    requires i < |s| && j < |s|
    ensures multiset(s[i := s[j]][j := s[i]]) == multiset(s)
  {
  }

  lemma PermutationIn(nodes: map<NodeId, Node>, s: seq<NodeId>, r: seq<NodeId>)
    requires AllIn(nodes, s) && multiset(s) == multiset(r)
    ensures AllIn(nodes, r) && |s| == |r|
  {
    forall i | 0 <= i < |r| ensures r[i] in nodes {
      assert r[i] in multiset(r);
      assert r[i] in s;
    }
    assert |multiset(s)| == |s| && |multiset(r)| == |r|;
  }

  /** The position of an element that no element of s[i..] comes before. */
  method FirstOf(nodes: map<NodeId, Node>, s: seq<NodeId>, i: nat) returns (m: nat)
    requires AllIn(nodes, s) && i < |s|
    ensures i <= m < |s|
    ensures forall j | i <= j < |s| :: !Before(nodes, s[j], s[m])
  {
    m := i;
    for j := i + 1 to |s|
      invariant i <= m < j
      invariant forall h | i <= h < j :: !Before(nodes, s[h], s[m])
    {
      if Before(nodes, s[j], s[m]) { m := j; }
    }
  }

  /** std::partial_sort with prefix_compare. */
  method PartialSort(nodes: map<NodeId, Node>, s: seq<NodeId>, k: nat) returns (r: seq<NodeId>)
    requires AllIn(nodes, s) && k <= |s|
    ensures multiset(r) == multiset(s) && AllIn(nodes, r) && |r| == |s|
    ensures SortedTo(nodes, r, k)
  {
    r := s;
    for i := 0 to k
      invariant multiset(r) == multiset(s) && |r| == |s| && AllIn(nodes, r)
      invariant SortedTo(nodes, r, i)
    {
      var m := FirstOf(nodes, r, i);
      SwapPermutes(r, i, m);
      SwapSorted(nodes, r, i, m);
      r := r[i := r[m]][m := r[i]];
      PermutationIn(nodes, s, r);
    }
  }

  lemma SwapSorted(nodes: map<NodeId, Node>, r: seq<NodeId>, i: nat, m: nat)
    requires AllIn(nodes, r) && i <= m < |r| && SortedTo(nodes, r, i)
    requires forall j | i <= j < |r| :: !Before(nodes, r[j], r[m])
    ensures AllIn(nodes, r[i := r[m]][m := r[i]])
    ensures SortedTo(nodes, r[i := r[m]][m := r[i]], i + 1)
  {
    hide Before;
    var t := r[i := r[m]][m := r[i]];
    forall a, b | 0 <= a < b < |t| && a < i + 1 ensures !Before(nodes, t[b], t[a]) {
      var b' := if b == m then i else if b == i then m else b;
      assert t[b] == r[b'];
      if a < i { assert t[a] == r[a] && a < b'; } else { assert t[a] == r[m]; }
    }
  }

  /** std::nth_element with prefix_compare. */
  method NthElement(nodes: map<NodeId, Node>, s: seq<NodeId>, k: nat) returns (r: seq<NodeId>)
    requires AllIn(nodes, s) && k <= |s|
    ensures multiset(r) == multiset(s) && AllIn(nodes, r) && |r| == |s|
    ensures SplitAt(nodes, r, k)
  {
    r := PartialSort(nodes, s, k);
  }

  // ----- get_pruned_log_probs

  /** The frame the beam search multiplies with: no class has probability zero. */
  function Floored(prob: seq<real>): Frame {
    seq(|prob|, i requires 0 <= i < |prob| => prob[i] + NUM_FLT_MIN)
  }

  /** The floor is 2^-126, the smallest positive normal float. */
  lemma FloorIs()
    ensures NUM_FLT_MIN * 0x4000_0000_0000_0000_0000_0000_0000_0000 as real == 1.0
  {
  }

  lemma FlooredValid(prob: seq<real>, blank: nat)
    requires |prob| == blank + 1 && forall c | 0 <= c <= blank :: prob[c] >= 0.0
    ensures ValidFrame(Floored(prob), blank)
    ensures forall c | 0 <= c <= blank :: Prob(Floored(prob), c) == prob[c] + NUM_FLT_MIN
    ensures NUM_FLT_MIN > 0.0
  {
  }

  /** Sum of the probabilities of some classes. */
  function SumProb(p: Frame, classes: seq<nat>): real {
    if classes == [] then 0.0 else SumProb(p, classes[..|classes| - 1]) + Prob(p, classes[|classes| - 1])
  }

  lemma SumProbNext(p: Frame, classes: seq<nat>, a: nat)
    requires a < |classes|
    ensures SumProb(p, classes[..a + 1]) == SumProb(p, classes[..a]) + Prob(p, classes[a])
  {
    assert classes[..a + 1][..a] == classes[..a];
  }

  function Total(p: Frame): real {
    if p == [] then 0.0 else Total(p[..|p| - 1]) + p[|p| - 1]
  }

  ghost predicate AreClasses(classes: seq<nat>, n: nat) {
    |classes| == n && NoDup(classes) && forall c: nat :: c in classes <==> c < n
  }

  lemma {:induction false} SumProbRemove(p: Frame, s: seq<nat>, i: nat)
    requires i < |s|
    ensures SumProb(p, s) == SumProb(p, s[..i] + s[i + 1..]) + Prob(p, s[i])
  {
    hide Prob;
    var last := |s| - 1;
    var t := s[..i] + s[i + 1..];
    if i == last {
      assert t == s[..last];
    } else {
      SumProbRemove(p, s[..last], i);
      assert s[..last][..i] + s[..last][i + 1..] == t[..|t| - 1];
      assert t[|t| - 1] == s[last];
    }
  }

  lemma RemoveClass(s: seq<nat>, n: nat, i: nat)
    requires AreClasses(s, n + 1) && i < |s| && s[i] == n
    ensures AreClasses(s[..i] + s[i + 1..], n)
  {
    var t := s[..i] + s[i + 1..];
    forall c: nat ensures c in t <==> c < n {
      if c < n {
        assert c in s;
        var j :| 0 <= j < |s| && s[j] == c;
        assert t[if j < i then j else j - 1] == c;
      }
      if c in t {
        var j :| 0 <= j < |t| && t[j] == c;
        assert s[if j < i then j else j + 1] == c;
        assert c in s && c != n;
      }
    }
  }

  /** The order in which the classes are offered does not matter to the total. */
  lemma {:induction false} SumProbIsTotal(p: Frame, s: seq<nat>, n: nat)
    requires AreClasses(s, n) && n <= |p|
    ensures SumProb(p, s) == Total(p[..n])
  {
    if n > 0 {
      assert n - 1 in s;
      var i :| 0 <= i < |s| && s[i] == n - 1;
      SumProbRemove(p, s, i);
      RemoveClass(s, n - 1, i);
      SumProbIsTotal(p, s[..i] + s[i + 1..], n - 1);
      assert p[..n][..n - 1] == p[..n - 1];
    }
  }

  /** Sums of classes add up. */
  lemma {:induction false} SumProbAdds(p: Frame, a: seq<nat>, b: seq<nat>, c: nat)
    ensures SumProb(p, a + b) == SumProb(p, a) + SumProb(p, b) && SumProb(p, [c]) == Prob(p, c)
  {
    hide Prob;
    if b == [] {
      assert a + b == a;
    } else {
      assert (a + b)[..|a + b| - 1] == a + b[..|b| - 1];
      SumProbAdds(p, a, b[..|b| - 1], c);
    }
    assert [c][..0] == [];
  }

  ghost predicate DescendingTo(prob: seq<real>, classes: seq<nat>, k: nat) {
    forall i, j | 0 <= i < j < |classes| && i < k :: Prob(prob, classes[i]) >= Prob(prob, classes[j])
  }

  /** No later class is more likely than an earlier one. */
  ghost predicate Descending(prob: seq<real>, classes: seq<nat>) {
    DescendingTo(prob, classes, |classes|)
  }

  lemma SwapClasses(classes: seq<nat>, n: nat, i: nat, j: nat)
    requires AreClasses(classes, n) && i < n && j < n
    ensures AreClasses(classes[i := classes[j]][j := classes[i]], n)
  {
    var t := classes[i := classes[j]][j := classes[i]];
    forall c ensures c in t <==> c in classes {
      if c in classes {
        var k :| 0 <= k < n && classes[k] == c;
        assert t[if k == i then j else if k == j then i else k] == c;
      }
    }
  }

  /** The classes in order of falling probability. */
  method SortClasses(prob: seq<real>, s: seq<nat>) returns (r: seq<nat>)
    requires AreClasses(s, |prob|)
    ensures AreClasses(r, |prob|) && Descending(prob, r)
  {
    r := s;
    var n := |prob|;
    for i := 0 to n
      invariant AreClasses(r, n)
      invariant DescendingTo(prob, r, i)
    {
      var m := i;
      for j := i + 1 to n
        invariant i <= m < j
        invariant forall h | i <= h < j :: Prob(prob, r[h]) <= Prob(prob, r[m])
      {
        if Prob(prob, r[j]) > Prob(prob, r[m]) { m := j; }
      }
      SwapClasses(r, n, i, m);
      SwapDescends(prob, r, i, m);
      r := r[i := r[m]][m := r[i]];
    }
  }

  lemma SwapDescends(prob: seq<real>, r: seq<nat>, i: nat, m: nat)
    requires AreClasses(r, |prob|) && i <= m < |prob|
    requires DescendingTo(prob, r, i)
    requires forall h | i <= h < |r| :: Prob(prob, r[h]) <= Prob(prob, r[m])
    ensures DescendingTo(prob, r[i := r[m]][m := r[i]], i + 1)
  {
    var t := r[i := r[m]][m := r[i]];
    forall a, b | 0 <= a < i + 1 && a < b < |r| ensures Prob(prob, t[a]) >= Prob(prob, t[b]) {
      var b' := if b == m then i else if b == i then m else b;
      assert t[b] == r[b'];
      if a < i { assert t[a] == r[a] && a < b'; } else { assert t[a] == r[m]; }
    }
  }

  lemma InOrderAreClasses(s: seq<nat>)
    requires forall i | 0 <= i < |s| :: s[i] == i
    ensures AreClasses(s, |s|)
  {
    forall c: nat | c < |s| ensures c in s { assert s[c] == c; }
  }

  /** The first `l` classes reach neither the cumulative probability nor the number. */
  predicate TooFew(prob: seq<real>, all: seq<nat>, l: nat, cutoffProb: real, cutoffTopN: nat)
    requires l <= |all|
  {
    SumProb(prob, all[..l]) < cutoffProb && l < cutoffTopN
  }

  /** No front shorter than `len` reaches the cumulative probability or the number. */
  ghost predicate NoneToSpare(prob: seq<real>, all: seq<nat>, len: nat, cutoffProb: real, cutoffTopN: nat)
    requires len <= |all|
  {
    forall l | 0 < l < len :: TooFew(prob, all, l, cutoffProb, cutoffTopN)
  }

  /** The shortest non-empty front of `all` that reaches the cumulative probability or the number. */
  method CutClasses(prob: seq<real>, all: seq<nat>, cutoffProb: real, cutoffTopN: nat) returns (len: nat)
    ensures len <= |all| && (all != [] ==> len > 0)
    ensures len == |all| || SumProb(prob, all[..len]) >= cutoffProb || len >= cutoffTopN
    ensures NoneToSpare(prob, all, len, cutoffProb, cutoffTopN)
  {
    var cum := 0.0;
    len := 0;
    while len < |all|
      invariant 0 <= len <= |all| && cum == SumProb(prob, all[..len])
      invariant forall l | 0 < l <= len :: TooFew(prob, all, l, cutoffProb, cutoffTopN)
    {
      assert all[..len + 1][..len] == all[..len];
      cum, len := cum + Prob(prob, all[len]), len + 1;
      if cum >= cutoffProb || len >= cutoffTopN { break; }
    }
  }

  /** No class outside is more likely than one inside. */
  ghost predicate MostLikely(prob: seq<real>, kept: seq<nat>) {
    forall c, d: nat | c in kept && d < |prob| && d !in kept :: Prob(prob, c) >= Prob(prob, d)
  }

  lemma FrontOf(prob: seq<real>, all: seq<nat>, len: nat)
    requires AreClasses(all, |prob|) && Descending(prob, all) && len <= |all|
    ensures NoDup(all[..len]) && Descending(prob, all[..len])
    ensures forall c | c in all[..len] :: c < |prob|
    ensures MostLikely(prob, all[..len])
  {
    forall c | c in all[..len] ensures c < |prob| { assert c in all; }
    forall c, d: nat | c in all[..len] && d < |prob| && d !in all[..len] ensures Prob(prob, c) >= Prob(prob, d) {
      assert d in all;
      var i :| 0 <= i < len && all[i] == c;
      var j :| 0 <= j < |all| && all[j] == d;
      assert forall k | 0 <= k < len :: all[k] in all[..len];
    }
  }

  /** What get_pruned_log_probs may return: each class at most once and at least one.  The limit on their number
      counts only when `cutoffProb` is below one; otherwise it only puts the classes in order of probability. */
  ghost predicate Choice(prob: seq<real>, cutoffProb: real, cutoffTopN: nat, kept: seq<nat>) {
    && NoDup(kept) && (forall c | c in kept :: c < |prob|) && (prob != [] ==> kept != [])
    && (cutoffProb >= 1.0 ==>
          && AreClasses(kept, |prob|)
          && if cutoffTopN < |prob| then Descending(prob, kept) else forall i | 0 <= i < |kept| :: kept[i] == i)
    && (cutoffProb < 1.0 ==>
          && Descending(prob, kept)
          && MostLikely(prob, kept)
          && (|kept| == |prob| || SumProb(prob, kept) >= cutoffProb || |kept| >= cutoffTopN)
          && NoneToSpare(prob, kept, |kept|, cutoffProb, cutoffTopN))
  }

  /** The classes one frame offers to the beam. */
  method ChooseClasses(prob: seq<real>, cutoffProb: real, cutoffTopN: nat) returns (kept: seq<nat>)
    ensures Choice(prob, cutoffProb, cutoffTopN, kept)
  {
    hide Choice, AreClasses, Descending, SumProb, NoneToSpare;
    kept := seq(|prob|, i => i);
    InOrderAreClasses(kept);
    if cutoffProb < 1.0 || cutoffTopN < |prob| { kept := SortClasses(prob, kept); }
    if cutoffProb < 1.0 {
      var all := kept;
      var len := CutClasses(prob, all, cutoffProb, cutoffTopN);
      FrontIsChoice(prob, cutoffProb, cutoffTopN, all, len);
      kept := all[..len];
    } else {
      AllIsChoice(prob, cutoffProb, cutoffTopN, kept);
    }
  }

  /** The blank is offered behind a label if the classes come in their own order; otherwise only the more likely labels
      are in front of it. */
  lemma BlankComesLast(prob: seq<real>, cutoffProb: real, cutoffTopN: nat, kept: seq<nat>, l: nat, blank: nat)
    requires Choice(prob, cutoffProb, cutoffTopN, kept) && l in kept && blank in kept && l < blank == |prob| - 1
    ensures cutoffProb >= 1.0 && cutoffTopN >= |prob| ==> Precedes(kept, l, blank)
    ensures cutoffProb < 1.0 || cutoffTopN < |prob| ==>
              && (prob[l] > prob[blank] ==> Precedes(kept, l, blank))
              && (prob[l] < prob[blank] ==> !Precedes(kept, l, blank))
  {
    hide SumProb, MostLikely, NoneToSpare;
    var i :| 0 <= i < |kept| && kept[i] == l;
    var j :| 0 <= j < |kept| && kept[j] == blank;
    assert i != j;
    if j < i { assert Precedes(kept, blank, l); }
  }

  lemma AllIsChoice(prob: seq<real>, cutoffProb: real, cutoffTopN: nat, all: seq<nat>)
    requires AreClasses(all, |prob|) && cutoffProb >= 1.0
    requires if cutoffTopN < |prob| then Descending(prob, all) else forall i | 0 <= i < |all| :: all[i] == i
    ensures Choice(prob, cutoffProb, cutoffTopN, all)
  {
    hide SumProb, Prob, Descending;
  }

  lemma FrontToSpare(prob: seq<real>, all: seq<nat>, len: nat, cutoffProb: real, cutoffTopN: nat)
    requires len <= |all| && NoneToSpare(prob, all, len, cutoffProb, cutoffTopN)
    ensures NoneToSpare(prob, all[..len], len, cutoffProb, cutoffTopN)
  {
    hide SumProb;
    forall l | 0 < l < len ensures TooFew(prob, all[..len], l, cutoffProb, cutoffTopN) {
      assert TooFew(prob, all, l, cutoffProb, cutoffTopN);
      assert all[..len][..l] == all[..l];
    }
  }

  lemma FrontIsChoice(prob: seq<real>, cutoffProb: real, cutoffTopN: nat, all: seq<nat>, len: nat)
    requires AreClasses(all, |prob|) && Descending(prob, all) && cutoffProb < 1.0 && len <= |all|
             && (all != [] ==> len > 0)
    requires len == |all| || SumProb(prob, all[..len]) >= cutoffProb || len >= cutoffTopN
    requires NoneToSpare(prob, all, len, cutoffProb, cutoffTopN)
    ensures Choice(prob, cutoffProb, cutoffTopN, all[..len])
  {
    hide SumProb, Prob, Descending, NoDup, MostLikely, NoneToSpare;
    FrontOf(prob, all, len);
    FrontToSpare(prob, all, len, cutoffProb, cutoffTopN);
  }
}
