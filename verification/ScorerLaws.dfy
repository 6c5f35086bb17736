/** What the scorer contributes to a label sequence, told by its words or code points. */
module ScorerLaws {
  import opened Basics
  import opened Beam
  import opened Utf8
  import opened Scoring
  import opened BeamSearch

  /** Word mode: for each of the first `n` labels, if the sequence before it ends there, that sequence is scored. */
  function WordProduct(x: Scorer, p: seq<nat>, n: nat): real
    requires n <= |p|
  {
    if n == 0 then 1.0
    else WordProduct(x, p, n - 1) * (if x.boundary(p[..n - 1], p[n - 1]) then x.lm(p[..n - 1]) * x.beta else 1.0)
  }

  /** Byte mode: for each of the first `n` labels, if the sequence with it ends there, that sequence is scored. */
  function ByteProduct(x: Scorer, p: seq<nat>, n: nat): real
    requires n <= |p|
  {
    if n == 0 then 1.0
    else ByteProduct(x, p, n - 1) * (if x.boundary(p[..n], p[n - 1]) then x.lm(p[..n]) * x.beta else 1.0)
  }

  lemma {:induction false} LmOfFront(x: Scorer, p: seq<nat>, n: nat)
    requires n <= |p|
    ensures Lm(Some(x), p[..n]) == if x.utf8 then ByteProduct(x, p, n) else WordProduct(x, p, n)
  {
    if n > 0 {
      LmOfFront(x, p, n - 1);
      assert p[..n] == p[..n - 1] + [p[n - 1]];
      LmStep(Some(x), p[..n - 1], p[n - 1]);
    }
  }

  /** A sequence without a scorer keeps its mass; with one it is multiplied at every boundary within it. */
  lemma LmIsProduct(sc: Option<Scorer>, p: seq<nat>)
    ensures Lm(sc, p) == match sc
                         case None => 1.0
                         case Some(x) => if x.utf8 then ByteProduct(x, p, |p|) else WordProduct(x, p, |p|)
  {
    match sc
    case None => PlainWorth([], 0, None, p);
    case Some(x) =>
      assert p[..|p|] == p;
      LmOfFront(x, p, |p|);
  }

  // ----- words

  /** The first `k` pieces, each scored at the sequence that ends in it. */
  function PieceProduct(x: Scorer, ps: seq<seq<nat>>, k: nat, space: nat): real
    requires k <= |ps|
  {
    if k == 0 then 1.0 else PieceProduct(x, ps, k - 1, space) * (x.lm(JoinWith(ps[..k], space)) * x.beta)
  }

  lemma {:induction false} PiecesSame(x: Scorer, ps: seq<seq<nat>>, qs: seq<seq<nat>>, k: nat, space: nat)
    requires k <= |ps| && k <= |qs| && ps[..k] == qs[..k]
    ensures PieceProduct(x, ps, k, space) == PieceProduct(x, qs, k, space)
  {
    if k > 0 {
      assert ps[..k - 1] == ps[..k][..k - 1] && qs[..k - 1] == qs[..k][..k - 1];
      PiecesSame(x, ps, qs, k - 1, space);
    }
  }

  /** The scorer of a word-based model: a space ends a word. */
  ghost predicate EndsAtSpace(x: Scorer, space: nat) {
    !x.utf8 && forall p, c :: x.boundary(p, c) <==> c == space
  }

  /** Every piece that a space ends is scored once, at the sequence ending in it and without the space. */
  lemma {:induction false} WordsAreScored(x: Scorer, p: seq<nat>, space: nat)
    requires EndsAtSpace(x, space)
    ensures var ps := SplitOn(p, space); Lm(Some(x), p) == PieceProduct(x, ps, |ps| - 1, space)
  {
    hide SplitOn, JoinWith;
    if p == [] {
      SplitOnNone(space);
    } else {
      var front, c := p[..|p| - 1], p[|p| - 1];
      assert p == front + [c];
      WordsAreScored(x, front, space);
      LmStep(Some(x), front, c);
      SplitOnStep(front, c, space);
      var ps := SplitOn(front, space);
      if c == space {
        SplitOnIs(front, space);
        assert (ps + [[]])[..|ps|] == ps;
        PiecesSame(x, ps, ps + [[]], |ps| - 1, space);
      } else {
        PiecesSame(x, ps, SplitOn(p, space), |ps| - 1, space);
      }
    }
  }

  /** The last piece is scored in the end, unless it is empty. */
  lemma LastWordIsScored(x: Scorer, p: seq<nat>, space: nat)
    requires EndsAtSpace(x, space)
    ensures var ps := SplitOn(p, space);
            FinalFactor(Some(x), p) == if ps[|ps| - 1] == [] then 1.0 else x.lmFinal(p) * x.beta
  {
    hide SplitOn;
    if p == [] {
      SplitOnNone(space);
    } else {
      var front, c := p[..|p| - 1], p[|p| - 1];
      assert p == front + [c];
      SplitOnStep(front, c, space);
    }
  }

  /** The sequences scored are made of the pieces up to the one they end in. */
  lemma {:induction false} SplitOfJoin(ps: seq<seq<nat>>, space: nat)
    requires ps != [] && forall p | p in ps :: space !in p
    ensures SplitOn(JoinWith(ps, space), space) == ps
    decreases |Concat(ps)| + |ps|
  {
    hide SplitOn, JoinWith, Concat;
    var init, last := ps[..|ps| - 1], ps[|ps| - 1];
    assert ps == init + [last] && last in ps;
    JoinStep(init, last, space);
    ConcatAppend(init, last);
    if last != [] {
      var l, c := last[..|last| - 1], last[|last| - 1];
      assert last == l + [c];
      forall p | p in init + [l] ensures space !in p { if p in init { assert p in ps; } }
      ConcatAppend(init, l);
      SplitOfJoin(init + [l], space);
      JoinStep(init, l, space);
      assert JoinWith(ps, space) == JoinWith(init + [l], space) + [c];
      SplitOnStep(JoinWith(init + [l], space), c, space);
    } else if init == [] {
      SplitOnNone(space);
    } else {
      forall p | p in init ensures space !in p { assert p in ps; }
      SplitOfJoin(init, space);
      SplitOnStep(JoinWith(init, space), space, space);
      assert JoinWith(init, space) + [space] + [] == JoinWith(init, space) + [space];
    }
  }

  // ----- code points

  /** The scorer of a byte-based model: a complete code point ends a unit. */
  ghost predicate EndsAtCodePoint(x: Scorer) {
    x.utf8 && forall p, c :: x.boundary(p, c) <==> IsScoringBoundary(p) == Some(true)
  }

  /** Each of the first `n` beginnings that is made of complete code points is scored. */
  ghost function CompleteProduct(x: Scorer, p: seq<nat>, n: nat): real
    requires n <= |p|
  {
    if n == 0 then 1.0
    else CompleteProduct(x, p, n - 1) * (if WellFormed(BytesOf(p[..n])) then x.lm(p[..n]) * x.beta else 1.0)
  }

  lemma {:induction false} CompleteIsByte(x: Scorer, p: seq<nat>, n: nat)
    requires EndsAtCodePoint(x) && BeginsWellFormed(BytesOf(p)) && n <= |p|
    ensures ByteProduct(x, p, n) == CompleteProduct(x, p, n)
  {
    hide IsScoringBoundary, WellFormed, BytesOf;
    if n > 0 {
      CompleteIsByte(x, p, n - 1);
      BeginningBegins(p, n);
      BoundaryIsComplete(p[..n]);
    }
  }

  lemma BeginningBegins(p: seq<nat>, n: nat)
    requires BeginsWellFormed(BytesOf(p)) && n <= |p|
    ensures BeginsWellFormed(BytesOf(p[..n]))
  {
    hide WellFormed;
    var ext :| WellFormed(BytesOf(p) + ext);
    var rest := BytesOf(p)[n..] + ext;
    assert BytesOf(p[..n]) + rest == BytesOf(p) + ext;
  }

  /** Every code point is scored once, at the sequence that completes it; an unfinished one, and the empty sequence,
      in the end. */
  lemma CodePointsAreScored(x: Scorer, p: seq<nat>)
    requires EndsAtCodePoint(x) && BeginsWellFormed(BytesOf(p))
    ensures Lm(Some(x), p) == CompleteProduct(x, p, |p|)
    ensures FinalFactor(Some(x), p) == if p != [] && WellFormed(BytesOf(p)) then 1.0 else x.lmFinal(p) * x.beta
  {
    hide WellFormed, BytesOf, IsScoringBoundary, Lm, ByteProduct, CompleteProduct, FinalFactor;
    LmIsProduct(Some(x), p);
    CompleteIsByte(x, p, |p|);
    LastCodePointIsScored(x, p);
  }

  lemma LastCodePointIsScored(x: Scorer, p: seq<nat>)
    requires EndsAtCodePoint(x) && BeginsWellFormed(BytesOf(p))
    ensures FinalFactor(Some(x), p) == if p != [] && WellFormed(BytesOf(p)) then 1.0 else x.lmFinal(p) * x.beta
  {
    hide WellFormed, BytesOf, IsScoringBoundary;
    if p != [] { BoundaryIsComplete(p); } else { EmptyIsNoBoundary(); }
  }

  lemma EmptyIsNoBoundary()
    ensures IsScoringBoundary([]) == Some(false)
  {
  }
}
