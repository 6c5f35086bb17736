/** Byte sequences and code points. */
module Utf8 {
  import opened Basics

  /** byte_is_codepoint_boundary: only continuation bytes have the top bits 10. */
  predicate IsBoundary(c: nat) { c / 64 != 2 }

  // ----- splitting at boundaries

  /** One code point: everything after the first byte continues it. */
  ghost predicate IsPiece(p: seq<nat>) {
    p != [] && forall i | 0 < i < |p| :: !IsBoundary(p[i])
  }

  /** `ps` cuts `s` at exactly its boundaries; leading continuation bytes form a piece of their own. */
  ghost predicate IsSplit(ps: seq<seq<nat>>, s: seq<nat>) {
    && Concat(ps) == s
    && (forall i | 0 <= i < |ps| :: IsPiece(ps[i]))
    && (forall i | 0 < i < |ps| :: IsBoundary(ps[i][0]))
  }

  /** The cut of a non-empty string, by its last byte. */
  function Split(s: seq<nat>): (ps: seq<seq<nat>>)
    requires s != []
    ensures ps != []
  {
    var c := s[|s| - 1];
    if |s| == 1 then [s]
    else
      var ps := Split(s[..|s| - 1]);
      if IsBoundary(c) then ps + [[c]] else ps[..|ps| - 1] + [ps[|ps| - 1] + [c]]
  }

  lemma SplitStep(s: seq<nat>, c: nat)
    ensures Split(s + [c]) == if s == [] then [[c]]
                              else var ps := Split(s);
                                   if IsBoundary(c) then ps + [[c]] else ps[..|ps| - 1] + [ps[|ps| - 1] + [c]]
  {
    assert (s + [c])[..|s|] == s;
    if s == [] { assert s + [c] == [c]; }
  }

  lemma NewPiece(ps: seq<seq<nat>>, s: seq<nat>, c: nat)
    requires IsSplit(ps, s) && (ps == [] || IsBoundary(c))
    ensures IsSplit(ps + [[c]], s + [c])
  {
    hide IsBoundary;
    ConcatAppend(ps, [c]);
    assert IsPiece([c]);
  }

  lemma LongerPiece(ps: seq<seq<nat>>, s: seq<nat>, c: nat)
    requires IsSplit(ps, s) && ps != [] && !IsBoundary(c)
    ensures IsSplit(ps[..|ps| - 1] + [ps[|ps| - 1] + [c]], s + [c])
  {
    hide IsBoundary, Concat;
    var init, last := ps[..|ps| - 1], ps[|ps| - 1];
    assert ps == init + [last];
    ConcatAppend(init, last);
    ConcatAppend(init, last + [c]);
    assert IsPiece(last);
    assert IsPiece(last + [c]);
  }

  lemma {:induction false} SplitIs(s: seq<nat>)
    requires s != []
    ensures IsSplit(Split(s), s)
  {
    hide IsBoundary, Split, IsSplit;
    var front, c := s[..|s| - 1], s[|s| - 1];
    assert s == front + [c];
    SplitStep(front, c);
    if front == [] {
      NoPieces();
      NewPiece([], front, c);
      assert [] + [[c]] == [[c]];
    } else {
      SplitIs(front);
      if IsBoundary(c) { NewPiece(Split(front), front, c); } else { LongerPiece(Split(front), front, c); }
    }
  }

  lemma NoPieces()
    ensures IsSplit([], [])
  {
  }

  /** Undoing the last step of a cut. */
  lemma SplitFront(ps: seq<seq<nat>>, s: seq<nat>) returns (qs: seq<seq<nat>>)
    requires s != [] && IsSplit(ps, s)
    ensures IsSplit(qs, s[..|s| - 1])
    ensures var c := s[|s| - 1];
            if qs == [] then ps == [[c]] && s == [c]
            else ps == if IsBoundary(c) then qs + [[c]] else qs[..|qs| - 1] + [qs[|qs| - 1] + [c]]
  {
    hide IsBoundary, Concat;
    SomePiece(ps, s);
    var n := |ps| - 1;
    var init, last := ps[..n], ps[n];
    assert ps == init + [last] && IsPiece(last);
    ConcatAppend(init, last);
    var c := s[|s| - 1];
    if |last| == 1 {
      assert last == [c] && Concat(init) == s[..|s| - 1];
      qs := init;
      if n == 0 { NoPieces(); } else { assert IsBoundary(ps[n][0]); }
    } else {
      var shorter := last[..|last| - 1];
      assert last == shorter + [c] && !IsBoundary(c);
      qs := init + [shorter];
      ConcatAppend(init, shorter);
      assert IsPiece(shorter);
      forall i | 0 <= i < |qs| ensures IsPiece(qs[i]) && (i > 0 ==> IsBoundary(qs[i][0])) {
        if i < n { assert qs[i] == ps[i]; } else { assert qs[i] == shorter && shorter[0] == last[0]; }
      }
    }
  }

  lemma SomePiece(ps: seq<seq<nat>>, s: seq<nat>)
    requires s != [] && IsSplit(ps, s)
    ensures ps != []
  {
  }

  /** There is only one such cut. */
  lemma {:induction false} SplitUnique(ps: seq<seq<nat>>, s: seq<nat>)
    requires s != [] && IsSplit(ps, s)
    ensures ps == Split(s)
    decreases |s|
  {
    hide IsBoundary, IsSplit, Split;
    var qs := SplitFront(ps, s);
    var front, c := s[..|s| - 1], s[|s| - 1];
    assert s == front + [c];
    SplitStep(front, c);
    if qs != [] {
      CutOfSome(qs, front);
      SplitUnique(qs, front);
    }
  }

  lemma CutOfSome(qs: seq<seq<nat>>, s: seq<nat>)
    requires qs != [] && IsSplit(qs, s)
    ensures s != []
  {
    assert IsPiece(qs[|qs| - 1]);
  }

  lemma NonEmptyConcat(w: seq<seq<nat>>)
    requires w != [] && forall i | 0 <= i < |w| :: IsPiece(w[i])
    ensures Concat(w) != []
  {
    assert IsPiece(w[|w| - 1]);
  }

  /** The pieces of any string; the empty string gives one empty piece. */
  function CodePoints(s: seq<nat>): seq<seq<nat>> {
    if s == [] then [[]] else Split(s)
  }

  /** split_into_codepoints. */
  method SplitIntoCodepoints(str: seq<nat>) returns (result: seq<seq<nat>>)
    ensures result == CodePoints(str)
  {
    hide IsBoundary, Split;
    result := [];
    var out: seq<nat> := [];
    for i := 0 to |str|
      invariant if i == 0 then result == [] && out == [] else out != [] && result + [out] == Split(str[..i])
    {
      assert str[..i + 1] == str[..i] + [str[i]];
      var c := str[i];
      SplitStep(str[..i], c);
      ghost var before := result + [out];
      assert before[..|before| - 1] == result;
      if IsBoundary(c) {
        if out != [] {
          result := result + [out];
          out := [];
        }
      }
      out := out + [c];
      assert [] + [c] == [c];
    }
    assert str[..|str|] == str;
    result := result + [out];
  }

  // ----- well-formed UTF-8, section 4 of RFC 3629

  predicate Between(c: nat, lo: nat, hi: nat) { lo <= c <= hi }
  predicate IsTail(c: nat) { Between(c, 0x80, 0xBF) }

  /** Length announced by a first byte; 0 for a byte that cannot start a code point. */
  function LengthOf(c: nat): nat {
    if c <= 0x7F then 1
    else if Between(c, 0xC2, 0xDF) then 2
    else if Between(c, 0xE0, 0xEF) then 3
    else if Between(c, 0xF0, 0xF4) then 4
    else 0
  }

  /** The second byte is restricted after some first bytes. */
  predicate SecondOk(first: nat, c: nat) {
    if first == 0xE0 then Between(c, 0xA0, 0xBF)
    else if first == 0xED then Between(c, 0x80, 0x9F)
    else if first == 0xF0 then Between(c, 0x90, 0xBF)
    else if first == 0xF4 then Between(c, 0x80, 0x8F)
    else IsTail(c)
  }

  predicate IsCodePoint(s: seq<nat>) {
    && s != [] && |s| == LengthOf(s[0])
    && (|s| > 1 ==> SecondOk(s[0], s[1]))
    && forall i | 2 <= i < |s| :: IsTail(s[i])
  }

  predicate WellFormed(s: seq<nat>) {
    if s == [] then true
    else
      var n := LengthOf(s[0]);
      0 < n <= |s| && IsCodePoint(s[..n]) && WellFormed(s[n..])
  }

  lemma TailsContinue(s: seq<nat>)
    requires IsCodePoint(s)
    ensures IsBoundary(s[0]) && forall i | 0 < i < |s| :: !IsBoundary(s[i])
  {
  }

  /** No code point is a proper beginning of another. */
  lemma CodePointsArePrefixFree(a: seq<nat>, b: seq<nat>)
    requires IsCodePoint(a) && IsCodePoint(b) && a <= b
    ensures a == b
  {
    assert a[0] == b[0];
  }
}
