/** What the language model is asked about: n-grams and scoring boundaries, read off a trie path by walking
    from its end.  A node is given by its path from the root; its parent is the path without the last label. */
module Scoring {
  import opened Basics
  import opened Utf8

  /** The byte of a label in the byte alphabet. */
  function ByteOf(l: nat): nat { l + 1 }

  function BytesOf(path: seq<nat>): seq<nat> {
    seq(|path|, i requires 0 <= i < |path| => ByteOf(path[i]))
  }

  /** Where a backward walk stopped, and the labels it collected in order. */
  datatype Walk = Walk(stop: seq<nat>, labels: seq<nat>)

  function Parent(path: seq<nat>): Option<seq<nat>> {
    if path == [] then None else Some(path[..|path| - 1])
  }

  // ----- words

  /** get_prev_word. */
  function PrevWord(path: seq<nat>, space: nat): Walk {
    if path == [] || path[|path| - 1] == space then Walk(path, [])
    else
      var w := PrevWord(path[..|path| - 1], space);
      Walk(w.stop, w.labels + [path[|path| - 1]])
  }

  /** The pieces between spaces; there is always at least one, possibly empty. */
  function SplitOn(path: seq<nat>, space: nat): (ps: seq<seq<nat>>)
    ensures ps != []
  {
    if path == [] then [[]]
    else
      var c, ps := path[|path| - 1], SplitOn(path[..|path| - 1], space);
      if c == space then ps + [[]] else ps[..|ps| - 1] + [ps[|ps| - 1] + [c]]
  }

  /** The words of a path: a leading empty piece does not count. */
  function Words(path: seq<nat>, space: nat): seq<seq<nat>> {
    var ps := SplitOn(path, space);
    if ps[0] == [] then ps[1..] else ps
  }

  /** Pieces laid end to end with spaces between them give the path back. */
  function JoinWith(ps: seq<seq<nat>>, space: nat): seq<nat> {
    if ps == [] then [] else if |ps| == 1 then ps[0]
    else JoinWith(ps[..|ps| - 1], space) + [space] + ps[|ps| - 1]
  }

  lemma {:induction false} SplitOnIs(path: seq<nat>, space: nat)
    ensures JoinWith(SplitOn(path, space), space) == path
    ensures forall p | p in SplitOn(path, space) :: space !in p
  {
    hide SplitOn, JoinWith;
    if path == [] {
      SplitOnNone(space);
    } else {
      var front, c := path[..|path| - 1], path[|path| - 1];
      assert path == front + [c];
      SplitOnIs(front, space);
      SplitOnStep(front, c, space);
      var ps := SplitOn(front, space);
      var init, last := ps[..|ps| - 1], ps[|ps| - 1];
      assert ps == init + [last] && last in ps;
      if c == space {
        JoinStep(ps, [], space);
      } else {
        JoinStep(init, last, space);
        JoinStep(init, last + [c], space);
        forall p | p in init + [last + [c]] ensures space !in p { if p in init { assert p in ps; } }
      }
    }
  }

  lemma SplitOnNone(space: nat)
    ensures SplitOn([], space) == [[]] && JoinWith([[]], space) == []
  {
  }

  lemma SplitOnStep(path: seq<nat>, c: nat, space: nat)
    ensures SplitOn(path + [c], space)
         == var ps := SplitOn(path, space);
            if c == space then ps + [[]] else ps[..|ps| - 1] + [ps[|ps| - 1] + [c]]
  {
    assert (path + [c])[..|path|] == path;
  }

  lemma JoinStep(ps: seq<seq<nat>>, p: seq<nat>, space: nat)
    ensures JoinWith(ps + [p], space) == if ps == [] then p else JoinWith(ps, space) + [space] + p
  {
    assert (ps + [p])[..|ps|] == ps;
  }

  /** Joining can be done in two parts. */
  lemma {:induction false} JoinSplit(ps: seq<seq<nat>>, i: nat, space: nat)
    requires 0 < i < |ps|
    ensures JoinWith(ps, space) == JoinWith(ps[..i], space) + [space] + JoinWith(ps[i..], space)
  {
    hide JoinWith;
    var n := |ps| - 1;
    var front, last := ps[..n], ps[n];
    assert ps == front + [last];
    JoinStep(front, last, space);
    if i == n {
      assert ps[i..] == [] + [last];
      JoinStep([], last, space);
    } else {
      JoinSplit(front, i, space);
      assert front[..i] == ps[..i] && ps[i..] == front[i..] + [last];
      JoinStep(front[i..], last, space);
    }
  }

  /** `tail` is the end of the path from a piece's beginning on. */
  predicate IsTail(path: seq<nat>, tail: seq<nat>, space: nat) {
    && |tail| <= |path| && path[|path| - |tail|..] == tail
    && (|tail| == |path| || path[|path| - |tail| - 1] == space)
  }

  /** The last words of a path, with spaces between them, are its end. */
  lemma LastWords(path: seq<nat>, space: nat, n: nat)
    requires 0 < n <= |Words(path, space)|
    ensures IsTail(path, JoinWith(Words(path, space)[|Words(path, space)| - n..], space), space)
  {
    hide SplitOn, JoinWith;
    var ps, ws := SplitOn(path, space), Words(path, space);
    var i := |ps| - n;
    assert ps[i..] == ws[|ws| - n..];
    SplitOnIs(path, space);
    if i > 0 {
      JoinSplit(ps, i, space);
    } else {
      assert ps[i..] == ps;
    }
  }

  // ----- graphemes

  /** get_prev_grapheme, for the byte alphabet. */
  function PrevGrapheme(path: seq<nat>): Walk {
    if path == [] then Walk(path, [])
    else if IsBoundary(ByteOf(path[|path| - 1])) then Walk(path, [path[|path| - 1]])
    else
      var w := PrevGrapheme(path[..|path| - 1]);
      Walk(w.stop, w.labels + [path[|path| - 1]])
  }

  /** The code points of a path, as labels. */
  function Graphemes(path: seq<nat>): (ps: seq<seq<nat>>)
    ensures path != [] ==> ps != []
  {
    if path == [] then []
    else
      var c, ps := path[|path| - 1], Graphemes(path[..|path| - 1]);
      if ps == [] || IsBoundary(ByteOf(c)) then ps + [[c]] else ps[..|ps| - 1] + [ps[|ps| - 1] + [c]]
  }

  function BytesOfAll(ps: seq<seq<nat>>): seq<seq<nat>> {
    seq(|ps|, i requires 0 <= i < |ps| => BytesOf(ps[i]))
  }

  /** They are what split_into_codepoints makes of the path's bytes. */
  lemma {:induction false} GraphemesAreSplit(path: seq<nat>)
    requires path != []
    ensures BytesOfAll(Graphemes(path)) == Split(BytesOf(path))
  {
    hide IsBoundary, Split, Graphemes, BytesOf, BytesOfAll;
    var front, c := path[..|path| - 1], path[|path| - 1];
    assert path == front + [c];
    GraphemesStep(front, c);
    BytesAppend(front, c);
    SplitStep(BytesOf(front), ByteOf(c));
    if front == [] {
      BytesOfOne(c);
      var none: seq<seq<nat>> := [];
      assert none + [[c]] == [[c]];
    } else {
      GraphemesAreSplit(front);
      var ps := Graphemes(front);
      if IsBoundary(ByteOf(c)) {
        BytesOfOne(c);
        BytesOfAllAppend(ps, [c]);
      } else {
        var init, last := ps[..|ps| - 1], ps[|ps| - 1];
        assert ps == init + [last];
        BytesAppend(last, c);
        BytesOfAllAppend(init, last);
        BytesOfAllAppend(init, last + [c]);
        assert (BytesOfAll(init) + [BytesOf(last)])[..|ps| - 1] == BytesOfAll(init) by { LengthOfAll(init); }
      }
    }
  }

  lemma GraphemesStep(path: seq<nat>, c: nat)
    ensures Graphemes(path + [c])
         == var ps := Graphemes(path);
            if ps == [] || IsBoundary(ByteOf(c)) then ps + [[c]] else ps[..|ps| - 1] + [ps[|ps| - 1] + [c]]
    ensures Graphemes(path) == [] <==> path == []
  {
    assert (path + [c])[..|path|] == path;
  }

  /** Laid end to end they are the path. */
  lemma {:induction false} GraphemesJoin(path: seq<nat>)
    ensures Concat(Graphemes(path)) == path
  {
    hide IsBoundary;
    if path != [] {
      var front, c := path[..|path| - 1], path[|path| - 1];
      GraphemesJoin(front);
      var ps := Graphemes(front);
      if ps == [] || IsBoundary(ByteOf(c)) {
        ConcatAppend(ps, [c]);
      } else {
        var init, last := ps[..|ps| - 1], ps[|ps| - 1];
        ConcatAppend(init, last + [c]);
      }
    }
  }

  lemma LastGraphemes(path: seq<nat>, n: nat)
    requires n <= |Graphemes(path)|
    ensures var tail := Concat(Graphemes(path)[|Graphemes(path)| - n..]);
            |tail| <= |path| && path[|path| - |tail|..] == tail
  {
    hide Graphemes, Concat;
    var ps := Graphemes(path);
    var i := |ps| - n;
    GraphemesJoin(path);
    ConcatConcat(ps[..i], ps[i..]);
    assert ps == ps[..i] + ps[i..];
  }

  lemma BytesAppend(path: seq<nat>, c: nat)
    ensures BytesOf(path + [c]) == BytesOf(path) + [ByteOf(c)] && (BytesOf(path) == [] <==> path == [])
  {
  }

  lemma BytesOfOne(c: nat)
    ensures BytesOf([c]) == [ByteOf(c)] && BytesOf([]) == [] && BytesOfAll([[c]]) == [[ByteOf(c)]]
  {
    assert BytesOf([c]) == [ByteOf(c)];
  }

  lemma BytesOfAllAppend(ps: seq<seq<nat>>, p: seq<nat>)
    ensures BytesOfAll(ps + [p]) == BytesOfAll(ps) + [BytesOf(p)]
  {
    hide BytesOf;
  }

  lemma LengthOfAll(ps: seq<seq<nat>>)
    ensures |BytesOfAll(ps)| == |ps|
  {
  }

  // ----- make_ngram

  function Units(utf8: bool, path: seq<nat>, space: nat): seq<seq<nat>> {
    if utf8 then Graphemes(path) else Words(path, space)
  }

  function UnitsOf(utf8: bool, node: Option<seq<nat>>, space: nat): seq<seq<nat>> {
    if node.None? then [] else Units(utf8, node.value, space)
  }

  /** One backward walk takes off the last unit. */
  lemma {:induction false} WordTaken(path: seq<nat>, space: nat)
    requires path != []
    ensures var w := PrevWord(path, space);
            Words(path, space) == UnitsOf(false, Parent(w.stop), space) + [w.labels]
    ensures var w := PrevWord(path, space);
            SplitOn(path, space) == (if w.stop == [] then [] else SplitOn(w.stop[..|w.stop| - 1], space)) + [w.labels]
  {
    hide SplitOn, PrevWord;
    var front, c := path[..|path| - 1], path[|path| - 1];
    assert path == front + [c];
    PrevWordStep(front, c, space);
    SplitOnStep(front, c, space);
    if c != space {
      if front == [] {
        SplitOnNone(space);
      } else {
        WordTaken(front, space);
        LastGrows(SplitOn(front, space), PrevWord(front, space).labels, c);
      }
    }
    DropFirst(path, space);
  }

  lemma PrevWordStep(path: seq<nat>, c: nat, space: nat)
    ensures PrevWord(path + [c], space)
         == if c == space then Walk(path + [c], [])
            else if path == [] then Walk([], [c])
            else var w := PrevWord(path, space); Walk(w.stop, w.labels + [c])
  {
    assert (path + [c])[..|path|] == path;
    if path == [] && c != space { assert PrevWord([], space) == Walk([], []); }
  }

  lemma LastGrows(ps: seq<seq<nat>>, last: seq<nat>, c: nat)
    requires ps != [] && ps[|ps| - 1] == last
    ensures ps[..|ps| - 1] + [ps[|ps| - 1] + [c]] == ps[..|ps| - 1] + [last + [c]]
  {
  }

  /** Dropping a leading empty piece before or after the last piece is taken off. */
  lemma DropFirst(path: seq<nat>, space: nat)
    requires path != []
    requires var w := PrevWord(path, space);
             SplitOn(path, space) == (if w.stop == [] then [] else SplitOn(w.stop[..|w.stop| - 1], space)) + [w.labels]
    ensures var w := PrevWord(path, space);
            Words(path, space) == UnitsOf(false, Parent(w.stop), space) + [w.labels]
  {
    hide SplitOn, PrevWord;
    var w := PrevWord(path, space);
    if w.stop == [] {
      WholeWord(path, space);
    } else {
      var ps := SplitOn(w.stop[..|w.stop| - 1], space);
      if ps[0] == [] { assert (ps + [w.labels])[1..] == ps[1..] + [w.labels]; }
    }
  }

  lemma {:induction false} WholeWord(path: seq<nat>, space: nat)
    requires path != [] && PrevWord(path, space).stop == []
    ensures PrevWord(path, space).labels != []
  {
  }

  lemma {:induction false} GraphemeTaken(path: seq<nat>)
    requires path != []
    ensures var w := PrevGrapheme(path);
            w.labels != [] && Graphemes(path) == UnitsOf(true, Parent(w.stop), 0) + [w.labels]
  {
    hide IsBoundary;
    var front, c := path[..|path| - 1], path[|path| - 1];
    if front == [] {
      assert path == [c] && Graphemes(front) == [] && PrevGrapheme(front) == Walk([], []);
      assert Graphemes(path) == [] + [[c]];
      assert [] + [c] == [c];
    } else if !IsBoundary(ByteOf(c)) {
      GraphemeTaken(front);
      var v, ps := PrevGrapheme(front), Graphemes(front);
      assert ps[..|ps| - 1] == UnitsOf(true, Parent(v.stop), 0);
    }
  }

  /** std::reverse. */
  function Reversed<T>(s: seq<T>): seq<T> {
    if s == [] then [] else [s[|s| - 1]] + Reversed(s[..|s| - 1])
  }

  lemma ReversedAppend<T>(s: seq<T>, x: T)
    ensures Reversed(s + [x]) == [x] + Reversed(s)
  {
    assert (s + [x])[..|s|] == s;
  }

  lemma {:induction false} ReversedLength<T>(s: seq<T>)
    ensures |Reversed(s)| == |s|
  {
    if s != [] { ReversedLength(s[..|s| - 1]); }
  }

  /** make_ngram: the last `maxOrder` units of the path, or all of them if there are fewer. */
  method MakeNgram(utf8: bool, path: seq<nat>, space: nat, maxOrder: nat) returns (ngram: seq<seq<nat>>)
    ensures |ngram| <= maxOrder && |ngram| <= |Units(utf8, path, space)|
    ensures ngram == Units(utf8, path, space)[|Units(utf8, path, space)| - |ngram|..]
    ensures |ngram| < maxOrder ==> ngram == Units(utf8, path, space)
    ensures !utf8 && ngram != [] ==> IsTail(path, JoinWith(ngram, space), space)
    ensures utf8 ==> |Concat(ngram)| <= |path| && path[|path| - |Concat(ngram)|..] == Concat(ngram)
  {
    hide Units, PrevWord, PrevGrapheme, JoinWith, Concat, IsTail;
    var collected: seq<seq<nat>> := [];
    var node: Option<seq<nat>> := Some(path);
    var order := 0;
    while order < maxOrder
      invariant 0 <= order <= maxOrder && |collected| == order
      invariant Units(utf8, path, space) == UnitsOf(utf8, node, space) + Reversed(collected)
    {
      if node.None? || node.value == [] {
        NoUnits(utf8, space);
        assert UnitsOf(utf8, node, space) == [];
        ReversedLength(collected);
        break;
      }
      var w := if utf8 then PrevGrapheme(node.value) else PrevWord(node.value, space);
      UnitTaken(utf8, node.value, space);
      ReversedAppend(collected, w.labels);
      collected := collected + [w.labels];
      node := Parent(w.stop);
      order := order + 1;
    }
    ReversedLength(collected);
    ngram := Reversed(collected);
    UnitsEnd(utf8, path, space, |ngram|);
  }

  lemma UnitsEnd(utf8: bool, path: seq<nat>, space: nat, n: nat)
    requires n <= |Units(utf8, path, space)|
    ensures var ngram := Units(utf8, path, space)[|Units(utf8, path, space)| - n..];
            && (!utf8 && n > 0 ==> IsTail(path, JoinWith(ngram, space), space))
            && (utf8 ==> |Concat(ngram)| <= |path| && path[|path| - |Concat(ngram)|..] == Concat(ngram))
  {
    if utf8 { LastGraphemes(path, n); } else if n > 0 { LastWords(path, space, n); }
  }

  lemma NoUnits(utf8: bool, space: nat)
    ensures Units(utf8, [], space) == []
  {
  }

  lemma UnitTaken(utf8: bool, path: seq<nat>, space: nat)
    requires path != []
    ensures var w := if utf8 then PrevGrapheme(path) else PrevWord(path, space);
            Units(utf8, path, space) == UnitsOf(utf8, Parent(w.stop), space) + [w.labels]
  {
    if utf8 { GraphemeTaken(path); } else { WordTaken(path, space); }
  }

  // ----- is_scoring_boundary in byte mode

  /** Distance to the last boundary byte and that byte, if there is one. */
  datatype Distance = Distance(bytes: nat, first: nat)

  /** distance_to_codepoint_boundary; None where the program asserts. */
  function DistanceToBoundary(path: seq<nat>): Option<Distance>
    requires path != []
  {
    var b := ByteOf(path[|path| - 1]);
    if IsBoundary(b) then Some(Distance(1, b))
    else if |path| == 1 then None
    else
      var d := DistanceToBoundary(path[..|path| - 1]);
      if d.None? then None else Some(Distance(d.value.bytes + 1, d.value.first))
  }

  /** None where the program asserts that the bytes are invalid. */
  function IsScoringBoundary(path: seq<nat>): Option<bool> {
    if path == [] then Some(false)
    else
      var d := DistanceToBoundary(path);
      if d.None? then None
      else
        var first := d.value.first;
        var needed := if first / 8 == 0x1E then 4 else if first / 16 == 0x0E then 3
                      else if first / 32 == 0x06 then 2 else if first / 128 == 0 then 1 else 0;
        if needed == 0 then None else Some(d.value.bytes == needed)
  }

  /** Within a code point the walk goes back to its first byte. */
  lemma {:induction false} DistanceInPiece(path: seq<nat>)
    requires path != [] && IsBoundary(ByteOf(path[0]))
    requires forall i | 0 < i < |path| :: !IsBoundary(ByteOf(path[i]))
    ensures DistanceToBoundary(path) == Some(Distance(|path|, ByteOf(path[0])))
  {
    hide IsBoundary;
    if |path| > 1 { DistanceInPiece(path[..|path| - 1]); }
  }

  /** What lies before the last boundary byte does not matter. */
  lemma {:induction false} DistanceOfSuffix(before: seq<nat>, path: seq<nat>)
    requires path != [] && IsBoundary(ByteOf(path[0]))
    ensures DistanceToBoundary(before + path) == DistanceToBoundary(path)
  {
    hide IsBoundary;
    var all := before + path;
    if !IsBoundary(ByteOf(path[|path| - 1])) {
      assert |path| > 1;
      var front := path[..|path| - 1];
      assert all[..|all| - 1] == before + front;
      DistanceOfSuffix(before, front);
    }
  }

  lemma Needed(c: nat)
    requires 0 < LengthOf(c)
    ensures (if c / 8 == 0x1E then 4 else if c / 16 == 0x0E then 3 else if c / 32 == 0x06 then 2
             else if c / 128 == 0 then 1 else 0)
         == LengthOf(c)
  {
  }

  ghost predicate BeginsWellFormed(s: seq<nat>) {
    exists ext :: WellFormed(s + ext)
  }

  /** For every path whose bytes begin a well-formed UTF-8 text: a scoring boundary is exactly a place where
      the last code point is complete, and the assertions on invalid bytes are not reached. */
  lemma {:induction false} BoundaryIsComplete(path: seq<nat>)
    requires path != [] && BeginsWellFormed(BytesOf(path))
    ensures IsScoringBoundary(path) == Some(WellFormed(BytesOf(path)))
    decreases |path|
  {
    hide IsScoringBoundary, WellFormed, LengthOf, BytesOf;
    var n := FirstLength(path);
    if |path| <= n {
      WithinFirst(path, n);
    } else {
      var rest := path[n..];
      PastFirst(path, n);
      BoundaryIsComplete(rest);
    }
  }

  /** The first code point takes its announced length; what follows it is again such a beginning. */
  lemma FirstLength(path: seq<nat>) returns (n: nat)
    requires path != [] && BeginsWellFormed(BytesOf(path))
    ensures n == LengthOf(ByteOf(path[0])) && n > 0
  {
    var s := BytesOf(path);
    var ext :| WellFormed(s + ext);
    n := LengthOf((s + ext)[0]);
  }

  lemma WithinFirst(path: seq<nat>, n: nat)
    requires path != [] && BeginsWellFormed(BytesOf(path)) && n == LengthOf(ByteOf(path[0])) && |path| <= n
    ensures IsScoringBoundary(path) == Some(WellFormed(BytesOf(path)))
  {
    hide LengthOf, IsBoundary;
    var s := BytesOf(path);
    var ext :| WellFormed(s + ext);
    var cp := (s + ext)[..n];
    assert s[0] == ByteOf(path[0]) == (s + ext)[0];
    TailsContinue(cp);
    Needed(s[0]);
    assert forall i | 0 <= i < |path| :: ByteOf(path[i]) == cp[i];
    DistanceInPiece(path);
    if |path| == n { assert s[..n] == cp && s[n..] == []; }
  }

  lemma PastFirst(path: seq<nat>, n: nat)
    requires path != [] && BeginsWellFormed(BytesOf(path)) && n == LengthOf(ByteOf(path[0])) && 0 < n < |path|
    ensures BeginsWellFormed(BytesOf(path[n..]))
    ensures IsScoringBoundary(path) == IsScoringBoundary(path[n..])
    ensures WellFormed(BytesOf(path)) == WellFormed(BytesOf(path[n..]))
  {
    hide LengthOf, IsBoundary, IsCodePoint;
    var s, rest := BytesOf(path), path[n..];
    var ext :| WellFormed(s + ext);
    assert s[0] == ByteOf(path[0]) == (s + ext)[0];
    assert s[..n] == (s + ext)[..n];
    assert BytesOf(rest) == s[n..];
    assert (s + ext)[n..] == s[n..] + ext;
    StartsAtBoundary(rest);
    DistanceOfSuffix(path[..n], rest);
    assert path == path[..n] + rest;
  }

  lemma StartsAtBoundary(path: seq<nat>)
    requires path != [] && BeginsWellFormed(BytesOf(path))
    ensures IsBoundary(ByteOf(path[0]))
  {
    var s := BytesOf(path);
    var ext :| WellFormed(s + ext);
    TailsContinue((s + ext)[..LengthOf(s[0])]);
  }
}
