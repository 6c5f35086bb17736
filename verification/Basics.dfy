/** Definitions that several modules share. */
module Basics {

  datatype Option<T> = None | Some(value: T)

  /** The pieces laid end to end. */
  function Concat<T>(w: seq<seq<T>>): seq<T> {
    if w == [] then [] else Concat(w[..|w| - 1]) + w[|w| - 1]
  }

  lemma ConcatAppend<T>(w: seq<seq<T>>, x: seq<T>)
    ensures Concat(w + [x]) == Concat(w) + x
  {
    assert (w + [x])[..|w|] == w;
  }

  lemma ConcatNone<T>()
    ensures Concat<T>([]) == []
  {
  }

  lemma {:induction false} ConcatConcat<T>(a: seq<seq<T>>, b: seq<seq<T>>)
    ensures Concat(a + b) == Concat(a) + Concat(b)
  {
    hide Concat;
    if b == [] {
      assert a + b == a;
      ConcatNone<T>();
    } else {
      var front, last := b[..|b| - 1], b[|b| - 1];
      assert a + b == (a + front) + [last] && b == front + [last];
      ConcatAppend(a + front, last);
      ConcatAppend(front, last);
      ConcatConcat(a, front);
    }
  }

  /** The bytes of a text in ASCII. */
  function Ascii(s: string): seq<nat> { seq(|s|, i requires 0 <= i < |s| => s[i] as nat) }

  /** No element occurs twice. */
  ghost predicate NoDup<T(!new)>(s: seq<T>) {
    forall i, j | 0 <= i < j < |s| :: s[i] != s[j]
  }

  /** `a` comes before `b`. */
  ghost predicate Precedes<T(!new)>(s: seq<T>, a: T, b: T) {
    exists i, j :: 0 <= i < j < |s| && s[i] == a && s[j] == b
  }

  lemma OneOrder<T(!new)>(s: seq<T>, a: T, b: T)
    requires NoDup(s)
    ensures !(Precedes(s, a, b) && Precedes(s, b, a)) && !Precedes(s, a, a)
  {
  }

  /** The labels of a list of keys; None if one is missing. */
  function LookupAll<K>(m: map<K, nat>, ks: seq<K>): Option<seq<nat>> {
    if ks == [] then Some([])
    else
      var front := LookupAll(m, ks[..|ks| - 1]);
      if front.Some? && ks[|ks| - 1] in m then Some(front.value + [m[ks[|ks| - 1]]]) else None
  }

  lemma {:induction false} LookupFails<K>(m: map<K, nat>, ks: seq<K>, i: nat)
    requires i < |ks| && ks[i] !in m
    ensures LookupAll(m, ks) == None
  {
    if i < |ks| - 1 { LookupFails(m, ks[..|ks| - 1], i); }
  }
}
