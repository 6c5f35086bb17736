/** Sliding windows over a growing stream, the common part of the three buffers of the streaming pipeline. */
module Windows {
  import opened Basics

  /** Number of complete windows of `len` elements, `step` apart, in a stream of `n` elements. */
  function Count(n: nat, len: nat, step: nat): nat
    requires 0 < step <= len
  {
    if n < len then 0 else (n - len) / step + 1
  }

  /** The count is the only number of windows that fit with no room for one more. */
  lemma CountIs(n: nat, len: nat, step: nat)
    requires 0 < step <= len
    ensures var k := Count(n, len, step); (k > 0 ==> (k - 1) * step + len <= n) && n < k * step + len && k * step <= n
  {
    if n >= len {
      var m, k := n - len, Count(n, len, step);
      assert m == (m / step) * step + m % step;
      assert k * step == (k - 1) * step + step;
    }
  }

  lemma CountUnique(n: nat, len: nat, step: nat, k: nat)
    requires 0 < step <= len
    requires (k > 0 ==> (k - 1) * step + len <= n) && n < k * step + len
    ensures k == Count(n, len, step)
  {
    CountIs(n, len, step);
    var c := Count(n, len, step);
    if k < c { Later(k, c, step); } else if c < k { Later(c, k, step); }
  }

  lemma Later(a: int, b: int, step: int)
    requires a < b && step > 0
    ensures a * step <= (b - 1) * step
  {
    var d := b - 1 - a;
    assert (b - 1) * step == a * step + d * step;
  }

  function Slice<T>(s: seq<T>, lo: nat, len: nat): seq<T> {
    if lo + len <= |s| then s[lo..lo + len] else []
  }

  /** Window k is elements [k * step, k * step + len). */
  function All<T>(s: seq<T>, len: nat, step: nat): (w: seq<seq<T>>)
    requires 0 < step <= len
    ensures |w| == Count(|s|, len, step)
  {
    seq(Count(|s|, len, step), (k: nat) => Slice(s, k * step, len))
  }

  /** What is left in the buffer after the complete windows have been shifted out. */
  function Rest<T>(s: seq<T>, len: nat, step: nat): seq<T>
    requires 0 < step <= len
  {
    CountIs(|s|, len, step);
    s[Count(|s|, len, step) * step..]
  }

  lemma RestIsShort<T>(s: seq<T>, len: nat, step: nat)
    requires 0 < step <= len
    ensures |Rest(s, len, step)| < len
  {
    CountIs(|s|, len, step);
  }

  lemma SlicesKept<T>(s: seq<T>, q: seq<T>, len: nat, step: nat, k: nat)
    requires 0 < step <= len && k < Count(|s|, len, step)
    ensures Slice(s + q, k * step, len) == Slice(s, k * step, len)
  {
    hide Count;
    CountIs(|s|, len, step);
    if k + 1 < Count(|s|, len, step) { Later(k, Count(|s|, len, step), step); }
  }

  /** Elements that do not fill the buffer complete no window. */
  lemma Filling<T>(s: seq<T>, q: seq<T>, len: nat, step: nat)
    requires 0 < step <= len && |Rest(s, len, step)| + |q| < len
    ensures All(s + q, len, step) == All(s, len, step)
    ensures Rest(s + q, len, step) == Rest(s, len, step) + q
  {
    hide Count;
    var k := Count(|s|, len, step);
    CountIs(|s|, len, step);
    CountUnique(|s + q|, len, step, k);
    forall i: nat | i < k ensures All(s + q, len, step)[i] == All(s, len, step)[i] { SlicesKept(s, q, len, step, i); }
  }

  /** Elements that fill the buffer exactly complete one window: the buffer itself. */
  lemma Filled<T>(s: seq<T>, q: seq<T>, len: nat, step: nat)
    requires 0 < step <= len && |Rest(s, len, step)| + |q| == len
    ensures All(s + q, len, step) == All(s, len, step) + [Rest(s, len, step) + q]
    ensures Rest(s + q, len, step) == (Rest(s, len, step) + q)[step..]
  {
    hide Count;
    var k := Count(|s|, len, step);
    CountIs(|s|, len, step);
    assert (k + 1) * step == k * step + step;
    CountUnique(|s + q|, len, step, k + 1);
    var a, b := All(s + q, len, step), All(s, len, step) + [Rest(s, len, step) + q];
    forall i: nat | i < k + 1 ensures a[i] == b[i] {
      if i < k { SlicesKept(s, q, len, step, i); }
    }
  }

  lemma Empty<T>(len: nat, step: nat)
    requires 0 < step <= len
    ensures All<T>([], len, step) == [] && Rest<T>([], len, step) == []
  {
  }

  lemma {:induction false} ConcatLength<T>(w: seq<seq<T>>, len: nat)
    requires forall i | 0 <= i < |w| :: |w[i]| == len
    ensures |Concat(w)| == |w| * len
  {
    if w != [] {
      ConcatLength(w[..|w| - 1], len);
      assert (|w| - 1) * len + len == |w| * len;
    }
  }

  /** A stretch of a concatenation of equally long pieces. */
  lemma ConcatRange<T>(w: seq<seq<T>>, len: nat, t: nat, c: nat)
    requires (forall i | 0 <= i < |w| :: |w[i]| == len) && t + c <= |w|
    ensures Slice(Concat(w), t * len, c * len) == Concat(w[t..t + c])
  {
    hide Concat;
    var a, b, d := w[..t], w[t..t + c], w[t + c..];
    assert w == a + b + d;
    ConcatConcat(a + b, d);
    ConcatConcat(a, b);
    ConcatLength(a, len);
    ConcatLength(b, len);
    var x, y, z := Concat(a), Concat(b), Concat(d);
    assert (x + y + z)[|x|..|x| + |y|] == y;
  }

  lemma WindowLengths<T>(s: seq<T>, len: nat, step: nat)
    requires 0 < step <= len
    ensures forall w | w in All(s, len, step) :: |w| == len
  {
    hide Count;
    var all := All(s, len, step);
    CountIs(|s|, len, step);
    forall k: nat | k < |all| ensures |all[k]| == len {
      if k + 1 < |all| { Later(k, |all|, step); }
    }
  }

  lemma {:induction false} TilesTo<T>(s: seq<T>, len: nat, k: nat)
    requires len > 0 && k <= Count(|s|, len, len)
    ensures k * len <= |s| && Concat(All(s, len, len)[..k]) == s[..k * len]
  {
    hide Count, All, Concat;
    var all := All(s, len, len);
    if k > 0 {
      TilesTo(s, len, k - 1);
      TileAt(s, len, k - 1);
      assert all[..k] == all[..k - 1] + [all[k - 1]];
      ConcatAppend(all[..k - 1], all[k - 1]);
      var lo, hi := (k - 1) * len, k * len;
      assert s[..hi] == s[..lo] + s[lo..hi];
    } else {
      NoTiles(all);
    }
  }

  lemma NoTiles<T>(all: seq<seq<T>>)
    ensures Concat(all[..0]) == []
  {
  }

  lemma TileAt<T>(s: seq<T>, len: nat, k: nat)
    requires len > 0 && k < Count(|s|, len, len)
    ensures (k + 1) * len == k * len + len <= |s| && All(s, len, len)[k] == s[k * len..(k + 1) * len]
  {
    hide Count;
    CountIs(|s|, len, len);
    assert (k + 1) * len == k * len + len;
    if k + 1 < Count(|s|, len, len) { Later(k, Count(|s|, len, len), len); }
  }

  /** Windows that do not overlap tile the stream. */
  lemma Tiles<T>(s: seq<T>, len: nat)
    requires len > 0
    ensures Concat(All(s, len, len)) + Rest(s, len, len) == s
  {
    var all := All(s, len, len);
    TilesTo(s, len, |all|);
    assert all[..|all|] == all;
  }
}
