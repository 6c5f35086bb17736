/** permute_args: two adjacent blocks of the argument vector are exchanged in place, along the cycles
    of a rotation. */
module Permute {

  // ----- remainders

  lemma ModUnique(x: int, n: int, q: int, r: int)
    requires n > 0 && x == q * n + r && 0 <= r < n
    ensures x % n == r
  {
    var q', r' := x / n, x % n;
    assert x == n * q' + r';
    assert n * (q' - q) == r - r';
    if q' > q { MulAtLeast(n, q' - q); } else if q' < q { MulAtLeast(n, q - q'); }
  }

  lemma MulAtLeast(n: int, k: int)
    requires n > 0 && k >= 1
    ensures n * k >= n
  {
  }

  lemma ModSplit(x: int, n: int)
    requires n > 0
    ensures x == (x / n) * n + x % n && 0 <= x % n < n
  {
  }

  /** d divides x. */
  ghost predicate Divides(d: int, x: int)
    requires d > 0
  {
    exists k :: Times(k, d) == x
  }

  function Times(k: int, d: int): int { k * d }

  lemma Factored(u: int, k: int, v: int, m: int, d: int)
    ensures u * (k * d) + v * (m * d) == (u * k + v * m) * d
  {
  }

  // ----- greatest common divisor

  function Gcd(a: nat, b: nat): nat
    decreases b
  {
    if b == 0 then a else Gcd(b, a % b)
  }

  lemma {:induction false} GcdDivides(a: nat, b: nat)
    requires a > 0 || b > 0
    ensures Gcd(a, b) > 0 && Divides(Gcd(a, b), a) && Divides(Gcd(a, b), b)
    decreases b
  {
    var g := Gcd(a, b);
    if b == 0 {
      assert Times(1, g) == a && Times(0, g) == b;
    } else {
      GcdDivides(b, a % b);
      var k :| Times(k, g) == b;
      var m :| Times(m, g) == a % b;
      ModSplit(a, b);
      Factored(a / b, k, 1, m, g);
      assert Times((a / b) * k + 1 * m, g) == a;
    }
  }

  /** Bezout: the divisor is a combination of the two numbers. */
  lemma {:induction false} GcdCombination(a: nat, b: nat) returns (u: int, v: int)
    ensures u * a + v * b == Gcd(a, b)
    decreases b
  {
    if b == 0 {
      u, v := 1, 0;
    } else {
      var u', v' := GcdCombination(b, a % b);
      ModSplit(a, b);
      var q := a / b;
      assert a % b == a - q * b;
      u, v := v', u' - v' * q;
      assert u * a + v * b == u' * b + v' * (a - q * b);
    }
  }

  /** No common divisor is greater. */
  lemma GcdGreatest(a: nat, b: nat, d: int)
    requires d > 0 && (a > 0 || b > 0) && Divides(d, a) && Divides(d, b)
    ensures d <= Gcd(a, b)
  {
    GcdDivides(a, b);
    var u, v := GcdCombination(a, b);
    var k :| Times(k, d) == a;
    var m :| Times(m, d) == b;
    Factored(u, k, v, m, d);
    AtLeast(Gcd(a, b), u * k + v * m, d);
  }

  lemma AtLeast(g: int, k: int, d: int)
    requires g > 0 && d > 0 && g == k * d
    ensures d <= g
  {
    if k >= 1 { MulAtLeast(d, k); } else { NotPositive(d, k); }
  }

  lemma NotPositive(d: int, k: int)
    requires d > 0 && k < 1
    ensures k * d <= 0
  {
  }

  /** The program's gcd. */
  method ComputeGcd(a0: nat, b0: nat) returns (g: nat)
    requires a0 > 0 && b0 > 0
    ensures g == Gcd(a0, b0)
  {
    var a, b := a0, b0;
    var c := a % b;
    while c != 0
      invariant b > 0 && c == a % b && Gcd(a, b) == Gcd(a0, b0)
      decreases b
    {
      a := b;
      b := c;
      c := a % b;
    }
    assert Gcd(a, b) == Gcd(b, 0) == b;
    return b;
  }

  // ----- the walk x, x + nb, x + 2 nb, ... modulo na + nb

  function Pos(na: nat, nb: nat, c: nat, h: nat): nat
    requires na > 0 && nb > 0
  {
    (c + h * nb) % (na + nb)
  }

  lemma PosNext(na: nat, nb: nat, c: nat, h: nat)
    requires na > 0 && nb > 0
    ensures var p := Pos(na, nb, c, h);
            Pos(na, nb, c, h + 1) == if p >= na then p - na else p + nb
    ensures Pos(na, nb, c, h) == (Pos(na, nb, c, h + 1) + na) % (na + nb)
  {
    var n := na + nb;
    var x := c + h * nb;
    var p, q := x % n, x / n;
    ModSplit(x, n);
    assert c + (h + 1) * nb == x + nb;
    if p >= na {
      assert x + nb == (q + 1) * n + (p - na);
      ModUnique(x + nb, n, q + 1, p - na);
      ModUnique(p - na + na, n, 0, p);
    } else {
      assert x + nb == q * n + (p + nb);
      ModUnique(x + nb, n, q, p + nb);
      ModUnique(p + nb + na, n, 1, p);
    }
  }

  /** If `h` steps of the walk come back to where they started, `h` is a multiple of the cycle length. */
  lemma ReturnsAfterCycles(na: nat, nb: nat, h: int, len: int)
    requires na > 0 && nb > 0 && len * Gcd(na, nb) == na + nb && len > 0
    requires Divides(na + nb, h * nb)
    ensures Divides(len, h)
  {
    var n, g := na + nb, Gcd(na, nb);
    GcdDivides(na, nb);
    var u, v := GcdCombination(na, nb);
    var t :| Times(t, n) == h * nb;
    var k := h * u + (v - u) * t;
    Combine(u, v, na, nb, h, t);
    Regroup(k, len, g);
    CancelFactor(h, k * len, g);
    assert Times(k, len) == h;
  }

  /** If t n = h nb and n = na + nb, then h (u na + v nb) = (h u + (v - u) t) n. */
  lemma Combine(u: int, v: int, na: int, nb: int, h: int, t: int)
    requires t * (na + nb) == h * nb
    ensures h * (u * na + v * nb) == (h * u + (v - u) * t) * (na + nb)
  {
    var n := na + nb;
    assert h * (u * na + v * nb) == h * u * n + (v - u) * (h * nb);
    assert (h * u + (v - u) * t) * n == h * u * n + (v - u) * (t * n);
  }

  lemma Regroup(k: int, len: int, g: int)
    ensures k * (len * g) == (k * len) * g
  {
  }

  lemma CancelFactor(x: int, y: int, g: int)
    requires g > 0 && x * g == y * g
    ensures x == y
  {
    assert (x - y) * g == 0;
    if x > y { MulAtLeast(g, x - y); } else if x < y { MulAtLeast(g, y - x); }
  }

  lemma Difference(q': int, q: int, n: int, h': int, h: int, nb: int)
    ensures (q' - q) * n == q' * n - q * n && (h' - h) * nb == h' * nb - h * nb
  {
  }

  /** Within one cycle no position repeats. */
  lemma PosDistinct(na: nat, nb: nat, c: nat, h: nat, h': nat, len: nat)
    requires na > 0 && nb > 0 && len * Gcd(na, nb) == na + nb && h < h' < h + len
    ensures Pos(na, nb, c, h) != Pos(na, nb, c, h')
  {
    var n := na + nb;
    var x, x' := c + h * nb, c + h' * nb;
    if x % n == x' % n {
      ModSplit(x, n);
      ModSplit(x', n);
      Difference(x' / n, x / n, n, h', h, nb);
      assert Times(x' / n - x / n, n) == (h' - h) * nb;
      ReturnsAfterCycles(na, nb, h' - h, len);
      NoMultiple(h' - h, len);
      assert false;
    }
  }

  lemma NoMultiple(d: int, len: int)
    requires 0 < d < len
    ensures !Divides(len, d)
  {
    forall k ensures Times(k, len) != d {
      if k >= 1 { MulAtLeast(len, k); } else { NotPositive(len, k); }
    }
  }

  /** After the cycle length the walk is back. */
  lemma PosCloses(na: nat, nb: nat, c: nat, len: nat)
    requires na > 0 && nb > 0 && len * Gcd(na, nb) == na + nb && c < na + nb
    ensures Pos(na, nb, c, len) == c
  {
    var n, g := na + nb, Gcd(na, nb);
    GcdDivides(na, nb);
    var k :| Times(k, g) == nb;
    assert len * nb == len * (k * g) == k * n;
    ModUnique(c + len * nb, n, k, c);
  }

  /** The walk reaches every position of its residue class modulo the gcd. */
  lemma PosReaches(na: nat, nb: nat, c: nat, k: nat, len: nat) returns (h: nat)
    requires na > 0 && nb > 0 && len * Gcd(na, nb) == na + nb && c < na + nb && k < na + nb
    requires Gcd(na, nb) > 0 && k % Gcd(na, nb) == c % Gcd(na, nb)
    ensures h < len && Pos(na, nb, c, h) == k
  {
    var n, g := na + nb, Gcd(na, nb);
    var u, v := GcdCombination(na, nb);
    ModSplit(k, g);
    ModSplit(c, g);
    var m := k / g - c / g;
    PositiveFactor(len, g);
    var e := m * (v - u);
    ModSplit(e, len);
    h := e % len;
    GcdDivides(na, nb);
    var kb :| Times(kb, g) == nb;
    Difference(k / g, c / g, g, 0, 0, 0);
    var q := -(m * u) - (e / len) * kb;
    Reached(na, nb, u, v, m, e / len, h, len, kb);
    ModUnique(c + h * nb, n, q, k);
  }

  lemma PositiveFactor(len: int, g: int)
    requires len * g > 0 && g > 0
    ensures len > 0
  {
    if len < 1 { NotPositive(g, len); }
  }

  /** With g = u na + v nb, n = na + nb = len g and nb = kb g: taking h = m (v - u) - d len steps
      of nb moves by m g, up to a multiple of n. */
  lemma Reached(na: int, nb: int, u: int, v: int, m: int, d: int, h: int, len: int, kb: int)
    requires var g := u * na + v * nb; len * g == na + nb && kb * g == nb
    requires m * (v - u) == d * len + h
    ensures var g, n := u * na + v * nb, na + nb; h * nb == m * g + (-(m * u) - d * kb) * n
  {
    var g, n := u * na + v * nb, na + nb;
    assert h * nb == (m * (v - u)) * nb - (d * len) * nb;
    Steps(m, u, v, na, nb);
    assert (d * len) * nb == (d * kb) * n by { Cycles(d, len, kb, g); }
    Difference(-(m * u), d * kb, n, 0, 0, 0);
  }

  lemma Steps(m: int, u: int, v: int, na: int, nb: int)
    ensures (m * (v - u)) * nb == m * (u * na + v * nb) - (m * u) * (na + nb)
  {
  }

  lemma Cycles(d: int, len: int, kb: int, g: int)
    ensures (d * len) * (kb * g) == (d * kb) * (len * g)
  {
  }

  lemma InClass(cq: int, h: int, kb: int, xq: int, ka: int, g: int)
    ensures cq * g + h * (kb * g) - xq * (ka * g + kb * g) == (cq + h * kb - xq * (ka + kb)) * g
  {
    Factored(cq, 1, h, kb, g);
    Factored(xq, ka, xq, kb, g);
    Difference(cq + h * kb, xq * (ka + kb), g, 0, 0, 0);
  }

  /** The walk stays in its residue class modulo the gcd. */
  lemma PosClass(na: nat, nb: nat, c: nat, h: nat)
    requires na > 0 && nb > 0
    ensures Gcd(na, nb) > 0 && Pos(na, nb, c, h) % Gcd(na, nb) == c % Gcd(na, nb)
  {
    var n, g := na + nb, Gcd(na, nb);
    GcdDivides(na, nb);
    var ka :| Times(ka, g) == na;
    var kb :| Times(kb, g) == nb;
    var x := c + h * nb;
    ModSplit(x, n);
    ModSplit(c, g);
    var p := x % n;
    InClass(c / g, h, kb, x / n, ka, g);
    ModUnique(p, g, c / g + h * kb - (x / n) * (ka + kb), c % g);
  }

  // ----- one cycle

  /** The positions visited by the first `j` steps from `c`. */
  ghost function Seen(na: nat, nb: nat, c: nat, j: nat): set<nat>
    requires na > 0 && nb > 0
  {
    if j == 0 then {} else Seen(na, nb, c, j - 1) + {Pos(na, nb, c, j)}
  }

  lemma {:induction false} InSeen(na: nat, nb: nat, c: nat, j: nat, k: nat)
    requires na > 0 && nb > 0
    ensures k in Seen(na, nb, c, j) <==> exists h :: 1 <= h <= j && Pos(na, nb, c, h) == k
  {
    if j > 0 { InSeen(na, nb, c, j - 1, k); }
  }

  lemma SeenIsFresh(na: nat, nb: nat, c: nat, j: nat, len: nat)
    requires na > 0 && nb > 0 && len * Gcd(na, nb) == na + nb && j + 1 < len && c < na + nb
    ensures Pos(na, nb, c, j + 1) !in Seen(na, nb, c, j) && Pos(na, nb, c, j + 1) != c
  {
    InSeen(na, nb, c, j, Pos(na, nb, c, j + 1));
    forall h | 1 <= h <= j ensures Pos(na, nb, c, h) != Pos(na, nb, c, j + 1) {
      PosDistinct(na, nb, c, h, j + 1, len);
    }
    PosDistinct(na, nb, c, 0, j + 1, len);
    ModUnique(c, na + nb, 0, c);
  }

  /** A whole cycle visits exactly its residue class. */
  lemma SeenIsClass(na: nat, nb: nat, c: nat, len: nat, k: nat)
    requires na > 0 && nb > 0 && len * Gcd(na, nb) == na + nb && c < na + nb && k < na + nb && Gcd(na, nb) > 0
    ensures k in Seen(na, nb, c, len) <==> k % Gcd(na, nb) == c % Gcd(na, nb)
  {
    InSeen(na, nb, c, len, k);
    if k % Gcd(na, nb) == c % Gcd(na, nb) {
      var h := PosReaches(na, nb, c, k, len);
      if h == 0 {
        PosCloses(na, nb, c, len);
        ModUnique(c, na + nb, 0, c);
      }
    }
    forall h | 1 <= h <= len && Pos(na, nb, c, h) == k ensures k % Gcd(na, nb) == c % Gcd(na, nb) {
      PosClass(na, nb, c, h);
    }
  }

  /** Where position `k` of the exchanged blocks takes its element from. */
  function From(na: nat, nb: nat, k: nat): (f: nat)
    requires na > 0 && nb > 0
    ensures f < na + nb
  {
    (k + na) % (na + nb)
  }

  /** The elements at the positions `moved` have been exchanged, all others are as in `s`. */
  ghost predicate Moved<T>(s: seq<T>, t: seq<T>, start: nat, na: nat, nb: nat, moved: set<nat>)
    requires na > 0 && nb > 0
  {
    && |s| == |t| && start + na + nb <= |s|
    && (forall k | k in moved :: k < na + nb && t[start + k] == s[start + From(na, nb, k)])
    && (forall i | 0 <= i < |s| && !(start <= i && i - start in moved) :: t[i] == s[i])
  }

  /** The inner loop of permute_args: `cstart` holds the element in transit. */
  method RotateCycle<T>(a: array<T>, start: nat, mid: nat, end: nat, cstart: nat, len: nat)
    requires start < mid < end <= a.Length && mid <= cstart < end
    requires len * Gcd(mid - start, end - mid) == end - start && len > 0
    modifies a
    ensures Moved(old(a[..]), a[..], start, mid - start, end - mid, Seen(mid - start, end - mid, cstart - start, len))
  {
    hide Pos, Seen, Gcd, InTransit;
    ghost var na, nb, c, s := mid - start, end - mid, cstart - start, a[..];
    var pos := cstart;
    TransitStart(s, start, na, nb, c, len);
    for j := 0 to len
      invariant pos == start + Pos(na, nb, c, j) && start <= pos < end
      invariant InTransit(s, a[..], start, na, nb, c, j, len)
    {
      ghost var before := a[..];
      PosNext(na, nb, c, j);
      if pos >= mid { pos := pos - (mid - start); } else { pos := pos + (end - mid); }
      var swap := a[pos];
      a[pos] := a[cstart];
      a[cstart] := swap;
      TransitStep(s, before, a[..], start, na, nb, c, j, len);
    }
    TransitEnd(s, a[..], start, na, nb, c, len);
  }

  /** After `j` steps: the positions seen are settled, and position `c` holds the element last picked up. */
  ghost predicate InTransit<T>(s: seq<T>, t: seq<T>, start: nat, na: nat, nb: nat, c: nat, j: nat, len: nat)
    requires na > 0 && nb > 0
  {
    && |t| == |s| && start + na + nb <= |s| && c < na + nb
    && (if j < len then
          && t[start + c] == s[start + Pos(na, nb, c, j)] && c !in Seen(na, nb, c, j)
          && Moved(s, t[start + c := s[start + c]], start, na, nb, Seen(na, nb, c, j))
        else Moved(s, t, start, na, nb, Seen(na, nb, c, len)))
  }

  lemma TransitStart<T>(s: seq<T>, start: nat, na: nat, nb: nat, c: nat, len: nat)
    requires na > 0 && nb > 0 && c < na + nb && len > 0 && start + na + nb <= |s|
    ensures Pos(na, nb, c, 0) == c && InTransit(s, s, start, na, nb, c, 0, len)
  {
    PosStart(na, nb, c);
    assert s[start + c := s[start + c]] == s;
  }

  lemma TransitStep<T>(s: seq<T>, before: seq<T>, after: seq<T>, start: nat, na: nat, nb: nat, c: nat, j: nat, len: nat)
    requires na > 0 && nb > 0 && j < len && len * Gcd(na, nb) == na + nb
    requires InTransit(s, before, start, na, nb, c, j, len)
    requires var k := start + Pos(na, nb, c, j + 1); after == before[k := before[start + c]][start + c := before[k]]
    ensures InTransit(s, after, start, na, nb, c, j + 1, len)
  {
    hide Pos, Seen, Gcd, Moved, From;
    var k := Pos(na, nb, c, j + 1);
    SeenNext(na, nb, c, j);
    FromIs(na, nb, c, j);
    if j + 1 < len {
      SeenIsFresh(na, nb, c, j, len);
      MovedNext(s, before, after, start, na, nb, c, Seen(na, nb, c, j), k);
    } else {
      PosCloses(na, nb, c, len);
      assert after == before;
      MovedLast(s, after, start, na, nb, c, Seen(na, nb, c, j));
    }
  }

  lemma TransitEnd<T>(s: seq<T>, t: seq<T>, start: nat, na: nat, nb: nat, c: nat, len: nat)
    requires na > 0 && nb > 0 && InTransit(s, t, start, na, nb, c, len, len)
    ensures Moved(s, t, start, na, nb, Seen(na, nb, c, len))
  {
  }

  lemma PosStart(na: nat, nb: nat, c: nat)
    requires na > 0 && nb > 0 && c < na + nb
    ensures Pos(na, nb, c, 0) == c && Seen(na, nb, c, 0) == {}
  {
    ModUnique(c, na + nb, 0, c);
  }

  lemma SeenNext(na: nat, nb: nat, c: nat, j: nat)
    requires na > 0 && nb > 0
    ensures Seen(na, nb, c, j + 1) == Seen(na, nb, c, j) + {Pos(na, nb, c, j + 1)}
  {
  }

  lemma FromIs(na: nat, nb: nat, c: nat, j: nat)
    requires na > 0 && nb > 0
    ensures From(na, nb, Pos(na, nb, c, j + 1)) == Pos(na, nb, c, j) && Pos(na, nb, c, j + 1) < na + nb
  {
    PosNext(na, nb, c, j);
  }

  lemma MovedNext<T>(s: seq<T>, before: seq<T>, after: seq<T>, start: nat, na: nat, nb: nat, c: nat, seen: set<nat>,
                     k: nat)
    requires na > 0 && nb > 0 && c < na + nb && k < na + nb && k != c && k !in seen && c !in seen
    requires |before| == |s| == |after| && start + na + nb <= |s|
    requires Moved(s, before[start + c := s[start + c]], start, na, nb, seen)
    requires before[start + c] == s[start + From(na, nb, k)]
    requires after == before[start + k := before[start + c]][start + c := before[start + k]]
    ensures Moved(s, after[start + c := s[start + c]], start, na, nb, seen + {k})
    ensures after[start + c] == s[start + k]
  {
    hide From;
    var t := before[start + c := s[start + c]];
    assert t[start + k] == s[start + k];
    assert after[start + c := s[start + c]] == t[start + k := before[start + c]];
  }

  lemma MovedLast<T>(s: seq<T>, after: seq<T>, start: nat, na: nat, nb: nat, c: nat, seen: set<nat>)
    requires na > 0 && nb > 0 && c < na + nb && c !in seen && |s| == |after| && start + na + nb <= |s|
    requires Moved(s, after[start + c := s[start + c]], start, na, nb, seen)
    requires after[start + c] == s[start + From(na, nb, c)]
    ensures Moved(s, after, start, na, nb, seen + {c})
  {
    hide From;
    var t := after[start + c := s[start + c]];
    assert forall i | 0 <= i < |s| && i != start + c :: after[i] == t[i];
  }

  // ----- all cycles

  /** The two blocks exchanged, the order inside each kept, and nothing else changed. */
  function Exchanged<T>(s: seq<T>, start: nat, mid: nat, end: nat): seq<T>
    requires start <= mid <= end <= |s|
  {
    s[..start] + s[mid..end] + s[start..mid] + s[end..]
  }

  /** The positions of the first `i` cycles. */
  ghost function Classes(n: nat, g: nat, i: nat): set<nat>
    requires g > 0
  {
    set k: nat | k < n && k % g < i
  }

  method PermuteArgs<T>(start: nat, mid: nat, end: nat, a: array<T>)
    requires start < mid < end <= a.Length
    modifies a
    ensures a[..] == Exchanged(old(a[..]), start, mid, end)
  {
    hide From, Seen, Gcd, Pos, Classes, Moved;
    ghost var s := a[..];
    var nnonopts := mid - start;
    var nopts := end - mid;
    var ncycle := ComputeGcd(nnonopts, nopts);
    CycleLength(nnonopts, nopts);
    var cyclelen := (end - start) / ncycle;
    NoClasses(s, start, nnonopts, nopts, ncycle);
    for i := 0 to ncycle
      invariant Moved(s, a[..], start, nnonopts, nopts, Classes(end - start, ncycle, i))
    {
      ghost var before := a[..];
      RotateCycle(a, start, mid, end, mid + i, cyclelen);
      NextClass(s, before, a[..], start, nnonopts, nopts, i, cyclelen);
    }
    AllClasses(s, a[..], start, mid, end, ncycle);
  }

  lemma CycleLength(na: nat, nb: nat)
    requires na > 0 && nb > 0
    ensures var g, n := Gcd(na, nb), na + nb; g > 0 && g <= nb && (n / g) * g == n && n / g > 0
  {
    var g, n := Gcd(na, nb), na + nb;
    GcdDivides(na, nb);
    var ka :| Times(ka, g) == na;
    var kb :| Times(kb, g) == nb;
    AtLeast(nb, kb, g);
    Factored(1, ka, 1, kb, g);
    ModSplit(n, g);
    ModUnique(n, g, ka + kb, 0);
    PositiveFactor(n / g, g);
  }

  lemma NoClasses<T>(s: seq<T>, start: nat, na: nat, nb: nat, g: nat)
    requires na > 0 && nb > 0 && g > 0 && start + na + nb <= |s|
    ensures Moved(s, s, start, na, nb, Classes(na + nb, g, 0))
  {
  }

  ghost function ResidueClass(n: nat, g: nat, i: nat): set<nat>
    requires g > 0
  {
    set k: nat | k < n && k % g == i
  }

  /** The cycle starting at the `i`-th element of the second block is the residue class of `i`. */
  lemma CycleClass(na: nat, nb: nat, i: nat, len: nat)
    requires na > 0 && nb > 0 && i < Gcd(na, nb) <= nb && len * Gcd(na, nb) == na + nb
    ensures Seen(na, nb, na + i, len) == ResidueClass(na + nb, Gcd(na, nb), i)
  {
    hide Gcd, Seen;
    var g := Gcd(na, nb);
    StartClass(na, nb, i);
    forall k: nat ensures k in Seen(na, nb, na + i, len) <==> k < na + nb && k % g == i {
      if k < na + nb { SeenIsClass(na, nb, na + i, len, k); } else { SeenBelow(na, nb, na + i, len, k); }
    }
  }

  lemma StartClass(na: nat, nb: nat, i: nat)
    requires na > 0 && nb > 0 && i < Gcd(na, nb)
    ensures (na + i) % Gcd(na, nb) == i
  {
    hide Gcd;
    var g := Gcd(na, nb);
    GcdDivides(na, nb);
    var ka :| Times(ka, g) == na;
    ModUnique(na + i, g, ka, i);
  }

  lemma SeenBelow(na: nat, nb: nat, c: nat, len: nat, k: nat)
    requires na > 0 && nb > 0 && k >= na + nb
    ensures k !in Seen(na, nb, c, len)
  {
    InSeen(na, nb, c, len, k);
  }

  lemma NextClass<T>(s: seq<T>, before: seq<T>, after: seq<T>, start: nat, na: nat, nb: nat, i: nat, len: nat)
    requires na > 0 && nb > 0 && i < Gcd(na, nb) <= nb && len * Gcd(na, nb) == na + nb
    requires Moved(s, before, start, na, nb, Classes(na + nb, Gcd(na, nb), i))
    requires Moved(before, after, start, na, nb, Seen(na, nb, na + i, len))
    ensures Moved(s, after, start, na, nb, Classes(na + nb, Gcd(na, nb), i + 1))
  {
    var g := Gcd(na, nb);
    CycleClass(na, nb, i, len);
    FromClasses(na, nb);
    hide Seen, Gcd, From;
    var here := ResidueClass(na + nb, g, i);
    assert Classes(na + nb, g, i + 1) == Classes(na + nb, g, i) + here;
    forall k | k in here ensures after[start + k] == s[start + From(na, nb, k)] {
      assert From(na, nb, k) % g == i;
    }
    forall k | k in Classes(na + nb, g, i) ensures after[start + k] == s[start + From(na, nb, k)] {
      assert k !in here;
    }
  }

  lemma FromClasses(na: nat, nb: nat)
    requires na > 0 && nb > 0
    ensures Gcd(na, nb) > 0 && forall k: nat :: From(na, nb, k) % Gcd(na, nb) == k % Gcd(na, nb)
  {
    var n, g := na + nb, Gcd(na, nb);
    GcdDivides(na, nb);
    hide Gcd;
    var ka :| Times(ka, g) == na;
    var kb :| Times(kb, g) == nb;
    forall k: nat ensures From(na, nb, k) % g == k % g {
      ModSplit(k + na, n);
      ModSplit(k, g);
      var q := (k + na) / n;
      InClass(k / g + ka, 0, kb, q, ka, g);
      Factored(k / g, 1, 1, ka, g);
      assert From(na, nb, k) == (k / g + ka - q * (ka + kb)) * g + k % g by {
        assert From(na, nb, k) == k + na - q * n;
      }
      ModUnique(From(na, nb, k), g, k / g + ka - q * (ka + kb), k % g);
    }
  }

  lemma FromWhere(na: nat, nb: nat, k: nat)
    requires na > 0 && nb > 0 && k < na + nb
    ensures From(na, nb, k) == if k < nb then k + na else k - nb
  {
    if k < nb { ModUnique(k + na, na + nb, 0, k + na); } else { ModUnique(k + na, na + nb, 1, k - nb); }
  }

  lemma InAllClasses(n: nat, g: nat, k: nat)
    requires g > 0 && k < n
    ensures k in Classes(n, g, g)
  {
  }

  lemma AllClasses<T>(s: seq<T>, t: seq<T>, start: nat, mid: nat, end: nat, g: nat)
    requires start < mid < end <= |s| && g > 0
    requires Moved(s, t, start, mid - start, end - mid, Classes(end - start, g, g))
    ensures t == Exchanged(s, start, mid, end)
  {
    hide From, Classes;
    var na, nb := mid - start, end - mid;
    var e := Exchanged(s, start, mid, end);
    forall i | 0 <= i < |s| ensures t[i] == e[i] {
      if start <= i < end {
        InAllClasses(end - start, g, i - start);
        FromWhere(na, nb, i - start);
      } else {
        OutsideClasses(end - start, g, i - start);
      }
    }
  }

  lemma OutsideClasses(n: nat, g: nat, k: int)
    requires g > 0 && !(0 <= k < n)
    ensures !(k >= 0 && k in Classes(n, g, g))
  {
  }
}
