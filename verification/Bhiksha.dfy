/** The compressed next-pointers of the language model trie.  A pointer is split into low bits, kept with
    the record, and high bits, kept as a sorted table of the indices where they grow. */
module Bhiksha {

  function Pow2(b: nat): (p: nat)
    ensures p >= 1
  {
    if b == 0 then 1 else 2 * Pow2(b - 1)
  }

  /** util::RequiredBits. */
  function RequiredBits(max: nat): nat {
    if max == 0 then 0 else 1 + RequiredBits(max / 2)
  }

  /** Shifting twice is shifting by the sum. */
  lemma {:induction false} Pow2Adds(a: nat, b: nat)
    ensures Pow2(a + b) == Pow2(a) * Pow2(b) && Pow2(1) == 2
  {
    if a > 0 {
      Pow2Adds(a - 1, b);
      assert Pow2(a) * Pow2(b) == 2 * (Pow2(a - 1) * Pow2(b));
    }
  }

  /** The least number of bits that hold the number. */
  lemma {:induction false} RequiredBitsFit(max: nat)
    ensures max < Pow2(RequiredBits(max)) && (max > 0 ==> Pow2(RequiredBits(max) - 1) <= max)
  {
    if max > 0 { RequiredBitsFit(max / 2); }
  }

  // ----- ChopBits

  const TWO63: int := 0x8000_0000_0000_0000
  const TWO64: int := 0x1_0000_0000_0000_0000

  /** Conversion of a 64-bit pattern to int64_t. */
  function ToInt64(x: int): int {
    var m := x % TWO64;
    if m < TWO63 then m else m - TWO64
  }

  /** Table bits less inline bits saved, with exact integers. */
  function ExactChange(maxOffset: nat, maxNext: nat, chop: nat): int
    requires chop <= RequiredBits(maxNext)
  {
    (maxNext / Pow2(RequiredBits(maxNext) - chop)) * 64 - maxOffset * chop
  }

  /** The same in 64-bit arithmetic. */
  function Change(maxOffset: nat, maxNext: nat, chop: nat): int
    requires chop <= RequiredBits(maxNext)
  {
    ToInt64(ExactChange(maxOffset, maxNext, chop))
  }

  function Min(a: nat, b: nat): nat {
    if a < b then a else b
  }

  /** The first number of chopped bits with the lowest change. */
  method ChopBits(maxOffset: nat, maxNext: nat, configBits: nat) returns (best: nat)
    ensures best <= Min(RequiredBits(maxNext), configBits)
    ensures forall k: nat | k <= Min(RequiredBits(maxNext), configBits) ::
              Change(maxOffset, maxNext, best) <= Change(maxOffset, maxNext, k)
    ensures forall k: nat | k < best :: Change(maxOffset, maxNext, best) < Change(maxOffset, maxNext, k)
  {
    hide RequiredBits, ExactChange;
    var required := RequiredBits(maxNext);
    best := 0;
    var lowest: int := TWO63 - 1;
    var chop := 0;
    while chop <= Min(required, configBits)
      invariant 0 <= chop <= Min(required, configBits) + 1 && best <= Min(required, configBits)
      invariant best == 0 || best < chop
      invariant (best == 0 && lowest == TWO63 - 1) || lowest == Change(maxOffset, maxNext, best)
      invariant forall k: nat | k < chop :: lowest <= Change(maxOffset, maxNext, k)
      invariant forall k: nat | k < best :: lowest < Change(maxOffset, maxNext, k)
      invariant lowest <= TWO63 - 1
    {
      var change := Change(maxOffset, maxNext, chop);
      assert change <= TWO63 - 1;
      if change < lowest {
        lowest := change;
        best := chop;
      }
      chop := chop + 1;
    }
  }

  /** As long as the numbers stay in range, 64-bit arithmetic makes no difference. */
  lemma ChangeIsExact(maxOffset: nat, maxNext: nat, chop: nat)
    requires chop <= RequiredBits(maxNext) && maxNext * 64 < TWO63 && maxOffset * chop <= TWO63
    ensures Change(maxOffset, maxNext, chop) == ExactChange(maxOffset, maxNext, chop)
  {
    hide Pow2, RequiredBits;
    var d := Pow2(RequiredBits(maxNext) - chop);
    QuotientBelow(maxNext, d);
    InRangeIsExact((maxNext / d) * 64 - maxOffset * chop);
  }

  lemma InRangeIsExact(x: int)
    requires -TWO63 <= x < TWO63
    ensures ToInt64(x) == x
  {
  }

  lemma QuotientBelow(x: nat, d: nat)
    requires d >= 1
    ensures x / d <= x
  {
    AtLeastOnce(d, x / d);
  }

  /** Bits taken by `maxOffset` records with `bits` inline bits each and by the table of their high parts. */
  function SizeInBits(maxOffset: nat, maxNext: nat, bits: nat): nat {
    64 * (High(maxNext, bits) + 1) + maxOffset * bits
  }

  /** The change is the difference in size to a table of whole pointers. */
  lemma ChangeIsInSize(maxOffset: nat, maxNext: nat, chop: nat)
    requires chop <= RequiredBits(maxNext)
    ensures ExactChange(maxOffset, maxNext, chop)
         == SizeInBits(maxOffset, maxNext, RequiredBits(maxNext) - chop)
            - SizeInBits(maxOffset, maxNext, RequiredBits(maxNext))
  {
    hide Pow2, RequiredBits;
    var r := RequiredBits(maxNext);
    RequiredBitsFit(maxNext);
    assert High(maxNext, r) == 0;
    assert maxOffset * (r - chop) == maxOffset * r - maxOffset * chop;
  }

  /** In range, the number of bits chopped makes the whole the smallest. */
  lemma SmallestSize(maxOffset: nat, maxNext: nat, best: nat, k: nat)
    requires best <= RequiredBits(maxNext) && k <= RequiredBits(maxNext)
    requires maxNext * 64 < TWO63 && maxOffset * RequiredBits(maxNext) <= TWO63
    requires Change(maxOffset, maxNext, best) <= Change(maxOffset, maxNext, k)
    ensures SizeInBits(maxOffset, maxNext, RequiredBits(maxNext) - best)
         <= SizeInBits(maxOffset, maxNext, RequiredBits(maxNext) - k)
  {
    hide Pow2, RequiredBits, Change, ExactChange, SizeInBits;
    MulUpTo(maxOffset, best, RequiredBits(maxNext));
    MulUpTo(maxOffset, k, RequiredBits(maxNext));
    ChangeIsExact(maxOffset, maxNext, best);
    ChangeIsExact(maxOffset, maxNext, k);
    ChangeIsInSize(maxOffset, maxNext, best);
    ChangeIsInSize(maxOffset, maxNext, k);
  }

  lemma SizeIs(maxOffset: nat, maxNext: nat, bits: nat)
    ensures SizeInBits(maxOffset, maxNext, bits) == 64 * (High(maxNext, bits) + 1) + maxOffset * bits
  {
  }

  lemma MulUpTo(x: nat, a: nat, b: nat)
    requires a <= b
    ensures x * a <= x * b
  {
  }

  // ----- pointers split into high and low bits

  function Quotient(v: nat, d: nat): nat
    requires d >= 1
  {
    v / d
  }

  function Remainder(v: nat, d: nat): nat
    requires d >= 1
  {
    v % d
  }

  function High(v: nat, bits: nat): nat { Quotient(v, Pow2(bits)) }
  function Low(v: nat, bits: nat): nat { Remainder(v, Pow2(bits)) }

  lemma QuotientRemainder(v: nat, d: nat)
    requires d >= 1
    ensures Quotient(v, d) * d + Remainder(v, d) == v && Remainder(v, d) < d
  {
  }

  lemma HighLow(v: nat, bits: nat)
    ensures High(v, bits) * Pow2(bits) + Low(v, bits) == v && Low(v, bits) < Pow2(bits)
  {
    hide Pow2, Quotient, Remainder;
    QuotientRemainder(v, Pow2(bits));
  }

  lemma HighMonotone(v: nat, w: nat, bits: nat)
    requires v <= w
    ensures High(v, bits) <= High(w, bits)
  {
    hide Pow2, High, Low;
    HighLow(v, bits);
    HighLow(w, bits);
    var p := Pow2(bits);
    if High(v, bits) > High(w, bits) { MulGap(High(v, bits), High(w, bits), p); }
  }

  lemma AtLeastOnce(k: int, p: int)
    requires k >= 1 && p >= 0
    ensures k * p >= p
  {
  }

  lemma MulGap(a: int, b: int, p: int)
    requires a > b && p >= 1
    ensures a * p >= b * p + p
  {
    var k := a - b;
    assert a * p == b * p + k * p;
    AtLeastOnce(k, p);
  }

  ghost predicate Nondecreasing(v: seq<nat>) {
    forall i, j | 0 <= i <= j < |v| :: v[i] <= v[j]
  }

  /** `index` is the first position whose high part is at least `h`. */
  ghost predicate FirstAtLeast(v: seq<nat>, bits: nat, h: nat, index: nat) {
    && index < |v| && High(v[index], bits) >= h
    && forall i | 0 <= i < index :: High(v[i], bits) < h
  }

  /** The table up to entry `n` (exclusive): entry 0 aside, entry h is where the high part reaches h. */
  ghost predicate TableOk(offsets: seq<nat>, n: nat, v: seq<nat>, bits: nat) {
    && 1 <= n <= |offsets|
    && forall h {:trigger offsets[h]} | 1 <= h < n :: FirstAtLeast(v, bits, h, offsets[h])
  }

  lemma TableGrows(offsets: seq<nat>, n: nat, v: seq<nat>, bits: nat, x: nat)
    requires TableOk(offsets, n, v, bits)
    ensures TableOk(offsets, n, v + [x], bits)
  {
    hide High;
    forall h | 1 <= h < n ensures FirstAtLeast(v + [x], bits, h, offsets[h]) {
      assert FirstAtLeast(v, bits, h, offsets[h]);
    }
  }

  /** A complete table tells the high part of every pointer: the last entry at or below the index. */
  lemma TableReads(offsets: seq<nat>, v: seq<nat>, bits: nat, i: nat, h: nat)
    requires TableOk(offsets, |offsets|, v, bits) && offsets[0] == 0 && Nondecreasing(v)
    requires i < |v| && h < |offsets|
    ensures offsets[h] <= i <==> h <= High(v[i], bits)
  {
    if h > 0 {
      assert FirstAtLeast(v, bits, h, offsets[h]);
      if offsets[h] <= i { HighMonotone(v[offsets[h]], v[i], bits); }
    }
  }

  lemma HighsBelow(v: seq<nat>, bits: nat, n: nat)
    requires Nondecreasing(v) && (v != [] ==> High(v[|v| - 1], bits) < n)
    ensures forall i | 0 <= i < |v| :: High(v[i], bits) < n
  {
    hide High;
    forall i | 0 <= i < |v| ensures High(v[i], bits) < n { HighMonotone(v[i], v[|v| - 1], bits); }
  }

  lemma LastIsLargest(v: seq<nat>, x: nat)
    requires Nondecreasing(v) && (v != [] ==> v[|v| - 1] <= x)
    ensures Nondecreasing(v + [x]) && forall i | 0 <= i < |v| :: v[i] <= x
  {
  }

  /** Plain pointers, the reference. */
  class DontBhiksha {
    var field: map<nat, nat>
    const bits: nat
    const maxNext: nat
    ghost var written: seq<nat>

    ghost predicate Valid()
      reads this
    {
      && bits == RequiredBits(maxNext)
      && (forall i: nat :: i in field <==> i < |written|)
      && forall i | i in field :: field[i] == written[i] < Pow2(bits)
    }

    constructor (maxNext: nat)
      ensures Valid() && written == [] && this.maxNext == maxNext
    {
      field, bits, this.maxNext, written := map[], RequiredBits(maxNext), maxNext, [];
    }

    method WriteNext(index: nat, value: nat)
      requires Valid() && index == |written| && value <= maxNext
      modifies this
      ensures Valid() && written == old(written) + [value]
    {
      RequiredBitsFit(maxNext);
      field := field[index := value];
      written := written + [value];
    }

    method ReadNext(index: nat) returns (begin: nat, end: nat)
      requires Valid() && index + 1 < |written|
      ensures begin == written[index] && end == written[index + 1]
    {
      begin, end := field[index], field[index + 1];
    }
  }

  /** std::upper_bound on a sorted table. */
  method UpperBound(a: array<nat>, x: nat) returns (p: nat)
    requires forall i, j | 0 <= i <= j < a.Length :: a[i] <= a[j]
    ensures p <= a.Length
    ensures forall i | 0 <= i < p :: a[i] <= x
    ensures forall i | p <= i < a.Length :: a[i] > x
  {
    p := 0;
    var hi := a.Length;
    while p < hi
      invariant 0 <= p <= hi <= a.Length
      invariant forall i | 0 <= i < p :: a[i] <= x
      invariant forall i | hi <= i < a.Length :: a[i] > x
    {
      var m := (p + hi) / 2;
      if a[m] <= x { p := m + 1; } else { hi := m; }
    }
  }

  class ArrayBhiksha {
    const bits: nat
    const maxNext: nat
    const configBits: nat
    const offsets: array<nat>
    var writeTo: nat
    var field: map<nat, nat>
    var header: (nat, nat)
    ghost var written: seq<nat>

    ghost predicate Valid()
      reads this, offsets
    {
      && offsets.Length == High(maxNext, bits) + 1
      && 1 <= writeTo <= offsets.Length
      && TableOk(offsets[..], writeTo, written, bits)
      && writeTo == (if written == [] then 1 else High(written[|written| - 1], bits) + 1)
      && Nondecreasing(written) && (forall i | 0 <= i < |written| :: written[i] <= maxNext)
      && (forall i: nat :: i in field <==> i < |written|)
      && forall i | i in field :: field[i] == Low(written[i], bits)
    }

    /** All entries have been written and the first one set. */
    ghost predicate Loaded()
      reads this, offsets
    {
      Valid() && writeTo == offsets.Length && offsets[0] == 0
    }

    constructor (maxOffset: nat, maxNext: nat, configBits: nat)
      ensures Valid() && written == [] && this.maxNext == maxNext && this.configBits == configBits && fresh(offsets)
      ensures bits <= RequiredBits(maxNext) <= bits + configBits
      ensures maxNext * 64 < TWO63 && maxOffset * RequiredBits(maxNext) <= TWO63 ==>
                forall b: nat | b <= RequiredBits(maxNext) <= b + configBits ::
                  64 * offsets.Length + maxOffset * bits <= SizeInBits(maxOffset, maxNext, b)
    {
      hide RequiredBits, Change, SizeInBits;
      var chop := ChopBits(maxOffset, maxNext, configBits);
      var inlineBits := RequiredBits(maxNext) - chop;
      bits, this.maxNext, this.configBits := inlineBits, maxNext, configBits;
      offsets := new nat[High(maxNext, inlineBits) + 1];
      writeTo, field, header, written := 1, map[], (0, 0), [];
      if maxNext * 64 < TWO63 && maxOffset * RequiredBits(maxNext) <= TWO63 {
        forall b: nat | b <= RequiredBits(maxNext) <= b + configBits
          ensures SizeInBits(maxOffset, maxNext, inlineBits) <= SizeInBits(maxOffset, maxNext, b)
        {
          SmallestSize(maxOffset, maxNext, chop, RequiredBits(maxNext) - b);
        }
        SizeIs(maxOffset, maxNext, inlineBits);
      }
    }

    method WriteNext(index: nat, value: nat)
      requires Valid() && index == |written| && value <= maxNext
      requires written != [] ==> written[|written| - 1] <= value
      modifies this, offsets
      ensures Valid() && written == old(written) + [value]
    {
      hide Low, Pow2, High, TableOk;
      var encode := High(value, bits);
      HighMonotone(value, maxNext, bits);
      if written != [] { HighMonotone(written[|written| - 1], value, bits); }
      ghost var v := written + [value];
      HighsBelow(written, bits, writeTo);
      TableGrows(offsets[..], writeTo, written, bits, value);
      FillTable(encode, index, v);
      field := field[index := Low(value, bits)];
      LastIsLargest(written, value);
      written := v;
    }

    /** Records `index` as the place where the high part reaches each value up to `encode`. */
    method FillTable(encode: nat, index: nat, ghost v: seq<nat>)
      requires 1 <= writeTo <= offsets.Length && encode < offsets.Length
      requires TableOk(offsets[..], writeTo, v, bits)
      requires index + 1 == |v| && encode == High(v[index], bits) && forall i | 0 <= i < index ::
                 High(v[i], bits) < writeTo
      modifies this`writeTo, offsets
      ensures TableOk(offsets[..], writeTo, v, bits)
      ensures writeTo == if encode < old(writeTo) then old(writeTo) else encode + 1
    {
      hide High;
      while writeTo <= encode
        invariant 1 <= writeTo <= offsets.Length && old(writeTo) <= writeTo
        invariant writeTo == old(writeTo) || writeTo <= encode + 1
        invariant TableOk(offsets[..], writeTo, v, bits)
      {
        assert FirstAtLeast(v, bits, writeTo, index);
        ghost var before := offsets[..];
        offsets[writeTo] := index;
        assert offsets[..] == before[writeTo := index];
        writeTo := writeTo + 1;
      }
    }

    /** Accepts exactly when the last pointer's high part is that of the largest pointer. */
    method FinishedLoading() returns (ok: bool)
      requires Valid()
      modifies this`header, offsets
      ensures Valid() && offsets[0] == 0
      ensures ok <==> High(maxNext, bits) == if written == [] then 0 else High(written[|written| - 1], bits)
      ensures ok ==> Loaded() && header == (0, configBits)
    {
      ghost var before := offsets[..];
      offsets[0] := 0;
      assert offsets[..] == before[0 := 0];
      ok := writeTo == offsets.Length;
      if ok { header := (0, configBits); }
    }

    /** Reads back exactly what plain pointers would have stored. */
    method ReadNext(index: nat) returns (begin: nat, end: nat)
      requires Loaded() && index + 1 < |written|
      ensures begin == written[index] && end == written[index + 1]
      ensures begin <= end
    {
      hide Low, Pow2, High, TableOk;
      TableSorted();
      ghost var t := offsets[..];
      forall h: nat | h < offsets.Length ensures offsets[h] <= index <==> h <= High(written[index], bits) {
        TableReads(t, written, bits, index, h);
      }
      forall h: nat | h < offsets.Length ensures offsets[h] <= index + 1 <==> h <= High(written[index + 1], bits) {
        TableReads(t, written, bits, index + 1, h);
      }
      HighMonotone(written[index], maxNext, bits);
      HighMonotone(written[index + 1], maxNext, bits);
      HighMonotone(written[index], written[index + 1], bits);
      var beginIt := UpperBound(offsets, index);
      beginIt := LastAtMost(beginIt, index, High(written[index], bits));
      var endIt := beginIt + 1;
      while endIt < offsets.Length && offsets[endIt] <= index + 1
        invariant beginIt < endIt <= High(written[index + 1], bits) + 1
      {
        endIt := endIt + 1;
      }
      endIt := endIt - 1;
      HighLow(written[index], bits);
      HighLow(written[index + 1], bits);
      begin := beginIt * Pow2(bits) + field[index];
      end := endIt * Pow2(bits) + field[index + 1];
    }

    /** One before the upper bound. */
    method LastAtMost(p: nat, x: nat, ghost h: nat) returns (q: nat)
      requires h < offsets.Length && p <= offsets.Length
      requires forall k: nat | k < offsets.Length :: offsets[k] <= x <==> k <= h
      requires forall i | 0 <= i < p :: offsets[i] <= x
      requires forall i | p <= i < offsets.Length :: offsets[i] > x
      ensures q == h
    {
      assert offsets[h] <= x;
      assert h < p;
      q := p - 1;
      assert offsets[q] <= x;
    }

    lemma TableSorted()
      requires Loaded()
      ensures forall i, j | 0 <= i <= j < offsets.Length :: offsets[i] <= offsets[j]
    {
      hide High;
      ghost var t := offsets[..];
      forall i, j | 0 <= i <= j < offsets.Length ensures offsets[i] <= offsets[j] {
        if i > 0 { assert FirstAtLeast(written, bits, i, t[i]) && FirstAtLeast(written, bits, j, t[j]); }
      }
    }
  }

  lemma NoFall(v: seq<nat>, i: nat)
    requires Nondecreasing(v) && 0 < i < |v|
    ensures v[i - 1] <= v[i]
  {
  }

  /** Any nondecreasing pointers, bounded by `maxNext` and ending in it, written one after the other to
      both representations: the compressed one is accepted and reads back like the plain one. */
  method StoreAndRead(values: seq<nat>, maxOffset: nat, maxNext: nat, configBits: nat, index: nat)
      returns (ok: bool, plain: (nat, nat), packed: (nat, nat))
    requires Nondecreasing(values) && forall i | 0 <= i < |values| :: values[i] <= maxNext
    requires index + 1 < |values|
    ensures values[|values| - 1] == maxNext ==> ok
    ensures plain == (values[index], values[index + 1])
    ensures ok ==> packed == plain
  {
    hide *;
    var a := new DontBhiksha(maxNext);
    var b := new ArrayBhiksha(maxOffset, maxNext, configBits);
    for i := 0 to |values|
      invariant a.Valid() && b.Valid() && a.maxNext == maxNext && b.maxNext == maxNext
      invariant a.written == values[..i] && b.written == values[..i]
      invariant fresh(a) && fresh(b) && fresh(b.offsets)
    {
      if i > 0 { NoFall(values, i); }
      a.WriteNext(i, values[i]);
      b.WriteNext(i, values[i]);
      assert values[..i + 1] == values[..i] + [values[i]];
    }
    assert values[..|values|] == values;
    var x, y := a.ReadNext(index);
    plain, packed := (x, y), (0, 0);
    ok := b.FinishedLoading();
    if ok {
      var u, v := b.ReadNext(index);
      packed := (u, v);
    }
  }
}
