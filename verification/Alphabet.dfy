/** The alphabet: labels and their strings, and its binary form. */
module AlphabetModel {
  import opened Basics
  import opened Utf8

  type Bytes = seq<nat>

  // ----- the binary form

  /** A uint16_t, low byte first. */
  function Enc16(n: nat): Bytes { [n % 256, n / 256 % 256] }

  function Dec16(lo: nat, hi: nat): nat { lo + 256 * hi }

  lemma Enc16Back(n: nat)
    requires n < 65536
    ensures |Enc16(n)| == 2 && Dec16(Enc16(n)[0], Enc16(n)[1]) == n
  {
  }

  /** The low byte comes first. */
  lemma LowByteFirst(lo: nat, hi: nat)
    requires lo < 256 && hi < 256
    ensures Enc16(256 * hi + lo) == [lo, hi] && Dec16(lo, hi) == 256 * hi + lo
  {
    assert (256 * hi + lo) / 256 == hi;
  }

  /** Key, length and bytes of one entry; key and length are cut to 16 bits. */
  function EntryBytes(key: nat, str: Bytes): Bytes {
    var len := |str| % 65536;
    Enc16(key % 65536) + Enc16(len) + str[..len]
  }

  function Body(entries: seq<(nat, Bytes)>): Bytes {
    if entries == [] then [] else EntryBytes(entries[0].0, entries[0].1) + Body(entries[1..])
  }

  /** The entries in the iteration order `order` of the label map. */
  function Entries(labelToStr: map<nat, Bytes>, order: seq<nat>): seq<(nat, Bytes)>
    requires forall k | k in order :: k in labelToStr
  {
    if order == [] then [] else [(order[0], labelToStr[order[0]])] + Entries(labelToStr, order[1..])
  }

  /** Each key of the map exactly once. */
  ghost predicate IsOrder(order: seq<nat>, keys: set<nat>) {
    && (forall i, j | 0 <= i < j < |order| :: order[i] != order[j])
    && (forall k :: k in order <==> k in keys)
  }

  /** Reading `n` entries from `at`: those read before the data ran out, and whether all were there. */
  datatype Read = Read(entries: seq<(nat, Bytes)>, ok: bool)

  function ReadEntries(buf: Bytes, at: nat, n: nat): Read
    requires at <= |buf|
    decreases n
  {
    if n == 0 then Read([], true)
    else if |buf| - at < 4 then Read([], false)
    else
      var key, len := Dec16(buf[at], buf[at + 1]), Dec16(buf[at + 2], buf[at + 3]);
      if |buf| - (at + 4) < len then Read([], false)
      else
        var rest := ReadEntries(buf, at + 4 + len, n - 1);
        Read([(key, buf[at + 4..at + 4 + len])] + rest.entries, rest.ok)
  }

  const SPACE: Bytes := [32]

  /** The parts of an alphabet that entries are inserted into; a space sets the space label. */
  datatype Maps = Maps(labelToStr: map<nat, Bytes>, strToLabel: map<Bytes, nat>, spaceLabel: Option<nat>)

  function Insert(m: Maps, e: (nat, Bytes)): Maps {
    Maps(m.labelToStr[e.0 := e.1], m.strToLabel[e.1 := e.0], if e.1 == SPACE then Some(e.0) else m.spaceLabel)
  }

  function InsertAll(m: Maps, entries: seq<(nat, Bytes)>): Maps
    decreases |entries|
  {
    if entries == [] then m else InsertAll(Insert(m, entries[0]), entries[1..])
  }

  lemma {:induction false} InsertAllAppend(m: Maps, entries: seq<(nat, Bytes)>, e: (nat, Bytes))
    ensures InsertAll(m, entries + [e]) == Insert(InsertAll(m, entries), e)
    decreases |entries|
  {
    if entries == [] {
      assert (entries + [e])[1..] == [];
    } else {
      assert (entries + [e])[1..] == entries[1..] + [e];
      InsertAllAppend(Insert(m, entries[0]), entries[1..], e);
    }
  }

  /** The entry at `at`, if all of it is there, and where the next one starts. */
  method NextEntry(buffer: Bytes, at: nat) returns (e: Option<(nat, Bytes)>, next: nat)
    requires at <= |buffer|
    ensures (e, next) == EntryAt(buffer, at)
  {
    hide Dec16;
    var offset := at;
    if |buffer| - offset < 2 { return None, at; }
    var key := Dec16(buffer[offset], buffer[offset + 1]);
    offset := offset + 2;
    if |buffer| - offset < 2 { return None, at; }
    var len := Dec16(buffer[offset], buffer[offset + 1]);
    offset := offset + 2;
    if |buffer| - offset < len { return None, at; }
    return Some((key, buffer[offset..offset + len])), offset + len;
  }

  function EntryAt(buf: Bytes, at: nat): (r: (Option<(nat, Bytes)>, nat))
    requires at <= |buf|
    ensures at <= r.1 <= |buf|
  {
    if |buf| - at < 4 then (None, at)
    else
      var key, len := Dec16(buf[at], buf[at + 1]), Dec16(buf[at + 2], buf[at + 3]);
      if |buf| - (at + 4) < len then (None, at) else (Some((key, buf[at + 4..at + 4 + len])), at + 4 + len)
  }

  lemma ReadStep(buf: Bytes, at: nat, n: nat)
    requires at <= |buf|
    ensures n == 0 ==> ReadEntries(buf, at, n) == Read([], true)
    ensures n > 0 ==>
              var (e, next) := EntryAt(buf, at);
              ReadEntries(buf, at, n)
              == if e.None? then Read([], false)
                 else var rest := ReadEntries(buf, next, n - 1); Read([e.value] + rest.entries, rest.ok)
  {
    hide Dec16;
  }

  lemma InsertNone(m: Maps)
    ensures InsertAll(m, []) == m
  {
  }

  class Alphabet {
    var size: nat
    /** None stands for a member that was never set. */
    var spaceLabel: Option<nat>
    var labelToStr: map<nat, Bytes>
    var strToLabel: map<Bytes, nat>

    constructor ()
      ensures size == 0 && spaceLabel == None && labelToStr == map[] && strToLabel == map[]
    {
      size, spaceLabel, labelToStr, strToLabel := 0, None, map[], map[];
    }

    /** Serialize, visiting the label map in the given order. */
    method Serialize(order: seq<nat>) returns (out: Bytes)
      requires IsOrder(order, labelToStr.Keys)
      ensures out == Enc16(size % 65536) + Body(Entries(labelToStr, order))
    {
      hide EntryBytes, Enc16;
      out := Enc16(size % 65536);
      ghost var all := Entries(labelToStr, order);
      assert order[0..] == order;
      for i := 0 to |order|
        invariant Enc16(size % 65536) + Body(all) == out + Body(Entries(labelToStr, order[i..]))
      {
        assert order[i] in order && order[i..][0] == order[i] && order[i..][1..] == order[i + 1..];
        EntriesStep(labelToStr, order[i..]);
        out := out + EntryBytes(order[i], labelToStr[order[i]]);
      }
    }

    /** Deserialize: returns success (0 in the program).  On failure the entries read so far stay. */
    method Deserialize(buffer: Bytes) returns (ok: bool)
      modifies this
      ensures |buffer| < 2 ==> !ok && size == old(size) && CurrentMaps() == old(CurrentMaps())
      ensures |buffer| >= 2 ==>
                var n := Dec16(buffer[0], buffer[1]);
                var r := ReadEntries(buffer, 2, n);
                ok == r.ok && size == n && CurrentMaps() == InsertAll(old(CurrentMaps()), r.entries)
    {
      hide Insert, InsertAll, Dec16, ReadEntries;
      if |buffer| < 2 { return false; }
      var n := Dec16(buffer[0], buffer[1]);
      var offset := 2;
      size := n;
      ghost var done: seq<(nat, Bytes)> := [];
      ghost var all := ReadEntries(buffer, 2, n);
      InsertNone(CurrentMaps());
      assert done + all.entries == all.entries;
      for i := 0 to n
        invariant 2 <= offset <= |buffer| && size == n
        invariant CurrentMaps() == InsertAll(old(CurrentMaps()), done)
        invariant all == Read(done + ReadEntries(buffer, offset, n - i).entries, ReadEntries(buffer, offset, n - i).ok)
      {
        ReadStep(buffer, offset, n - i);
        assert done + [] == done;
        var e, next := NextEntry(buffer, offset);
        if e.None? { return false; }
        ghost var rest := ReadEntries(buffer, next, n - i - 1).entries;
        assert done + ([e.value] + rest) == (done + [e.value]) + rest;
        InsertAllAppend(old(CurrentMaps()), done, e.value);
        AddEntry(e.value.0, e.value.1);
        done := done + [e.value];
        offset := next;
      }
      ReadStep(buffer, offset, 0);
      assert done + [] == done;
      return true;
    }

    method AddEntry(key: nat, val: Bytes)
      modifies this`labelToStr, this`strToLabel, this`spaceLabel
      ensures CurrentMaps() == Insert(old(CurrentMaps()), (key, val))
    {
      labelToStr := labelToStr[key := val];
      strToLabel := strToLabel[val := key];
      if val == SPACE { spaceLabel := Some(key); }
    }

    function CurrentMaps(): Maps
      reads this
    {
      Maps(labelToStr, strToLabel, spaceLabel)
    }
  }

  lemma EntriesStep(m: map<nat, Bytes>, order: seq<nat>)
    requires order != [] && forall k | k in order :: k in m
    ensures forall k | k in order[1..] :: k in m
    ensures Body(Entries(m, order)) == EntryBytes(order[0], m[order[0]]) + Body(Entries(m, order[1..]))
  {
    hide EntryBytes;
    var e := (order[0], m[order[0]]);
    assert Entries(m, order) == [e] + Entries(m, order[1..]);
    assert ([e] + Entries(m, order[1..]))[1..] == Entries(m, order[1..]);
  }

  // ----- reading back

  ghost predicate Fits(entries: seq<(nat, Bytes)>) {
    forall i | 0 <= i < |entries| :: entries[i].0 < 65536 && |entries[i].1| < 65536
  }

  lemma EntryLayout(key: nat, str: Bytes)
    requires key < 65536 && |str| < 65536
    ensures var b := EntryBytes(key, str);
            |b| == 4 + |str| && Dec16(b[0], b[1]) == key && Dec16(b[2], b[3]) == |str| && b[4..] == str
  {
    hide Enc16, Dec16;
    Enc16Back(key);
    Enc16Back(|str|);
    SmallMod(key);
    SmallMod(|str|);
    assert str[..|str|] == str;
    var a, b := Enc16(key), Enc16(|str|);
    assert EntryBytes(key, str) == a + b + str;
  }

  lemma SmallMod(n: nat)
    requires n < 65536
    ensures n % 65536 == n
  {
  }

  /** Reading the entries that were written gives them back; with any of the data missing, reading fails. */
  lemma {:induction false} ReadsBack(before: Bytes, entries: seq<(nat, Bytes)>, cut: nat)
    requires Fits(entries) && cut <= |Body(entries)|
    ensures var r := ReadEntries(before + Body(entries)[..cut], |before|, |entries|);
            if cut == |Body(entries)| then r == Read(entries, true) else !r.ok
    decreases |entries|
  {
    hide EntryBytes, Dec16;
    if entries == [] {
    } else {
      var e, rest := entries[0], entries[1..];
      var b, tail := EntryBytes(e.0, e.1), Body(rest);
      EntryLayout(e.0, e.1);
      var buf, at := before + Body(entries)[..cut], |before|;
      assert Body(entries) == b + tail;
      if cut < |b| {
        Truncated(before, b, tail, cut, |entries|);
      } else {
        var n := cut - |b|;
        assert buf == (before + b) + tail[..n];
        ReadsBack(before + b, rest, n);
        FirstEntry(before, b, tail[..n], e, |entries|);
        assert [e] + rest == entries;
      }
    }
  }

  /** Reading an entry that is completely there. */
  lemma FirstEntry(before: Bytes, b: Bytes, tail: Bytes, e: (nat, Bytes), n: nat)
    requires n > 0 && |b| == 4 + |e.1| && Dec16(b[0], b[1]) == e.0 && Dec16(b[2], b[3]) == |e.1| && b[4..] == e.1
    ensures var rest := ReadEntries(before + b + tail, |before + b|, n - 1);
            ReadEntries(before + b + tail, |before|, n) == Read([e] + rest.entries, rest.ok)
  {
    hide Dec16;
    var buf, at := before + b + tail, |before|;
    assert buf[at] == b[0] && buf[at + 1] == b[1] && buf[at + 2] == b[2] && buf[at + 3] == b[3];
    assert buf[at + 4..at + |b|] == b[4..];
    assert |before + b| == at + 4 + |e.1|;
  }

  /** Reading an entry that is cut off. */
  lemma Truncated(before: Bytes, b: Bytes, tail: Bytes, cut: nat, n: nat)
    requires n > 0 && |b| >= 4 && Dec16(b[2], b[3]) == |b| - 4 && cut < |b|
    ensures !ReadEntries(before + (b + tail)[..cut], |before|, n).ok
  {
    hide Dec16;
    var buf, at := before + (b + tail)[..cut], |before|;
    if cut >= 4 {
      assert buf[at + 2] == b[2] && buf[at + 3] == b[3];
    }
  }

  /** No two labels have the same string, and the maps are inverse to each other. */
  ghost predicate Injective(labelToStr: map<nat, Bytes>, strToLabel: map<Bytes, nat>) {
    && (forall k | k in labelToStr :: labelToStr[k] in strToLabel && strToLabel[labelToStr[k]] == k)
    && (forall s | s in strToLabel :: strToLabel[s] in labelToStr && labelToStr[strToLabel[s]] == s)
  }

  lemma {:induction false} EntriesAppend(m: map<nat, Bytes>, order: seq<nat>, k: nat)
    requires k in m && forall x | x in order :: x in m
    ensures forall x | x in order + [k] :: x in m
    ensures Entries(m, order + [k]) == Entries(m, order) + [(k, m[k])]
  {
    if order == [] {
      assert order + [k] == [k];
    } else {
      assert (order + [k])[1..] == order[1..] + [k];
      EntriesAppend(m, order[1..], k);
    }
  }

  /** The maps hold exactly the labels in `keys`, with the strings of the given alphabet. */
  ghost predicate Agrees(m: map<nat, Bytes>, s2l: map<Bytes, nat>, keys: seq<nat>, r: Maps) {
    && (forall k :: k in r.labelToStr <==> k in keys && k in m)
    && (forall k | k in r.labelToStr :: r.labelToStr[k] == m[k])
    && (forall s :: s in r.strToLabel <==> s in s2l && s2l[s] in keys)
    && (forall s | s in r.strToLabel :: r.strToLabel[s] == s2l[s])
    && (r.spaceLabel == if SPACE in s2l && s2l[SPACE] in keys then Some(s2l[SPACE]) else None)
  }

  lemma AgreesMore(m: map<nat, Bytes>, s2l: map<Bytes, nat>, keys: seq<nat>, r: Maps, k: nat)
    requires Injective(m, s2l) && Agrees(m, s2l, keys, r) && k in m && k !in keys
    ensures Agrees(m, s2l, keys + [k], Insert(r, (k, m[k])))
  {
    assert forall x :: x in keys + [k] <==> x in keys || x == k;
  }

  const NO_MAPS := Maps(map[], map[], None)

  /** Inserting the entries of distinct labels into empty maps. */
  lemma {:induction false} InsertAllIs(m: map<nat, Bytes>, s2l: map<Bytes, nat>, order: seq<nat>)
    requires Injective(m, s2l) && forall k | k in order :: k in m
    requires forall i, j | 0 <= i < j < |order| :: order[i] != order[j]
    ensures Agrees(m, s2l, order, InsertAll(NO_MAPS, Entries(m, order)))
  {
    hide Insert, Injective, Agrees;
    if order == [] {
      NothingAgrees(m, s2l);
    } else {
      var front, k := order[..|order| - 1], order[|order| - 1];
      assert order == front + [k] && k in order;
      InsertAllIs(m, s2l, front);
      EntriesAppend(m, front, k);
      InsertAllAppend(NO_MAPS, Entries(m, front), (k, m[k]));
      AgreesMore(m, s2l, front, InsertAll(NO_MAPS, Entries(m, front)), k);
    }
  }

  lemma NothingAgrees(m: map<nat, Bytes>, s2l: map<Bytes, nat>)
    ensures Agrees(m, s2l, [], InsertAll(NO_MAPS, Entries(m, [])))
  {
  }

  lemma {:induction false} EntriesFit(m: map<nat, Bytes>, order: seq<nat>)
    requires forall k | k in order :: k in m
    requires forall k | k in m :: k < 65536 && |m[k]| < 65536
    ensures Fits(Entries(m, order)) && |Entries(m, order)| == |order|
  {
    if order != [] { EntriesFit(m, order[1..]); }
  }

  /** The number of keys of a map is the length of any order of them. */
  lemma {:induction false} OrderLength(order: seq<nat>, keys: set<nat>)
    requires IsOrder(order, keys)
    ensures |order| == |keys|
  {
    if order == [] {
      assert keys == {};
    } else {
      var front, k := order[..|order| - 1], order[|order| - 1];
      assert order == front + [k] && k in order;
      assert IsOrder(front, keys - {k});
      OrderLength(front, keys - {k});
    }
  }

  /** An alphabet that the binary form can hold. */
  ghost predicate Storable(size: nat, m: map<nat, Bytes>, s2l: map<Bytes, nat>) {
    && Injective(m, s2l) && size == |m| && size < 65536
    && forall k | k in m :: k < 65536 && |m[k]| < 65536
  }

  /** The binary form of an alphabet. */
  function Serialized(size: nat, m: map<nat, Bytes>, order: seq<nat>): Bytes
    requires forall k | k in order :: k in m
  {
    Enc16(size % 65536) + Body(Entries(m, order))
  }

  /** Whatever the iteration order, reading the binary form into empty maps recovers both maps, the size,
      and the label of the space if there is one. */
  lemma DeserializeInvertsSerialize(size: nat, m: map<nat, Bytes>, s2l: map<Bytes, nat>, order: seq<nat>)
    requires Storable(size, m, s2l) && IsOrder(order, m.Keys)
    ensures var buf := Serialized(size, m, order);
            && |buf| >= 2 && Dec16(buf[0], buf[1]) == size
            && var r := ReadEntries(buf, 2, size);
               r.ok && InsertAll(NO_MAPS, r.entries) == Maps(m, s2l, if SPACE in s2l then Some(s2l[SPACE]) else None)
  {
    hide Body, EntryBytes, ReadEntries, InsertAll, Entries, Enc16, Dec16, Fits, Agrees;
    SmallMod(size);
    var head, es := Enc16(size % 65536), Entries(m, order);
    Enc16Back(size);
    OrderLength(order, m.Keys);
    EntriesFit(m, order);
    var buf := Serialized(size, m, order);
    assert Body(es)[..|Body(es)|] == Body(es);
    ReadsBack(head, es, |Body(es)|);
    InsertAllIs(m, s2l, order);
    Everything(m, s2l, order, InsertAll(NO_MAPS, es));
  }

  lemma Everything(m: map<nat, Bytes>, s2l: map<Bytes, nat>, order: seq<nat>, r: Maps)
    requires Injective(m, s2l) && IsOrder(order, m.Keys) && Agrees(m, s2l, order, r)
    ensures r == Maps(m, s2l, if SPACE in s2l then Some(s2l[SPACE]) else None)
  {
    assert r.labelToStr == m;
    assert r.strToLabel == s2l;
  }

  /** Every strict beginning of a binary form is rejected. */
  lemma StrictPrefixRejected(size: nat, m: map<nat, Bytes>, s2l: map<Bytes, nat>, order: seq<nat>, cut: nat)
    requires Storable(size, m, s2l) && IsOrder(order, m.Keys) && cut < |Serialized(size, m, order)|
    ensures var buf := Serialized(size, m, order)[..cut];
            cut >= 2 ==> !ReadEntries(buf, 2, Dec16(buf[0], buf[1])).ok
  {
    hide Body, EntryBytes, ReadEntries, Entries, Enc16, Dec16, Fits;
    if cut >= 2 {
      SmallMod(size);
      var head, es := Enc16(size % 65536), Entries(m, order);
      Enc16Back(size);
      OrderLength(order, m.Keys);
      EntriesFit(m, order);
      var buf := Serialized(size, m, order)[..cut];
      assert buf == head + Body(es)[..cut - 2];
      ReadsBack(head, es, cut - 2);
    }
  }

  /** Both together: a storable alphabet, written in any order and read into a fresh one, is the same. */
  method WriteAndRead(a: Alphabet, order: seq<nat>) returns (ok: bool, b: Alphabet)
    requires Storable(a.size, a.labelToStr, a.strToLabel) && IsOrder(order, a.labelToStr.Keys)
    ensures ok && b.size == a.size && b.labelToStr == a.labelToStr && b.strToLabel == a.strToLabel
    ensures b.spaceLabel == if Ascii(" ") in a.strToLabel then Some(a.strToLabel[Ascii(" ")]) else None
  {
    assert SPACE == Ascii(" ");
    hide Storable, IsOrder, ReadEntries, InsertAll, Body, Entries, Enc16, Dec16;
    var buffer := a.Serialize(order);
    DeserializeInvertsSerialize(a.size, a.labelToStr, a.strToLabel, order);
    b := new Alphabet();
    ok := b.Deserialize(buffer);
  }

  // ----- encoding and decoding text

  /** Every string has a label that leads back to it. */
  ghost predicate Consistent(m: map<nat, Bytes>, s2l: map<Bytes, nat>) {
    forall s | s in s2l :: s2l[s] in m && m[s2l[s]] == s
  }

  /** True of an alphabet into which every label is put once, as when the labels are numbered in order. */
  lemma {:induction false} OncePerLabel(m: Maps, entries: seq<(nat, Bytes)>)
    requires Consistent(m.labelToStr, m.strToLabel)
    requires forall i | 0 <= i < |entries| :: entries[i].0 !in m.labelToStr
    requires forall i, j | 0 <= i < j < |entries| :: entries[i].0 != entries[j].0
    ensures Consistent(InsertAll(m, entries).labelToStr, InsertAll(m, entries).strToLabel)
    decreases |entries|
  {
    if entries != [] { OncePerLabel(Insert(m, entries[0]), entries[1..]); }
  }

  ghost predicate AllKnown(s2l: map<Bytes, nat>, ps: seq<Bytes>) {
    forall i | 0 <= i < |ps| :: ps[i] in s2l
  }

  /** CanEncode. */
  method CanEncode(s2l: map<Bytes, nat>, input: Bytes) returns (r: bool)
    ensures r <==> AllKnown(s2l, CodePoints(input))
  {
    hide Split;
    var ps := SplitIntoCodepoints(input);
    for i := 0 to |ps|
      invariant forall j | 0 <= j < i :: ps[j] in s2l
    {
      if ps[i] !in s2l { return false; }
    }
    return true;
  }

  /** Encode; None where the program aborts. */
  method Encode(s2l: map<Bytes, nat>, input: Bytes) returns (r: Option<seq<nat>>)
    ensures r == LookupAll(s2l, CodePoints(input))
  {
    hide Split;
    var ps := SplitIntoCodepoints(input);
    var labels := [];
    for i := 0 to |ps|
      invariant LookupAll(s2l, ps[..i]) == Some(labels)
    {
      assert ps[..i + 1][..i] == ps[..i];
      if ps[i] !in s2l {
        LookupFails(s2l, ps, i);
        return None;
      }
      labels := labels + [s2l[ps[i]]];
    }
    assert ps[..|ps|] == ps;
    return Some(labels);
  }

  /** Decode; None where the program aborts. */
  method Decode(m: map<nat, Bytes>, labels: seq<nat>) returns (r: Option<Bytes>)
    ensures r == TextOf(m, labels)
  {
    var word: Bytes := [];
    for i := 0 to |labels|
      invariant TextOf(m, labels[..i]) == Some(word)
    {
      assert labels[..i + 1][..i] == labels[..i];
      if labels[i] !in m {
        TextFails(m, labels, i);
        return None;
      }
      word := word + m[labels[i]];
    }
    assert labels[..|labels|] == labels;
    return Some(word);
  }

  function TextOf(m: map<nat, Bytes>, labels: seq<nat>): Option<Bytes> {
    if labels == [] then Some([])
    else
      var front := TextOf(m, labels[..|labels| - 1]);
      if front.Some? && labels[|labels| - 1] in m then Some(front.value + m[labels[|labels| - 1]]) else None
  }

  lemma {:induction false} TextFails(m: map<nat, Bytes>, labels: seq<nat>, i: nat)
    requires i < |labels| && labels[i] !in m
    ensures TextOf(m, labels) == None
  {
    if i < |labels| - 1 { TextFails(m, labels[..|labels| - 1], i); }
  }

  /** The labels of known pieces decode to the pieces laid end to end. */
  lemma {:induction false} PiecesDecode(m: map<nat, Bytes>, s2l: map<Bytes, nat>, ps: seq<Bytes>)
    requires Consistent(m, s2l) && AllKnown(s2l, ps)
    ensures LookupAll(s2l, ps).Some? && |LookupAll(s2l, ps).value| == |ps|
    ensures TextOf(m, LookupAll(s2l, ps).value) == Some(Concat(ps))
  {
    if ps != [] {
      var front := ps[..|ps| - 1];
      assert forall i | 0 <= i < |front| :: front[i] == ps[i];
      PiecesDecode(m, s2l, front);
      var ls, l := LookupAll(s2l, front).value, s2l[ps[|ps| - 1]];
      assert (ls + [l])[..|ls|] == ls;
    }
  }

  /** Decoding the encoding of any encodable text gives the text. */
  lemma DecodeInvertsEncode(m: map<nat, Bytes>, s2l: map<Bytes, nat>, s: Bytes)
    requires Consistent(m, s2l) && AllKnown(s2l, CodePoints(s))
    ensures LookupAll(s2l, CodePoints(s)).Some? && TextOf(m, LookupAll(s2l, CodePoints(s)).value) == Some(s)
  {
    hide Split, TextOf, LookupAll;
    PiecesDecode(m, s2l, CodePoints(s));
    if s == [] { assert Concat<nat>([[]]) == []; } else { SplitIs(s); }
  }

  /** Every string of the alphabet is exactly one code point. */
  ghost predicate OneCodePointEach(m: map<nat, Bytes>) {
    forall k | k in m :: IsPiece(m[k]) && IsBoundary(m[k][0])
  }

  function PiecesOf(m: map<nat, Bytes>, labels: seq<nat>): seq<Bytes>
    requires forall l | l in labels :: l in m
  {
    if labels == [] then [] else PiecesOf(m, labels[..|labels| - 1]) + [m[labels[|labels| - 1]]]
  }

  lemma {:induction false} LabelPieces(m: map<nat, Bytes>, s2l: map<Bytes, nat>, labels: seq<nat>)
    requires Injective(m, s2l) && OneCodePointEach(m) && forall l | l in labels :: l in m
    ensures TextOf(m, labels) == Some(Concat(PiecesOf(m, labels)))
    ensures LookupAll(s2l, PiecesOf(m, labels)) == Some(labels)
    ensures |PiecesOf(m, labels)| == |labels|
    ensures forall i | 0 <= i < |labels| :: IsPiece(PiecesOf(m, labels)[i]) && IsBoundary(PiecesOf(m, labels)[i][0])
  {
    hide IsPiece, IsBoundary;
    if labels != [] {
      var front, l := labels[..|labels| - 1], labels[|labels| - 1];
      assert l in labels;
      LabelPieces(m, s2l, front);
      var ps := PiecesOf(m, front);
      ConcatAppend(ps, m[l]);
      assert (ps + [m[l]])[..|ps|] == ps;
      assert labels == front + [l];
    }
  }

  /** Encoding the decoding of a label list gives the labels exactly when there are any: the empty text is
      split into one empty piece, which has no label. */
  lemma EncodeInvertsDecode(m: map<nat, Bytes>, s2l: map<Bytes, nat>, labels: seq<nat>)
    requires Injective(m, s2l) && OneCodePointEach(m) && forall l | l in labels :: l in m
    ensures TextOf(m, labels).Some?
    ensures LookupAll(s2l, CodePoints(TextOf(m, labels).value)) == Some(labels) <==> labels != []
  {
    if labels == [] {
      LookupFails(s2l, [[]], 0);
    } else {
      hide Split, PiecesOf, TextOf, LookupAll, Injective, OneCodePointEach;
      LabelPieces(m, s2l, labels);
      var ps := PiecesOf(m, labels);
      NonEmptyConcat(ps);
      SplitUnique(ps, Concat(ps));
    }
  }
}
