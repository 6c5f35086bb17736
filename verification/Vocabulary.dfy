/** From the vocabulary of the language model to the entries of the dictionary. */
module Vocabulary {
  import opened Basics
  import opened Utf8
  import DictionaryWalk

  type Bytes = seq<nat>

  const START_TOKEN: Bytes := [60, 115, 62]
  const UNK_TOKEN: Bytes := [60, 117, 110, 107, 62]
  const END_TOKEN: Bytes := [60, 47, 115, 62]
  const SPACE: Bytes := [32]

  /** FST labels: the string of label i has FST label i + 1; of equal strings the last one counts. */
  ghost predicate IsCharMap(strings: seq<Bytes>, m: map<Bytes, nat>) {
    && (forall i | 0 <= i < |strings| :: strings[i] in m)
    && (forall s | s in m :: 1 <= m[s] <= |strings| && strings[m[s] - 1] == s
                          && forall i | m[s] <= i < |strings| :: strings[i] != s)
  }

  /** setup_char_map; `strings[i]` is the string of label i. */
  method SetupCharMap(strings: seq<Bytes>) returns (m: map<Bytes, nat>)
    ensures IsCharMap(strings, m)
  {
    m := map[];
    for i := 0 to |strings|
      invariant forall j | 0 <= j < i :: strings[j] in m
      invariant forall s | s in m ::
                  1 <= m[s] <= i && strings[m[s] - 1] == s && forall j | m[s] <= j < i :: strings[j] != s
    {
      m := m[strings[i] := i + 1];
    }
  }

  function SplitIntoBytes(word: Bytes): seq<Bytes> {
    seq(|word|, i requires 0 <= i < |word| => [word[i]])
  }

  /** The pieces of a word that are looked up. */
  function Characters(word: Bytes, utf8: bool): seq<Bytes> {
    if utf8 then SplitIntoBytes(word) else CodePoints(word)
  }

  lemma {:induction false} LookupIs(m: map<Bytes, nat>, ps: seq<Bytes>)
    ensures LookupAll(m, ps).Some? ==>
              |LookupAll(m, ps).value| == |ps| && forall i | 0 <= i < |ps| ::
                  ps[i] in m && LookupAll(m, ps).value[i] == m[ps[i]]
  {
    if ps != [] { LookupIs(m, ps[..|ps| - 1]); }
  }

  /** The dictionary entry of a word, in FST labels; None for a word with a character outside the alphabet. */
  function Entry(m: map<Bytes, nat>, utf8: bool, space: nat, word: Bytes): Option<seq<nat>> {
    var body := LookupAll(m, Characters(word, utf8));
    if body.None? then None else Some(if utf8 then body.value else body.value + [space + 1])
  }

  /** add_word_to_dictionary, up to the call that adds the labels to the automaton. */
  method WordLabels(m: map<Bytes, nat>, utf8: bool, space: nat, word: Bytes) returns (r: Option<seq<nat>>)
    ensures r == Entry(m, utf8, space, word)
  {
    hide Split;
    var ps: seq<Bytes>;
    if utf8 { ps := SplitIntoBytes(word); } else { ps := SplitIntoCodepoints(word); }
    var labels := [];
    for i := 0 to |ps|
      invariant LookupAll(m, ps[..i]) == Some(labels)
    {
      assert ps[..i + 1][..i] == ps[..i];
      if ps[i] !in m {
        LookupFails(m, ps, i);
        return None;
      }
      labels := labels + [m[ps[i]]];
    }
    assert ps[..|ps|] == ps;
    return Some(if utf8 then labels else labels + [space + 1]);
  }

  predicate IsToken(word: Bytes) {
    word == START_TOKEN || word == UNK_TOKEN || word == END_TOKEN
  }

  lemma TokensAre(word: Bytes)
    ensures IsToken(word) <==> word in [Ascii("<s>"), Ascii("<unk>"), Ascii("</s>")]
  {
    assert START_TOKEN == Ascii("<s>");
    assert UNK_TOKEN == Ascii("<unk>");
    assert END_TOKEN == Ascii("</s>");
  }

  /** The word loop of fill_dictionary: exactly the entries of the encodable words that are not tokens. */
  method FillDictionary(vocabulary: seq<Bytes>, m: map<Bytes, nat>, utf8: bool,
                        space: nat) returns (entries: set<seq<nat>>)
    ensures forall e :: e in entries <==>
              exists i :: 0 <= i < |vocabulary| && Entry(m, utf8, space, vocabulary[i]) == Some(e)
                && vocabulary[i] !in [Ascii("<s>"), Ascii("<unk>"), Ascii("</s>")]
  {
    hide Entry, IsToken, Ascii;
    forall i | 0 <= i < |vocabulary|
      ensures IsToken(vocabulary[i]) <==> vocabulary[i] in [Ascii("<s>"), Ascii("<unk>"), Ascii("</s>")]
    {
      TokensAre(vocabulary[i]);
    }
    entries := {};
    for k := 0 to |vocabulary|
      invariant forall e | e in entries ::
                  exists i :: 0 <= i < k && !IsToken(vocabulary[i]) && Entry(m, utf8, space, vocabulary[i]) == Some(e)
      invariant forall i | 0 <= i < k && !IsToken(vocabulary[i]) && Entry(m, utf8, space, vocabulary[i]).Some? ::
                  Entry(m, utf8, space, vocabulary[i]).value in entries
    {
      if !IsToken(vocabulary[k]) {
        var r := WordLabels(m, utf8, space, vocabulary[k]);
        if r.Some? { entries := entries + {r.value}; }
      }
    }
  }

  /** Pieces of a text without a space are not the space. */
  lemma {:induction false} NoSpacePiece(ps: seq<Bytes>, i: nat)
    requires i < |ps| && 32 !in Concat(ps)
    ensures 32 !in ps[i]
  {
    var front, last := ps[..|ps| - 1], ps[|ps| - 1];
    assert Concat(ps) == Concat(front) + last;
    if i < |ps| - 1 { NoSpacePiece(front, i); }
  }

  lemma ConcatOfCharacters(word: Bytes)
    requires word != []
    ensures Concat(Characters(word, false)) == word
  {
    hide Split;
    SplitIs(word);
  }

  /** The strings of some FST labels. */
  function Spelling(strings: seq<Bytes>, e: seq<nat>): seq<Bytes>
    requires forall l | l in e :: 1 <= l <= |strings|
  {
    seq(|e|, i requires 0 <= i < |e| => assert e[i] in e; strings[e[i] - 1])
  }

  /** Word mode: the entry of a word spells it and adds the space. */
  lemma EntrySpellsWord(strings: seq<Bytes>, m: map<Bytes, nat>, space: nat, word: Bytes)
    requires IsCharMap(strings, m) && space < |strings| && word != [] && Entry(m, false, space, word).Some?
    ensures forall l | l in Entry(m, false, space, word).value :: 1 <= l <= |strings|
    ensures Concat(Spelling(strings, Entry(m, false, space, word).value)) == word + strings[space]
  {
    hide Split, Concat;
    var ps := Characters(word, false);
    var body := LookupAll(m, ps).value;
    LookupIs(m, ps);
    ConcatOfCharacters(word);
    var e := body + [space + 1];
    assert forall i | 0 <= i < |e| :: 1 <= e[i] <= |strings|;
    assert Spelling(strings, e) == ps + [strings[space]];
    ConcatAppend(ps, strings[space]);
  }

  /** `x` is the last element and occurs nowhere else. */
  ghost predicate EndsOnlyIn(e: seq<nat>, x: nat) {
    e != [] && e[|e| - 1] == x && forall i | 0 <= i < |e| - 1 :: e[i] != x
  }

  /** Word mode: the entry of a word without spaces has the space label at its end and nowhere else. */
  lemma SpaceEndsEntry(strings: seq<Bytes>, m: map<Bytes, nat>, space: nat, word: Bytes)
    requires IsCharMap(strings, m) && space < |strings| && strings[space] == SPACE && 32 !in word
    ensures Entry(m, false, space, word).Some? ==> EndsOnlyIn(Entry(m, false, space, word).value, space + 1)
  {
    hide Split, Concat;
    var ps := Characters(word, false);
    var body := LookupAll(m, ps);
    if body.Some? {
      LookupIs(m, ps);
      var w := body.value;
      if word != [] { ConcatOfCharacters(word); }
      forall i | 0 <= i < |w| ensures w[i] != space + 1 {
        if word != [] { NoSpacePiece(ps, i); }
        assert 32 in SPACE && ps[i] != SPACE;
        assert strings[w[i] - 1] == ps[i];
      }
      assert Entry(m, false, space, word).value == w + [space + 1];
    }
  }

  /** Word mode: if no vocabulary word contains a space, the entries are prefix-free. */
  lemma WordEntriesArePrefixFree(strings: seq<Bytes>, m: map<Bytes, nat>, space: nat, vocabulary: seq<Bytes>,
                                 entries: set<seq<nat>>)
    requires IsCharMap(strings, m) && space < |strings| && strings[space] == SPACE
    requires forall i | 0 <= i < |vocabulary| :: 32 !in vocabulary[i]
    requires forall e | e in entries ::
               exists i :: 0 <= i < |vocabulary| && Entry(m, false, space, vocabulary[i]) == Some(e)
    ensures DictionaryWalk.PrefixFree(entries)
  {
    hide Entry, IsCharMap;
    forall e | e in entries ensures EndsOnlyIn(e, space + 1) {
      var i :| 0 <= i < |vocabulary| && Entry(m, false, space, vocabulary[i]) == Some(e);
      SpaceEndsEntry(strings, m, space, vocabulary[i]);
    }
    forall e, f | e in entries && f in entries && e <= f ensures e == f {
      assert EndsOnlyIn(e, space + 1) && EndsOnlyIn(f, space + 1);
      assert f[|e| - 1] == space + 1;
    }
  }

  /** Byte mode with the byte alphabet, whose FST labels are the bytes: the entry of a word is its bytes. */
  lemma {:induction false} ByteEntry(m: map<Bytes, nat>, space: nat, word: Bytes)
    requires forall b: nat | 1 <= b <= 255 :: [b] in m && m[[b]] == b
    requires forall b | b in word :: 1 <= b <= 255
    ensures Entry(m, true, space, word) == Some(word)
    decreases |word|
  {
    var ps := SplitIntoBytes(word);
    if word != [] {
      var front, b := word[..|word| - 1], word[|word| - 1];
      assert b in word && word == front + [b];
      forall x | x in front ensures x in word { }
      ByteEntry(m, space, front);
      assert ps[..|ps| - 1] == SplitIntoBytes(front);
    }
  }

  /** Byte mode: if the vocabulary consists of single code points, the entries are prefix-free. */
  lemma CodePointEntriesArePrefixFree(entries: set<seq<nat>>)
    requires forall e | e in entries :: IsCodePoint(e)
    ensures DictionaryWalk.PrefixFree(entries)
  {
    forall e, f | e in entries && f in entries && e <= f ensures e == f { CodePointsArePrefixFree(e, f); }
  }

  /** Trie labels are FST labels less one; prefix-freeness is the same for both. */
  function Unshift(e: seq<nat>): seq<nat> {
    seq(|e|, i requires 0 <= i < |e| => if e[i] == 0 then 0 else e[i] - 1)
  }

  lemma UnshiftedArePrefixFree(entries: set<seq<nat>>)
    requires DictionaryWalk.PrefixFree(entries) && forall e, x | e in entries && x in e :: x >= 1
    ensures DictionaryWalk.PrefixFree(set e | e in entries :: Unshift(e))
  {
    var shifted := set e | e in entries :: Unshift(e);
    forall a, b | a in shifted && b in shifted && a <= b ensures a == b {
      var e :| e in entries && a == Unshift(e);
      var f :| f in entries && b == Unshift(f);
      UnshiftPrefix(e, f);
    }
  }

  lemma UnshiftPrefix(e: seq<nat>, f: seq<nat>)
    requires (forall x | x in e :: x >= 1) && (forall x | x in f :: x >= 1) && Unshift(e) <= Unshift(f)
    ensures e <= f
  {
    forall i | 0 <= i < |e| ensures e[i] == f[i] {
      assert e[i] in e && f[i] in f;
      assert Unshift(e)[i] == Unshift(f)[i];
    }
  }
}
