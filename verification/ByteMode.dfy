/** The vocabulary, the trie and the scoring boundaries together. */
module ByteMode {
  import opened Basics
  import opened PathTrie
  import opened DictionaryWalk
  import opened Utf8
  import opened Scoring
  import opened Vocabulary

  lemma {:induction false} WellFormedConcat(ps: seq<seq<nat>>, s: seq<nat>)
    requires (forall i | 0 <= i < |ps| :: IsCodePoint(ps[i])) && WellFormed(s)
    ensures WellFormed(Concat(ps) + s)
    decreases |ps|
  {
    hide IsCodePoint, WellFormed;
    if ps == [] {
      assert Concat(ps) + s == s;
    } else {
      var front, p := ps[..|ps| - 1], ps[|ps| - 1];
      OneMore(p, s);
      WellFormedConcat(front, p + s);
      Regroup(Concat(front), p, s);
    }
  }

  lemma Regroup(x: seq<nat>, y: seq<nat>, z: seq<nat>)
    ensures x + (y + z) == x + y + z
  {
  }

  lemma OneMore(p: seq<nat>, s: seq<nat>)
    requires IsCodePoint(p) && WellFormed(s)
    ensures WellFormed(p + s)
  {
    assert (p + s)[..|p|] == p && (p + s)[|p|..] == s;
  }

  lemma {:induction false} BytesOfConcat(es: seq<seq<nat>>)
    ensures BytesOf(Concat(es)) == Concat(BytesOfAll(es))
  {
    if es == [] {
      assert BytesOf([]) == [] && BytesOfAll(es) == [];
    } else {
      var front, e := es[..|es| - 1], es[|es| - 1];
      BytesOfConcat(front);
      assert BytesOfAll(es)[..|es| - 1] == BytesOfAll(front);
      assert BytesOf(Concat(front) + e) == BytesOf(Concat(front)) + BytesOf(e);
    }
  }

  /** The bytes of a sequence of code points and an unfinished one begin a well-formed text. */
  lemma BeginsText(entries: set<seq<nat>>, path: seq<nat>, es: seq<seq<nat>>, rest: seq<nat>)
    requires Decomposes(entries, path, es, rest) && forall e | e in entries :: IsCodePoint(BytesOf(e))
    ensures BeginsWellFormed(BytesOf(path))
  {
    hide IsCodePoint, WellFormed, BytesOf, BytesOfAll, Shortest;
    var e :| e in entries && rest <= e;
    var tail := e[|rest|..];
    assert e == rest + tail;
    CodePoints(entries, es);
    SingleText(BytesOf(e));
    WellFormedConcat(BytesOfAll(es), BytesOf(e));
    BytesOfConcat(es);
    BytesOfBoth(rest, tail);
    BytesOfBoth(Concat(es), rest);
    Regroup(BytesOf(Concat(es)), BytesOf(rest), BytesOf(tail));
    assert WellFormed(BytesOf(path) + BytesOf(tail));
  }

  lemma CodePoints(entries: set<seq<nat>>, es: seq<seq<nat>>)
    requires forall i | 0 <= i < |es| :: Shortest(entries, es[i])
    requires forall e | e in entries :: IsCodePoint(BytesOf(e))
    ensures forall i | 0 <= i < |BytesOfAll(es)| :: IsCodePoint(BytesOfAll(es)[i])
  {
    hide IsCodePoint, BytesOf;
    forall i | 0 <= i < |es| ensures IsCodePoint(BytesOfAll(es)[i]) {
      assert Shortest(entries, es[i]) && es[i] in entries;
    }
  }

  lemma BytesOfBoth(a: seq<nat>, b: seq<nat>)
    ensures BytesOf(a + b) == BytesOf(a) + BytesOf(b)
  {
  }

  lemma SingleText(p: seq<nat>)
    requires IsCodePoint(p)
    ensures WellFormed(p)
  {
    assert p[..|p|] == p && p[|p|..] == [];
  }

  /** If the entries are single code points, the assertion on invalid bytes is not reached for any node of the
      trie, and a scoring boundary is exactly where the last code point is complete. */
  lemma InvalidBytesUnreachable(d: Dictionary, entries: set<seq<nat>>, nodes: map<NodeId, Node>,
                                paths: map<NodeId, seq<nat>>, n: NodeId)
    requires StatesOk(Some(d), nodes, paths) && n in nodes && n in paths && paths[n] != []
    requires Recognises(d, entries) && forall e | e in entries :: IsCodePoint(BytesOf(e))
    ensures IsScoringBoundary(paths[n]) == Some(WellFormed(BytesOf(paths[n])))
  {
    hide Recognises, DictState, IsCodePoint, WellFormed, Decomposes, BeginsWellFormed, IsScoringBoundary;
    assert StateOk(d, paths[n], nodes[n].dictState);
    var es, rest := AllowedDecomposes(d, entries, paths[n]);
    BeginsText(entries, paths[n], es, rest);
    BoundaryIsComplete(paths[n]);
  }

  /** The entries of byte mode in trie labels: their bytes are the words. */
  lemma UnshiftedBytes(word: seq<nat>)
    requires forall b | b in word :: b >= 1
    ensures BytesOf(Unshift(word)) == word
  {
    forall i | 0 <= i < |word| ensures BytesOf(Unshift(word))[i] == word[i] { assert word[i] in word; }
  }

  /** The map from the strings of the byte alphabet to automaton labels: label and byte are the same. */
  ghost predicate IsByteMap(m: map<Bytes, nat>) {
    forall b: nat | 1 <= b <= 255 :: [b] in m && m[[b]] == b
  }

  /** The same from the vocabulary: it consists of single code points without the byte 0, its words are looked up byte
      by byte, and the trie uses labels one less than the automaton. */
  lemma VocabularyKeepsBytesValid(d: Dictionary, m: map<Bytes, nat>, space: nat, vocabulary: seq<Bytes>,
                                  fst: set<seq<nat>>, nodes: map<NodeId, Node>, paths: map<NodeId, seq<nat>>, n: NodeId)
    requires StatesOk(Some(d), nodes, paths) && n in nodes && n in paths && paths[n] != []
    requires IsByteMap(m) && forall i | 0 <= i < |vocabulary| :: IsCodePoint(vocabulary[i]) && 0 !in vocabulary[i]
    requires forall f | f in fst :: exists i :: 0 <= i < |vocabulary| && Entry(m, true, space, vocabulary[i]) == Some(f)
    requires Recognises(d, set f | f in fst :: Unshift(f))
    ensures IsScoringBoundary(paths[n]) == Some(WellFormed(BytesOf(paths[n])))
  {
    hide Recognises, IsCodePoint, WellFormed, IsScoringBoundary, StatesOk, BytesOf, Entry, IsByteMap;
    var entries := set f | f in fst :: Unshift(f);
    forall e | e in entries ensures IsCodePoint(BytesOf(e)) {
      var f :| f in fst && e == Unshift(f);
      var i :| 0 <= i < |vocabulary| && Entry(m, true, space, vocabulary[i]) == Some(f);
      WordIsEntry(m, space, vocabulary[i]);
      UnshiftedBytes(f);
    }
    InvalidBytesUnreachable(d, entries, nodes, paths, n);
  }

  lemma WordIsEntry(m: map<Bytes, nat>, space: nat, word: Bytes)
    requires IsByteMap(m) && IsCodePoint(word) && 0 !in word
    ensures Entry(m, true, space, word) == Some(word) && forall b | b in word :: b >= 1
  {
    hide Entry;
    forall b | b in word ensures 1 <= b <= 255 {
      var i :| 0 <= i < |word| && word[i] == b;
      assert word[i] <= 255;
    }
    ByteEntry(m, space, word);
  }

  /** Word mode: with a vocabulary of words without spaces, the walk matches every word as a whole. */
  lemma WordsAreMatchedWhole(d: Dictionary, strings: seq<Bytes>, m: map<Bytes, nat>, space: nat, vocabulary: seq<Bytes>,
                             fst: set<seq<nat>>, e: seq<nat>)
    requires IsCharMap(strings, m) && space < |strings| && strings[space] == SPACE
    requires forall i | 0 <= i < |vocabulary| :: 32 !in vocabulary[i]
    requires forall f | f in fst ::
               exists i :: 0 <= i < |vocabulary| && Entry(m, false, space, vocabulary[i]) == Some(f)
    requires Recognises(d, set f | f in fst :: Unshift(f)) && e in (set f | f in fst :: Unshift(f))
    ensures MatchedWhole(d, set f | f in fst :: Unshift(f), e)
  {
    hide Recognises, MatchedWhole, IsCharMap, PrefixFree, Entry;
    WordEntriesArePrefixFree(strings, m, space, vocabulary, fst);
    forall f, x | f in fst && x in f ensures x >= 1 {
      var i :| 0 <= i < |vocabulary| && Entry(m, false, space, vocabulary[i]) == Some(f);
      EntryLabels(strings, m, space, vocabulary[i], x);
    }
    UnshiftedArePrefixFree(fst);
    MatchedWholeIff(d, set f | f in fst :: Unshift(f));
  }

  lemma EntryLabels(strings: seq<Bytes>, m: map<Bytes, nat>, space: nat, word: Bytes, x: nat)
    requires IsCharMap(strings, m) && Entry(m, false, space, word).Some? && x in Entry(m, false, space, word).value
    ensures x >= 1
  {
    var ps := Characters(word, false);
    LookupIs(m, ps);
    var e := Entry(m, false, space, word).value;
    var i :| 0 <= i < |e| && e[i] == x;
    if i < |ps| { assert ps[i] in m && x == m[ps[i]]; }
  }
}
