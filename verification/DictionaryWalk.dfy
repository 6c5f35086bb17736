/** The dictionary walk of the trie: an automaton that restarts whenever it completes an entry. */
module DictionaryWalk {
  import opened Basics
  import opened PathTrie
  import opened TrieOps

  /** The state of a node with the given path, if the dictionary allows the path. */
  function DictState(d: Dictionary, path: seq<nat>): Option<nat> {
    if path == [] then Some(d.start)
    else
      var c, before := path[|path| - 1], DictState(d, path[..|path| - 1]);
      if before.Some? && (before.value, c + 1) in d.delta then Some(NextDictState(d, before.value, c)) else None
  }

  lemma {:induction false} DictStateAppend(d: Dictionary, path: seq<nat>, c: nat)
    ensures DictState(d, path + [c])
         == var before := DictState(d, path);
            if before.Some? && (before.value, c + 1) in d.delta then Some(NextDictState(d, before.value, c)) else None
  {
    assert (path + [c])[..|path|] == path;
  }

  ghost predicate StateOk(d: Dictionary, path: seq<nat>, state: nat) {
    DictState(d, path) == Some(state) && (state in d.finals ==> state == d.start)
  }

  /** Every node carries the state its path leads to; a final one can only be the start state. */
  ghost predicate StatesOk(dict: Option<Dictionary>, nodes: map<NodeId, Node>, paths: map<NodeId, seq<nat>>) {
    dict.Some? ==> forall q {:trigger nodes[q]} | q in nodes && q in paths ::
        StateOk(dict.value, paths[q], nodes[q].dictState)
  }

  /** For every dictionary: a failed match rewrites the node's state with the state it already has. */
  lemma RewriteChangesNothing(dict: Option<Dictionary>, nodes: map<NodeId, Node>, paths: map<NodeId, seq<nat>>,
                              next: NodeId,
                              s: NodeId, c: nat, nodes': map<NodeId, Node>, next': NodeId)
    requires StatesOk(dict, nodes, paths) && s in nodes && s in paths
    requires Expanded(dict, nodes, next, s, c, None, nodes', next')
    ensures nodes' == nodes
  {
    hide DictState;
    assert StateOk(dict.value, paths[s], nodes[s].dictState);
    assert nodes[s].(dictState := nodes[s].dictState) == nodes[s];
  }

  lemma StatesOkExpand(dict: Option<Dictionary>, nodes: map<NodeId, Node>, paths: map<NodeId, seq<nat>>, next: NodeId,
                       s: NodeId, c: nat, r: Option<NodeId>, nodes': map<NodeId, Node>, paths': map<NodeId, seq<nat>>,
                       next': NodeId)
    requires StatesOk(dict, nodes, paths) && s in nodes && next !in nodes && paths.Keys == nodes.Keys
    requires Expanded(dict, nodes, next, s, c, r, nodes', next')
    requires paths' == if r.Some? && r.value !in nodes then paths[r.value := paths[s] + [c]] else paths
    ensures StatesOk(dict, nodes', paths')
  {
    hide DictState;
    if dict.Some? {
      assert StateOk(dict.value, paths[s], nodes[s].dictState);
      DictStateAppend(dict.value, paths[s], c);
      forall q | q in nodes' && q in paths' ensures StateOk(dict.value, paths'[q], nodes'[q].dictState) {
        if q in nodes { assert StateOk(dict.value, paths[q], nodes[q].dictState); }
      }
    }
  }

  lemma StatesOkSame(dict: Option<Dictionary>, nodes: map<NodeId, Node>, paths: map<NodeId, seq<nat>>,
                     nodes': map<NodeId, Node>, paths': map<NodeId, seq<nat>>)
    requires StatesOk(dict, nodes, paths) && SubMap(paths, paths')
    requires forall q | q in nodes' :: q in nodes && nodes'[q].dictState == nodes[q].dictState
    ensures StatesOk(dict, nodes', paths')
  {
    hide DictState;
    if dict.Some? {
      forall q | q in nodes' && q in paths' ensures StateOk(dict.value, paths'[q], nodes'[q].dictState) {
        assert StateOk(dict.value, paths[q], nodes[q].dictState);
      }
    }
  }

  // ----- which paths a dictionary of entries allows

  /** The automaton without the restarts. */
  function Run(d: Dictionary, w: seq<nat>): Option<nat> {
    if w == [] then Some(d.start)
    else
      var c, before := w[|w| - 1], Run(d, w[..|w| - 1]);
      if before.Some? && (before.value, c + 1) in d.delta then Some(d.delta[(before.value, c + 1)]) else None
  }

  lemma {:induction false} RunAppend(d: Dictionary, w: seq<nat>, c: nat)
    ensures Run(d, w + [c])
         == var before := Run(d, w);
            if before.Some? && (before.value, c + 1) in d.delta then Some(d.delta[(before.value, c + 1)]) else None
  {
    assert (w + [c])[..|w|] == w;
  }

  ghost predicate Begins(w: seq<nat>, entries: set<seq<nat>>) {
    exists e | e in entries :: w <= e
  }

  /** Exactly the beginnings of entries have a run, and exactly the entries end in a final state. */
  ghost predicate Recognises(d: Dictionary, entries: set<seq<nat>>) {
    forall w: seq<nat> {:trigger Run(d, w)} ::
      && (Run(d, w).Some? <==> Begins(w, entries))
      && (Run(d, w).Some? ==> (Run(d, w).value in d.finals <==> w in entries))
  }

  ghost predicate PrefixFree(entries: set<seq<nat>>) {
    && [] !in entries
    && forall e, f | e in entries && f in entries && e <= f :: e == f
  }

  /** One more label: the walk of `front` extended by `c`, told by the run of the unfinished entry. */
  lemma WalkStep(d: Dictionary, entries: set<seq<nat>>, front: seq<nat>, rest: seq<nat>, c: nat)
    requires Recognises(d, entries) && DictState(d, front).Some? && DictState(d, front) == Run(d, rest)
    ensures DictState(d, front + [c]).Some? <==> Begins(rest + [c], entries)
    ensures Begins(rest + [c], entries) ==>
              DictState(d, front + [c]) == if rest + [c] in entries then Run(d, []) else Run(d, rest + [c])
  {
    hide DictState, Begins;
    DictStateAppend(d, front, c);
    RunAppend(d, rest, c);
    assert Run(d, rest + [c]).Some? <==> Begins(rest + [c], entries);
  }

  lemma EmptyBegins(d: Dictionary, entries: set<seq<nat>>)
    requires Recognises(d, entries)
    ensures Begins([], entries) && DictState(d, []) == Run(d, []) && Run(d, []).Some?
  {
    assert Run(d, []).Some?;
  }

  /** A non-empty entry that no shorter one begins. */
  ghost predicate Shortest(entries: set<seq<nat>>, e: seq<nat>) {
    e != [] && e in entries && forall k | 0 < k < |e| :: e[..k] !in entries
  }

  /** The beginning of an entry, with no entry complete yet. */
  ghost predicate Unfinished(entries: set<seq<nat>>, w: seq<nat>) {
    Begins(w, entries) && forall k | 0 < k <= |w| :: w[..k] !in entries
  }

  /** `path` is complete entries followed by an unfinished one. */
  ghost predicate Decomposes(entries: set<seq<nat>>, path: seq<nat>, es: seq<seq<nat>>, rest: seq<nat>) {
    && path == Concat(es) + rest
    && (forall i | 0 <= i < |es| :: Shortest(entries, es[i]))
    && Unfinished(entries, rest)
  }

  /** One more label completes an entry or leaves it unfinished. */
  lemma UnfinishedMore(entries: set<seq<nat>>, w: seq<nat>, c: nat)
    requires Unfinished(entries, w) && Begins(w + [c], entries)
    ensures if w + [c] in entries then Shortest(entries, w + [c]) else Unfinished(entries, w + [c])
  {
    hide Begins;
    forall k | 0 < k <= |w| ensures (w + [c])[..k] !in entries { assert (w + [c])[..k] == w[..k]; }
    assert (w + [c])[..|w + [c]|] == w + [c];
  }

  lemma UnfinishedLess(entries: set<seq<nat>>, w: seq<nat>, c: nat)
    requires Unfinished(entries, w + [c]) || Shortest(entries, w + [c])
    ensures Unfinished(entries, w) && Begins(w + [c], entries)
    ensures w + [c] in entries <==> Shortest(entries, w + [c])
  {
    if w + [c] in entries { EntryBegins(entries, w + [c]); }
    var e :| e in entries && w + [c] <= e;
    assert w <= e;
    forall k | 0 < k <= |w| ensures w[..k] !in entries { assert (w + [c])[..k] == w[..k]; }
    assert (w + [c])[..|w + [c]|] == w + [c];
  }

  lemma NothingUnfinished(d: Dictionary, entries: set<seq<nat>>)
    requires Recognises(d, entries)
    ensures Unfinished(entries, []) && DictState(d, []) == Run(d, []) && Run(d, []).Some?
  {
    EmptyBegins(d, entries);
  }

  /** For every dictionary: every path the trie may hold decomposes, and the state only remembers the
      unfinished entry. */
  lemma {:induction false} AllowedDecomposes(d: Dictionary, entries: set<seq<nat>>, path: seq<nat>)
      returns (es: seq<seq<nat>>, rest: seq<nat>)
    requires Recognises(d, entries) && DictState(d, path).Some?
    ensures Decomposes(entries, path, es, rest) && DictState(d, path) == Run(d, rest)
  {
    hide DictState, Run, Recognises, Begins, Shortest, Unfinished;
    NothingUnfinished(d, entries);
    if path == [] {
      es, rest := [], [];
    } else {
      var c, front := path[|path| - 1], path[..|path| - 1];
      assert path == front + [c];
      DictStateAppend(d, front, c);
      es, rest := AllowedDecomposes(d, entries, front);
      WalkStep(d, entries, front, rest, c);
      UnfinishedMore(entries, rest, c);
      var more := rest + [c];
      assert path == Concat(es) + more;
      if more in entries {
        ConcatAppend(es, more);
        es, rest := es + [more], [];
      } else {
        rest := more;
      }
    }
  }

  /** For every dictionary: every sequence that decomposes is allowed. */
  lemma {:induction false} DecomposesAllowed(d: Dictionary, entries: set<seq<nat>>, path: seq<nat>, es: seq<seq<nat>>,
                                             rest: seq<nat>)
    requires Recognises(d, entries) && Decomposes(entries, path, es, rest)
    ensures DictState(d, path).Some? && DictState(d, path) == Run(d, rest)
    decreases |path|, |es|
  {
    hide DictState, Run, Recognises, Begins, Shortest, Unfinished;
    NothingUnfinished(d, entries);
    if rest != [] {
      var c, front, path' := rest[|rest| - 1], rest[..|rest| - 1], path[..|path| - 1];
      assert rest == front + [c] && path == path' + [c];
      UnfinishedLess(entries, front, c);
      NotShortest(entries, rest);
      assert path' == Concat(es) + front;
      DecomposesAllowed(d, entries, path', es, front);
      WalkStep(d, entries, path', front, c);
    } else if es != [] {
      var e, es' := es[|es| - 1], es[..|es| - 1];
      assert es == es' + [e] && Shortest(entries, e);
      NotEmpty(entries, e);
      ConcatAppend(es', e);
      var c, front, path' := e[|e| - 1], e[..|e| - 1], path[..|path| - 1];
      assert e == front + [c] && path == path' + [c];
      UnfinishedLess(entries, front, c);
      assert path' == Concat(es') + front;
      DecomposesAllowed(d, entries, path', es', front);
      WalkStep(d, entries, path', front, c);
    } else {
      assert path == [];
    }
  }

  lemma NotEmpty(entries: set<seq<nat>>, e: seq<nat>)
    requires Shortest(entries, e)
    ensures e != []
  {
  }

  lemma NotShortest(entries: set<seq<nat>>, w: seq<nat>)
    requires Unfinished(entries, w) && w != []
    ensures w !in entries
  {
    assert w[..|w|] == w;
  }

  lemma EntryBegins(entries: set<seq<nat>>, e: seq<nat>)
    requires e in entries
    ensures Begins(e, entries)
  {
    assert e <= e;
  }

  /** The decomposition before the last label. */
  lemma DecomposeFront(entries: set<seq<nat>>, path: seq<nat>, es: seq<seq<nat>>, rest: seq<nat>)
      returns (es': seq<seq<nat>>, rest': seq<nat>)
    requires Decomposes(entries, path, es, rest) && path != []
    ensures Decomposes(entries, path[..|path| - 1], es', rest')
    ensures var more := rest' + [path[|path| - 1]];
            if more in entries then es == es' + [more] && rest == [] else es == es' && rest == more
  {
    hide Begins, Shortest, Unfinished;
    var c := path[|path| - 1];
    if rest != [] {
      es', rest' := es, rest[..|rest| - 1];
      assert rest == rest' + [c] && path[..|path| - 1] == Concat(es) + rest';
      UnfinishedLess(entries, rest', c);
      NotShortest(entries, rest);
    } else {
      assert es != [];
      var e := es[|es| - 1];
      es' := es[..|es| - 1];
      assert es == es' + [e] && Shortest(entries, e);
      NotEmpty(entries, e);
      rest' := e[..|e| - 1];
      ConcatAppend(es', e);
      assert e == rest' + [c] && path[..|path| - 1] == Concat(es') + rest';
      UnfinishedLess(entries, rest', c);
    }
  }

  /** A label sequence decomposes in one way only. */
  lemma {:induction false} DecomposesOnce(entries: set<seq<nat>>, path: seq<nat>, es: seq<seq<nat>>, rest: seq<nat>,
                                          fs: seq<seq<nat>>, tail: seq<nat>)
    requires Decomposes(entries, path, es, rest) && Decomposes(entries, path, fs, tail)
    ensures es == fs && rest == tail
    decreases |path|
  {
    hide Begins, Shortest, Unfinished;
    if path == [] {
      NothingLeft(entries, es, rest);
      NothingLeft(entries, fs, tail);
    } else {
      var es', rest' := DecomposeFront(entries, path, es, rest);
      var fs', tail' := DecomposeFront(entries, path, fs, tail);
      DecomposesOnce(entries, path[..|path| - 1], es', rest', fs', tail');
    }
  }

  lemma NothingLeft(entries: set<seq<nat>>, es: seq<seq<nat>>, rest: seq<nat>)
    requires Decomposes(entries, [], es, rest)
    ensures es == [] && rest == []
  {
    SomeLeft(entries, es);
  }

  lemma SomeLeft(entries: set<seq<nat>>, es: seq<seq<nat>>)
    requires forall i | 0 <= i < |es| :: Shortest(entries, es[i])
    ensures es != [] ==> Concat(es) != []
  {
    if es != [] { NotEmpty(entries, es[|es| - 1]); }
  }

  /** The walk along entry `e` ends where it began, and the only way to decompose `e` is as that one entry. */
  ghost predicate MatchedWhole(d: Dictionary, entries: set<seq<nat>>, e: seq<nat>) {
    && DictState(d, e) == Run(d, [])
    && Decomposes(entries, e, [e], [])
    && forall es, rest | Decomposes(entries, e, es, rest) :: es == [e] && rest == []
  }

  lemma ShortestIsMatched(d: Dictionary, entries: set<seq<nat>>, e: seq<nat>)
    requires Recognises(d, entries) && Shortest(entries, e)
    ensures MatchedWhole(d, entries, e)
  {
    hide Recognises, Shortest, Unfinished, DictState, Run;
    NothingUnfinished(d, entries);
    ConcatAppend([], e);
    assert Decomposes(entries, e, [e], []);
    DecomposesAllowed(d, entries, e, [e], []);
    forall es, rest | Decomposes(entries, e, es, rest) ensures es == [e] && rest == [] {
      DecomposesOnce(entries, e, es, rest, [e], []);
    }
  }

  /** For every dictionary: the walk matches every entry as a whole if and only if no entry begins another. */
  lemma MatchedWholeIff(d: Dictionary, entries: set<seq<nat>>)
    requires Recognises(d, entries)
    ensures (forall e | e in entries :: MatchedWhole(d, entries, e)) <==> PrefixFree(entries)
  {
    hide Recognises, DictState, Run;
    if PrefixFree(entries) {
      forall e | e in entries ensures MatchedWhole(d, entries, e) {
        EntryIsShortest(entries, e);
        ShortestIsMatched(d, entries, e);
      }
    } else if [] !in entries {
      var e, f :| e in entries && f in entries && e <= f && e != f;
      assert f[..|e|] == e && !Shortest(entries, f);
      assert [f][0] == f;
      assert !Decomposes(entries, f, [f], []);
    } else {
      var none: seq<nat> := [];
      assert [none][0] == none && !Shortest(entries, none);
      assert !Decomposes(entries, none, [none], []);
    }
  }

  lemma EntryIsShortest(entries: set<seq<nat>>, e: seq<nat>)
    requires PrefixFree(entries) && e in entries
    ensures Shortest(entries, e)
  {
    forall k | 0 < k < |e| ensures e[..k] !in entries { assert e[..k] <= e; }
  }

  /** With the entries 0 and 01, and no other, the second can never be completed. */
  lemma HiddenEntry(d: Dictionary)
    requires Recognises(d, {[0], [0, 1]})
    ensures DictState(d, [0, 1]).None?
  {
    hide DictState, Run, Recognises;
    var entries := {[0], [0, 1]};
    NothingUnfinished(d, entries);
    EntryBegins(entries, [0]);
    assert [] + [0] == [0] && [0] + [1] == [0, 1] && [] + [1] == [1];
    WalkStep(d, entries, [], [], 0);
    assert [1][0] != [0][0] && [1][0] != [0, 1][0];
    WalkStep(d, entries, [0], [], 1);
  }
}
