/** Which expansions are recorded during a frame, for the timesteps.  Like the masses, the record of every node has
    a closed form in terms of the visits made so far, and of the order in which the loops make them. */
module BeamRecord {
  import opened Basics
  import opened PathTrie
  import opened TrieOps
  import opened Ctc
  import opened Beam
  import opened BeamCtc
  import opened Hypotheses

  /** Classes and prefixes in the order of the two loops. */
  datatype Order = Order(kept: seq<nat>, beam: seq<NodeId>)

  ghost predicate ValidOrder(o: Order) {
    NoDup(o.kept) && NoDup(o.beam)
  }

  /** Everything visited was visited before prefix `s` is for class `c`. */
  ghost predicate Upcoming(o: Order, done: set<Pair>, c: nat, s: NodeId) {
    forall e | e in done :: Precedes(o.kept, e.0, c) || (e.0 == c && Precedes(o.beam, e.1, s))
  }

  /** Has the expansion that leads to `q` won so far? */
  ghost predicate Recorded(o: Order, nodes: map<NodeId, Node>, paths: map<NodeId, seq<nat>>, doneR: set<Pair>,
                           doneE: set<Pair>, p: Frame, blank: nat, sc: Option<Scorer>, q: NodeId)
    requires q in nodes && paths.Keys == nodes.Keys
  {
    && ExtendDone(nodes, doneE, blank, q) && nodes[q].parent in nodes
    && Wins(Precedes(o.beam, q, nodes[q].parent), Precedes(o.kept, nodes[q].character, blank),
            BlankIn(nodes, doneR, p, blank, q), RepeatIn(nodes, doneR, p, blank, q),
            ExtendIn(nodes, paths, doneE, p, blank, sc, q))
  }

  ghost predicate RecordAt(o: Order, nodes: map<NodeId, Node>, paths: map<NodeId, seq<nat>>, doneR: set<Pair>,
                           doneE: set<Pair>, p: Frame, blank: nat, sc: Option<Scorer>, q: NodeId)
    requires q in nodes && paths.Keys == nodes.Keys
  {
    nodes[q].prevTimesteps
    == if Recorded(o, nodes, paths, doneR, doneE, p, blank, sc, q) then nodes[nodes[q].parent].timesteps else None
  }

  ghost predicate Records(o: Order, nodes: map<NodeId, Node>, paths: map<NodeId, seq<nat>>, doneR: set<Pair>,
                          doneE: set<Pair>, p: Frame, blank: nat, sc: Option<Scorer>) {
    && paths.Keys == nodes.Keys
    && forall q {:trigger RecordAt(o, nodes, paths, doneR, doneE, p, blank, sc, q)} | q in nodes ::
         RecordAt(o, nodes, paths, doneR, doneE, p, blank, sc, q)
  }

  /** The record of a node depends on its own visits and on its parent. */
  lemma RecordSame(o: Order, nodes: map<NodeId, Node>, paths: map<NodeId, seq<nat>>, doneR: set<Pair>,
                   doneE: set<Pair>, nodes': map<NodeId, Node>, paths': map<NodeId, seq<nat>>, doneR': set<Pair>,
                   doneE': set<Pair>, p: Frame, blank: nat, sc: Option<Scorer>, q: NodeId)
    requires paths.Keys == nodes.Keys && paths'.Keys == nodes'.Keys && q in nodes && q in nodes'
    requires RecordAt(o, nodes, paths, doneR, doneE, p, blank, sc, q)
    requires var v, v' := nodes[q], nodes'[q];
             v'.prevTimesteps == v.prevTimesteps && v'.character == v.character && v'.parent == v.parent
               && v'.score == v.score && v'.nbPrev == v.nbPrev
    requires (blank, q) in doneR <==> (blank, q) in doneR'
    requires (nodes[q].character, q) in doneR <==> (nodes[q].character, q) in doneR'
    requires ExtendDone(nodes, doneE, blank, q) <==> ExtendDone(nodes, doneE', blank, q)
    requires ExtendDone(nodes, doneE, blank, q) ==>
               var s := nodes[q].parent;
               && s in nodes && s in nodes' && paths'[s] == paths[s] && nodes'[s].timesteps == nodes[s].timesteps
               && nodes'[s].character == nodes[s].character && nodes'[s].score == nodes[s].score
               && nodes'[s].bPrev == nodes[s].bPrev
    ensures RecordAt(o, nodes', paths', doneR', doneE', p, blank, sc, q)
  {
    hide Prob, ExtendFactor, Wins, Precedes;
    assert ExtendDone(nodes', doneE', blank, q) <==> ExtendDone(nodes, doneE, blank, q);
    assert BlankIn(nodes', doneR', p, blank, q) == BlankIn(nodes, doneR, p, blank, q);
    assert RepeatIn(nodes', doneR', p, blank, q) == RepeatIn(nodes, doneR, p, blank, q);
    if ExtendDone(nodes, doneE, blank, q) {
      assert ExtendIn(nodes', paths', doneE', p, blank, sc, q) == ExtendIn(nodes, paths, doneE, p, blank, sc, q);
    }
  }

  // ----- the visits

  /** Neither the masses before the frame nor the tree around it change. */
  predicate SameBefore(v: Node, v': Node) {
    && v'.character == v.character && v'.parent == v.parent && v'.timesteps == v.timesteps
    && v'.score == v.score && v'.bPrev == v.bPrev && v'.nbPrev == v.nbPrev
  }

  lemma OthersSame(o: Order, nodes: map<NodeId, Node>, paths: map<NodeId, seq<nat>>, doneR: set<Pair>,
                   doneE: set<Pair>, q: NodeId, v: Node, doneR': set<Pair>, doneE': set<Pair>, p: Frame, blank: nat,
                   sc: Option<Scorer>)
    requires Records(o, nodes, paths, doneR, doneE, p, blank, sc) && q in nodes && SameBefore(nodes[q], v)
    requires DoneLive(nodes, doneE)
    requires forall k | k in nodes && k != q ::
               && ((blank, k) in doneR <==> (blank, k) in doneR')
               && ((nodes[k].character, k) in doneR <==> (nodes[k].character, k) in doneR')
               && (ExtendDone(nodes, doneE, blank, k) <==> ExtendDone(nodes, doneE', blank, k))
    requires RecordAt(o, nodes[q := v], paths, doneR', doneE', p, blank, sc, q)
    ensures Records(o, nodes[q := v], paths, doneR', doneE', p, blank, sc)
  {
    hide RecordAt;
    forall k | k in nodes ensures RecordAt(o, nodes[q := v], paths, doneR', doneE', p, blank, sc, k) {
      assert RecordAt(o, nodes, paths, doneR, doneE, p, blank, sc, k);
      if k != q { RecordSame(o, nodes, paths, doneR, doneE, nodes[q := v], paths, doneR', doneE', p, blank, sc, k); }
    }
  }

  lemma RecordBlank(o: Order, nodes: map<NodeId, Node>, paths: map<NodeId, seq<nat>>, done: set<Pair>, p: Frame,
                    blank: nat, sc: Option<Scorer>, s: NodeId, v: Node)
    requires Records(o, nodes, paths, done, done, p, blank, sc) && Accum(nodes, paths, done, done, p, blank, sc)
    requires ValidOrder(o) && Upcoming(o, done, blank, s) && s in nodes && (blank, s) !in done && DoneLive(nodes, done)
    requires var mass := Prob(p, blank) * nodes[s].score;
             v == nodes[s].(bCur := v.bCur,
                            prevTimesteps := if nodes[s].nbCur < mass then None else nodes[s].prevTimesteps)
    requires nodes[s].nbCur >= 0.0
    ensures Records(o, nodes[s := v], paths, done + {(blank, s)}, done + {(blank, s)}, p, blank, sc)
  {
    hide Prob, ExtendFactor, Precedes, NoDup;
    assert AccumAt(nodes, paths, done, done, p, blank, sc, s);
    assert RecordAt(o, nodes, paths, done, done, p, blank, sc, s);
    var done' := done + {(blank, s)};
    BaseSame(nodes, s, v);
    OneOrder(o.kept, blank, blank);
    assert RecordAt(o, nodes[s := v], paths, done', done', p, blank, sc, s);
    OthersSame(o, nodes, paths, done, done, s, v, done', done', p, blank, sc);
  }

  /** A repeat that outweighs what the expansion brought takes the record away. */
  lemma RepeatWins(grown: bool, repeatFirst: bool, blankLast: bool, s: real, r: real, g: real)
    requires grown ==> !repeatFirst
    requires (blankLast ==> s == 0.0) && r >= 0.0
    ensures grown && Wins(repeatFirst, blankLast, s, 0.0, g) && !(g < r) <==>
              grown && Wins(repeatFirst, blankLast, s, r, g)
  {
  }

  lemma RecordRepeat(o: Order, nodes: map<NodeId, Node>, paths: map<NodeId, seq<nat>>, done: set<Pair>, p: Frame,
                     blank: nat, sc: Option<Scorer>, s: NodeId, c: nat, v: Node)
    requires Records(o, nodes, paths, done, done, p, blank, sc) && Accum(nodes, paths, done, done, p, blank, sc)
    requires ValidOrder(o) && Upcoming(o, done, c, s) && s in nodes && (c, s) !in done && c != blank
             && DoneLive(nodes, done)
    requires var mass := Prob(p, c) * nodes[s].nbPrev;
             mass >= 0.0 &&
             v == if c != nodes[s].character then nodes[s]
                  else nodes[s].(nbCur := v.nbCur,
                                 prevTimesteps := if nodes[s].nbCur < mass then None else nodes[s].prevTimesteps)
    ensures Records(o, nodes[s := v], paths, done + {(c, s)}, done, p, blank, sc)
  {
    hide Records, Accum, ValidOrder, Upcoming, Prob;
    AtNode(o, nodes, paths, done, done, p, blank, sc, s);
    var done' := done + {(c, s)};
    if c == nodes[s].character {
      UpcomingFacts(o, done, c, s, blank, nodes[s].parent);
      RepeatAtNode(o, nodes, paths, done, p, blank, sc, s, c, v);
    } else {
      RecordSame(o, nodes, paths, done, done, nodes[s := v], paths, done', done, p, blank, sc, s);
    }
    OthersSame(o, nodes, paths, done, done, s, v, done', done, p, blank, sc);
  }

  lemma RepeatAtNode(o: Order, nodes: map<NodeId, Node>, paths: map<NodeId, seq<nat>>, done: set<Pair>, p: Frame,
                     blank: nat, sc: Option<Scorer>, s: NodeId, c: nat, v: Node)
    requires s in nodes && paths.Keys == nodes.Keys && (c, s) !in done && c != blank && c == nodes[s].character
    requires AccumAt(nodes, paths, done, done, p, blank, sc, s)
             && RecordAt(o, nodes, paths, done, done, p, blank, sc, s)
    requires (c, nodes[s].parent) in done ==> !Precedes(o.beam, s, nodes[s].parent)
    requires (blank, s) in done ==> !Precedes(o.kept, c, blank)
    requires var mass := Prob(p, c) * nodes[s].nbPrev;
             mass >= 0.0 &&
             v == nodes[s].(nbCur := v.nbCur,
                            prevTimesteps := if nodes[s].nbCur < mass then None else nodes[s].prevTimesteps)
    ensures RecordAt(o, nodes[s := v], paths, done + {(c, s)}, done, p, blank, sc, s)
  {
    hide Prob, ExtendFactor, Precedes, Wins;
    BaseSame(nodes, s, v);
    var g, b, r := ExtendIn(nodes, paths, done, p, blank, sc, s), BlankIn(nodes, done, p, blank, s),
      Prob(p, c) * nodes[s].nbPrev;
    var grown := ExtendDone(nodes, done, blank, s) && nodes[s].parent in nodes;
    RepeatWins(grown, Precedes(o.beam, s, nodes[s].parent), Precedes(o.kept, c, blank), b, r, g);
    var nodes', done' := nodes[s := v], done + {(c, s)};
    assert RepeatIn(nodes, done, p, blank, s) == 0.0 && nodes[s].nbCur == g;
    assert ExtendDone(nodes', done, blank, s) <==> ExtendDone(nodes, done, blank, s);
    assert ExtendIn(nodes', paths, done, p, blank, sc, s) == g;
    assert BlankIn(nodes', done', p, blank, s) == b;
    assert RepeatIn(nodes', done', p, blank, s) == r;
  }

  lemma AtNode(o: Order, nodes: map<NodeId, Node>, paths: map<NodeId, seq<nat>>, doneR: set<Pair>, doneE: set<Pair>,
               p: Frame, blank: nat, sc: Option<Scorer>, q: NodeId)
    requires Records(o, nodes, paths, doneR, doneE, p, blank, sc) && Accum(nodes, paths, doneR, doneE, p, blank, sc)
    requires q in nodes
    ensures paths.Keys == nodes.Keys && RecordAt(o, nodes, paths, doneR, doneE, p, blank, sc, q)
    ensures AccumAt(nodes, paths, doneR, doneE, p, blank, sc, q)
  {
    hide RecordAt, AccumAt;
  }

  /** What has been visited already says which of two came first. */
  lemma UpcomingFacts(o: Order, done: set<Pair>, c: nat, s: NodeId, blank: nat, r: NodeId)
    requires ValidOrder(o) && Upcoming(o, done, c, s)
    ensures (c, r) in done ==> Precedes(o.beam, r, s) && !Precedes(o.beam, s, r)
    ensures c != blank && (blank, r) in done ==> !Precedes(o.kept, c, blank)
    ensures c != blank && (blank, s) in done ==> !Precedes(o.kept, c, blank)
  {
    hide Precedes, NoDup;
    OneOrder(o.beam, r, s);
    OneOrder(o.kept, c, blank);
  }

  // ----- the child

  /** A child that is not there, or was given up, has nothing recorded. */
  lemma RecordExpand(o: Order, dict: Option<Dictionary>, nodes: map<NodeId, Node>, paths: map<NodeId, seq<nat>>,
                     next: NodeId, doneR: set<Pair>, doneE: set<Pair>, p: Frame, blank: nat, sc: Option<Scorer>,
                     s: NodeId, c: nat, r: Option<NodeId>, nodes': map<NodeId, Node>, paths': map<NodeId, seq<nat>>,
                     next': NodeId)
    requires Records(o, nodes, paths, doneR, doneE, p, blank, sc) && Wf(nodes, paths, next)
    requires s in nodes && c != blank && (c, s) !in doneE && DoneLive(nodes, doneE)
    requires Expanded(dict, nodes, next, s, c, r, nodes', next')
    requires paths' == if r.Some? && r.value !in nodes then paths[r.value := paths[s] + [c]] else paths
    requires forall q | q in nodes && !nodes[q].live :: nodes[q].prevTimesteps.None?
    ensures Records(o, nodes', paths', doneR, doneE, p, blank, sc)
  {
    hide ExtendFactor, Prob, Wf, NextDictState, ExtendIn, BlankIn, RepeatIn, RecordAt;
    WfKeys(nodes, paths, next);
    var skip := if r.Some? && (r.value in nodes ==> !nodes[r.value].live) then r.value else next;
    forall q | q in nodes && q != skip ensures RecordAt(o, nodes', paths', doneR, doneE, p, blank, sc, q) {
      assert RecordAt(o, nodes, paths, doneR, doneE, p, blank, sc, q);
      RecordSame(o, nodes, paths, doneR, doneE, nodes', paths', doneR, doneE, p, blank, sc, q);
    }
    if skip in nodes' {
      if skip in nodes { ChildIs(nodes, paths, next, s, (c, skip)); }
      RecordNone(o, nodes', paths', doneR, doneE, p, blank, sc, skip);
    }
  }

  lemma RecordNone(o: Order, nodes: map<NodeId, Node>, paths: map<NodeId, seq<nat>>, doneR: set<Pair>,
                   doneE: set<Pair>, p: Frame, blank: nat, sc: Option<Scorer>, q: NodeId)
    requires q in nodes && paths.Keys == nodes.Keys && nodes[q].prevTimesteps.None?
    requires (nodes[q].character, nodes[q].parent) !in doneE
    ensures RecordAt(o, nodes, paths, doneR, doneE, p, blank, sc, q)
  {
  }

  lemma RecordRefused(o: Order, nodes: map<NodeId, Node>, paths: map<NodeId, seq<nat>>, next: NodeId,
                      doneR: set<Pair>, doneE: set<Pair>, p: Frame, blank: nat, sc: Option<Scorer>, s: NodeId, c: nat)
    requires Records(o, nodes, paths, doneR, doneE, p, blank, sc) && Wf(nodes, paths, next) && DoneLive(nodes, doneE)
    requires s in nodes && forall e | e in nodes[s].children :: e.0 != c
    ensures Records(o, nodes, paths, doneR, doneE + {(c, s)}, p, blank, sc)
  {
    hide RecordAt, Wf;
    forall q | q in nodes ensures RecordAt(o, nodes, paths, doneR, doneE + {(c, s)}, p, blank, sc, q) {
      assert RecordAt(o, nodes, paths, doneR, doneE, p, blank, sc, q);
      Links(nodes, paths, next, q);
      RecordSame(o, nodes, paths, doneR, doneE, nodes, paths, doneR, doneE + {(c, s)}, p, blank, sc, q);
    }
  }

  /** The first to come wins if it outweighs what was there. */
  lemma ExtensionWins(repeatFirst: bool, blankLast: bool, s: real, r: real, g: real)
    requires (!repeatFirst ==> r == 0.0) && (blankLast ==> s == 0.0) && r >= 0.0 && g >= 0.0
    ensures r < g <==> Wins(repeatFirst, blankLast, s, r, g)
  {
  }

  lemma RecordExtend(o: Order, nodes: map<NodeId, Node>, paths: map<NodeId, seq<nat>>, next: NodeId, done: set<Pair>,
                     p: Frame, blank: nat, sc: Option<Scorer>, s: NodeId, c: nat, q: NodeId, v: Node, mass: real)
    requires Records(o, nodes, paths, done + {(c, s)}, done, p, blank, sc)
             && Accum(nodes, paths, done + {(c, s)}, done, p, blank, sc) && Wf(nodes, paths, next)
    requires ValidOrder(o) && Upcoming(o, done, c, s) && s in nodes && c != blank && (c, s) !in done
             && DoneLive(nodes, done)
    requires q in nodes && q != s && q != ROOT_ID && nodes[q].parent == s && nodes[q].character == c
    requires s in paths && mass == Prob(p, c) * Base(nodes[s], c) * ExtendFactor(sc, paths[s], c) && mass >= 0.0
    requires nodes[q].nbCur >= 0.0
    requires v == if nodes[q].nbCur < mass
                  then nodes[q].(nbCur := v.nbCur, prevTimesteps := nodes[s].timesteps, newTimestep := v.newTimestep)
                  else nodes[q].(nbCur := v.nbCur)
    ensures Records(o, nodes[q := v], paths, done + {(c, s)}, done + {(c, s)}, p, blank, sc)
  {
    hide Records, Accum, ValidOrder, Upcoming, Prob, Wf, RecordAt, AccumAt, Base, ExtendFactor, Precedes;
    var done' := done + {(c, s)};
    AtNode(o, nodes, paths, done', done, p, blank, sc, q);
    UpcomingFacts(o, done, c, s, blank, q);
    ExtendAtNode(o, nodes, paths, done, p, blank, sc, s, c, q, v, mass);
    forall k | k in nodes && k != q && k != ROOT_ID && nodes[k].character == c && nodes[k].parent == s ensures false {
      OneChild(nodes, paths, next, k, q);
    }
    OthersSame(o, nodes, paths, done', done, q, v, done', done', p, blank, sc);
  }

  lemma ExtendAtNode(o: Order, nodes: map<NodeId, Node>, paths: map<NodeId, seq<nat>>, done: set<Pair>, p: Frame,
                     blank: nat, sc: Option<Scorer>, s: NodeId, c: nat, q: NodeId, v: Node, mass: real)
    requires q in nodes && paths.Keys == nodes.Keys && s in nodes && (c, s) !in done && c != blank && q != s
    requires AccumAt(nodes, paths, done + {(c, s)}, done, p, blank, sc, q)
             && RecordAt(o, nodes, paths, done + {(c, s)}, done, p, blank, sc, q)
    requires (c, q) in done ==> Precedes(o.beam, q, s)
    requires (blank, q) in done ==> !Precedes(o.kept, c, blank)
    requires q != ROOT_ID && nodes[q].parent == s && nodes[q].character == c
    requires mass == Prob(p, c) * Base(nodes[s], c) * ExtendFactor(sc, paths[s], c) && mass >= 0.0
    requires nodes[q].nbCur >= 0.0
    requires v == if nodes[q].nbCur < mass
                  then nodes[q].(nbCur := v.nbCur, prevTimesteps := nodes[s].timesteps, newTimestep := v.newTimestep)
                  else nodes[q].(nbCur := v.nbCur)
    ensures RecordAt(o, nodes[q := v], paths, done + {(c, s)}, done + {(c, s)}, p, blank, sc, q)
  {
    hide Prob, ExtendFactor, Precedes, Wins;
    var done' := done + {(c, s)};
    BaseSame(nodes, q, v);
    var b, r, nodes' := BlankIn(nodes, done', p, blank, q), RepeatIn(nodes, done', p, blank, q), nodes[q := v];
    assert !ExtendDone(nodes, done, blank, q) && nodes[q].nbCur == r;
    ExtensionWins(Precedes(o.beam, q, s), Precedes(o.kept, c, blank), b, r, mass);
    assert ExtendDone(nodes', done', blank, q);
    assert ExtendIn(nodes', paths, done', p, blank, sc, q) == mass;
    assert BlankIn(nodes', done', p, blank, q) == b && RepeatIn(nodes', done', p, blank, q) == r;
  }

  /** Nothing is recorded when a frame begins. */
  lemma NoRecords(o: Order, nodes: map<NodeId, Node>, paths: map<NodeId, seq<nat>>, p: Frame, blank: nat,
                  sc: Option<Scorer>)
    requires paths.Keys == nodes.Keys && forall q | q in nodes :: nodes[q].prevTimesteps.None?
    ensures Records(o, nodes, paths, {}, {}, p, blank, sc)
  {
  }
}
