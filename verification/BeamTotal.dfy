/** Totals over the nodes of the trie. */
module BeamTotal {
  import opened Basics
  import opened PathTrie
  import opened TrieOps

  /** Mass collected so far by the nodes below id `k`. */
  function SumCur(nodes: map<NodeId, Node>, k: NodeId): real {
    if k == 0 then 0.0
    else SumCur(nodes, k - 1) + (if k - 1 in nodes then nodes[k - 1].bCur + nodes[k - 1].nbCur else 0.0)
  }

  /** Total score of the live nodes below id `k`. */
  function LiveMass(nodes: map<NodeId, Node>, k: NodeId): real {
    if k == 0 then 0.0
    else LiveMass(nodes, k - 1) + (if k - 1 in nodes && nodes[k - 1].live then nodes[k - 1].score else 0.0)
  }

  lemma {:induction false} SumCurUpdate(nodes: map<NodeId, Node>, k: NodeId, q: NodeId, v: Node)
    requires q in nodes && q < k
    ensures SumCur(nodes[q := v], k) == SumCur(nodes, k) + (v.bCur + v.nbCur) - (nodes[q].bCur + nodes[q].nbCur)
  {
    if q < k - 1 { SumCurUpdate(nodes, k - 1, q, v); } else { SumCurSame(nodes, nodes[q := v], k - 1); }
  }

  lemma {:induction false} SumCurSame(nodes: map<NodeId, Node>, nodes': map<NodeId, Node>, k: NodeId)
    requires forall q | 0 <= q < k :: (q in nodes <==> q in nodes')
    requires forall q | q in nodes && q < k :: nodes[q].bCur == nodes'[q].bCur && nodes[q].nbCur == nodes'[q].nbCur
    ensures SumCur(nodes', k) == SumCur(nodes, k)
  {
    if k > 0 { SumCurSame(nodes, nodes', k - 1); }
  }

  lemma {:induction false} SumCurZero(nodes: map<NodeId, Node>, k: NodeId)
    requires forall q | q in nodes :: nodes[q].bCur == nodes[q].nbCur == 0.0
    ensures SumCur(nodes, k) == 0.0
  {
    if k > 0 { SumCurZero(nodes, k - 1); }
  }

  /** Looking up a child collects nothing. */
  lemma SumCurExpand(dict: Option<Dictionary>, nodes: map<NodeId, Node>, next: NodeId, s: NodeId, c: nat,
                     r: Option<NodeId>, nodes': map<NodeId, Node>, next': NodeId)
    requires s in nodes && next !in nodes && (forall q | q in nodes :: q < next)
    requires Expanded(dict, nodes, next, s, c, r, nodes', next')
    requires forall q | q in nodes && !nodes[q].live :: nodes[q].bCur == nodes[q].nbCur == 0.0
    ensures SumCur(nodes', next') == SumCur(nodes, next)
  {
    hide NextDictState;
    SumCurSame(nodes, nodes', next);
  }

  /** At the end of a frame what the nodes collected becomes their score. */
  lemma {:induction false} SumCurIsLiveMass(nodes: map<NodeId, Node>, nodes': map<NodeId, Node>, hist: seq<seq<nat>>,
                                            on: set<NodeId>, k: NodeId)
    requires CommittedOn(nodes, nodes', hist, on) && forall q | q in nodes :: q in on
    requires forall q | q in nodes && !nodes[q].live :: nodes[q].bCur == nodes[q].nbCur == 0.0
    ensures LiveMass(nodes', k) == SumCur(nodes, k)
  {
    if k > 0 { SumCurIsLiveMass(nodes, nodes', hist, on, k - 1); }
  }

  /** Total score of a list of nodes. */
  function SumScore(nodes: map<NodeId, Node>, s: seq<NodeId>): real {
    if s == [] then 0.0
    else SumScore(nodes, s[..|s| - 1]) + (if s[|s| - 1] in nodes then nodes[s[|s| - 1]].score else 0.0)
  }

  lemma {:induction false} SumScoreRemove(nodes: map<NodeId, Node>, s: seq<NodeId>, i: nat)
    requires i < |s| && s[i] in nodes
    ensures SumScore(nodes, s) == SumScore(nodes, s[..i] + s[i + 1..]) + nodes[s[i]].score
  {
    var last := |s| - 1;
    var t := s[..i] + s[i + 1..];
    if i == last {
      assert t == s[..last];
    } else {
      SumScoreRemove(nodes, s[..last], i);
      assert s[..last][..i] + s[..last][i + 1..] == t[..|t| - 1];
      assert t[|t| - 1] == s[last];
    }
  }

  lemma HasMember(s: seq<NodeId>)
    requires s != []
    ensures exists m :: m in s
  {
    assert s[0] in s;
  }

  /** Taking one occurrence out of a duplicate-free list. */
  lemma TakeOut(s: seq<NodeId>, i: nat)
    requires NoDup(s) && i < |s|
    ensures NoDup(s[..i] + s[i + 1..])
    ensures forall m :: m in s[..i] + s[i + 1..] <==> m in s && m != s[i]
  {
    var t := s[..i] + s[i + 1..];
    forall m ensures m in t <==> m in s && m != s[i] {
      if m in s && m != s[i] {
        var j :| 0 <= j < |s| && s[j] == m;
        assert m == t[if j < i then j else j - 1];
      }
      if m in t {
        var j :| 0 <= j < |t| && t[j] == m;
        assert m == s[if j < i then j else j + 1];
      }
    }
  }

  /** A list of the live nodes, each once, adds up to the total. */
  lemma {:induction false} SumScoreIsLiveMass(nodes: map<NodeId, Node>, s: seq<NodeId>, k: NodeId)
    requires NoDup(s) && forall m :: m in s <==> m in nodes && nodes[m].live && m < k
    ensures SumScore(nodes, s) == LiveMass(nodes, k)
  {
    if k == 0 {
      if s != [] {
        HasMember(s);
        assert false;
      }
    } else if k - 1 in nodes && nodes[k - 1].live {
      assert k - 1 in s;
      var i :| 0 <= i < |s| && s[i] == k - 1;
      SumScoreRemove(nodes, s, i);
      TakeOut(s, i);
      SumScoreIsLiveMass(nodes, s[..i] + s[i + 1..], k - 1);
    } else {
      SumScoreIsLiveMass(nodes, s, k - 1);
    }
  }
}
