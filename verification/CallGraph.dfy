/** Call graphs, reachability and strongly connected components. */
module CallGraph {
  /** Functions by id, each with the callees of its recorded calls. */
  type Graph = map<nat, seq<nat>>

  /** Every call leads to a known function, as after validation of a profile. */
  ghost predicate Closed(g: Graph)
  {
    forall a, b :: Edge(g, a, b) ==> b in g
  }

  ghost predicate Edge(g: Graph, a: nat, b: nat)
  {
    a in g && b in g[a]
  }

  ghost predicate IsPath(g: Graph, a: nat, p: seq<nat>, b: nat)
    decreases |p|
  {
    if p == [] then a == b else Edge(g, a, p[0]) && IsPath(g, p[0], p[1..], b)
  }

  ghost predicate Reach(g: Graph, a: nat, b: nat)
  {
    exists p :: IsPath(g, a, p, b)
  }

  ghost predicate Mutual(g: Graph, a: nat, b: nat)
  {
    Reach(g, a, b) && Reach(g, b, a)
  }

  /** The strongly connected component of `a`. */
  ghost function Scc(g: Graph, a: nat): set<nat>
  {
    set b | b in g && Mutual(g, a, b)
  }

  lemma ReachSelf(g: Graph, a: nat)
    ensures Reach(g, a, a)
  {
    assert IsPath(g, a, [], a);
  }

  lemma {:induction false} PathTrans(g: Graph, a: nat, p: seq<nat>, b: nat, q: seq<nat>, c: nat)
    requires IsPath(g, a, p, b) && IsPath(g, b, q, c)
    ensures IsPath(g, a, p + q, c)
    decreases |p|
  {
    if p == [] {
      assert p + q == q;
    } else {
      PathTrans(g, p[0], p[1..], b, q, c);
      assert (p + q)[1..] == p[1..] + q;
    }
  }

  lemma ReachTrans(g: Graph, a: nat, b: nat, c: nat)
    requires Reach(g, a, b) && Reach(g, b, c)
    ensures Reach(g, a, c)
  {
    var p :| IsPath(g, a, p, b);
    var q :| IsPath(g, b, q, c);
    PathTrans(g, a, p, b, q, c);
  }

  lemma ReachEdge(g: Graph, a: nat, b: nat)
    requires Edge(g, a, b)
    ensures Reach(g, a, b)
  {
    assert IsPath(g, b, [], b);
    assert [b][1..] == [];
    assert IsPath(g, a, [b], b);
  }

  /** A path out of a set leaves it through some edge. */
  lemma {:induction false} PathExit(g: Graph, s: set<nat>, a: nat, p: seq<nat>, b: nat) returns (u: nat, w: nat)
    requires IsPath(g, a, p, b) && a in s && b !in s
    ensures Edge(g, u, w) && u in s && w !in s && Reach(g, w, b)
    decreases |p|
  {
    if p[0] in s {
      u, w := PathExit(g, s, p[0], p[1..], b);
    } else {
      u, w := a, p[0];
    }
  }

  lemma ReachExit(g: Graph, s: set<nat>, a: nat, b: nat) returns (u: nat, w: nat)
    requires Reach(g, a, b) && a in s && b !in s
    ensures Edge(g, u, w) && u in s && w !in s && Reach(g, w, b)
  {
    var p :| IsPath(g, a, p, b);
    u, w := PathExit(g, s, a, p, b);
  }

  lemma ReachStaysIn(g: Graph, s: set<nat>, a: nat, b: nat)
    requires Reach(g, a, b) && a in s && forall u, w :: Edge(g, u, w) && u in s ==> w in s
    ensures b in s
  {
    if b !in s {
      var u, w := ReachExit(g, s, a, b);
      assert false;
    }
  }

  lemma SccSymmetric(g: Graph, a: nat, b: nat)
    requires Mutual(g, a, b)
    ensures Scc(g, a) == Scc(g, b)
  {
    forall c | c in g
      ensures c in Scc(g, a) <==> c in Scc(g, b)
    {
      if Mutual(g, a, c) { ReachTrans(g, b, a, c); ReachTrans(g, c, a, b); }
      if Mutual(g, b, c) { ReachTrans(g, a, b, c); ReachTrans(g, c, b, a); }
    }
  }
}
