/** One depth-first search of the cycle finder: its state and what every step of it keeps. */
module Tarjan {
  import opened CallGraph

  /** The tables that one search shares between its recursive calls. */
  datatype Search = Search(orders: map<nat, nat>, stack: seq<nat>)

  ghost predicate Popped(s: Search, x: nat) { x in s.orders && x !in s.stack }

  ghost predicate StackSorted(s: Search)
  {
    && (forall i :: 0 <= i < |s.stack| ==> s.stack[i] in s.orders)
    && (forall i, j :: 0 <= i < j < |s.stack| ==> s.orders[s.stack[i]] < s.orders[s.stack[j]])
  }

  /** `y` reaches a function that is being explored and was found no later than `y`. */
  ghost predicate Anchored(g: Graph, s: Search, open: set<nat>, y: nat)
  {
    y in s.orders && exists x :: x in open && x in s.orders && s.orders[x] <= s.orders[y] && Reach(g, y, x)
  }

  ghost predicate Known(g: Graph, s: Search)
  {
    Closed(g) && s.orders.Keys <= g.Keys
  }

  ghost predicate AllAnchored(g: Graph, s: Search, open: set<nat>)
  {
    forall y {:trigger Anchored(g, s, open, y)} :: y in s.stack ==> Anchored(g, s, open, y)
  }

  ghost predicate OpenReaches(g: Graph, s: Search, open: set<nat>)
  {
    forall x, y :: x in open && y in s.stack && x in s.orders && y in s.orders && s.orders[x] <= s.orders[y] ==>
      Reach(g, x, y)
  }

  ghost predicate CallsFound(g: Graph, s: Search, open: set<nat>)
  {
    forall y, z :: Edge(g, y, z) && y in s.orders && y !in open ==> z in s.orders
  }

  ghost predicate PoppedClosed(g: Graph, s: Search)
  {
    forall y, z :: Edge(g, y, z) && Popped(s, y) ==> Popped(s, z)
  }

  /** `open` are the functions whose calls are being explored, the path of the recursion. */
  ghost predicate Inv(g: Graph, s: Search, open: set<nat>)
  {
    && Known(g, s) && StackSorted(s)
    && (forall x :: x in open ==> x in s.stack)
    && AllAnchored(g, s, open) && OpenReaches(g, s, open)
    && CallsFound(g, s, open) && PoppedClosed(g, s)
  }

  ghost predicate OrdersBelow(s: Search, order: nat)
  {
    forall x :: x in s.orders ==> s.orders[x] < order
  }

  /** The search `s'` continues `s`: nothing recorded changes and the stack only grew. */
  ghost predicate Extends(s: Search, s': Search)
  {
    && (forall x :: x in s.orders ==> x in s'.orders && s'.orders[x] == s.orders[x])
    && s.stack <= s'.stack
  }

  /** Every edge from the stack at `k` or above to the stack below `pos` is covered by `low`. */
  ghost predicate Covers(g: Graph, s: Search, k: nat, pos: nat, low: nat)
    requires pos <= k <= |s.stack| && StackSorted(s)
  {
    forall x, y {:trigger Edge(g, x, y)} ::
      Edge(g, x, y) && x in s.stack[k..] && y in s.stack[..pos] ==> low <= s.orders[y]
  }

  ghost predicate CoversDone(s: Search, pos: nat, low: nat, done: seq<nat>)
    requires pos <= |s.stack| && StackSorted(s)
  {
    forall y :: y in done ==> y in s.orders && (y in s.stack[..pos] ==> low <= s.orders[y])
  }

  /** `low` is the order of a function on the stack that `f` reaches. */
  ghost predicate Attained(g: Graph, s: Search, f: nat, low: nat)
  {
    exists y :: y in s.stack && y in s.orders && s.orders[y] == low && Reach(g, f, y)
  }

  // ---- entering a function ----

  ghost function Enter(s: Search, f: nat, order: nat): Search
  {
    Search(s.orders[f := order], s.stack + [f])
  }

  lemma EnterAnchored(g: Graph, s: Search, open: set<nat>, f: nat, order: nat)
    requires StackSorted(s) && AllAnchored(g, s, open) && OrdersBelow(s, order) && f !in s.orders
    ensures AllAnchored(g, Enter(s, f, order), open + {f})
  {
    var s' := Enter(s, f, order);
    forall y | y in s'.stack
      ensures Anchored(g, s', open + {f}, y)
    {
      if y in s.stack {
        assert Anchored(g, s, open, y);
        var x :| x in open && x in s.orders && s.orders[x] <= s.orders[y] && Reach(g, y, x);
        assert x in open + {f} && x in s'.orders && s'.orders[x] <= s'.orders[y];
      } else {
        ReachSelf(g, f);
        assert f in open + {f} && f in s'.orders && s'.orders[f] <= s'.orders[y];
      }
    }
  }

  lemma EnterReaches(g: Graph, s: Search, open: set<nat>, f: nat, order: nat)
    requires OpenReaches(g, s, open) && OrdersBelow(s, order) && StackSorted(s) && f !in s.orders
    requires forall x :: x in open ==> x in s.stack && Reach(g, x, f)
    ensures OpenReaches(g, Enter(s, f, order), open + {f})
  {
    var s' := Enter(s, f, order);
    ReachSelf(g, f);
    forall x, y | x in open + {f} && y in s'.stack && x in s'.orders && y in s'.orders && s'.orders[x] <= s'.orders[y]
      ensures Reach(g, x, y)
    {
      if y in s.stack {
        assert s'.orders[y] == s.orders[y] < order;
        assert x in open && x in s.stack;
      }
    }
  }

  lemma EnterPopped(g: Graph, s: Search, f: nat, order: nat)
    requires PoppedClosed(g, s) && f !in s.orders
    ensures PoppedClosed(g, Enter(s, f, order))
    ensures forall x :: Popped(Enter(s, f, order), x) ==> Popped(s, x)
  {
    var s' := Enter(s, f, order);
    assert s'.stack[|s.stack|] == f;
    forall y, z | Edge(g, y, z) && Popped(s', y)
      ensures Popped(s', z)
    {
      assert Popped(s, y) && Popped(s, z);
      assert z != f;
    }
  }

  lemma EnterLow(g: Graph, s: Search, f: nat, order: nat)
    requires StackSorted(s) && f !in s.orders && OrdersBelow(s, order)
    ensures StackSorted(Enter(s, f, order))
    ensures Covers(g, Enter(s, f, order), |s.stack| + 1, |s.stack|, order)
    ensures Attained(g, Enter(s, f, order), f, order)
  {
    var s' := Enter(s, f, order);
    ReachSelf(g, f);
    assert s'.stack[|s.stack|] == f;
    assert s'.stack[|s.stack| + 1..] == [];
  }

  lemma EnterFound(g: Graph, s: Search, open: set<nat>, f: nat, order: nat)
    requires CallsFound(g, s, open)
    ensures CallsFound(g, Enter(s, f, order), open + {f})
  {
    var s' := Enter(s, f, order);
    forall y, z | Edge(g, y, z) && y in s'.orders && y !in open + {f}
      ensures z in s'.orders
    {
      assert y in s.orders && y !in open;
    }
  }

  lemma EnterKeeps(g: Graph, s: Search, open: set<nat>, f: nat, order: nat)
    requires Inv(g, s, open) && OrdersBelow(s, order)
    requires f in g && f !in s.orders && forall x :: x in open ==> Reach(g, x, f)
    ensures Inv(g, Enter(s, f, order), open + {f}) && OrdersBelow(Enter(s, f, order), order + 1)
    ensures Extends(s, Enter(s, f, order))
  {
    EnterAnchored(g, s, open, f, order);
    EnterReaches(g, s, open, f, order);
    EnterPopped(g, s, f, order);
    EnterLow(g, s, f, order);
    EnterFound(g, s, open, f, order);
    assert Known(g, Enter(s, f, order));
    assert Enter(s, f, order).stack[|s.stack|] == f;
  }

  // ---- one call at a time ----

  /** While the calls of `f` are explored; `low` is its low link so far and `done` the callees seen. */
  ghost predicate Exploring(g: Graph, s: Search, open: set<nat>, f: nat, pos: nat, low: nat, done: seq<nat>)
  {
    && Inv(g, s, open + {f}) && f !in open && pos < |s.stack| && s.stack[pos] == f
    && (forall x :: x in open ==> x in s.stack[..pos])
    && low <= s.orders[f] && Attained(g, s, f, low)
    && Covers(g, s, pos + 1, pos, low) && CoversDone(s, pos, low, done)
  }

  /** A function just entered has all its calls ahead. */
  lemma EnterExploring(g: Graph, s: Search, open: set<nat>, f: nat, order: nat)
    requires Inv(g, s, open) && OrdersBelow(s, order)
    requires f in g && f !in s.orders && forall x :: x in open ==> Reach(g, x, f)
    ensures Exploring(g, Enter(s, f, order), open, f, |s.stack|, order, [])
  {
    EnterKeeps(g, s, open, f, order);
    EnterLow(g, s, f, order);
    EnterPopped(g, s, f, order);
    assert Enter(s, f, order).stack[..|s.stack|] == s.stack;
  }

  /** What a finished exploration of `c` that began in `s` with number `order` promises. */
  ghost predicate Explored(g: Graph, s: Search, s': Search, open: set<nat>, c: nat, order: nat, low: nat)
  {
    && Inv(g, s', open) && Extends(s, s')
    && c in s'.orders && s'.orders[c] == order
    && (c in s'.stack ==> low < order && Attained(g, s', c, low))
    && (c !in s'.stack ==> low == order)
    && Covers(g, s', |s.stack|, |s.stack|, low)
  }

  function Min(a: nat, b: nat): nat { if a < b then a else b }

  lemma StackMember(s: Search, x: nat) returns (i: nat)
    requires x in s.stack
    ensures i < |s.stack| && s.stack[i] == x
  {
    i :| 0 <= i < |s.stack| && s.stack[i] == x;
  }

  lemma VisitedAttained(g: Graph, s: Search, s': Search, open: set<nat>, f: nat, low: nat, c: nat, order: nat, l: nat)
    requires Attained(g, s, f, low) && f in s.orders && low <= s.orders[f] < order
    requires Explored(g, s, s', open, c, order, l) && Edge(g, f, c)
    ensures Attained(g, s', f, Min(low, l))
  {
    if l < low {
      assert c in s'.stack;
      var y :| y in s'.stack && y in s'.orders && s'.orders[y] == l && Reach(g, c, y);
      ReachEdge(g, f, c);
      ReachTrans(g, f, c, y);
    } else {
      var y :| y in s.stack && y in s.orders && s.orders[y] == low && Reach(g, f, y);
      assert y in s'.stack && y in s'.orders;
    }
  }

  lemma VisitedCovers(g: Graph, s: Search, s': Search, pos: nat, low: nat, l: nat)
    requires StackSorted(s) && StackSorted(s') && Extends(s, s') && pos < |s.stack|
    requires Covers(g, s, pos + 1, pos, low) && Covers(g, s', |s.stack|, |s.stack|, l)
    ensures Covers(g, s', pos + 1, pos, Min(low, l))
  {
    forall x, y | Edge(g, x, y) && x in s'.stack[pos + 1..] && y in s'.stack[..pos]
      ensures Min(low, l) <= s'.orders[y]
    {
      assert s'.stack[..pos] == s.stack[..pos];
      var i :| pos + 1 <= i < |s'.stack| && s'.stack[i] == x;
      if i < |s.stack| {
        assert s.stack[pos + 1..][i - pos - 1] == x;
      } else {
        assert s'.stack[|s.stack|..][i - |s.stack|] == x;
        assert y in s'.stack[..|s.stack|];
      }
    }
  }

  lemma AfterVisit(g: Graph, s: Search, s': Search, open: set<nat>, f: nat, pos: nat, low: nat, done: seq<nat>,
                   c: nat, order: nat, l: nat)
    requires Exploring(g, s, open, f, pos, low, done) && OrdersBelow(s, order)
    requires Edge(g, f, c) && c !in s.orders && Explored(g, s, s', open + {f}, c, order, l)
    ensures Exploring(g, s', open, f, pos, Min(low, l), done + [c])
  {
    VisitedAttained(g, s, s', open + {f}, f, low, c, order, l);
    VisitedCovers(g, s, s', pos, low, l);
    assert s'.stack[..pos] == s.stack[..pos];
    assert s'.stack[pos] == f;
    forall y | y in done + [c]
      ensures y in s'.orders && (y in s'.stack[..pos] ==> Min(low, l) <= s'.orders[y])
    {
      if y in s.stack[..pos] { var i :| 0 <= i < pos && s.stack[i] == y; }
    }
  }

  lemma AfterSeen(g: Graph, s: Search, open: set<nat>, f: nat, pos: nat, low: nat, done: seq<nat>, c: nat, low': nat)
    requires Exploring(g, s, open, f, pos, low, done) && Edge(g, f, c) && c in s.orders
    requires low' == if c in s.stack then Min(low, s.orders[c]) else low
    ensures Exploring(g, s, open, f, pos, low', done + [c])
  {
    if c in s.stack && s.orders[c] < low {
      ReachEdge(g, f, c);
      assert Attained(g, s, f, low');
    }
    assert c in s.stack[..pos] ==> c in s.stack;
  }

  // ---- leaving a function ----

  lemma BelowPos(s: Search, pos: nat, y: nat)
    requires StackSorted(s) && pos < |s.stack| && y in s.stack
    ensures y in s.orders && (y in s.stack[..pos] <==> s.orders[y] < s.orders[s.stack[pos]])
  {
    var i := StackMember(s, y);
    if i < pos { assert s.stack[..pos][i] == y; }
    if y in s.stack[..pos] { var j :| 0 <= j < pos && s.stack[j] == y; }
  }

  /** A component that reaches further down stays on the stack. */
  lemma StayAnchored(g: Graph, s: Search, open: set<nat>, f: nat, pos: nat, low: nat, y: nat)
    requires f in g && Exploring(g, s, open, f, pos, low, g[f]) && low < s.orders[f] && y in s.stack
    ensures Anchored(g, s, open, y)
  {
    assert Anchored(g, s, open + {f}, y);
    var x :| x in open + {f} && x in s.orders && s.orders[x] <= s.orders[y] && Reach(g, y, x);
    if x == f {
      var y0 :| y0 in s.stack && y0 in s.orders && s.orders[y0] == low && Reach(g, f, y0);
      assert Anchored(g, s, open + {f}, y0);
      var x0 :| x0 in open + {f} && x0 in s.orders && s.orders[x0] <= s.orders[y0] && Reach(g, y0, x0);
      ReachTrans(g, y, f, y0);
      ReachTrans(g, y, y0, x0);
      assert x0 in open;
    }
  }

  lemma StayAllAnchored(g: Graph, s: Search, open: set<nat>, f: nat, pos: nat, low: nat)
    requires f in g && Exploring(g, s, open, f, pos, low, g[f]) && low < s.orders[f]
    ensures AllAnchored(g, s, open)
  {
    forall y | y in s.stack
      ensures Anchored(g, s, open, y)
    {
      StayAnchored(g, s, open, f, pos, low, y);
    }
  }

  lemma FewerOpenReach(g: Graph, s: Search, open: set<nat>, f: nat)
    requires OpenReaches(g, s, open + {f})
    ensures OpenReaches(g, s, open)
  {
    forall x, y | x in open && y in s.stack && x in s.orders && y in s.orders && s.orders[x] <= s.orders[y]
      ensures Reach(g, x, y)
    {
      assert x in open + {f};
    }
  }

  lemma StayKeeps(g: Graph, s: Search, open: set<nat>, f: nat, pos: nat, low: nat)
    requires f in g && Exploring(g, s, open, f, pos, low, g[f]) && low < s.orders[f]
    ensures Inv(g, s, open)
    ensures Covers(g, s, pos, pos, low)
  {
    StayAllAnchored(g, s, open, f, pos, low);
    FewerOpenReach(g, s, open, f);
    WholeCovered(g, s, open, f, pos, low);
  }

  lemma WholeCovered(g: Graph, s: Search, open: set<nat>, f: nat, pos: nat, low: nat)
    requires f in g && Exploring(g, s, open, f, pos, low, g[f])
    ensures Covers(g, s, pos, pos, low)
    ensures CallsFound(g, s, open)
  {
    forall x, y | Edge(g, x, y) && x in s.stack[pos..] && y in s.stack[..pos]
      ensures low <= s.orders[y]
    {
      if x != f {
        var i :| pos <= i < |s.stack| && s.stack[i] == x;
        assert s.stack[pos + 1..][i - pos - 1] == x;
      }
    }
    forall y, z | Edge(g, y, z) && y in s.orders && y !in open
      ensures z in s.orders
    {
      if y != f { assert y !in open + {f}; }
    }
  }

  ghost function SeqSet(q: seq<nat>): set<nat> { set x | x in q }

  /** No edge leads from the popped part of the stack to what stays below it. */
  lemma NoEdgeBelow(g: Graph, s: Search, open: set<nat>, f: nat, pos: nat, x: nat, y: nat)
    requires f in g && f in s.orders && Exploring(g, s, open, f, pos, s.orders[f], g[f])
    requires Edge(g, x, y) && x in s.stack[pos..]
    ensures y in s.stack[pos..] || Popped(s, y)
  {
    WholeCovered(g, s, open, f, pos, s.orders[f]);
    assert x in s.stack && x in s.orders;
    BelowPos(s, pos, x);
    assert x !in open by {
      var i :| pos <= i < |s.stack| && s.stack[i] == x;
      assert s.orders[f] <= s.orders[x];
    }
    assert y in s.orders;
    if y in s.stack {
      BelowPos(s, pos, y);
      assert y !in s.stack[..pos];
      var i := StackMember(s, y);
      assert i >= pos && s.stack[pos..][i - pos] == y;
    }
  }

  lemma PoppedUnreaching(g: Graph, s: Search, a: nat, b: nat)
    requires Known(g, s) && PoppedClosed(g, s) && Popped(s, a) && Reach(g, a, b)
    ensures Popped(s, b)
  {
    var p := set x | x in s.orders && Popped(s, x);
    ReachStaysIn(g, p, a, b);
  }

  /** Whoever is reached from the popped part and reaches back to the stack is in that part. */
  lemma ExitImpossible(g: Graph, s: Search, open: set<nat>, f: nat, pos: nat, a: nat, b: nat)
    requires f in g && f in s.orders && Exploring(g, s, open, f, pos, s.orders[f], g[f])
    requires a in s.stack[pos..] && Reach(g, a, b) && (b in s.stack || Reach(g, b, f))
    ensures b in s.stack[pos..]
  {
    var m := SeqSet(s.stack[pos..]);
    if b !in m {
      var u, w := ReachExit(g, m, a, b);
      NoEdgeBelow(g, s, open, f, pos, u, w);
      PoppedUnreaching(g, s, w, b);
      if Reach(g, b, f) { PoppedUnreaching(g, s, b, f); }
      assert false;
    }
  }

  /** A popped function is reached, and reaches some function whose visit is open. */
  lemma StackAnchor(g: Graph, s: Search, open: set<nat>, f: nat, pos: nat, y: nat) returns (x: nat)
    requires f in g && f in s.orders && Exploring(g, s, open, f, pos, s.orders[f], g[f]) && y in s.stack[pos..]
    ensures Reach(g, f, y) && x in open + {f} && x in s.stack && Reach(g, y, x) && StackSorted(s)
    ensures x != f ==> x in s.stack[..pos]
  {
    assert y in s.stack && y in s.orders;
    var i :| pos <= i < |s.stack| && s.stack[i] == y;
    assert Reach(g, f, y);
    assert Anchored(g, s, open + {f}, y);
    x :| x in open + {f} && x in s.orders && s.orders[x] <= s.orders[y] && Reach(g, y, x);
  }

  /** A popped function reaches back. */
  lemma PoppedReachesBack(g: Graph, s: Search, open: set<nat>, f: nat, pos: nat, y: nat)
    requires f in g && f in s.orders && Exploring(g, s, open, f, pos, s.orders[f], g[f]) && y in s.stack[pos..]
    ensures Reach(g, f, y) && Reach(g, y, f)
  {
    var x := StackAnchor(g, s, open, f, pos, y);
    if x != f {
      ExitImpossible(g, s, open, f, pos, y, x);
      BelowPos(s, pos, x);
      assert false;
    }
  }

  /** The popped part of the stack is a whole strongly connected component. */
  lemma PoppedIsComponent(g: Graph, s: Search, open: set<nat>, f: nat, pos: nat)
    requires f in g && f in s.orders && Exploring(g, s, open, f, pos, s.orders[f], g[f])
    ensures SeqSet(s.stack[pos..]) == Scc(g, f)
  {
    assert s.stack[pos..][0] == f;
    forall y | y in s.stack[pos..]
      ensures y in Scc(g, f)
    {
      PoppedReachesBack(g, s, open, f, pos, y);
    }
    forall z | z in Scc(g, f)
      ensures z in s.stack[pos..]
    {
      ExitImpossible(g, s, open, f, pos, f, z);
    }
  }

  ghost function Cut(s: Search, pos: nat): Search
    requires pos <= |s.stack|
  {
    s.(stack := s.stack[..pos])
  }

  lemma PopAnchored(g: Graph, s: Search, open: set<nat>, f: nat, pos: nat)
    requires f in g && f in s.orders && Exploring(g, s, open, f, pos, s.orders[f], g[f])
    ensures AllAnchored(g, Cut(s, pos), open)
  {
    forall y | y in s.stack[..pos]
      ensures Anchored(g, Cut(s, pos), open, y)
    {
      BelowPos(s, pos, y);
      assert Anchored(g, s, open + {f}, y);
      var x :| x in open + {f} && x in s.orders && s.orders[x] <= s.orders[y] && Reach(g, y, x);
      assert x in open;
    }
  }

  lemma PopClosed(g: Graph, s: Search, open: set<nat>, f: nat, pos: nat)
    requires f in g && f in s.orders && Exploring(g, s, open, f, pos, s.orders[f], g[f])
    ensures PoppedClosed(g, Cut(s, pos))
    ensures forall x :: Popped(Cut(s, pos), x) <==> Popped(s, x) || x in s.stack[pos..]
  {
    forall x
      ensures Popped(Cut(s, pos), x) <==> Popped(s, x) || x in s.stack[pos..]
    {
      if x in s.stack {
        BelowPos(s, pos, x);
        var i := StackMember(s, x);
        assert i >= pos ==> s.stack[pos..][i - pos] == x;
      }
    }
    forall y, z | Edge(g, y, z) && Popped(Cut(s, pos), y)
      ensures Popped(Cut(s, pos), z)
    {
      if y in s.stack[pos..] { NoEdgeBelow(g, s, open, f, pos, y, z); }
    }
  }

  lemma PopKeeps(g: Graph, s: Search, open: set<nat>, f: nat, pos: nat)
    requires f in g && f in s.orders && Exploring(g, s, open, f, pos, s.orders[f], g[f])
    ensures Inv(g, Cut(s, pos), open) && f !in Cut(s, pos).stack
  {
    PopAnchored(g, s, open, f, pos);
    PopClosed(g, s, open, f, pos);
    FewerOpenReach(g, s, open, f);
    WholeCovered(g, s, open, f, pos, s.orders[f]);
    BelowPos(s, pos, f);
    assert OpenReaches(g, Cut(s, pos), open);
  }

  /** A function that found its way further down leaves itself and what lies above it on the stack. */
  lemma StayExplored(g: Graph, s0: Search, s: Search, open: set<nat>, f: nat, order: nat, low: nat)
    requires f in g && Exploring(g, s, open, f, |s0.stack|, low, g[f]) && low < s.orders[f]
    requires Extends(Enter(s0, f, order), s)
    ensures f !in s0.orders ==> Explored(g, s0, s, open, f, order, low)
  {
    var e := Enter(s0, f, order);
    StayKeeps(g, s, open, f, |s0.stack|, low);
    assert s0.stack <= e.stack;
    assert f in e.orders;
    if f !in s0.orders {
      forall x | x in s0.orders
        ensures x in s.orders && s.orders[x] == s0.orders[x]
      {
        assert x in e.orders;
      }
    }
  }

  lemma PopExplored(g: Graph, s0: Search, s: Search, open: set<nat>, f: nat, order: nat)
    requires f in g && f in s.orders && Exploring(g, s, open, f, |s0.stack|, s.orders[f], g[f])
    requires Extends(Enter(s0, f, order), s)
    ensures f !in s0.orders ==> Explored(g, s0, Cut(s, |s0.stack|), open, f, order, s.orders[f])
  {
    var e := Enter(s0, f, order);
    PopKeeps(g, s, open, f, |s0.stack|);
    assert e.stack[..|s0.stack|] == s0.stack;
    assert f in e.orders;
    assert Cut(s, |s0.stack|).stack[|s0.stack|..] == [];
    if f !in s0.orders {
      forall x | x in s0.orders
        ensures x in s.orders && s.orders[x] == s0.orders[x]
      {
        assert x in e.orders;
      }
    }
  }

  ghost predicate Agree(m: map<nat, nat>, m': map<nat, nat>, except: nat)
  {
    forall x :: x in m && x != except ==> x in m' && m'[x] == m[x]
  }
}
