/** The cycle finder of the profile viewer. */
module FindCycles {
  import opened CallGraph
  import opened Tarjan

  /** Every group is the whole component of each of its functions. */
  ghost predicate Whole(g: Graph, cycle: map<nat, nat>, groups: seq<set<nat>>)
  {
    forall f :: f in cycle ==> f in g && cycle[f] < |groups| && groups[cycle[f]] == Scc(g, f)
  }

  /** A component is in one group as a whole. */
  ghost predicate Together(g: Graph, cycle: map<nat, nat>)
  {
    forall f, h :: f in cycle && h in g && Mutual(g, f, h) ==> h in cycle && cycle[h] == cycle[f]
  }

  ghost predicate AllRecursive(g: Graph, cycle: map<nat, nat>)
  {
    forall f {:trigger Recursive(g, f)} :: f in cycle ==> Recursive(g, f)
  }

  ghost predicate GroupsOk(g: Graph, cycle: map<nat, nat>, groups: seq<set<nat>>)
  {
    Whole(g, cycle, groups) && Together(g, cycle) && AllRecursive(g, cycle)
  }

  /** Some other function is in the same component. */
  ghost predicate Recursive(g: Graph, f: nat)
  {
    exists h :: h in g && h != f && Mutual(g, f, h)
  }

  ghost predicate Settled(g: Graph, cycle: map<nat, nat>, f: nat)
  {
    Recursive(g, f) ==> f in cycle
  }

  /** `cycle'` moves the `members` to the group `id`. */
  ghost predicate Moved(cycle: map<nat, nat>, cycle': map<nat, nat>, members: set<nat>, id: nat)
  {
    && cycle'.Keys == cycle.Keys + members
    && forall x :: x in cycle' ==> cycle'[x] == if x in members then id else cycle[x]
  }

  lemma SccMembers(g: Graph, f: nat, x: nat)
    requires f in g && x in Scc(g, f)
    ensures x in g && Mutual(g, x, f) && Scc(g, x) == Scc(g, f) && x in Scc(g, x)
  {
    SccSymmetric(g, f, x);
  }

  lemma MovedWhole(g: Graph, cycle: map<nat, nat>, groups: seq<set<nat>>, f: nat, cycle': map<nat, nat>)
    requires Whole(g, cycle, groups) && f in g && Moved(cycle, cycle', Scc(g, f), |groups|)
    ensures Whole(g, cycle', groups + [Scc(g, f)])
  {
    forall x | x in cycle'
      ensures x in g && cycle'[x] <= |groups| && (groups + [Scc(g, f)])[cycle'[x]] == Scc(g, x)
    {
      if x in Scc(g, f) { SccMembers(g, f, x); }
    }
  }

  lemma MovedTogether(g: Graph, cycle: map<nat, nat>, f: nat, cycle': map<nat, nat>, id: nat)
    requires Together(g, cycle) && cycle.Keys <= g.Keys && f in g && Moved(cycle, cycle', Scc(g, f), id)
    ensures Together(g, cycle')
  {
    forall x, h | x in cycle' && h in g && Mutual(g, x, h)
      ensures h in cycle' && cycle'[h] == cycle'[x]
    {
      SccSymmetric(g, x, h);
      ReachSelf(g, x);
      if x in Scc(g, f) {
        SccMembers(g, f, x);
        assert h in Scc(g, x);
      } else if h in Scc(g, f) {
        SccMembers(g, f, h);
      }
    }
  }

  lemma MovedRecursive(g: Graph, cycle: map<nat, nat>, f: nat, cycle': map<nat, nat>, id: nat)
    requires AllRecursive(g, cycle) && f in g && Recursive(g, f) && Moved(cycle, cycle', Scc(g, f), id)
    ensures AllRecursive(g, cycle')
  {
    forall x | x in cycle'
      ensures Recursive(g, x)
    {
      if x in Scc(g, f) {
        SccMembers(g, f, x);
        assert x != f ==> Mutual(g, x, f) && f in g;
      }
    }
  }

  ghost predicate PoppedSettled(g: Graph, s: Search, cycle: map<nat, nat>)
  {
    forall x :: Popped(s, x) ==> Settled(g, cycle, x)
  }

  lemma PopSettled(g: Graph, s: Search, s': Search, cycle: map<nat, nat>, cycle': map<nat, nat>, f: nat, members: seq<nat>)
    requires PoppedSettled(g, s, cycle) && f in g && SeqSet(members) == Scc(g, f)
    requires forall x :: Popped(s', x) <==> Popped(s, x) || x in members
    requires cycle'.Keys == if Recursive(g, f) then cycle.Keys + SeqSet(members) else cycle.Keys
    ensures PoppedSettled(g, s', cycle')
  {
    forall x | Popped(s', x)
      ensures Settled(g, cycle', x)
    {
      if x in members {
        SccMembers(g, f, x);
        RecursiveTogether(g, f, x);
      }
    }
  }

  lemma RecursiveTogether(g: Graph, f: nat, x: nat)
    requires f in g && x in g && Mutual(g, f, x)
    ensures Recursive(g, x) ==> Recursive(g, f)
  {
    if Recursive(g, x) {
      var h :| h in g && h != x && Mutual(g, x, h);
      if h != f {
        ReachTrans(g, f, x, h);
        ReachTrans(g, h, x, f);
      } else {
        assert Mutual(g, f, x) && x != f;
      }
    }
  }

  /** A popped part longer than one function is a recursive component, and only then. */
  lemma ComponentSize(g: Graph, s: Search, f: nat, pos: nat)
    requires StackSorted(s) && pos < |s.stack| && s.stack[pos] == f && SeqSet(s.stack[pos..]) == Scc(g, f)
    ensures |s.stack[pos..]| > 1 <==> Recursive(g, f)
    ensures forall i, j :: 0 <= i < j < |s.stack[pos..]| ==> s.stack[pos..][i] != s.stack[pos..][j]
  {
    var m := s.stack[pos..];
    assert m[0] == f;
    if |m| > 1 {
      assert m[1] in SeqSet(m);
      assert m[1] in g && m[1] != f && Mutual(g, f, m[1]);
    }
    if Recursive(g, f) {
      var h :| h in g && h != f && Mutual(g, f, h);
      assert h in SeqSet(m);
    }
  }

  lemma OpenReachesCallee(g: Graph, s: Search, open: set<nat>, f: nat, pos: nat, low: nat, done: seq<nat>, c: nat, x: nat)
    requires Exploring(g, s, open, f, pos, low, done) && Edge(g, f, c) && x in open + {f}
    ensures Reach(g, x, c)
  {
    ReachEdge(g, f, c);
    if x != f {
      assert x in s.stack[..pos];
      assert x in s.stack;
      BelowPos(s, pos, x);
      ReachTrans(g, x, f, c);
    }
  }

  ghost predicate AllSettled(g: Graph, cycle: map<nat, nat>, s: set<nat>)
  {
    forall x :: x in s ==> Settled(g, cycle, x)
  }

  lemma RootSearchDone(g: Graph, s: Search)
    requires Inv(g, s, {})
    ensures s.stack == []
  {
    assert s.stack != [] ==> Anchored(g, s, {}, s.stack[0]);
  }

  /** Two functions share a cycle exactly when each reaches the other. */
  lemma SharedIffMutual(g: Graph, cycle: map<nat, nat>, groups: seq<set<nat>>)
    requires GroupsOk(g, cycle, groups) && AllSettled(g, cycle, g.Keys)
    ensures forall f, h :: f in g && h in g && f != h ==>
      (Mutual(g, f, h) <==> f in cycle && h in cycle && cycle[f] == cycle[h])
    ensures forall f :: f in g ==> (f in cycle <==> Recursive(g, f))
  {
    forall f, h | f in g && h in g && f != h
      ensures Mutual(g, f, h) <==> f in cycle && h in cycle && cycle[f] == cycle[h]
    {
      if Mutual(g, f, h) {
        assert Settled(g, cycle, f) && Recursive(g, f);
      }
      if f in cycle && h in cycle && cycle[f] == cycle[h] {
        ReachSelf(g, h);
        assert h in Scc(g, h);
        assert h in Scc(g, f);
      }
    }
    forall f | f in g
      ensures f in cycle <==> Recursive(g, f)
    {
      assert Settled(g, cycle, f);
    }
  }

  ghost function ValuesOf(cycle: map<nat, nat>, fs: seq<nat>): set<nat>
  {
    set f | f in fs && f in cycle :: cycle[f]
  }

  lemma ValuesSnoc(cycle: map<nat, nat>, fs: seq<nat>, f: nat)
    ensures ValuesOf(cycle, fs + [f]) == ValuesOf(cycle, fs) + if f in cycle then {cycle[f]} else {}
  {
    assert (fs + [f])[|fs|] == f;
    forall v | v in ValuesOf(cycle, fs)
      ensures v in ValuesOf(cycle, fs + [f])
    {
      var x :| x in fs && x in cycle && cycle[x] == v;
      assert x in fs + [f];
    }
    assert f in fs + [f];
  }

  lemma AllValues(g: Graph, cycle: map<nat, nat>, fs: seq<nat>)
    requires SeqSet(fs) == g.Keys && cycle.Keys <= g.Keys
    ensures ValuesOf(cycle, fs) == cycle.Values
  {
    forall f | f in cycle
      ensures cycle[f] in ValuesOf(cycle, fs)
    {
      assert f in SeqSet(fs);
    }
  }

  lemma EarlierGroup(g: Graph, cycle: map<nat, nat>, groups: seq<set<nat>>, f: nat)
    requires Whole(g, cycle, groups)
    ensures f in cycle ==> cycle[f] < |groups|
  {
  }

  lemma FewerLeft(all: set<nat>, before: set<nat>, after: set<nat>, f: nat)
    requires after == before + {f} && f in all && f !in before
    ensures all - after < all - before
  {
    assert f in all - before && f !in all - after;
  }

  class Profile {
    const calls: Graph
    var cycle: map<nat, nat>
    var groups: seq<set<nat>>
    var visited: set<nat>
    var orders: map<nat, nat>
    var lowlinks: map<nat, nat>
    var stack: seq<nat>

    constructor (g: Graph)
      ensures calls == g && cycle == map[] && groups == []
    {
      calls := g;
      cycle, groups, visited, orders, lowlinks, stack := map[], [], {}, map[], map[], [];
    }

    ghost function State(): Search
      reads this
    {
      Search(orders, stack)
    }

    /**
     * Adds a function to a cycle. The loop over the members of its earlier cycle is guarded by a test of the function
     * itself, which is in the new cycle already: it adds nobody.
     */
    method AddFunction(id: nat, f: nat)
      requires id < |groups| && f !in groups[id] && (f in cycle ==> cycle[f] < |groups|)
      modifies this`cycle, this`groups
      ensures groups == old(groups)[id := old(groups[id]) + {f}] && cycle == old(cycle)[f := id]
    {
      groups := groups[id := groups[id] + {f}];
      if f in cycle {
        var others := groups[cycle[f]];
        while others != {}
          invariant f in groups[id]
          decreases others
        {
          var other :| other in others;
          if f !in groups[id] {
            assert false;
          }
          others := others - {other};
        }
      }
      cycle := cycle[f := id];
    }

    /** Makes one cycle of the popped members; each joins it and forgets any earlier cycle. */
    method MakeCycle(members: seq<nat>, ghost f: nat)
      requires GroupsOk(calls, cycle, groups) && f in calls && SeqSet(members) == Scc(calls, f)
      requires Recursive(calls, f) && forall i, j :: 0 <= i < j < |members| ==> members[i] != members[j]
      modifies this`cycle, this`groups
      ensures GroupsOk(calls, cycle, groups)
      ensures cycle.Keys == old(cycle.Keys) + SeqSet(members)
    {
      var id := |groups|;
      groups := groups + [{}];
      assert SeqSet(members[..0]) == {};
      for i := 0 to |members|
        invariant groups == old(groups) + [SeqSet(members[..i])] && id == |old(groups)|
        invariant Moved(old(cycle), cycle, SeqSet(members[..i]), id)
      {
        var member := members[i];
        assert members[..i + 1] == members[..i] + [member];
        assert member !in members[..i];
        EarlierGroup(calls, old(cycle), old(groups), member);
        AddFunction(id, member);
        assert groups[id] == SeqSet(members[..i + 1]);
      }
      assert members[..|members|] == members;
      MovedWhole(calls, old(cycle), old(groups), f, cycle);
      MovedTogether(calls, old(cycle), f, cycle, id);
      MovedRecursive(calls, old(cycle), f, cycle, id);
    }

    /** What holds between the recursive calls of one search. */
    ghost predicate Consistent(open: set<nat>, order: nat)
      reads this
    {
      && Inv(calls, State(), open) && OrdersBelow(State(), order)
      && lowlinks.Keys == orders.Keys && orders.Keys <= visited
      && GroupsOk(calls, cycle, groups)
      && PoppedSettled(calls, State(), cycle)
    }

    /** Pops the component of `f` off the stack. */
    method PopComponent(f: nat, pos: nat, ghost open: set<nat>, ghost order: nat)
      requires Consistent(open + {f}, order) && f in calls && f in orders
      requires Exploring(calls, State(), open, f, pos, orders[f], calls[f])
      modifies this`stack, this`cycle, this`groups
      ensures Consistent(open, order) && State() == Cut(old(State()), pos) && f !in stack
      ensures cycle.Keys >= old(cycle.Keys)
    {
      ghost var s := State();
      PoppedIsComponent(calls, s, open, f, pos);
      ComponentSize(calls, s, f, pos);
      var members := stack[pos..];
      if |members| > 1 {
        MakeCycle(members, f);
      }
      PopClosed(calls, s, open, f, pos);
      PopSettled(calls, s, Cut(s, pos), old(cycle), cycle, f, members);
      PopKeeps(calls, s, open, f, pos);
      stack := stack[..pos];
    }

    method Enter(f: nat, order: nat, ghost open: set<nat>)
      requires f in calls && f !in orders && Consistent(open, order)
      requires forall x :: x in open ==> Reach(calls, x, f)
      modifies this`visited, this`orders, this`lowlinks, this`stack
      ensures Consistent(open + {f}, order + 1) && State() == Tarjan.Enter(old(State()), f, order)
      ensures lowlinks == old(lowlinks)[f := order] && visited == old(visited) + {f}
      ensures Exploring(calls, State(), open, f, |old(stack)|, order, [])
    {
      EnterKeeps(calls, State(), open, f, order);
      EnterExploring(calls, State(), open, f, order);
      EnterPopped(calls, State(), f, order);
      hide Exploring, Inv, OrdersBelow, GroupsOk;
      visited, orders, lowlinks, stack := visited + {f}, orders[f := order], lowlinks[f := order], stack + [f];
    }

    /** Follows one call of `f`. */
    method Follow(f: nat, callee: nat, order0: nat, pos: nat, ghost open: set<nat>, ghost done: seq<nat>)
        returns (order: nat)
      requires Consistent(open + {f}, order0) && f in lowlinks && Edge(calls, f, callee) && Closed(calls)
      requires Exploring(calls, State(), open, f, pos, lowlinks[f], done)
      modifies this`cycle, this`groups, this`visited, this`orders, this`lowlinks, this`stack
      ensures Consistent(open + {f}, order) && order0 <= order && Extends(old(State()), State())
      ensures f in lowlinks && Exploring(calls, State(), open, f, pos, lowlinks[f], done + [callee])
      ensures Agree(old(lowlinks), lowlinks, f)
      ensures visited == old(visited) + orders.Keys && cycle.Keys >= old(cycle.Keys)
      decreases calls.Keys - orders.Keys, 1
    {
      hide Inv, GroupsOk, PoppedSettled, Covers, CoversDone, Reach, Attained;
      ghost var s, low := State(), lowlinks[f];
      if callee !in orders {
        forall x | x in open + {f}
          ensures Reach(calls, x, callee)
        {
          OpenReachesCallee(calls, s, open, f, pos, low, done, callee, x);
        }
        order := Visit(callee, order0, open + {f});
        AfterVisit(calls, s, State(), open, f, pos, low, done, callee, order0, lowlinks[callee]);
        lowlinks := lowlinks[f := Min(lowlinks[f], lowlinks[callee])];
      } else {
        order := order0;
        if callee in stack {
          lowlinks := lowlinks[f := Min(lowlinks[f], orders[callee])];
        }
        AfterSeen(calls, s, open, f, pos, low, done, callee, lowlinks[f]);
      }
    }

    /** Explores `f` and everything it calls that this search has not met yet. */
    method Visit(f: nat, order0: nat, ghost open: set<nat>) returns (order: nat)
      requires Closed(calls) && f in calls && f !in orders && Consistent(open, order0)
      requires forall x :: x in open ==> Reach(calls, x, f)
      modifies this`cycle, this`groups, this`visited, this`orders, this`lowlinks, this`stack
      ensures Consistent(open, order) && order0 < order
      ensures f in lowlinks && Explored(calls, old(State()), State(), open, f, order0, lowlinks[f])
      ensures Agree(old(lowlinks), lowlinks, f)
      ensures visited == old(visited) + orders.Keys && cycle.Keys >= old(cycle.Keys)
      decreases calls.Keys - orders.Keys, 0
    {
      hide Inv, GroupsOk, Exploring, PoppedSettled, Extends;
      var pos := |stack|;
      ghost var s0 := State();
      Enter(f, order0, open);
      FewerLeft(calls.Keys, s0.orders.Keys, orders.Keys, f);
      order := FollowAll(f, order0 + 1, pos, open);
      Leave(f, pos, open, order, s0, order0);
    }

    method FollowAll(f: nat, order0: nat, pos: nat, ghost open: set<nat>) returns (order: nat)
      requires Closed(calls) && f in calls && f in lowlinks && Consistent(open + {f}, order0)
      requires Exploring(calls, State(), open, f, pos, lowlinks[f], [])
      modifies this`cycle, this`groups, this`visited, this`orders, this`lowlinks, this`stack
      ensures Consistent(open + {f}, order) && order0 <= order && Extends(old(State()), State())
      ensures f in lowlinks && Exploring(calls, State(), open, f, pos, lowlinks[f], calls[f])
      ensures Agree(old(lowlinks), lowlinks, f)
      ensures visited == old(visited) + orders.Keys && cycle.Keys >= old(cycle.Keys)
      decreases calls.Keys - orders.Keys, 2
    {
      hide Inv, GroupsOk, Exploring, PoppedSettled;
      order := order0;
      var callees := calls[f];
      for i := 0 to |callees|
        invariant Consistent(open + {f}, order) && order0 <= order && Extends(old(State()), State())
        invariant f in lowlinks && Exploring(calls, State(), open, f, pos, lowlinks[f], callees[..i])
        invariant Agree(old(lowlinks), lowlinks, f)
        invariant visited == old(visited) + orders.Keys && cycle.Keys >= old(cycle.Keys)
      {
        assert callees[..i + 1] == callees[..i] + [callees[i]];
        order := Follow(f, callees[i], order, pos, open, callees[..i]);
      }
      assert callees[..|callees|] == callees;
    }

    /** Closes the exploration of `f`; it is the root of a component exactly when it is its own low link. */
    method Leave(f: nat, pos: nat, ghost open: set<nat>, ghost order: nat, ghost s0: Search, ghost order0: nat)
      requires Consistent(open + {f}, order) && f in calls && f in lowlinks
      requires pos == |s0.stack| && f !in s0.orders && Extends(Tarjan.Enter(s0, f, order0), State())
      requires Exploring(calls, State(), open, f, pos, lowlinks[f], calls[f])
      modifies this`stack, this`cycle, this`groups
      ensures Consistent(open, order) && orders == old(orders)
      ensures Explored(calls, s0, State(), open, f, order0, lowlinks[f])
      ensures cycle.Keys >= old(cycle.Keys)
    {
      assert f in Tarjan.Enter(s0, f, order0).orders;
      if lowlinks[f] == orders[f] {
        PopExplored(calls, s0, State(), open, f, order0);
        PopComponent(f, pos, open, order);
      } else {
        StayKeeps(calls, State(), open, f, pos, lowlinks[f]);
        StayExplored(calls, s0, State(), open, f, order0, lowlinks[f]);
      }
    }

    /** Searches from every function not met before, each time with fresh tables, then lists the cycles. */
    method FindCycles(functions: seq<nat>) returns (cycles: seq<nat>)
      requires Closed(calls) && SeqSet(functions) == calls.Keys && GroupsOk(calls, cycle, groups)
      modifies this
      ensures forall f, h :: f in calls && h in calls && f != h ==>
        (Mutual(calls, f, h) <==> f in cycle && h in cycle && cycle[f] == cycle[h])
      ensures forall f :: f in calls ==> (f in cycle <==> Recursive(calls, f))
      ensures forall f :: f in cycle ==> cycle[f] < |groups| && groups[cycle[f]] == Scc(calls, f)
      ensures forall i, j :: 0 <= i < j < |cycles| ==> cycles[i] != cycles[j]
      ensures SeqSet(cycles) == cycle.Values
    {
      visited := {};
      for i := 0 to |functions|
        invariant GroupsOk(calls, cycle, groups) && AllSettled(calls, cycle, visited)
        invariant forall j :: 0 <= j < i ==> functions[j] in visited
      {
        var f := functions[i];
        assert f in SeqSet(functions);
        if f !in visited {
          SearchFrom(f);
        }
      }
      assert AllSettled(calls, cycle, calls.Keys) by {
        assert forall x :: x in calls.Keys ==> x in SeqSet(functions);
      }
      SharedIffMutual(calls, cycle, groups);
      cycles := ListCycles(functions);
    }

    /** The distinct cycles that some function is in. */
    method ListCycles(functions: seq<nat>) returns (cycles: seq<nat>)
      requires SeqSet(functions) == calls.Keys && cycle.Keys <= calls.Keys
      ensures forall i, j :: 0 <= i < j < |cycles| ==> cycles[i] != cycles[j]
      ensures SeqSet(cycles) == cycle.Values
    {
      cycles := [];
      for i := 0 to |functions|
        invariant forall a, b :: 0 <= a < b < |cycles| ==> cycles[a] != cycles[b]
        invariant SeqSet(cycles) == ValuesOf(cycle, functions[..i])
      {
        var f := functions[i];
        assert functions[..i + 1] == functions[..i] + [f];
        ValuesSnoc(cycle, functions[..i], f);
        if f in cycle && cycle[f] !in cycles {
          cycles := cycles + [cycle[f]];
        }
      }
      assert functions[..|functions|] == functions;
      AllValues(calls, cycle, functions);
    }

    /** One search from a fresh start. */
    method SearchFrom(f: nat)
      requires Closed(calls) && f in calls && GroupsOk(calls, cycle, groups) && AllSettled(calls, cycle, visited)
      modifies this
      ensures GroupsOk(calls, cycle, groups) && AllSettled(calls, cycle, visited)
      ensures f in visited && old(visited) <= visited
    {
      ghost var before := visited;
      orders, lowlinks, stack := map[], map[], [];
      var order := Visit(f, 0, {});
      RootSearchDone(calls, State());
      forall x | x in visited
        ensures Settled(calls, cycle, x)
      {
        if x in orders { assert Popped(State(), x); } else { assert x in before; }
      }
    }
  }
}
