/** Taking a node out of the tree: unlinking, and renaming one node to another. */
module RbSplice {
  import opened RbModel
  import opened RbBalance

  // ---- consistent pointers ----

  /** Child and parent pointers agree everywhere. */
  ghost predicate Linked(m: Mem)
  {
    forall n :: n in m ==> LinkedAt(m, n)
  }

  ghost predicate LinkedAt(m: Mem, n: RbNode)
    requires n in m
  {
    && (m[n].left != null ==> m[n].left in m && m[m[n].left].parent == n && m[n].left != m[n].right)
    && (m[n].right != null ==> m[n].right in m && m[m[n].right].parent == n)
    && (m[n].parent != null ==> m[n].parent in m && (m[m[n].parent].left == n || m[m[n].parent].right == n))
    && m[n].left != n && m[n].right != n && m[n].parent != n
  }

  lemma {:induction false} TreeLinked(m: Mem, p: RbNode?, t: Tree)
    requires IsTree(m, p, t) && Distinct(t)
    requires p != null ==> p in m && p !in Nodes(t) && (m[p].left == Top(t) || m[p].right == Top(t))
    ensures forall n :: n in Nodes(t) ==> n in m && LinkedAt(m, n)
    decreases t
  {
    if t.Node? {
      TreeLinked(m, t.n, t.left);
      TreeLinked(m, t.n, t.right);
      assert t.left.Node? ==> t.left.n in Nodes(t.left);
      assert t.right.Node? ==> t.right.n in Nodes(t.right);
      assert LinkedAt(m, t.n);
    }
  }

  lemma ZipLinked(m: Mem, c: Ctx, t: Tree, root: RbNode?)
    requires Zip(m, c, t, root)
    ensures Linked(m)
  {
    ZipIsPlug(m, c, t, root);
    TreeLinked(m, null, Plug(c, t));
  }

  /** The nodes whose pointers change when `node` takes the place of `victim` do not overlap. */
  ghost predicate SpliceReady(m: Mem, victim: RbNode, node: RbNode)
  {
    && victim in m && node in m && victim != node
    && var v, k := m[victim], m[node];
    && var p, l, r, q, c := v.parent, v.left, v.right, k.parent, k.right;
    && k.left == null && l != null && r != null && q != null && q in m && l in m && r in m
    && (q == victim ==> r == node)
    && (q != victim ==> m[q].left == node && r != node)
    && l != victim && r != victim && l != r && l != node && l != q && q != node
    && (p != null ==> p != victim && p != l && p != r && p != q && p != node && p in m)
    && (c != null ==> c != victim && c != l && c != r && c != q && c != p && c in m && m[c].parent == node)
  }

  // ---- unlinking a node with at most one child ----

  ghost function OnlyChild(k: Cell): RbNode? { if k.left == null then k.right else k.left }

  /** Removing `x` joins its only child to its parent. */
  ghost function Unlink(m: Mem, x: RbNode): Mem
    requires x in m
  {
    var ch, p := OnlyChild(m[x]), m[x].parent;
    map n | n in m.Keys - {x} ::
      if n == ch then m[n].(parent := p)
      else if n == p then (if m[n].left == x then m[n].(left := ch) else m[n].(right := ch))
      else m[n]
  }

  lemma UnlinkZip(m: Mem, c: Ctx, t: Tree, ch: Tree, root: RbNode?, root': RbNode?)
    requires Zip(m, c, t, root) && t.Node?
    requires (t.left.Leaf? && ch == t.right) || (t.right.Leaf? && ch == t.left)
    requires root' == if c.Root? then Top(ch) else root
    ensures Zip(Unlink(m, t.n), c, ch, root')
  {
    var m' := Unlink(m, t.n);
    FocusInMemory(m, c, t, root);
    assert ch.Node? ==> ch.n in Nodes(ch);
    assert c.Hole? ==> c.n in CtxNodes(c);
    assert OnlyChild(m[t.n]) == Top(ch);
    assert Same(m, m', Nodes(ch), Top(ch));
    Reparent(m, m', t.n, Above(c), ch);
    assert Same(m, m', CtxNodes(c), Above(c));
    Rechild(m, m', c, t.n, Top(ch), root, root');
  }

  // ---- renaming ----

  ghost function Rn(n: RbNode?, x: RbNode, y: RbNode): RbNode? { if n == x then y else n }

  ghost function RnCell(k: Cell, x: RbNode, y: RbNode): Cell
  {
    Cell(Rn(k.left, x, y), Rn(k.right, x, y), Rn(k.parent, x, y), k.color)
  }

  /** Node `y` takes over the place of node `x`. */
  ghost function Substitute(m: Mem, x: RbNode, y: RbNode): Mem
    requires x in m && y !in m
  {
    map n | n in m.Keys - {x} + {y} :: RnCell(m[if n == y then x else n], x, y)
  }

  /** The pointer writes by which `node` leaves its place and takes that of `victim`. */
  ghost predicate SplicedMem(m: Mem, m': Mem, victim: RbNode, node: RbNode)
    requires SpliceReady(m, victim, node)
  {
    var v, k := m[victim], m[node];
    var p, l, r, q, c := v.parent, v.left, v.right, k.parent, k.right;
    && m'.Keys == m.Keys - {victim}
    && m'[node] == Cell(l, if q == victim then c else r, p, v.color)
    && m'[l] == m[l].(parent := node)
    && (q != victim && q == r ==> m'[r] == m[r].(parent := node, left := c))
    && (q != victim && q != r ==> m'[r] == m[r].(parent := node) && m'[q] == m[q].(left := c))
    && (c != null ==> m'[c] == m[c].(parent := if q == victim then node else q))
    && (p != null ==> m'[p] == if m[p].left == victim then m[p].(left := node) else m[p].(right := node))
    && (forall n :: n in m' && n != node && n != l && n != r && n != q && n != c && n != p ==> m'[n] == m[n])
  }

  /** `cs`, `ts` is the focus reached from the victim `t0.n` by one step right and then steps left. */
  ghost predicate BelowVictim(c0: Ctx, t0: Tree, cs: Ctx, ts: Tree)
    requires t0.Node?
  {
    && t0.left.Node? && t0.right.Node? && ts.Node? && cs.Hole?
    && t0.n in CtxNodes(cs) && t0.left.n in CtxNodes(cs) && CtxNodes(c0) <= CtxNodes(cs)
    && Nodes(ts) <= Nodes(t0.right)
    && if cs.n == t0.n then ts == t0.right && cs.dir.Right?
       else cs.dir.Left? && cs.n in Nodes(t0.right) && t0.right.n in CtxNodes(cs)
  }

  lemma ReadyToSplice(m: Mem, c0: Ctx, t0: Tree, cs: Ctx, ts: Tree, root: RbNode?)
    requires Zip(m, c0, t0, root) && Zip(m, cs, ts, root) && t0.Node?
    requires BelowVictim(c0, t0, cs, ts) && ts.left.Leaf?
    ensures SpliceReady(m, t0.n, ts.n)
  {
    FocusInMemory(m, c0, t0, root);
    FocusInMemory(m, cs, ts, root);
    assert t0.left.n in Nodes(t0.left) && t0.right.n in Nodes(t0.right) && ts.n in Nodes(ts) && cs.n in CtxNodes(cs);
    if ts.right.Node? {
      assert ts.right.n in Nodes(ts.right);
      assert IsTree(m, ts.n, ts.right);
    }
    if c0.Hole? { assert c0.n in CtxNodes(c0); }
  }

  // The three groups of writes, in program order.

  ghost function Repoint(m: Mem, victim: RbNode, node: RbNode): Mem
    requires victim in m && (m[victim].parent != null ==> m[victim].parent in m)
  {
    var p := m[victim].parent;
    if p == null then m
    else m[p := if m[p].left == victim then m[p].(left := node) else m[p].(right := node)]
  }

  ghost function Detach(m: Mem, victim: RbNode, node: RbNode): Mem
    requires SpliceReady(m, victim, node)
  {
    var q, c, r := m[node].parent, m[node].right, m[victim].right;
    if q == victim then m
    else
      var m1 := if c == null then m else m[c := m[c].(parent := q)];
      var m2 := m1[q := m1[q].(left := c)];
      var m3 := m2[node := m2[node].(right := r)];
      m3[r := m3[r].(parent := node)]
  }

  ghost function TakeSeat(m: Mem, victim: RbNode, node: RbNode): Mem
    requires victim in m && node in m && m[victim].left != null && m[victim].left in m
  {
    var v := m[victim];
    var m1 := m[node := Cell(v.left, m[node].right, v.parent, v.color)];
    m1[v.left := m1[v.left].(parent := node)]
  }

  lemma SpliceWrites(m: Mem, victim: RbNode, node: RbNode)
    requires SpliceReady(m, victim, node)
    ensures SpliceReady(Repoint(m, victim, node), victim, node)
    ensures var m2 := Detach(Repoint(m, victim, node), victim, node);
      && m2.Keys == m.Keys
      && m2[victim].left == m[victim].left
      && SplicedMem(m, TakeSeat(m2, victim, node) - {victim}, victim, node)
  {
  }

  lemma SplicedAt(m: Mem, m': Mem, victim: RbNode, node: RbNode, n: RbNode)
    requires SpliceReady(m, victim, node) && SplicedMem(m, m', victim, node) && n in m'
    requires LinkedAt(m, n) && LinkedAt(m, node) && LinkedAt(m, victim)
    ensures m'[n] == Substitute(Unlink(m, node), victim, node)[n]
  {
    var v, k := m[victim], m[node];
    var at := if n == node then victim else n;
    UnlinkAt(m, node, at);
    SubstituteAt(Unlink(m, node), victim, node, n);
    hide Unlink, Substitute;
    if n == node {
    } else if n == v.left {
    } else if n == v.parent {
    } else if n == k.parent {
    } else if n == v.right {
    } else if n == k.right {
    }
  }

  lemma UnlinkAt(m: Mem, x: RbNode, n: RbNode)
    requires x in m && n in m && n != x
    ensures var ch, p := OnlyChild(m[x]), m[x].parent;
      && Unlink(m, x).Keys == m.Keys - {x}
      && Unlink(m, x)[n] ==
         if n == ch then m[n].(parent := p)
         else if n == p then (if m[n].left == x then m[n].(left := ch) else m[n].(right := ch))
         else m[n]
  {
  }

  lemma SubstituteAt(m: Mem, x: RbNode, y: RbNode, n: RbNode)
    requires x in m && y !in m && (n == y || (n in m && n != x))
    ensures n in Substitute(m, x, y) && Substitute(m, x, y)[n] == RnCell(m[if n == y then x else n], x, y)
  {
  }

  /** They amount to unlinking `node` and then renaming `victim` to it. */
  lemma SplicedIsSubstitute(m: Mem, m': Mem, victim: RbNode, node: RbNode)
    requires Linked(m) && SpliceReady(m, victim, node) && SplicedMem(m, m', victim, node)
    ensures m' == Substitute(Unlink(m, node), victim, node)
  {
    forall n | n in m'
      ensures m'[n] == Substitute(Unlink(m, node), victim, node)[n]
    {
      SplicedAt(m, m', victim, node, n);
    }
    assert m'.Keys == Substitute(Unlink(m, node), victim, node).Keys;
  }

  ghost function RnTree(t: Tree, x: RbNode, y: RbNode): Tree
  {
    if t.Leaf? then Leaf
    else Node(RnTree(t.left, x, y), if t.n == x then y else t.n, t.color, RnTree(t.right, x, y))
  }

  ghost function RnCtx(c: Ctx, x: RbNode, y: RbNode): Ctx
  {
    if c.Root? then Root
    else Hole(c.dir, if c.n == x then y else c.n, c.color, RnTree(c.sib, x, y), RnCtx(c.up, x, y))
  }

  ghost function RnSet(s: set<RbNode>, x: RbNode, y: RbNode): set<RbNode>
  {
    if x in s then s - {x} + {y} else s
  }

  lemma {:induction false} RnTreeNodes(t: Tree, x: RbNode, y: RbNode)
    requires y !in Nodes(t) && Distinct(t)
    ensures Distinct(RnTree(t, x, y)) && Nodes(RnTree(t, x, y)) == RnSet(Nodes(t), x, y)
  {
    if t.Node? {
      RnTreeNodes(t.left, x, y);
      RnTreeNodes(t.right, x, y);
    }
  }

  lemma {:induction false} RnCtxNodes(c: Ctx, x: RbNode, y: RbNode)
    requires y !in CtxNodes(c) && CtxDistinct(c)
    ensures CtxDistinct(RnCtx(c, x, y)) && CtxNodes(RnCtx(c, x, y)) == RnSet(CtxNodes(c), x, y)
  {
    if c.Hole? {
      RnTreeNodes(c.sib, x, y);
      RnCtxNodes(c.up, x, y);
    }
  }

  lemma {:induction false} RnTreeShape(m: Mem, p: RbNode?, t: Tree, x: RbNode, y: RbNode)
    requires x in m && y !in m && IsTree(m, p, t)
    ensures IsTree(Substitute(m, x, y), Rn(p, x, y), RnTree(t, x, y))
    decreases t
  {
    if t.Node? {
      RnTreeShape(m, t.n, t.left, x, y);
      RnTreeShape(m, t.n, t.right, x, y);
    }
  }

  lemma {:induction false} RnCtxShape(m: Mem, c: Ctx, child: RbNode?, root: RbNode?, x: RbNode, y: RbNode)
    requires x in m && y !in m && IsCtx(m, c, child, root)
    ensures IsCtx(Substitute(m, x, y), RnCtx(c, x, y), Rn(child, x, y), Rn(root, x, y))
    decreases c
  {
    if c.Hole? {
      RnTreeShape(m, c.n, c.sib, x, y);
      RnCtxShape(m, c.up, c.n, root, x, y);
    }
  }

  lemma SubstituteZip(m: Mem, c: Ctx, t: Tree, root: RbNode?, x: RbNode, y: RbNode)
    requires Zip(m, c, t, root) && x in m && y !in m
    ensures Zip(Substitute(m, x, y), RnCtx(c, x, y), RnTree(t, x, y), Rn(root, x, y))
  {
    RnTreeShape(m, Above(c), t, x, y);
    RnCtxShape(m, c, Top(t), root, x, y);
    RnTreeNodes(t, x, y);
    RnCtxNodes(c, x, y);
  }

  lemma {:induction false} RnTreeBalance(t: Tree, x: RbNode, y: RbNode)
    ensures BlackHeight(RnTree(t, x, y)) == BlackHeight(t)
    ensures IsRed(RnTree(t, x, y)) == IsRed(t)
    ensures RedBlack(RnTree(t, x, y)) == RedBlack(t)
  {
    if t.Node? {
      RnTreeBalance(t.left, x, y);
      RnTreeBalance(t.right, x, y);
    }
  }

  lemma {:induction false} RnCtxBalance(c: Ctx, k: nat, x: RbNode, y: RbNode)
    ensures AboveBlack(RnCtx(c, x, y)) == AboveBlack(c)
    ensures RedBlackCtx(RnCtx(c, x, y), k) == RedBlackCtx(c, k)
    decreases c
  {
    if c.Hole? {
      RnTreeBalance(c.sib, x, y);
      RnCtxBalance(c.up, k + Weight(c.color), x, y);
    }
  }

  lemma {:induction false} RnTreeMiss(t: Tree, x: RbNode, y: RbNode)
    requires x !in Nodes(t)
    ensures RnTree(t, x, y) == t
  {
    if t.Node? {
      RnTreeMiss(t.left, x, y);
      RnTreeMiss(t.right, x, y);
    }
  }

  // ---- order ----

  ghost function RnSeq(s: seq<RbNode>, x: RbNode, y: RbNode): (r: seq<RbNode>)
    ensures |r| == |s|
  {
    if s == [] then [] else [if s[0] == x then y else s[0]] + RnSeq(s[1..], x, y)
  }

  lemma {:induction false} RnSeqConcat(s: seq<RbNode>, u: seq<RbNode>, x: RbNode, y: RbNode)
    ensures RnSeq(s + u, x, y) == RnSeq(s, x, y) + RnSeq(u, x, y)
  {
    if s == [] {
      assert s + u == u;
    } else {
      assert (s + u)[1..] == s[1..] + u;
      RnSeqConcat(s[1..], u, x, y);
    }
  }

  lemma {:induction false} RnSeqMiss(s: seq<RbNode>, x: RbNode, y: RbNode)
    requires x !in s
    ensures RnSeq(s, x, y) == s
  {
    if s != [] { RnSeqMiss(s[1..], x, y); }
  }

  lemma {:induction false} RnInorder(t: Tree, x: RbNode, y: RbNode)
    ensures Inorder(RnTree(t, x, y)) == RnSeq(Inorder(t), x, y)
  {
    if t.Node? {
      RnInorder(t.left, x, y);
      RnInorder(t.right, x, y);
      RnSeqConcat(Inorder(t.left) + [t.n], Inorder(t.right), x, y);
      RnSeqConcat(Inorder(t.left), [t.n], x, y);
    }
  }

  lemma {:induction false} RnBeforeAfter(c: Ctx, x: RbNode, y: RbNode)
    ensures Before(RnCtx(c, x, y)) == RnSeq(Before(c), x, y)
    ensures After(RnCtx(c, x, y)) == RnSeq(After(c), x, y)
  {
    if c.Hole? {
      RnBeforeAfter(c.up, x, y);
      RnInorder(c.sib, x, y);
      var s := Inorder(c.sib);
      if c.dir.Left? {
        RnSeqConcat([c.n] + s, After(c.up), x, y);
        RnSeqConcat([c.n], s, x, y);
      } else {
        RnSeqConcat(Before(c.up) + s, [c.n], x, y);
        RnSeqConcat(Before(c.up), s, x, y);
      }
    }
  }

  ghost predicate NoDup(s: seq<RbNode>)
  {
    forall i, j :: 0 <= i < j < |s| ==> s[i] != s[j]
  }

  lemma NoDupJoin(a: seq<RbNode>, x: RbNode, b: seq<RbNode>)
    requires NoDup(a) && NoDup(b) && x !in a && x !in b
    requires forall n :: n in a ==> n !in b
    ensures NoDup(a + [x] + b)
  {
    var s := a + [x] + b;
    forall i, j | 0 <= i < j < |s|
      ensures s[i] != s[j]
    {
      if i < |a| {
        assert s[i] == a[i] && a[i] in a;
        if j > |a| { assert s[j] == b[j - |a| - 1] && s[j] in b; }
      } else if i == |a| {
        assert s[j] == b[j - |a| - 1] && s[j] in b;
      } else {
        assert s[i] == b[i - |a| - 1] && s[j] == b[j - |a| - 1];
      }
    }
  }

  lemma {:induction false} InorderMember(t: Tree, n: RbNode)
    ensures n in Inorder(t) <==> n in Nodes(t)
  {
    if t.Node? {
      InorderMember(t.left, n);
      InorderMember(t.right, n);
    }
  }

  lemma {:induction false} InorderNoDup(t: Tree)
    requires Distinct(t)
    ensures NoDup(Inorder(t))
  {
    if t.Node? {
      InorderNoDup(t.left);
      InorderNoDup(t.right);
      var a, b := Inorder(t.left), Inorder(t.right);
      forall n | n in a
        ensures n !in b
      {
        InorderMember(t.left, n);
        InorderMember(t.right, n);
      }
      InorderMember(t.left, t.n);
      InorderMember(t.right, t.n);
      NoDupJoin(a, t.n, b);
    }
  }

  /** `s'` is `s` with the one occurrence of `x` taken out. */
  ghost predicate Removed(s: seq<RbNode>, x: RbNode, s': seq<RbNode>)
  {
    exists k :: 0 <= k <= |s'| && s == s'[..k] + [x] + s'[k..]
  }

  lemma RemovedBetween(a: seq<RbNode>, x: RbNode, b: seq<RbNode>)
    ensures Removed(a + [x] + b, x, a + b)
  {
    var s' := a + b;
    assert s'[..|a|] == a && s'[|a|..] == b;
  }

  lemma NoDupMiss(a: seq<RbNode>, x: RbNode, b: seq<RbNode>)
    requires NoDup(a + [x] + b)
    ensures x !in a && x !in b
  {
    var s := a + [x] + b;
    assert s[|a|] == x;
    assert forall i :: 0 <= i < |a| ==> s[i] == a[i];
    assert forall i :: 0 <= i < |b| ==> s[|a| + 1 + i] == b[i];
  }

  lemma Regroup(a: seq<RbNode>, x: RbNode, y: RbNode, b: seq<RbNode>, c: seq<RbNode>)
    ensures (a + [x]) + ([] + [y] + b) + c == a + [x] + ([y] + b + c)
    ensures (a + [y]) + b + c == a + ([y] + b + c)
    ensures a + ([] + [y] + b) + c == a + [y] + (b + c)
    ensures a + (b + [y] + []) + c == (a + b) + [y] + c
    ensures a + b + c == a + (b + c)
  {
  }

  /** The order around the victim, before and after its successor takes its place. */
  lemma SpliceOrder(cs: Ctx, ts: Tree, victim: RbNode, a: seq<RbNode>)
    requires ts.Node? && ts.left.Leaf?
    requires Distinct(Plug(cs, ts)) && Before(cs) == a + [victim]
    ensures Removed(Inorder(Plug(cs, ts)), victim, Inorder(Plug(RnCtx(cs, victim, ts.n), ts.right)))
  {
    var y, nr, after := ts.n, Inorder(ts.right), After(cs);
    Regroup(a, victim, y, nr, after);
    InorderNoDup(Plug(cs, ts));
    PlugInorder(cs, ts);
    NoDupMiss(a, victim, [y] + nr + after);
    MissSuffix(victim, [y] + nr, after);
    SpliceSides(cs, victim, y, a);
    PlugInorder(RnCtx(cs, victim, y), ts.right);
    RemovedBetween(a, victim, [y] + nr + after);
  }

  lemma MissSuffix(x: RbNode, a: seq<RbNode>, b: seq<RbNode>)
    requires x !in a + b
    ensures x !in b
  {
  }

  lemma SpliceSides(cs: Ctx, victim: RbNode, y: RbNode, a: seq<RbNode>)
    requires Before(cs) == a + [victim] && victim !in a && victim !in After(cs)
    ensures Before(RnCtx(cs, victim, y)) == a + [y]
    ensures After(RnCtx(cs, victim, y)) == After(cs)
  {
    RnBeforeAfter(cs, victim, y);
    RnSeqConcat(a, [victim], victim, y);
    RnSeqMiss(a, victim, y);
    RnSeqMiss(After(cs), victim, y);
  }

  lemma UnlinkOrder(c: Ctx, t: Tree, ch: Tree)
    requires t.Node? && ((t.left.Leaf? && ch == t.right) || (t.right.Leaf? && ch == t.left))
    ensures Removed(Inorder(Plug(c, t)), t.n, Inorder(Plug(c, ch)))
  {
    PlugInorder(c, t);
    PlugInorder(c, ch);
    var a, b, s := Before(c), After(c), Inorder(ch);
    Regroup(a, t.n, t.n, s, b);
    if t.left.Leaf? {
      RemovedBetween(a, t.n, s + b);
    } else {
      RemovedBetween(a + s, t.n, b);
    }
  }

  // ---- balance ----

  lemma UnlinkShort(c: Ctx, t: Tree, ch: Tree)
    requires t.Node? && RedBlackCtx(c, BlackHeight(t)) && RedBlack(t) && (IsRed(t) ==> AboveBlack(c))
    requires (t.left.Leaf? && ch == t.right) || (t.right.Leaf? && ch == t.left)
    ensures t.color.Black? ==> Short(c, ch)
    ensures t.color.Red? ==> RedBlackCtx(c, BlackHeight(ch)) && RedBlack(ch) && !IsRed(ch)
  {
  }

  /** Where the removed node leaves the tree: balanced if it was red, one black node short if it was black. */
  lemma UnlinkBalanced(c: Ctx, t: Tree, ch: Tree)
    requires t.Node? && RedBlack(Plug(c, t)) && !IsRed(Plug(c, t))
    requires (t.left.Leaf? && ch == t.right) || (t.right.Leaf? && ch == t.left)
    ensures t.color.Black? ==> Short(c, ch)
    ensures t.color.Red? ==> RedBlack(Plug(c, ch)) && !IsRed(Plug(c, ch))
  {
    UnplugRedBlack(c, t);
    UnlinkShort(c, t, ch);
    if t.color.Red? { PlugRedBlack(c, ch); }
  }

  lemma RnPlugBalance(c: Ctx, t: Tree, x: RbNode, y: RbNode)
    ensures Short(RnCtx(c, x, y), t) == Short(c, t)
    ensures RedBlack(Plug(c, t)) && !IsRed(Plug(c, t)) ==>
      RedBlack(Plug(RnCtx(c, x, y), t)) && !IsRed(Plug(RnCtx(c, x, y), t))
  {
    RnCtxBalance(c, BlackHeight(t) + 1, x, y);
    if RedBlack(Plug(c, t)) && !IsRed(Plug(c, t)) {
      UnplugRedBlack(c, t);
      RnCtxBalance(c, BlackHeight(t), x, y);
      PlugRedBlack(RnCtx(c, x, y), t);
    }
  }

  lemma UnlinkThenSubstitute(m: Mem, cs: Ctx, ts: Tree, root: RbNode?, x: RbNode)
    requires Zip(m, cs, ts, root) && ts.Node? && ts.left.Leaf? && cs.Hole? && x in CtxNodes(cs)
    ensures x in Unlink(m, ts.n) && ts.n !in Unlink(m, ts.n)
    ensures Zip(Substitute(Unlink(m, ts.n), x, ts.n), RnCtx(cs, x, ts.n), ts.right, Rn(root, x, ts.n))
  {
    UnlinkZip(m, cs, ts, ts.right, root, root);
    SubstituteZip(Unlink(m, ts.n), cs, ts.right, root, x, ts.n);
    RnTreeMiss(ts.right, x, ts.n);
  }

  lemma SpliceZip(m: Mem, m': Mem, c0: Ctx, t0: Tree, cs: Ctx, ts: Tree, root: RbNode?, root': RbNode?)
      returns (c: Ctx, ch: Tree)
    requires Zip(m, c0, t0, root) && Zip(m, cs, ts, root) && t0.Node? && ts.Node? && ts.left.Leaf?
    requires cs.Hole? && t0.n in CtxNodes(cs)
    requires SpliceReady(m, t0.n, ts.n) && SplicedMem(m, m', t0.n, ts.n)
    requires root' == if c0.Root? then ts.n else root
    ensures c == RnCtx(cs, t0.n, ts.n) && ch == ts.right && Zip(m', c, ch, root')
    ensures Above(c) == Rn(Above(cs), t0.n, ts.n)
  {
    var x, y := t0.n, ts.n;
    c, ch := RnCtx(cs, x, y), ts.right;
    assert root' == Rn(root, x, y) by { FocusInMemory(m, c0, t0, root); }
    assert m' == Substitute(Unlink(m, y), x, y) by {
      ZipLinked(m, c0, t0, root);
      SplicedIsSubstitute(m, m', x, y);
    }
    UnlinkThenSubstitute(m, cs, ts, root, x);
  }

  lemma SpliceBalanced(cs: Ctx, ts: Tree, victim: RbNode)
    requires ts.Node? && ts.left.Leaf? && RedBlack(Plug(cs, ts)) && !IsRed(Plug(cs, ts))
    ensures var c := RnCtx(cs, victim, ts.n);
      && (ts.color.Black? ==> Short(c, ts.right))
      && (ts.color.Red? ==> RedBlack(Plug(c, ts.right)) && !IsRed(Plug(c, ts.right)))
  {
    UnlinkBalanced(cs, ts, ts.right);
    RnPlugBalance(cs, ts.right, victim, ts.n);
  }
}
