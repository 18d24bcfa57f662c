/** The proxy's routing index: servers ordered by the first key of their range. */
module StServer {
  import opened Radix
  import opened Keys
  import opened RbModel
  import opened RbBalance
  import opened RbSplice
  import opened RbTree

  ghost predicate SortedKeys(s: seq<RbNode>)
  {
    forall i, j :: 0 <= i < j < |s| ==> Below(s[i].key, s[j].key)
  }

  ghost predicate AllBelow(s: seq<RbNode>, k: Key)
  {
    forall i :: 0 <= i < |s| ==> Below(s[i].key, k)
  }

  ghost predicate AllAbove(s: seq<RbNode>, k: Key)
  {
    forall i :: 0 <= i < |s| ==> Below(k, s[i].key)
  }

  /** The servers of an index in key order. */
  ghost function Servers(index: RbRoot): seq<RbNode>
    reads index
  {
    Inorder(index.tree)
  }

  ghost predicate Ordered(index: RbRoot)
    reads index, index.nodes
  {
    index.Valid() && SortedKeys(Servers(index))
  }

  // ---- in-order walking ----

  ghost predicate FollowsAt(s: seq<RbNode>, i: nat, node: RbNode, r: RbNode?)
  {
    i < |s| && s[i] == node && r == if i + 1 < |s| then s[i + 1] else null
  }

  /** `r` comes right after `node` in `s`; null when `node` is the last. */
  ghost predicate IsNext(s: seq<RbNode>, node: RbNode, r: RbNode?)
  {
    exists i: nat :: FollowsAt(s, i, node, r)
  }

  lemma NextInside(a: seq<RbNode>, x: RbNode, y: RbNode, b: seq<RbNode>)
    ensures IsNext(a + [x] + ([y] + b), x, y)
  {
    assert FollowsAt(a + [x] + ([y] + b), |a|, x, y);
  }

  lemma NextAtEnd(a: seq<RbNode>, x: RbNode)
    ensures IsNext(a + [x] + [], x, null)
  {
    assert FollowsAt(a + [x] + [], |a|, x, null);
  }

  lemma NextIsBelow(c: Ctx, t: Tree, a: seq<RbNode>, start: RbNode)
    requires t.Node? && t.left.Leaf? && Before(c) == a + [start]
    ensures IsNext(Inorder(Plug(c, t)), start, t.n)
  {
    PlugInorder(c, t);
    var b := Inorder(t.right) + After(c);
    Regroup(a, start, t.n, Inorder(t.right), After(c));
    assert [t.n] + Inorder(t.right) + After(c) == [t.n] + b;
    NextInside(a, start, t.n, b);
  }

  lemma NextIsAbove(c: Ctx, t: Tree, a: seq<RbNode>, start: RbNode)
    requires Before(c) + Inorder(t) == a + [start] && (c.Hole? ==> c.dir.Left?)
    ensures IsNext(Inorder(Plug(c, t)), start, Above(c))
  {
    PlugInorder(c, t);
    if c.Root? {
      NextAtEnd(a, start);
    } else {
      var b := Inorder(c.sib) + After(c.up);
      assert After(c) == [c.n] + b;
      NextInside(a, start, c.n, b);
    }
  }

  lemma ClimbRight(c: Ctx, t: Tree)
    requires c.Hole? && c.dir.Right?
    ensures Before(c.up) + Inorder(Mk(c.dir, t, c.n, c.color, c.sib)) == Before(c) + Inorder(t)
  {
    var a, b, d := Before(c.up), Inorder(c.sib), Inorder(t);
    assert a + (b + [c.n] + d) == (a + b + [c.n]) + d;
  }

  method First(index: RbRoot) returns (r: RbNode?)
    requires index.Valid()
    ensures r == if Servers(index) == [] then null else Servers(index)[0]
  {
    ghost var c, t := Root, index.tree;
    FocusInMemory(index.Memory(), c, t, index.root);
    var n := index.root;
    if n == null { return null; }
    while n.left != null
      invariant index.At(c, t) && t.Node? && t.n == n && n in index.nodes
      invariant index.Memory()[n] == Cell(Top(t.left), Top(t.right), Above(c), t.color)
      invariant Plug(c, t) == index.tree && Before(c) == []
      decreases t
    {
      MoveDown(index.Memory(), Left, c, t.left, n, t.color, t.right, index.root);
      c, t := Hole(Left, n, t.color, t.right, c), t.left;
      n := n.left;
      FocusInMemory(index.Memory(), c, t, index.root);
    }
    PlugInorder(c, t);
    return n;
  }

  /** The node after `start` when it has a right child: down and then left. */
  method NextBelow(index: RbRoot, start: RbNode, ghost c0: Ctx, ghost t0: Tree) returns (node: RbNode)
    requires index.At(c0, t0) && t0.Node? && t0.n == start && t0.right.Node?
    ensures IsNext(Inorder(Plug(c0, t0)), start, node) && node in index.nodes
  {
    ghost var m := index.Memory();
    ghost var a := Before(c0) + Inorder(t0.left);
    FocusInMemory(m, c0, t0, index.root);
    MoveDown(m, Right, c0, t0.right, start, t0.color, t0.left, index.root);
    ghost var c, t := Hole(Right, start, t0.color, t0.left, c0), t0.right;
    node := start.right;
    FocusInMemory(m, c, t, index.root);
    while node.left != null
      invariant Zip(m, c, t, index.root) && t.Node? && t.n == node && node in index.nodes
      invariant m[node] == Cell(Top(t.left), Top(t.right), Above(c), t.color)
      invariant Plug(c, t) == Plug(c0, t0) && Before(c) == a + [start]
      decreases t
    {
      MoveDown(m, Left, c, t.left, node, t.color, t.right, index.root);
      c, t := Hole(Left, node, t.color, t.right, c), t.left;
      node := node.left;
      FocusInMemory(m, c, t, index.root);
    }
    NextIsBelow(c, t, a, start);
  }

  /** The node after `start` when it has no right child: up until the path turns right. */
  method NextAbove(index: RbRoot, start: RbNode, ghost c0: Ctx, ghost t0: Tree) returns (parent: RbNode?)
    requires index.At(c0, t0) && t0.Node? && t0.n == start && t0.right.Leaf?
    ensures IsNext(Inorder(Plug(c0, t0)), start, parent)
    ensures parent != null ==> parent in index.nodes
  {
    ghost var m := index.Memory();
    ghost var c, t, a := c0, t0, Before(c0) + Inorder(t0.left);
    assert Before(c) + Inorder(t) == a + [start];
    FocusInMemory(m, c, t, index.root);
    var node := start;
    parent := node.parent;
    while parent != null && node == parent.right
      invariant Zip(m, c, t, index.root) && t.Node? && t.n == node && node in index.nodes
      invariant parent == Above(c) && (c.Hole? ==> c.n in index.nodes && (parent.right == node <==> c.dir.Right?))
      invariant Plug(c, t) == Plug(c0, t0) && Before(c) + Inorder(t) == a + [start]
      decreases Depth(c)
    {
      MoveUp(m, c, t, index.root);
      ClimbRight(c, t);
      c, t := c.up, Mk(c.dir, t, c.n, c.color, c.sib);
      node := parent;
      FocusInMemory(m, c, t, index.root);
      parent := node.parent;
    }
    NextIsAbove(c, t, a, start);
  }

  method Next(index: RbRoot, node: RbNode) returns (r: RbNode?)
    requires index.Valid() && node in index.nodes
    ensures IsNext(Servers(index), node, r)
    ensures r != null ==> r in index.nodes
  {
    ghost var c, t := Locate(index.Memory(), Root, index.tree, index.root, node);
    FocusInMemory(index.Memory(), c, t, index.root);
    if node.parent == node {
      assert false;
    }
    if node.right != null {
      r := NextBelow(index, node, c, t);
    } else {
      r := NextAbove(index, node, c, t);
    }
  }

  // ---- search order ----

  lemma SortedRight(a: seq<RbNode>, x: RbNode, b: seq<RbNode>, k: Key)
    requires SortedKeys(a + [x] + b) && Below(k, x.key)
    ensures AllAbove([x] + b, k)
  {
    var s, u := a + [x] + b, [x] + b;
    forall i | 0 <= i < |u|
      ensures Below(k, u[i].key)
    {
      assert s[|a|] == x && u[i] == s[|a| + i];
      if i > 0 { BelowTransitive(k, x.key, u[i].key); }
    }
  }

  lemma SortedLeft(a: seq<RbNode>, x: RbNode, b: seq<RbNode>, k: Key)
    requires SortedKeys(a + [x] + b) && Below(x.key, k)
    ensures AllBelow(a + [x], k)
  {
    var s, u := a + [x] + b, a + [x];
    forall i | 0 <= i < |u|
      ensures Below(u[i].key, k)
    {
      assert s[|a|] == x && u[i] == s[i];
      if i < |a| { BelowTransitive(u[i].key, x.key, k); }
    }
  }

  lemma SortedInsert(a: seq<RbNode>, x: RbNode, b: seq<RbNode>)
    requires SortedKeys(a + b) && AllBelow(a, x.key) && AllAbove(b, x.key)
    ensures SortedKeys(a + [x] + b)
  {
    var s, u := a + b, a + [x] + b;
    forall i, j | 0 <= i < j < |u|
      ensures Below(u[i].key, u[j].key)
    {
      if i == |a| {
        assert u[j] == b[j - |a| - 1];
      } else if j == |a| {
        assert u[i] == a[i];
      } else {
        assert u[i] == s[if i < |a| then i else i - 1] && u[j] == s[if j < |a| then j else j - 1];
      }
    }
  }

  lemma Regroup5(a: seq<RbNode>, l: seq<RbNode>, x: RbNode, r: seq<RbNode>, b: seq<RbNode>)
    ensures a + (l + [x] + r) + b == (a + l) + [x] + (r + b)
  {
  }

  lemma SplitAtNode(c: Ctx, t: Tree)
    requires t.Node?
    ensures Inorder(Plug(c, t)) == (Before(c) + Inorder(t.left)) + [t.n] + (Inorder(t.right) + After(c))
  {
    PlugInorder(c, t);
    Regroup5(Before(c), Inorder(t.left), t.n, Inorder(t.right), After(c));
  }

  lemma GoLeft(c: Ctx, t: Tree, k: Key)
    requires t.Node? && SortedKeys(Inorder(Plug(c, t))) && Below(k, t.n.key)
    ensures AllAbove(After(Hole(Left, t.n, t.color, t.right, c)), k)
  {
    SplitAtNode(c, t);
    SortedRight(Before(c) + Inorder(t.left), t.n, Inorder(t.right) + After(c), k);
    assert [t.n] + (Inorder(t.right) + After(c)) == [t.n] + Inorder(t.right) + After(c);
  }

  lemma GoRight(c: Ctx, t: Tree, k: Key)
    requires t.Node? && SortedKeys(Inorder(Plug(c, t))) && Below(t.n.key, k)
    ensures AllBelow(Before(Hole(Right, t.n, t.color, t.left, c)), k)
  {
    SplitAtNode(c, t);
    SortedLeft(Before(c) + Inorder(t.left), t.n, Inorder(t.right) + After(c), k);
  }

  ghost predicate HasKey(s: seq<RbNode>, k: Key)
  {
    exists i :: 0 <= i < |s| && s[i].key == k
  }

  lemma NoKeyBetween(a: seq<RbNode>, b: seq<RbNode>, k: Key)
    requires AllBelow(a, k) && AllAbove(b, k)
    ensures !HasKey(a + b, k)
  {
    var s := a + b;
    forall i | 0 <= i < |s|
      ensures s[i].key != k
    {
      BelowIrreflexive(k);
      if i < |a| { assert s[i] == a[i]; } else { assert s[i] == b[i - |a|]; }
    }
  }

  // ---- insertion ----

  /** Descends to the empty place where `k` belongs, or to the server that already has it. */
  method FindPlace(index: RbRoot, k: Key)
      returns (found: bool, parent: RbNode?, d: Dir, ghost c: Ctx)
    requires Ordered(index)
    ensures found ==> HasKey(Servers(index), k)
    ensures !found ==> index.At(c, Leaf) && Plug(c, Leaf) == index.tree && Above(c) == parent
    ensures !found ==> (c.Hole? ==> c.dir == d) && AllBelow(Before(c), k) && AllAbove(After(c), k)
  {
    ghost var m, t := index.Memory(), index.tree;
    c, d, parent := Root, Left, null;
    var cur := index.root;
    FocusInMemory(m, c, t, index.root);
    while cur != null
      invariant Zip(m, c, t, index.root) && Plug(c, t) == index.tree && cur == Top(t)
      invariant t.Node? ==> t.n in m && m[t.n] == Cell(Top(t.left), Top(t.right), Above(c), t.color)
      invariant Above(c) == parent && (c.Hole? ==> c.dir == d)
      invariant AllBelow(Before(c), k) && AllAbove(After(c), k)
      decreases t
    {
      var result := KeyCmp(k, cur.key);
      KeyCmpIsLexicographic(k, cur.key);
      parent := cur;
      if result < 0 {
        GoLeft(c, t, k);
        MoveDown(m, Left, c, t.left, cur, t.color, t.right, index.root);
        c, t := Hole(Left, cur, t.color, t.right, c), t.left;
        cur, d := cur.left, Left;
      } else if result > 0 {
        GoRight(c, t, k);
        MoveDown(m, Right, c, t.right, cur, t.color, t.left, index.root);
        c, t := Hole(Right, cur, t.color, t.left, c), t.right;
        cur, d := cur.right, Right;
      } else {
        SplitAtNode(c, t);
        assert Servers(index)[|Before(c)| + |Inorder(t.left)|] == cur;
        return true, parent, d, c;
      }
      FocusInMemory(m, c, t, index.root);
    }
    found := false;
  }

  lemma InsertedOrder(c: Ctx, node: RbNode)
    requires SortedKeys(Inorder(Plug(c, Leaf))) && AllBelow(Before(c), node.key) && AllAbove(After(c), node.key)
    ensures var s := Inorder(Plug(c, Node(Leaf, node, Red, Leaf)));
      SortedKeys(s) && Removed(s, node, Inorder(Plug(c, Leaf)))
    ensures !HasKey(Inorder(Plug(c, Leaf)), node.key)
  {
    var a, b := Before(c), After(c);
    PlugInorder(c, Leaf);
    PlugInorder(c, Node(Leaf, node, Red, Leaf));
    assert a + [] + b == a + b;
    assert Inorder(Node(Leaf, node, Red, Leaf)) == [node];
    SortedInsert(a, node, b);
    RemovedBetween(a, node, b);
    NoKeyBetween(a, b, node.key);
  }

  /** Adds a server unless its key is taken. */
  method Insert(index: RbRoot, data: RbNode) returns (ok: bool)
    requires Ordered(index) && data !in index.nodes
    modifies index, index.nodes, data
    ensures Ordered(index)
    ensures ok <==> !HasKey(old(Servers(index)), data.key)
    ensures ok ==> index.nodes == old(index.nodes) + {data} && Removed(Servers(index), data, old(Servers(index)))
    ensures !ok ==> index.nodes == old(index.nodes) && index.tree == old(index.tree)
  {
    var found, parent, d;
    ghost var c;
    found, parent, d, c := FindPlace(index, data.key);
    if found { return false; }
    ghost var leaf := Node(Leaf, data, Red, Leaf);
    UnplugRedBlack(c, Leaf);
    InsertedOrder(c, data);
    index.LinkNode(data, parent, d, c);
    assert Pending(c, leaf);
    ghost var t' := index.InsertColor(data, c, leaf);
    index.Describe(t');
    return true;
  }

  // ---- lookup ----

  /** A linear scan for the last server whose key is not above `k`. */
  ghost function ScanFloor(s: seq<RbNode>, k: Key): RbNode?
  {
    if s == [] then null
    else if AtMost(s[|s| - 1].key, k) then s[|s| - 1]
    else ScanFloor(s[..|s| - 1], k)
  }

  /** What the scan finds: the greatest key not above `k`, and nothing only when every key is above `k`. */
  lemma {:induction false} ScanFloorIsGreatest(s: seq<RbNode>, k: Key)
    requires SortedKeys(s)
    ensures ScanFloor(s, k) == null <==> AllAbove(s, k)
    ensures var r := ScanFloor(s, k); r != null ==>
      && r in s && AtMost(r.key, k)
      && forall n :: n in s && AtMost(n.key, k) ==> AtMost(n.key, r.key)
    ensures HasKey(s, []) ==> ScanFloor(s, k) != null
  {
    if s != [] {
      var l := s[|s| - 1];
      BelowTotal(l.key, k);
      if AtMost(l.key, k) {
        assert !Below(k, l.key);
        forall n | n in s
          ensures AtMost(n.key, l.key)
        {
          var i :| 0 <= i < |s| && s[i] == n;
        }
      } else {
        ScanFloorIsGreatest(s[..|s| - 1], k);
        assert s == s[..|s| - 1] + [l];
      }
      if HasKey(s, []) {
        var i :| 0 <= i < |s| && s[i].key == [];
        assert !Below(k, s[i].key);
      }
    }
  }

  lemma {:induction false} ScanFloorSplit(a: seq<RbNode>, x: RbNode, b: seq<RbNode>, k: Key)
    requires AtMost(x.key, k) && AllAbove(b, k)
    ensures ScanFloor(a + [x] + b, k) == x
    decreases |b|
  {
    var s := a + [x] + b;
    if b != [] {
      BelowTotal(s[|s| - 1].key, k);
      assert s[..|s| - 1] == a + [x] + b[..|b| - 1];
      ScanFloorSplit(a, x, b[..|b| - 1], k);
    }
  }

  lemma {:induction false} ScanFloorNone(s: seq<RbNode>, k: Key)
    requires AllAbove(s, k)
    ensures ScanFloor(s, k) == null
  {
    if s != [] {
      BelowTotal(s[|s| - 1].key, k);
      ScanFloorNone(s[..|s| - 1], k);
    }
  }

  /** The early return: `node` qualifies and its successor does not. */
  lemma StopHere(s: seq<RbNode>, node: RbNode, r: RbNode?, k: Key)
    requires SortedKeys(s) && IsNext(s, node, r) && AtMost(node.key, k)
    requires r != null ==> Below(k, r.key)
    ensures ScanFloor(s, k) == node
  {
    var i: nat :| FollowsAt(s, i, node, r);
    var a, b := s[..i], s[i + 1..];
    assert s == a + [node] + b;
    if r != null {
      assert b == [r] + b[1..] && s == (a + [node]) + [r] + b[1..];
      SortedRight(a + [node], r, b[1..], k);
    }
    ScanFloorSplit(a, node, b, k);
  }

  ghost predicate HasFloor(s: seq<RbNode>, k: Key)
  {
    exists i :: 0 <= i < |s| && AtMost(s[i].key, k)
  }

  /** Going right: the successor qualifies, so the answer lies in the right subtree. */
  lemma FloorInRight(c: Ctx, t: Tree, r: RbNode, k: Key)
    requires t.Node? && SortedKeys(Inorder(Plug(c, t)))
    requires IsNext(Inorder(Plug(c, t)), t.n, r) && AtMost(r.key, k) && AllAbove(After(c), k)
    ensures HasFloor(Inorder(t.right), k)
  {
    SplitAtNode(c, t);
    var s, a, b := Inorder(Plug(c, t)), Before(c) + Inorder(t.left), Inorder(t.right) + After(c);
    var i: nat :| FollowsAt(s, i, t.n, r);
    assert s[|a|] == t.n;
    if i != |a| { BelowIrreflexive(t.n.key); assert false; }
    assert r == b[0];
    BelowTotal(r.key, k);
    assert Inorder(t.right) == [] ==> b == After(c);
    assert Inorder(t.right)[0] == r;
  }

  /** Maps a key to the server that owns it. */
  method FindServer(index: RbRoot, k: Key) returns (r: RbNode?)
    requires Ordered(index)
    ensures r == ScanFloor(Servers(index), k)
  {
    ghost var m, c, t := index.Memory(), Root, index.tree;
    ghost var wentRight := false;
    var node := index.root;
    FocusInMemory(m, c, t, index.root);
    while node != null
      invariant Zip(m, c, t, index.root) && Plug(c, t) == index.tree && node == Top(t)
      invariant t.Node? ==> t.n in m && m[t.n] == Cell(Top(t.left), Top(t.right), Above(c), t.color)
      invariant AllAbove(After(c), k)
      invariant if wentRight then HasFloor(Inorder(t), k) else Before(c) == []
      decreases t
    {
      var result := KeyCmp(k, node.key);
      KeyCmpIsLexicographic(k, node.key);
      if result < 0 {
        GoLeft(c, t, k);
        if wentRight { FloorInLeft(c, t, k); }
        MoveDown(m, Left, c, t.left, node, t.color, t.right, index.root);
        c, t := Hole(Left, node, t.color, t.right, c), t.left;
        node := node.left;
      } else {
        var right := Next(index, node);
        if right == null {
          StopHere(Servers(index), node, null, k);
          return node;
        }
        KeyCmpIsLexicographic(k, right.key);
        if KeyCmp(k, right.key) < 0 {
          StopHere(Servers(index), node, right, k);
          return node;
        }
        FloorInRight(c, t, right, k);
        wentRight := true;
        MoveDown(m, Right, c, t.right, node, t.color, t.left, index.root);
        c, t := Hole(Right, node, t.color, t.left, c), t.right;
        node := node.right;
      }
      FocusInMemory(m, c, t, index.root);
    }
    PlugInorder(c, t);
    assert Servers(index) == After(c);
    ScanFloorNone(Servers(index), k);
    return null;
  }

  lemma FloorInLeft(c: Ctx, t: Tree, k: Key)
    requires t.Node? && SortedKeys(Inorder(Plug(c, t))) && Below(k, t.n.key) && HasFloor(Inorder(t), k)
    ensures HasFloor(Inorder(t.left), k)
  {
    GoLeft(c, t, k);
    var l, r := Inorder(t.left), Inorder(t.right);
    var i :| 0 <= i < |Inorder(t)| && AtMost(Inorder(t)[i].key, k);
    if i >= |l| {
      var u := [t.n] + r + After(c);
      assert Inorder(t)[i] == u[i - |l|];
      BelowTotal(u[i - |l|].key, k);
      assert false;
    }
    assert l[i] == Inorder(t)[i];
  }

  lemma RemovedKeepsSorted(s: seq<RbNode>, x: RbNode, s': seq<RbNode>)
    requires SortedKeys(s) && Removed(s, x, s')
    ensures SortedKeys(s')
  {
    var k :| 0 <= k <= |s'| && s == s'[..k] + [x] + s'[k..];
    forall i, j | 0 <= i < j < |s'|
      ensures Below(s'[i].key, s'[j].key)
    {
      assert s'[i] == s[if i < k then i else i + 1] && s'[j] == s[if j < k then j else j + 1];
    }
  }

  method Delete(index: RbRoot, srv: RbNode)
    requires Ordered(index) && srv in index.nodes
    modifies index, index.nodes
    ensures Ordered(index) && index.nodes == old(index.nodes) - {srv}
    ensures Removed(old(Servers(index)), srv, Servers(index))
  {
    index.Erase(srv);
    RemovedKeepsSorted(old(Servers(index)), srv, Servers(index));
  }

  /** Removes every server, always the one at the root. */
  method FreeAll(index: RbRoot)
    requires index.Valid()
    modifies index, index.nodes
    ensures index.Valid() && index.root == null && Servers(index) == []
    ensures index.nodes == {}
  {
    FocusInMemory(index.Memory(), Root, index.tree, index.root);
    while index.root != null
      invariant index.Valid() && index.nodes <= old(index.nodes)
      invariant index.root == Top(index.tree)
      decreases index.nodes
    {
      FocusInMemory(index.Memory(), Root, index.tree, index.root);
      index.Erase(index.root);
      FocusInMemory(index.Memory(), Root, index.tree, index.root);
    }
  }

  /** Every index reachable through its operations is shallow: height at most 2 log2(n + 1). */
  lemma IndexIsShallow(index: RbRoot)
    requires index.Valid()
    ensures Pow2(Height(index.tree)) <= (|Servers(index)| + 1) * (|Servers(index)| + 1)
  {
    HeightBound(index.tree);
  }
}
