/** Red-black nodes, the memory they live in, and the trees and zippers that describe it. */
module RbModel {
  import opened Keys

  datatype Color = Red | Black
  datatype Dir = Left | Right

  /** `struct rb_node` together with the key of the structure that embeds it. */
  class RbNode {
    const key: Key
    var left: RbNode?
    var right: RbNode?
    var parent: RbNode?
    var color: Color

    constructor (k: Key)
      ensures key == k
    {
      key := k;
      left, right, parent, color := null, null, null, Red;
    }
  }

  /** What one node stores. */
  datatype Cell = Cell(left: RbNode?, right: RbNode?, parent: RbNode?, color: Color)

  type Mem = map<RbNode, Cell>

  function Flip(d: Dir): Dir { if d.Left? then Right else Left }

  /** A cell whose child on side `d` is `a` and whose other child is `b`. */
  ghost function CellOf(d: Dir, a: RbNode?, b: RbNode?, p: RbNode?, c: Color): Cell
  {
    if d.Left? then Cell(a, b, p, c) else Cell(b, a, p, c)
  }

  ghost function Child(k: Cell, d: Dir): RbNode? { if d.Left? then k.left else k.right }

  ghost function WithChild(k: Cell, d: Dir, v: RbNode?): Cell
  {
    if d.Left? then k.(left := v) else k.(right := v)
  }

  datatype Tree = Leaf | Node(left: Tree, n: RbNode, color: Color, right: Tree)

  /** A tree whose subtree on side `d` is `a` and whose other subtree is `b`. */
  ghost function Mk(d: Dir, a: Tree, n: RbNode, c: Color, b: Tree): Tree
  {
    if d.Left? then Node(a, n, c, b) else Node(b, n, c, a)
  }

  ghost function Top(t: Tree): RbNode? { if t.Leaf? then null else t.n }

  ghost function Nodes(t: Tree): set<RbNode>
  {
    if t.Leaf? then {} else Nodes(t.left) + {t.n} + Nodes(t.right)
  }

  ghost predicate Distinct(t: Tree)
  {
    t.Node? ==>
      && Distinct(t.left) && Distinct(t.right)
      && t.n !in Nodes(t.left) && t.n !in Nodes(t.right)
      && Nodes(t.left) !! Nodes(t.right)
  }

  ghost function Inorder(t: Tree): seq<RbNode>
  {
    if t.Leaf? then [] else Inorder(t.left) + [t.n] + Inorder(t.right)
  }

  /** Memory `m` holds tree `t`, whose top node has parent `p`. */
  ghost predicate IsTree(m: Mem, p: RbNode?, t: Tree)
    decreases t
  {
    t.Node? ==>
      && t.n in m
      && m[t.n] == Cell(Top(t.left), Top(t.right), p, t.color)
      && IsTree(m, t.n, t.left)
      && IsTree(m, t.n, t.right)
  }

  /** A tree with one subtree missing, read from the missing subtree upwards. */
  datatype Ctx = Root | Hole(dir: Dir, n: RbNode, color: Color, sib: Tree, up: Ctx)

  ghost function Plug(c: Ctx, t: Tree): Tree
    decreases c
  {
    match c
    case Root => t
    case Hole(d, n, col, sib, up) => Plug(up, Mk(d, t, n, col, sib))
  }

  ghost function Depth(c: Ctx): nat { if c.Root? then 0 else 1 + Depth(c.up) }

  ghost function Above(c: Ctx): RbNode? { if c.Root? then null else c.n }

  ghost function CtxNodes(c: Ctx): set<RbNode>
  {
    if c.Root? then {} else {c.n} + Nodes(c.sib) + CtxNodes(c.up)
  }

  ghost predicate CtxDistinct(c: Ctx)
  {
    c.Hole? ==>
      && Distinct(c.sib) && c.n !in Nodes(c.sib)
      && c.n !in CtxNodes(c.up) && Nodes(c.sib) !! CtxNodes(c.up)
      && CtxDistinct(c.up)
  }

  /** Memory `m` holds context `c` around the node `child`, below the tree root `root`. */
  ghost predicate IsCtx(m: Mem, c: Ctx, child: RbNode?, root: RbNode?)
    decreases c
  {
    match c
    case Root => child == root
    case Hole(d, n, col, sib, up) =>
      && n in m
      && m[n] == CellOf(d, child, Top(sib), Above(up), col)
      && IsTree(m, n, sib)
      && IsCtx(m, up, n, root)
  }

  /** Memory `m` is exactly the tree `Plug(c, t)` with root pointer `root`. */
  ghost predicate Zip(m: Mem, c: Ctx, t: Tree, root: RbNode?)
  {
    && IsTree(m, Above(c), t) && IsCtx(m, c, Top(t), root)
    && Distinct(t) && CtxDistinct(c) && Nodes(t) !! CtxNodes(c)
    && m.Keys == Nodes(t) + CtxNodes(c)
  }

  /** Reads a built tree one level down. */
  lemma Open(m: Mem, p: RbNode?, d: Dir, a: Tree, n: RbNode, col: Color, b: Tree)
    ensures var t := Mk(d, a, n, col, b);
      && Top(t) == n
      && Nodes(t) == Nodes(a) + {n} + Nodes(b)
      && (Distinct(t) <==>
          Distinct(a) && Distinct(b) && n !in Nodes(a) && n !in Nodes(b) && Nodes(a) !! Nodes(b))
      && (IsTree(m, p, t) <==>
          n in m && m[n] == CellOf(d, Top(a), Top(b), p, col) && IsTree(m, n, a) && IsTree(m, n, b))
  {
  }

  // ---- moving the focus ----

  lemma MoveUp(m: Mem, c: Ctx, t: Tree, root: RbNode?)
    requires c.Hole?
    requires Zip(m, c, t, root)
    ensures Zip(m, c.up, Mk(c.dir, t, c.n, c.color, c.sib), root)
  {
  }

  lemma MoveDown(m: Mem, d: Dir, c: Ctx, a: Tree, n: RbNode, col: Color, b: Tree, root: RbNode?)
    requires Zip(m, c, Mk(d, a, n, col, b), root)
    ensures Zip(m, Hole(d, n, col, b, c), a, root)
  {
  }

  /** From the subtree in the hole to its sibling. */
  lemma Across(m: Mem, c: Ctx, t: Tree, root: RbNode?)
    requires c.Hole? && Zip(m, c, t, root)
    ensures Zip(m, Hole(Flip(c.dir), c.n, c.color, t, c.up), c.sib, root)
  {
    MoveUp(m, c, t, root);
    MoveDown(m, Flip(c.dir), c.up, c.sib, c.n, c.color, t, root);
  }

  ghost function Near(d: Dir, t: Tree): Tree
    requires t.Node?
  {
    if d.Left? then t.left else t.right
  }

  lemma {:induction false} ZipIsPlug(m: Mem, c: Ctx, t: Tree, root: RbNode?)
    requires Zip(m, c, t, root)
    ensures Zip(m, Root, Plug(c, t), root)
    decreases c
  {
    if c.Hole? {
      MoveUp(m, c, t, root);
      ZipIsPlug(m, c.up, Mk(c.dir, t, c.n, c.color, c.sib), root);
    }
  }

  /** Every node of the tree can be brought into focus. */
  lemma {:induction false} Locate(m: Mem, c: Ctx, t: Tree, root: RbNode?, n: RbNode) returns (c': Ctx, t': Tree)
    requires Zip(m, c, t, root) && n in Nodes(t)
    ensures Zip(m, c', t', root) && t'.Node? && t'.n == n && Plug(c', t') == Plug(c, t)
    decreases t
  {
    if t.n == n {
      c', t' := c, t;
    } else if n in Nodes(t.left) {
      MoveDown(m, Left, c, t.left, t.n, t.color, t.right, root);
      c', t' := Locate(m, Hole(Left, t.n, t.color, t.right, c), t.left, root, n);
    } else {
      MoveDown(m, Right, c, t.right, t.n, t.color, t.left, root);
      c', t' := Locate(m, Hole(Right, t.n, t.color, t.left, c), t.right, root, n);
    }
  }

  // ---- framing ----

  /** Both memories agree on `s`, except perhaps at `skip`. */
  ghost predicate Same(m: Mem, m': Mem, s: set<RbNode>, skip: RbNode?)
  {
    forall n :: n in s && n != skip ==> n in m && n in m' && m'[n] == m[n]
  }

  lemma {:induction false} FrameTree(m: Mem, m': Mem, p: RbNode?, t: Tree)
    requires IsTree(m, p, t)
    requires Same(m, m', Nodes(t), null)
    ensures IsTree(m', p, t)
    decreases t
  {
    if t.Node? {
      assert t.n in Nodes(t);
      FrameTree(m, m', t.n, t.left);
      FrameTree(m, m', t.n, t.right);
    }
  }

  lemma Reparent(m: Mem, m': Mem, p: RbNode?, q: RbNode?, t: Tree)
    requires IsTree(m, p, t) && Distinct(t)
    requires Same(m, m', Nodes(t), Top(t))
    requires t.Node? ==> t.n in m' && m'[t.n] == m[t.n].(parent := q)
    ensures IsTree(m', q, t)
  {
    if t.Node? {
      FrameTree(m, m', t.n, t.left);
      FrameTree(m, m', t.n, t.right);
    }
  }

  lemma {:induction false} FrameCtx(m: Mem, m': Mem, c: Ctx, child: RbNode?, root: RbNode?)
    requires IsCtx(m, c, child, root)
    requires Same(m, m', CtxNodes(c), null)
    ensures IsCtx(m', c, child, root)
    decreases c
  {
    if c.Hole? {
      assert c.n in CtxNodes(c);
      FrameTree(m, m', c.n, c.sib);
      FrameCtx(m, m', c.up, c.n, root);
    }
  }

  /** Replacing the child below the hole touches one pointer only. */
  lemma Rechild(m: Mem, m': Mem, c: Ctx, child: RbNode?, child': RbNode?, root: RbNode?, root': RbNode?)
    requires IsCtx(m, c, child, root) && CtxDistinct(c)
    requires Same(m, m', CtxNodes(c), Above(c))
    requires c.Root? ==> root' == child'
    requires c.Hole? ==> root' == root && c.n in m'
    requires c.Hole? ==> m'[c.n] == CellOf(c.dir, child', Top(c.sib), Above(c.up), c.color)
    ensures IsCtx(m', c, child', root')
  {
    if c.Hole? {
      FrameTree(m, m', c.n, c.sib);
      FrameCtx(m, m', c.up, c.n, root);
    }
  }

  // ---- in-order sequence ----

  ghost function Before(c: Ctx): seq<RbNode>
  {
    match c
    case Root => []
    case Hole(d, n, col, sib, up) =>
      if d.Left? then Before(up) else Before(up) + Inorder(sib) + [n]
  }

  ghost function After(c: Ctx): seq<RbNode>
  {
    match c
    case Root => []
    case Hole(d, n, col, sib, up) =>
      if d.Left? then [n] + Inorder(sib) + After(up) else After(up)
  }

  lemma {:induction false} PlugInorder(c: Ctx, t: Tree)
    ensures Inorder(Plug(c, t)) == Before(c) + Inorder(t) + After(c)
    decreases c
  {
    if c.Hole? {
      PlugInorder(c.up, Mk(c.dir, t, c.n, c.color, c.sib));
    }
  }

  lemma PlugKeepsOrder(c: Ctx, t: Tree, t': Tree)
    requires Inorder(t) == Inorder(t')
    ensures Inorder(Plug(c, t)) == Inorder(Plug(c, t'))
  {
    PlugInorder(c, t);
    PlugInorder(c, t');
  }

  lemma RecolorKeepsOrder(c: Ctx, t: Tree, col: Color)
    requires t.Node?
    ensures Inorder(t.(color := col)) == Inorder(t)
    ensures Inorder(Plug(c, t.(color := col))) == Inorder(Plug(c, t))
  {
    PlugKeepsOrder(c, t, t.(color := col));
  }

  // ---- rotation ----

  /** The tree around an edge before rotation in direction `d`: `y` hangs below `x` on the far side. */
  ghost function Unrotated(d: Dir, a: Tree, x: RbNode, cx: Color, b: Tree, y: RbNode, cy: Color, e: Tree): Tree
  {
    Mk(d, a, x, cx, Mk(d, b, y, cy, e))
  }

  ghost function Rotated(d: Dir, a: Tree, x: RbNode, cx: Color, b: Tree, y: RbNode, cy: Color, e: Tree): Tree
  {
    Mk(d, Mk(d, a, x, cx, b), y, cy, e)
  }

  lemma RotationKeepsOrder(d: Dir, a: Tree, x: RbNode, cx: Color, b: Tree, y: RbNode, cy: Color, e: Tree)
    ensures Inorder(Rotated(d, a, x, cx, b, y, cy, e)) == Inorder(Unrotated(d, a, x, cx, b, y, cy, e))
  {
    var sa, sb, se := Inorder(a), Inorder(b), Inorder(e);
    if d.Left? {
      calc {
        Inorder(Rotated(d, a, x, cx, b, y, cy, e));
        Inorder(Node(a, x, cx, b)) + [y] + se;
        (sa + [x] + sb) + [y] + se;
        sa + [x] + (sb + [y] + se);
        Inorder(Unrotated(d, a, x, cx, b, y, cy, e));
      }
    } else {
      calc {
        Inorder(Rotated(d, a, x, cx, b, y, cy, e));
        se + [y] + Inorder(Node(b, x, cx, a));
        se + [y] + (sb + [x] + sa);
        (se + [y] + sb) + [x] + sa;
        Inorder(Unrotated(d, a, x, cx, b, y, cy, e));
      }
    }
  }

  /** A rotation anywhere in a tree keeps the order of the whole tree. */
  lemma RotationKeepsWholeOrder(c: Ctx, d: Dir, a: Tree, x: RbNode, cx: Color, b: Tree, y: RbNode, cy: Color, e: Tree)
    ensures Inorder(Plug(c, Rotated(d, a, x, cx, b, y, cy, e))) == Inorder(Plug(c, Unrotated(d, a, x, cx, b, y, cy, e)))
  {
    RotationKeepsOrder(d, a, x, cx, b, y, cy, e);
    PlugKeepsOrder(c, Rotated(d, a, x, cx, b, y, cy, e), Unrotated(d, a, x, cx, b, y, cy, e));
  }

  ghost predicate Apart(a: set<RbNode>, x: RbNode, b: set<RbNode>, y: RbNode, e: set<RbNode>, c: set<RbNode>)
  {
    && x != y
    && x !in a && x !in b && x !in e && x !in c
    && y !in a && y !in b && y !in e && y !in c
    && a !! b && a !! e && a !! c && b !! e && b !! c && e !! c
  }

  /** The pieces of a focused tree that is about to be rotated. */
  lemma OpenUnrotated(m: Mem, d: Dir, c: Ctx,
                      a: Tree, x: RbNode, cx: Color, b: Tree, y: RbNode, cy: Color, e: Tree, root: RbNode?)
    requires Zip(m, c, Unrotated(d, a, x, cx, b, y, cy, e), root)
    ensures x in m && m[x] == CellOf(d, Top(a), y, Above(c), cx)
    ensures y in m && m[y] == CellOf(d, Top(b), Top(e), x, cy)
    ensures IsTree(m, x, a) && IsTree(m, y, b) && IsTree(m, y, e) && IsCtx(m, c, x, root)
    ensures Distinct(a) && Distinct(b) && Distinct(e) && CtxDistinct(c)
    ensures Apart(Nodes(a), x, Nodes(b), y, Nodes(e), CtxNodes(c))
    ensures m.Keys == Nodes(a) + {x} + Nodes(b) + {y} + Nodes(e) + CtxNodes(c)
    ensures b.Node? ==> b.n in Nodes(b)
    ensures c.Hole? ==> c.n in CtxNodes(c) && m[c.n] == CellOf(c.dir, x, Top(c.sib), Above(c.up), c.color)
    ensures c.Hole? ==> Top(c.sib) != x
  {
    OpenParts(m, d, c, a, x, cx, b, y, cy, e, root);
    HoleCell(m, c, x, root);
  }

  lemma OpenParts(m: Mem, d: Dir, c: Ctx,
                  a: Tree, x: RbNode, cx: Color, b: Tree, y: RbNode, cy: Color, e: Tree, root: RbNode?)
    requires Zip(m, c, Unrotated(d, a, x, cx, b, y, cy, e), root)
    ensures x in m && m[x] == CellOf(d, Top(a), y, Above(c), cx)
    ensures y in m && m[y] == CellOf(d, Top(b), Top(e), x, cy)
    ensures IsTree(m, x, a) && IsTree(m, y, b) && IsTree(m, y, e) && IsCtx(m, c, x, root)
    ensures Distinct(a) && Distinct(b) && Distinct(e) && CtxDistinct(c)
    ensures Apart(Nodes(a), x, Nodes(b), y, Nodes(e), CtxNodes(c))
    ensures m.Keys == Nodes(a) + {x} + Nodes(b) + {y} + Nodes(e) + CtxNodes(c)
  {
    hide Nodes, Distinct, IsTree, IsCtx, CtxNodes, CtxDistinct, Mk, CellOf, Apart;
    Open(m, Above(c), d, a, x, cx, Mk(d, b, y, cy, e));
    Open(m, x, d, b, y, cy, e);
    PiecesApart(Nodes(a), x, Nodes(b), y, Nodes(e), Nodes(Mk(d, b, y, cy, e)), CtxNodes(c));
  }

  lemma PiecesApart(a: set<RbNode>, x: RbNode, b: set<RbNode>, y: RbNode, e: set<RbNode>, low: set<RbNode>, c: set<RbNode>)
    requires low == b + {y} + e && (a + {x} + low) !! c && x !in a && x !in low && a !! low
    requires y !in b && y !in e && b !! e
    ensures Apart(a, x, b, y, e, c) && a + {x} + low + c == a + {x} + b + {y} + e + c
  {
    assert y in low;
  }

  lemma HoleCell(m: Mem, c: Ctx, x: RbNode, root: RbNode?)
    requires IsCtx(m, c, x, root) && x !in CtxNodes(c)
    ensures c.Hole? ==> c.n in CtxNodes(c) && c.n in m && m[c.n] == CellOf(c.dir, x, Top(c.sib), Above(c.up), c.color)
    ensures c.Hole? ==> Top(c.sib) != x
  {
    if c.Hole? && c.sib.Node? { assert c.sib.n in Nodes(c.sib) && c.sib.n in CtxNodes(c); }
  }

  lemma CloseRotated(m: Mem, d: Dir, c: Ctx,
                     a: Tree, x: RbNode, cx: Color, b: Tree, y: RbNode, cy: Color, e: Tree, root: RbNode?)
    requires x in m && m[x] == CellOf(d, Top(a), Top(b), y, cx)
    requires y in m && m[y] == CellOf(d, x, Top(e), Above(c), cy)
    requires IsTree(m, x, a) && IsTree(m, x, b) && IsTree(m, y, e) && IsCtx(m, c, y, root)
    requires Distinct(a) && Distinct(b) && Distinct(e) && CtxDistinct(c)
    requires Apart(Nodes(a), x, Nodes(b), y, Nodes(e), CtxNodes(c))
    requires m.Keys == Nodes(a) + {x} + Nodes(b) + {y} + Nodes(e) + CtxNodes(c)
    ensures Zip(m, c, Rotated(d, a, x, cx, b, y, cy, e), root)
  {
    Open(m, Above(c), d, Mk(d, a, x, cx, b), y, cy, e);
    Open(m, y, d, a, x, cx, b);
  }

  /** What rotating `x` down in direction `d` needs of the memory, read from the pointers alone. */
  ghost predicate CanRotate(m: Mem, d: Dir, x: RbNode)
  {
    && x in m
    && var y := Child(m[x], Flip(d));
    && var p := m[x].parent;
    && y != null && y in m && y != x
    && var b := Child(m[y], d);
    && b != x && b != y && (b != null ==> b in m)
    && p != x && p != y && (p != null ==> p in m && p != b)
    && (p != null && Child(m[p], d) != x ==> Child(m[p], Flip(d)) == x)
  }

  /** The pointer writes of a rotation of `x` in direction `d`. */
  ghost predicate RotatedMem(m: Mem, m': Mem, d: Dir, x: RbNode, root: RbNode?, root': RbNode?)
    requires CanRotate(m, d, x)
  {
    var y := Child(m[x], Flip(d));
    var p := m[x].parent;
    var b := Child(m[y], d);
    && m'.Keys == m.Keys
    && m'[x] == WithChild(m[x], Flip(d), b).(parent := y)
    && m'[y] == WithChild(m[y], d, x).(parent := p)
    && (b != null ==> m'[b] == m[b].(parent := x))
    && (p != null ==> m'[p] == WithChild(m[p], if Child(m[p], d) == x then d else Flip(d), y))
    && (root' == if p == null then y else root)
    && (forall n :: n in m && n != x && n != y && n != b && n != p ==> m'[n] == m[n])
  }

  lemma TreeCanRotate(m: Mem, d: Dir, c: Ctx,
                      a: Tree, x: RbNode, cx: Color, b: Tree, y: RbNode, cy: Color, e: Tree, root: RbNode?)
    requires Zip(m, c, Unrotated(d, a, x, cx, b, y, cy, e), root)
    ensures CanRotate(m, d, x)
  {
    OpenUnrotated(m, d, c, a, x, cx, b, y, cy, e, root);
  }

  lemma RotationTouches(m: Mem, m': Mem, a: set<RbNode>, x: RbNode, b: set<RbNode>, y: RbNode, e: set<RbNode>,
                        c: set<RbNode>, tb: RbNode?, tc: RbNode?)
    requires Apart(a, x, b, y, e, c)
    requires m.Keys == a + {x} + b + {y} + e + c && m'.Keys == m.Keys
    requires tb != null ==> tb in b
    requires tc != null ==> tc in c
    requires forall n :: n in m && n != x && n != y && n != tb && n != tc ==> m'[n] == m[n]
    ensures Same(m, m', a, null) && Same(m, m', b, tb) && Same(m, m', e, null) && Same(m, m', c, tc)
  {
  }

  lemma TopsInside(b: Tree, c: Ctx)
    ensures Top(b) != null ==> Top(b) in Nodes(b)
    ensures Above(c) != null ==> Above(c) in CtxNodes(c)
  {
  }

  lemma RotationCells(m: Mem, m': Mem, d: Dir, c: Ctx,
                      a: Tree, x: RbNode, cx: Color, b: Tree, y: RbNode, cy: Color, e: Tree,
                      root: RbNode?, root': RbNode?)
    requires IsTree(m, x, a) && IsTree(m, y, b) && IsTree(m, y, e) && IsCtx(m, c, x, root)
    requires Distinct(a) && Distinct(b) && Distinct(e) && CtxDistinct(c)
    requires Apart(Nodes(a), x, Nodes(b), y, Nodes(e), CtxNodes(c))
    requires m.Keys == Nodes(a) + {x} + Nodes(b) + {y} + Nodes(e) + CtxNodes(c)
    requires m'.Keys == m.Keys && x in m && y in m
    requires m'[x] == CellOf(d, Top(a), Top(b), y, cx)
    requires m'[y] == CellOf(d, x, Top(e), Above(c), cy)
    requires b.Node? ==> b.n in m && m'[b.n] == m[b.n].(parent := x)
    requires c.Hole? ==> c.n in m && m'[c.n] == CellOf(c.dir, y, Top(c.sib), Above(c.up), c.color)
    requires root' == if c.Root? then y else root
    requires forall n :: n in m && n != x && n != y && n != Top(b) && n != Above(c) ==> m'[n] == m[n]
    ensures Zip(m', c, Rotated(d, a, x, cx, b, y, cy, e), root')
  {
    TopsInside(b, c);
    RotationTouches(m, m', Nodes(a), x, Nodes(b), y, Nodes(e), CtxNodes(c), Top(b), Above(c));
    hide Distinct, CtxDistinct, IsTree, IsCtx, Apart, CellOf, Nodes, CtxNodes, Zip, Rotated, Same;
    FrameTree(m, m', x, a);
    Reparent(m, m', y, x, b);
    FrameTree(m, m', y, e);
    Rechild(m, m', c, x, y, root, root');
    CloseRotated(m', d, c, a, x, cx, b, y, cy, e, root');
  }

  /** The cells after the writes, in terms of the cells before. */
  lemma RotatedCells(m: Mem, m': Mem, d: Dir, x: RbNode, y: RbNode, ta: RbNode?, tb: RbNode?, te: RbNode?, cx: Color, cy: Color,
                     c: Ctx, root: RbNode?, root': RbNode?)
    requires CanRotate(m, d, x) && RotatedMem(m, m', d, x, root, root') && y in m
    requires m[x] == CellOf(d, ta, y, Above(c), cx) && m[y] == CellOf(d, tb, te, x, cy)
    requires c.Hole? ==> c.n in m && m[c.n] == CellOf(c.dir, x, Top(c.sib), Above(c.up), c.color) && Top(c.sib) != x
    ensures m'.Keys == m.Keys && m'[x] == CellOf(d, ta, tb, y, cx) && m'[y] == CellOf(d, x, te, Above(c), cy)
    ensures tb != null ==> tb in m && m'[tb] == m[tb].(parent := x)
    ensures c.Hole? ==> m'[c.n] == CellOf(c.dir, y, Top(c.sib), Above(c.up), c.color)
    ensures root' == if c.Root? then y else root
    ensures forall n :: n in m && n != x && n != y && n != tb && n != Above(c) ==> m'[n] == m[n]
  {
  }

  /** A rotation's writes turn the one tree into the other and leave the rest alone. */
  lemma RotationWrites(m: Mem, m': Mem, d: Dir, c: Ctx,
                       a: Tree, x: RbNode, cx: Color, b: Tree, y: RbNode, cy: Color, e: Tree,
                       root: RbNode?, root': RbNode?)
    requires Zip(m, c, Unrotated(d, a, x, cx, b, y, cy, e), root)
    requires CanRotate(m, d, x) && RotatedMem(m, m', d, x, root, root')
    ensures Zip(m', c, Rotated(d, a, x, cx, b, y, cy, e), root')
  {
    hide CanRotate, RotatedMem, CellOf, Apart, Distinct, CtxDistinct, IsTree, IsCtx, Nodes, CtxNodes, Zip, Rotated;
    OpenUnrotated(m, d, c, a, x, cx, b, y, cy, e, root);
    RotatedCells(m, m', d, x, y, Top(a), Top(b), Top(e), cx, cy, c, root, root');
    RotationCells(m, m', d, c, a, x, cx, b, y, cy, e, root, root');
  }

  // ---- recolouring ----

  lemma RecolorFocus(m: Mem, c: Ctx, t: Tree, col: Color, root: RbNode?)
    requires Zip(m, c, t, root) && t.Node?
    ensures Zip(m[t.n := m[t.n].(color := col)], c, t.(color := col), root)
  {
    var m' := m[t.n := m[t.n].(color := col)];
    FrameTree(m, m', t.n, t.left);
    FrameTree(m, m', t.n, t.right);
    FrameCtx(m, m', c, t.n, root);
    assert m'.Keys == m.Keys;
  }

  lemma FocusInMemory(m: Mem, c: Ctx, t: Tree, root: RbNode?)
    requires Zip(m, c, t, root)
    ensures t.Node? ==> t.n in m && m[t.n] == Cell(Top(t.left), Top(t.right), Above(c), t.color)
    ensures c.Hole? ==> c.n in m && m[c.n] == CellOf(c.dir, Top(t), Top(c.sib), Above(c.up), c.color)
    ensures c.Hole? && t.Node? ==> Top(c.sib) != t.n && c.n != t.n
    ensures c.Hole? && c.sib.Node? ==>
      c.sib.n in m && m[c.sib.n] == Cell(Top(c.sib.left), Top(c.sib.right), c.n, c.sib.color)
    ensures c.Root? ==> root == Top(t)
    ensures c.Hole? ==> root != Top(t)
  {
    if c.Hole? {
      assert c.n in CtxNodes(c);
      RootInCtx(m, c, Top(t), root);
      if c.sib.Node? { assert c.sib.n in Nodes(c.sib); }
    }
  }

  lemma {:induction false} RootInCtx(m: Mem, c: Ctx, child: RbNode?, root: RbNode?)
    requires c.Hole? && IsCtx(m, c, child, root)
    ensures root != null && root in CtxNodes(c)
    decreases c
  {
    if c.up.Hole? { RootInCtx(m, c.up, c.n, root); }
  }

  // ---- linking a leaf ----

  lemma LinkZip(m: Mem, m': Mem, c: Ctx, node: RbNode, root: RbNode?, root': RbNode?)
    requires Zip(m, c, Leaf, root) && node !in m
    requires m'.Keys == m.Keys + {node} && m'[node] == Cell(null, null, Above(c), Red)
    requires c.Hole? ==> c.n in m && m'[c.n] == WithChild(m[c.n], c.dir, node)
    requires root' == if c.Root? then node else root
    requires Same(m, m', m.Keys, Above(c))
    ensures Zip(m', c, Node(Leaf, node, Red, Leaf), root')
  {
    FocusInMemory(m, c, Leaf, root);
    Rechild(m, m', c, null, node, root, root');
    Open(m', Above(c), Left, Leaf, node, Red, Leaf);
  }
}
