/** The in-place red-black tree algorithms. */
module RbTree {
  import opened RbModel
  import opened RbBalance
  import opened RbSplice

  class RbRoot {
    var root: RbNode?
    ghost var nodes: set<RbNode>
    ghost var tree: Tree

    ghost function Memory(): Mem
      reads this, nodes
    {
      map n | n in nodes :: Cell(n.left, n.right, n.parent, n.color)
    }

    /** The heap is exactly the tree `Plug(c, t)`. */
    ghost predicate At(c: Ctx, t: Tree)
      reads this, nodes
    {
      Zip(Memory(), c, t, root)
    }

    /** The heap is a red-black tree with consistent parent pointers, and `tree` describes it. */
    ghost predicate Valid()
      reads this, nodes
    {
      At(Root, tree) && RedBlack(tree) && !IsRed(tree)
    }

    constructor ()
      ensures Valid() && Inorder(tree) == [] && nodes == {}
    {
      root, nodes, tree := null, {}, Leaf;
    }

    method SetLeft(n: RbNode, v: RbNode?)
      requires n in nodes
      modifies n`left
      ensures Memory() == old(Memory())[n := old(Memory())[n].(left := v)]
    {
      n.left := v;
    }

    method SetRight(n: RbNode, v: RbNode?)
      requires n in nodes
      modifies n`right
      ensures Memory() == old(Memory())[n := old(Memory())[n].(right := v)]
    {
      n.right := v;
    }

    method SetParent(n: RbNode, v: RbNode?)
      requires n in nodes
      modifies n`parent
      ensures Memory() == old(Memory())[n := old(Memory())[n].(parent := v)]
    {
      n.parent := v;
    }

    /** Parent and colour share one word and are copied together. */
    method CopyParentColor(n: RbNode, from: RbNode)
      requires n in nodes && from in nodes
      modifies n`parent, n`color
      ensures Memory() == old(Memory())[n := old(Memory())[n].(parent := old(from.parent), color := old(from.color))]
    {
      n.parent := from.parent;
      n.color := from.color;
    }

    function Kid(n: RbNode, d: Dir): RbNode?
      reads n
    {
      if d.Left? then n.left else n.right
    }

    method RotateLeft(node: RbNode)
      requires CanRotate(Memory(), Left, node)
      modifies this`root, nodes
      ensures RotatedMem(old(Memory()), Memory(), Left, node, old(root), root)
    {
      var right := node.right;
      var parent := node.parent;
      node.right := right.left;
      if right.left != null {
        right.left.parent := node;
      }
      right.left := node;
      right.parent := parent;
      if parent != null {
        if node == parent.left {
          parent.left := right;
        } else {
          parent.right := right;
        }
      } else {
        root := right;
      }
      node.parent := right;
    }

    method RotateRight(node: RbNode)
      requires CanRotate(Memory(), Right, node)
      modifies this`root, nodes
      ensures RotatedMem(old(Memory()), Memory(), Right, node, old(root), root)
    {
      var left := node.left;
      var parent := node.parent;
      node.left := left.right;
      if left.right != null {
        left.right.parent := node;
      }
      left.right := node;
      left.parent := parent;
      if parent != null {
        if node == parent.right {
          parent.right := left;
        } else {
          parent.left := left;
        }
      } else {
        root := left;
      }
      node.parent := left;
    }

    /** Either rotation, read as a step on trees. */
    method Rotate(d: Dir, node: RbNode, ghost c: Ctx, ghost a: Tree, ghost cx: Color,
                  ghost b: Tree, ghost y: RbNode, ghost cy: Color, ghost e: Tree)
      requires At(c, Unrotated(d, a, node, cx, b, y, cy, e))
      modifies this`root, nodes
      ensures At(c, Rotated(d, a, node, cx, b, y, cy, e))
    {
      ghost var m := Memory();
      TreeCanRotate(m, d, c, a, node, cx, b, y, cy, e, root);
      if d.Left? {
        RotateLeft(node);
      } else {
        RotateRight(node);
      }
      RotationWrites(m, Memory(), d, c, a, node, cx, b, y, cy, e, old(root), root);
    }

    method SetColor(n: RbNode, col: Color, ghost c: Ctx, ghost t: Tree)
      requires At(c, t) && t.Node? && t.n == n && n in nodes
      modifies n`color
      ensures At(c, t.(color := col))
    {
      ghost var m := Memory();
      RecolorFocus(m, c, t, col, root);
      n.color := col;
      assert Memory() == m[n := m[n].(color := col)];
    }

    /** The red uncle case: the red colour moves up to the grandparent. */
    method Repaint(uncle: RbNode, parent: RbNode, gparent: RbNode,
                   ghost c: Ctx, ghost t: Tree) returns (ghost c': Ctx, ghost t': Tree)
      requires At(c, t)
      requires c.Hole? && c.n == parent && c.color.Red?
      requires c.up.Hole? && c.up.n == gparent && IsRed(c.up.sib) && c.up.sib.n == uncle
      requires uncle in nodes && parent in nodes && gparent in nodes
      modifies nodes`color
      ensures c' == c.up.up
      ensures t' == Mk(c.up.dir, Mk(c.dir, t, parent, Black, c.sib), gparent, Red, c.up.sib.(color := Black))
      ensures At(c', t')
    {
      ghost var d1, d2, u, sib, up := c.dir, c.up.dir, c.up.sib, c.sib, c.up.up;
      ghost var col := c.up.color;
      ghost var pt := Mk(d1, t, parent, Red, sib);
      MoveUp(Memory(), c, t, root);
      MoveUp(Memory(), c.up, pt, root);
      assert At(up, Mk(Flip(d2), u, gparent, col, pt));
      MoveDown(Memory(), Flip(d2), up, u, gparent, col, pt, root);
      SetColor(uncle, Black, Hole(Flip(d2), gparent, col, pt, up), u);
      ghost var u' := u.(color := Black);
      MoveUp(Memory(), Hole(Flip(d2), gparent, col, pt, up), u', root);
      assert At(up, Mk(d2, pt, gparent, col, u'));
      MoveDown(Memory(), d2, up, pt, gparent, col, u', root);
      SetColor(parent, Black, Hole(d2, gparent, col, u', up), pt);
      ghost var pt' := Mk(d1, t, parent, Black, sib);
      assert pt' == pt.(color := Black);
      MoveUp(Memory(), Hole(d2, gparent, col, u', up), pt', root);
      ghost var gt := Mk(d2, pt', gparent, col, u');
      SetColor(gparent, Red, up, gt);
      c', t' := up, gt.(color := Red);
    }

    /** An inner grandchild is rotated outwards; it and its parent change roles. */
    method Straighten(d: Dir, parent: RbNode, ghost c: Ctx, ghost t: Tree)
        returns (ghost c': Ctx, ghost t': Tree)
      requires At(c, t) && t.Node?
      requires c.Hole? && c.n == parent && c.dir == Flip(d)
      modifies this`root, nodes
      ensures var b, e := if d.Left? then t.left else t.right, if d.Left? then t.right else t.left;
              c' == Hole(d, t.n, t.color, e, c.up) && t' == Mk(d, c.sib, parent, c.color, b)
      ensures At(c', t')
    {
      ghost var b, e := if d.Left? then t.left else t.right, if d.Left? then t.right else t.left;
      MoveUp(Memory(), c, t, root);
      assert Mk(c.dir, t, parent, c.color, c.sib) == Unrotated(d, c.sib, parent, c.color, b, t.n, t.color, e);
      Rotate(d, parent, c.up, c.sib, c.color, b, t.n, t.color, e);
      t' := Mk(d, c.sib, parent, c.color, b);
      MoveDown(Memory(), d, c.up, t', t.n, t.color, e, root);
      c' := Hole(d, t.n, t.color, e, c.up);
    }

    /** An outer grandchild: the parent turns black and replaces the grandparent, which turns red. */
    method Lift(d: Dir, parent: RbNode, gparent: RbNode, ghost c: Ctx, ghost t: Tree)
        returns (ghost c': Ctx)
      requires At(c, t)
      requires c.Hole? && c.n == parent && c.dir == d
      requires c.up.Hole? && c.up.n == gparent && c.up.dir == d
      requires parent in nodes && gparent in nodes
      modifies this`root, nodes
      ensures c' == Hole(d, parent, Black, Mk(d, c.sib, gparent, Red, c.up.sib), c.up.up)
      ensures At(c', t)
    {
      ghost var u, sib, up, gcol := c.up.sib, c.sib, c.up.up, c.up.color;
      ghost var pt := Mk(d, t, parent, c.color, sib);
      MoveUp(Memory(), c, t, root);
      SetColor(parent, Black, c.up, pt);
      pt := Mk(d, t, parent, Black, sib);
      MoveUp(Memory(), c.up, pt, root);
      ghost var gt := Mk(d, pt, gparent, gcol, u);
      SetColor(gparent, Red, up, gt);
      gt := Mk(d, pt, gparent, Red, u);
      assert gt == Unrotated(Flip(d), u, gparent, Red, sib, parent, Black, t);
      Rotate(Flip(d), gparent, up, u, Red, sib, parent, Black, t);
      ghost var rest := Mk(d, sib, gparent, Red, u);
      assert Rotated(Flip(d), u, gparent, Red, sib, parent, Black, t) == Mk(d, t, parent, Black, rest);
      MoveDown(Memory(), d, up, t, parent, Black, rest, root);
      c' := Hole(d, parent, Black, rest, up);
    }

    /** The pointers and colours around the focus, two levels up. */
    lemma Around(c: Ctx, t: Tree)
      requires At(c, t) && t.Node?
      ensures t.n in nodes && t.n.parent == Above(c)
      ensures c.Hole? ==>
        && c.n in nodes && c.n.color == c.color && c.n.parent == Above(c.up)
        && (c.n.left == t.n <==> c.dir.Left?) && (c.n.right == t.n <==> c.dir.Right?)
      ensures c.Hole? && c.up.Hole? ==>
        && c.up.n in nodes
        && (c.up.n.left == c.n <==> c.up.dir.Left?) && (c.up.n.right == c.n <==> c.up.dir.Right?)
        && (c.up.dir.Left? ==> c.up.n.right == Top(c.up.sib)) && (c.up.dir.Right? ==> c.up.n.left == Top(c.up.sib))
        && (c.up.sib.Node? ==> c.up.sib.n in nodes && c.up.sib.n.color == c.up.sib.color)
    {
      FocusInMemory(Memory(), c, t, root);
      if c.Hole? {
        MoveUp(Memory(), c, t, root);
        FocusInMemory(Memory(), c.up, Mk(c.dir, t, c.n, c.color, c.sib), root);
      }
    }

    /** One turn of the insertion loop's rotations on side `d`. */
    method RotateUp(d: Dir, start: RbNode, ghost c0: Ctx, ghost t0: Tree)
        returns (node: RbNode, ghost c: Ctx, ghost t: Tree)
      requires At(c0, t0) && Pending(c0, t0) && t0.n == start
      requires c0.Hole? && c0.color.Red? && c0.up.dir == d && !IsRed(c0.up.sib)
      modifies this`root, nodes
      ensures At(c, t) && Pending(c, t) && t.n == node
      ensures Inorder(Plug(c, t)) == Inorder(Plug(c0, t0)) && Depth(c) < Depth(c0)
    {
      Around(c0, t0);
      c, t := c0, t0;
      node := start;
      var parent := node.parent;
      var gparent := parent.parent;
      if (if d.Left? then parent.right else parent.left) == node {
        ghost var b, e := if d.Left? then t.left else t.right, if d.Left? then t.right else t.left;
        c, t := Straighten(d, parent, c0, t0);
        StraightenBalanced(d, c0, t0, b, e, c, t);
        parent, node := node, parent;
        Around(c, t);
      }
      ghost var c1 := c;
      c := Lift(d, parent, gparent, c1, t);
      LiftBalanced(d, c1, t, c);
    }

    /** Hangs a new red leaf into the empty place below `parent` on side `d`, or at the root. */
    method LinkNode(node: RbNode, parent: RbNode?, d: Dir, ghost c: Ctx)
      requires At(c, Leaf) && Above(c) == parent && (c.Hole? ==> c.dir == d) && node !in nodes
      modifies this`root, this`nodes, nodes, node
      ensures nodes == old(nodes) + {node} && tree == old(tree)
      ensures At(c, Node(Leaf, node, Red, Leaf))
    {
      ghost var m := Memory();
      FocusInMemory(m, c, Leaf, root);
      node.parent, node.color, node.left, node.right := parent, Red, null, null;
      if parent == null {
        root := node;
      } else if d.Left? {
        parent.left := node;
      } else {
        parent.right := node;
      }
      nodes := nodes + {node};
      LinkZip(m, Memory(), c, node, old(root), root);
    }

    method InsertColor(start: RbNode, ghost c0: Ctx, ghost t0: Tree) returns (ghost t': Tree)
      requires At(c0, t0) && Pending(c0, t0) && t0.n == start
      modifies this`root, nodes
      ensures At(Root, t') && RedBlack(t') && !IsRed(t')
      ensures Inorder(t') == Inorder(Plug(c0, t0))
    {
      ghost var c, t := c0, t0;
      var node := start;
      Around(c, t);
      while node.parent != null && node.parent.color.Red?
        invariant At(c, t) && Pending(c, t) && t.n == node && node in nodes
        invariant Inorder(Plug(c, t)) == Inorder(Plug(c0, t0))
        invariant node.parent == Above(c) && (c.Hole? ==> c.n in nodes && c.n.color == c.color)
        decreases Depth(c)
      {
        Around(c, t);
        var parent := node.parent;
        var gparent := parent.parent;
        ghost var c1, t1 := c, t;
        if parent == gparent.left {
          var uncle := gparent.right;
          if uncle != null && uncle.color.Red? {
            c, t := Repaint(uncle, parent, gparent, c1, t1);
            RepaintBalanced(c1, t1, t);
            node := gparent;
          } else {
            node, c, t := RotateUp(Left, node, c1, t1);
          }
        } else {
          var uncle := gparent.left;
          if uncle != null && uncle.color.Red? {
            c, t := Repaint(uncle, parent, gparent, c1, t1);
            RepaintBalanced(c1, t1, t);
            node := gparent;
          } else {
            node, c, t := RotateUp(Right, node, c1, t1);
          }
        }
        Around(c, t);
      }
      ZipIsPlug(Memory(), c, t, root);
      t' := Plug(c, t);
      if c.Hole? { PlugRedBlack(c, t); }
      RecolorKeepsOrder(Root, t', Black);
      FocusInMemory(Memory(), Root, t', root);
      SetColor(root, Black, Root, t');
      t' := t'.(color := Black);
    }

    // ---- removal ----

    method PaintParent(n: RbNode, col: Color, ghost c: Ctx, ghost t: Tree)
      requires At(c, t) && c.Hole? && c.n == n && n in nodes
      modifies n`color
      ensures At(c.(color := col), t)
    {
      MoveUp(Memory(), c, t, root);
      SetColor(n, col, c.up, Mk(c.dir, t, n, c.color, c.sib));
      MoveDown(Memory(), c.dir, c.up, t, n, col, c.sib, root);
    }

    method PaintSibling(n: RbNode, col: Color, ghost c: Ctx, ghost t: Tree)
      requires At(c, t) && c.Hole? && c.sib.Node? && c.sib.n == n && n in nodes
      modifies n`color
      ensures At(c.(sib := c.sib.(color := col)), t)
    {
      ghost var cs := Hole(Flip(c.dir), c.n, c.color, t, c.up);
      Across(Memory(), c, t, root);
      SetColor(n, col, cs, c.sib);
      Across(Memory(), cs, c.sib.(color := col), root);
    }

    /** A child of the sibling, on side `e`. */
    method PaintNephew(e: Dir, n: RbNode, col: Color, ghost c: Ctx, ghost t: Tree)
      requires At(c, t) && c.Hole? && c.sib.Node?
      requires Near(e, c.sib).Node? && Near(e, c.sib).n == n && n in nodes
      modifies n`color
      ensures At(c.(sib := Mk(e, Near(e, c.sib).(color := col), c.sib.n, c.sib.color, Near(Flip(e), c.sib))), t)
    {
      ghost var cs := Hole(Flip(c.dir), c.n, c.color, t, c.up);
      ghost var q, r := Near(e, c.sib), Near(Flip(e), c.sib);
      Across(Memory(), c, t, root);
      MoveDown(Memory(), e, cs, q, c.sib.n, c.sib.color, r, root);
      ghost var cn := Hole(e, c.sib.n, c.sib.color, r, cs);
      SetColor(n, col, cn, q);
      MoveUp(Memory(), cn, q.(color := col), root);
      Across(Memory(), cs, Mk(e, q.(color := col), c.sib.n, c.sib.color, r), root);
    }

    /** A red sibling changes places with the parent, which turns red. */
    method RotateRedSibling(d: Dir, parent: RbNode, other: RbNode, ghost c: Ctx, ghost t: Tree)
        returns (ghost c': Ctx)
      requires At(c, t) && c.Hole? && c.dir == d && c.n == parent && parent in nodes
      requires c.sib.Node? && c.sib.n == other && other in nodes
      modifies this`root, nodes
      ensures c' == Hole(d, parent, Red, Near(d, c.sib), Hole(d, other, Black, Near(Flip(d), c.sib), c.up))
      ensures At(c', t)
    {
      ghost var sl, sr := Near(d, c.sib), Near(Flip(d), c.sib);
      PaintSibling(other, Black, c, t);
      ghost var c1 := c.(sib := c.sib.(color := Black));
      PaintParent(parent, Red, c1, t);
      ghost var c2 := c1.(color := Red);
      MoveUp(Memory(), c2, t, root);
      Rotate(d, parent, c.up, t, Red, sl, other, Black, sr);
      MoveDown(Memory(), d, c.up, Mk(d, t, parent, Red, sl), other, Black, sr, root);
      MoveDown(Memory(), d, Hole(d, other, Black, sr, c.up), t, parent, Red, sl, root);
      c' := Hole(d, parent, Red, sl, Hole(d, other, Black, sr, c.up));
    }

    /** A red nephew on the near side is rotated over the sibling. */
    method RotateNearNephew(d: Dir, other: RbNode, near: RbNode, ghost c: Ctx, ghost t: Tree)
        returns (ghost s': Tree)
      requires At(c, t) && c.Hole? && c.dir == d
      requires c.sib.Node? && c.sib.n == other && other in nodes
      requires Near(d, c.sib).Node? && Near(d, c.sib).n == near && near in nodes
      modifies this`root, nodes
      ensures var q := Near(d, c.sib);
        s' == Mk(d, Near(d, q), near, Black, Mk(d, Near(Flip(d), q), other, Red, Near(Flip(d), c.sib)))
      ensures At(c.(sib := s'), t)
    {
      ghost var q, nr := Near(d, c.sib), Near(Flip(d), c.sib);
      ghost var x1, x2 := Near(d, q), Near(Flip(d), q);
      PaintNephew(d, near, Black, c, t);
      ghost var c1 := c.(sib := Mk(d, q.(color := Black), other, c.sib.color, nr));
      PaintSibling(other, Red, c1, t);
      ghost var s2 := Mk(d, q.(color := Black), other, Red, nr);
      assert c1.sib.(color := Red) == s2;
      ghost var c2 := c.(sib := s2);
      ghost var cs := Hole(Flip(d), c.n, c.color, t, c.up);
      Across(Memory(), c2, t, root);
      assert s2 == Unrotated(Flip(d), nr, other, Red, x2, near, Black, x1);
      Rotate(Flip(d), other, cs, nr, Red, x2, near, Black, x1);
      s' := Mk(d, x1, near, Black, Mk(d, x2, other, Red, nr));
      assert s' == Rotated(Flip(d), nr, other, Red, x2, near, Black, x1);
      Across(Memory(), cs, s', root);
    }

    /** A red nephew on the far side: the sibling takes the parent's place and colour. */
    method RotateFarNephew(d: Dir, parent: RbNode, other: RbNode, far: RbNode, ghost c: Ctx, ghost t: Tree)
        returns (ghost t': Tree)
      requires At(c, t) && c.Hole? && c.dir == d && c.n == parent && parent in nodes
      requires c.sib.Node? && c.sib.n == other && other in nodes
      requires Near(Flip(d), c.sib).Node? && Near(Flip(d), c.sib).n == far && far in nodes
      requires parent.color == c.color
      modifies this`root, nodes
      ensures t' == Mk(d, Mk(d, t, parent, Black, Near(d, c.sib)), other, c.color,
                       Near(Flip(d), c.sib).(color := Black))
      ensures At(c.up, t')
    {
      ghost var nl, f := Near(d, c.sib), Near(Flip(d), c.sib);
      PaintSibling(other, parent.color, c, t);
      ghost var c1 := c.(sib := c.sib.(color := c.color));
      PaintParent(parent, Black, c1, t);
      ghost var c2 := c1.(color := Black);
      PaintNephew(Flip(d), far, Black, c2, t);
      ghost var c3 := c2.(sib := Mk(d, nl, other, c.color, f.(color := Black)));
      MoveUp(Memory(), c3, t, root);
      Rotate(d, parent, c.up, t, Black, nl, other, c.color, f.(color := Black));
      t' := Mk(d, Mk(d, t, parent, Black, nl), other, c.color, f.(color := Black));
    }

    /** The pointers and colours around a possibly empty focus, and those of its sibling's children. */
    lemma AroundHole(c: Ctx, t: Tree)
      requires At(c, t)
      ensures (root == Top(t)) <==> c.Root?
      ensures t.Node? ==> t.n in nodes && t.n.color == t.color && t.n.parent == Above(c)
      ensures c.Hole? ==>
        && c.n in nodes && c.n.color == c.color && c.n.parent == Above(c.up)
        && Kid(c.n, c.dir) == Top(t) && Kid(c.n, Flip(c.dir)) == Top(c.sib)
        && (c.sib.Node? ==> Top(t) != Top(c.sib))
      ensures c.Hole? && c.sib.Node? ==>
        && c.sib.n in nodes && c.sib.n.color == c.sib.color
        && c.sib.n.left == Top(c.sib.left) && c.sib.n.right == Top(c.sib.right)
        && (c.sib.left.Node? ==> c.sib.left.n in nodes && c.sib.left.n.color == c.sib.left.color)
        && (c.sib.right.Node? ==> c.sib.right.n in nodes && c.sib.right.n.color == c.sib.right.color)
    {
      FocusInMemory(Memory(), c, t, root);
      if c.Hole? && c.sib.Node? {
        var cs := Hole(Flip(c.dir), c.n, c.color, t, c.up);
        Across(Memory(), c, t, root);
        MoveDown(Memory(), Left, cs, c.sib.left, c.sib.n, c.sib.color, c.sib.right, root);
        FocusInMemory(Memory(), Hole(Left, c.sib.n, c.sib.color, c.sib.right, cs), c.sib.left, root);
      }
    }

    /** The rest of a turn once the sibling is black. */
    method NephewTurn(d: Dir, parent: RbNode, black: RbNode, ghost c0: Ctx, ghost t0: Tree)
        returns (done: bool, ghost c: Ctx, ghost t: Tree)
      requires At(c0, t0) && Short(c0, t0) && !IsRed(t0)
      requires c0.Hole? && c0.dir == d && c0.n == parent && c0.sib.Node? && c0.sib.n == black && !IsRed(c0.sib)
      modifies this`root, nodes
      ensures Inorder(Plug(c, t)) == Inorder(Plug(c0, t0)) && At(c, t)
      ensures done ==> RedBlack(Plug(c, t)) && !IsRed(Plug(c, t))
      ensures !done ==> Short(c, t) && Top(t) == parent && c == c0.up && (IsRed(t) <==> c0.color.Red?)
    {
      var other := black;
      AroundHole(c0, t0);
      if (other.left == null || other.left.color.Black?) && (other.right == null || other.right.color.Black?) {
        PaintSibling(other, Red, c0, t0);
        MoveUp(Memory(), c0.(sib := c0.sib.(color := Red)), t0, root);
        c, t := c0.up, Mk(d, t0, parent, c0.color, c0.sib.(color := Red));
        BlackNephewsBalanced(c0, t0, t);
        done := false;
      } else {
        c := c0;
        var far := Kid(other, Flip(d));
        if far == null || far.color.Black? {
          ghost var q := Near(d, c.sib);
          ghost var s' := RotateNearNephew(d, other, Kid(other, d), c0, t0);
          NearNephewBalanced(c0, t0, q, s');
          c := c0.(sib := s');
          AroundHole(c, t0);
          other := Kid(parent, Flip(d));
        }
        ghost var c2 := c;
        t := RotateFarNephew(d, parent, other, Kid(other, Flip(d)), c2, t0);
        FarNephewBalanced(c2, t0, Near(Flip(d), c2.sib), t);
        c := c2.up;
        done := true;
      }
    }

    /** One turn of the removal loop, for a node that is the child of `parent` on side `d`. */
    method EraseTurn(d: Dir, parent: RbNode, ghost c0: Ctx, ghost t0: Tree)
        returns (done: bool, ghost c: Ctx, ghost t: Tree)
      requires At(c0, t0) && Short(c0, t0) && !IsRed(t0)
      requires c0.Hole? && c0.dir == d && c0.n == parent
      modifies this`root, nodes
      ensures Inorder(Plug(c, t)) == Inorder(Plug(c0, t0)) && At(c, t)
      ensures done ==> RedBlack(Plug(c, t)) && !IsRed(Plug(c, t))
      ensures !done ==> Short(c, t) && Top(t) == parent && (IsRed(t) || Depth(c) < Depth(c0))
    {
      ghost var c1 := c0;
      ShortSibling(c0, t0);
      AroundHole(c0, t0);
      var other := Kid(parent, Flip(d));
      if other.color.Red? {
        c1 := RotateRedSibling(d, parent, other, c0, t0);
        RedSiblingBalanced(c0, t0, c1);
        ShortSibling(c1, t0);
        AroundHole(c1, t0);
        other := Kid(parent, Flip(d));
      }
      done, c, t := NephewTurn(d, parent, other, c1, t0);
    }

    method EraseColor(start: RbNode?, startParent: RbNode?, ghost c0: Ctx, ghost t0: Tree)
        returns (ghost t': Tree)
      requires At(c0, t0) && Short(c0, t0) && Top(t0) == start && Above(c0) == startParent
      modifies this`root, nodes
      ensures At(Root, t') && RedBlack(t') && !IsRed(t')
      ensures Inorder(t') == Inorder(Plug(c0, t0))
    {
      ghost var c, t := c0, t0;
      var node, parent := start, startParent;
      var done := false;
      AroundHole(c, t);
      while !done && (node == null || node.color.Black?) && node != root
        invariant At(c, t) && Inorder(Plug(c, t)) == Inorder(Plug(c0, t0))
        invariant done ==> RedBlack(Plug(c, t)) && !IsRed(Plug(c, t))
        invariant !done ==> Short(c, t) && node == Top(t) && parent == Above(c)
        invariant !done ==> (root == node <==> c.Root?)
        invariant t.Node? ==> t.n in nodes && t.n.color == t.color
        decreases !done, if IsRed(t) then 0 else 1 + Depth(c)
      {
        AroundHole(c, t);
        ShortSibling(c, t);
        if parent.left == node {
          done, c, t := EraseTurn(Left, parent, c, t);
        } else {
          done, c, t := EraseTurn(Right, parent, c, t);
        }
        AroundHole(c, t);
        if !done {
          node := parent;
          parent := node.parent;
        }
      }
      if done {
        node := root;
        ZipIsPlug(Memory(), c, t, root);
        c, t := Root, Plug(c, t);
        AroundHole(c, t);
      } else {
        SettleBalanced(c, t);
      }
      if node != null {
        SetColor(node, Black, c, t);
      }
      ZipIsPlug(Memory(), c, Blacken(t), root);
      t' := Plug(c, Blacken(t));
    }

    /** The pointer writes that take out a node with at most one child. */
    method UnlinkNode(node: RbNode) returns (child: RbNode?, parent: RbNode?, color: Color)
      requires Linked(Memory()) && node in nodes && (node.left == null || node.right == null)
      requires OnlyChild(Memory()[node]) != null ==> OnlyChild(Memory()[node]) != node.parent
      modifies this, nodes
      ensures nodes == old(nodes) - {node} && Memory() == Unlink(old(Memory()), node)
      ensures child == OnlyChild(old(Memory())[node]) && parent == old(node.parent) && color == old(node.color)
      ensures root == if parent == null then child else old(root)
    {
      assert LinkedAt(Memory(), node);
      if node.left == null {
        child := node.right;
      } else {
        child := node.left;
      }
      parent := node.parent;
      color := node.color;
      if child != null {
        child.parent := parent;
      }
      if parent != null {
        if parent.left == node {
          parent.left := child;
        } else {
          parent.right := child;
        }
      } else {
        root := child;
      }
      nodes := nodes - {node};
    }

    method RepointAbove(victim: RbNode, node: RbNode)
      requires victim in nodes && (victim.parent != null ==> victim.parent in nodes)
      modifies this`root, nodes
      ensures Memory() == Repoint(old(Memory()), victim, node)
      ensures root == if old(victim.parent) == null then node else old(root)
    {
      if victim.parent != null {
        if victim.parent.left == victim {
          victim.parent.left := node;
        } else {
          victim.parent.right := node;
        }
      } else {
        root := node;
      }
    }

    method DetachSuccessor(victim: RbNode, node: RbNode) returns (child: RbNode?, parent: RbNode?, color: Color)
      requires SpliceReady(Memory(), victim, node)
      modifies nodes
      ensures Memory() == Detach(old(Memory()), victim, node)
      ensures child == old(node.right) && color == old(node.color) && parent == Rn(old(node.parent), victim, node)
    {
      child := node.right;
      parent := node.parent;
      color := node.color;
      if parent == victim {
        parent := node;
      } else {
        if child != null {
          SetParent(child, parent);
        }
        SetLeft(parent, child);
        SetRight(node, victim.right);
        SetParent(victim.right, node);
      }
    }

    method SeatSuccessor(victim: RbNode, node: RbNode)
      requires victim in nodes && node in nodes && victim != node
      requires victim.left != null && victim.left in nodes && victim.left != victim
      modifies this`nodes, nodes
      ensures nodes == old(nodes) - {victim}
      ensures Memory() == TakeSeat(old(Memory()), victim, node) - {victim}
    {
      ghost var m := Memory();
      CopyParentColor(node, victim);
      SetLeft(node, victim.left);
      SetParent(victim.left, node);
      assert Memory() == TakeSeat(m, victim, node);
      nodes := nodes - {victim};
    }

    /** The pointer writes that let the successor `node` take the place of `victim`. */
    method SpliceNode(victim: RbNode, node: RbNode) returns (child: RbNode?, parent: RbNode?, color: Color)
      requires SpliceReady(Memory(), victim, node)
      modifies this, nodes
      ensures nodes == old(nodes) - {victim} && SplicedMem(old(Memory()), Memory(), victim, node)
      ensures child == old(node.right) && color == old(node.color) && parent == Rn(old(node.parent), victim, node)
      ensures root == if old(victim.parent) == null then node else old(root)
    {
      ghost var m := Memory();
      SpliceWrites(m, victim, node);
      RepointAbove(victim, node);
      ghost var m1 := Memory();
      child, parent, color := DetachSuccessor(victim, node);
      ghost var m2 := Memory();
      assert m1[node] == m[node];
      assert m2[victim].left == m[victim].left;
      SeatSuccessor(victim, node);
    }

    /** Walks to the leftmost node of the right subtree, the successor of a node with two children. */
    method FindSuccessor(victim: RbNode, ghost c0: Ctx, ghost t0: Tree)
        returns (node: RbNode, ghost cs: Ctx, ghost ts: Tree)
      requires At(c0, t0) && t0.Node? && t0.n == victim && t0.left.Node? && t0.right.Node?
      ensures At(cs, ts) && ts.Node? && ts.n == node && ts.left.Leaf?
      ensures Plug(cs, ts) == Plug(c0, t0) && Before(cs) == Before(c0) + Inorder(t0.left) + [victim]
      ensures BelowVictim(c0, t0, cs, ts)
      ensures SpliceReady(Memory(), victim, node)
    {
      ghost var l, r := t0.left, t0.right;
      FocusInMemory(Memory(), c0, t0, root);
      MoveDown(Memory(), Right, c0, r, victim, t0.color, l, root);
      cs, ts := Hole(Right, victim, t0.color, l, c0), r;
      node := victim.right;
      FocusInMemory(Memory(), cs, ts, root);
      while node.left != null
        invariant At(cs, ts) && ts.Node? && ts.n == node && node in nodes
        invariant Memory()[node] == Cell(Top(ts.left), Top(ts.right), Above(cs), ts.color)
        invariant Plug(cs, ts) == Plug(c0, t0) && Before(cs) == Before(c0) + Inorder(l) + [victim]
        invariant BelowVictim(c0, t0, cs, ts)
        decreases ts
      {
        MoveDown(Memory(), Left, cs, ts.left, node, ts.color, ts.right, root);
        cs, ts := Hole(Left, node, ts.color, ts.right, cs), ts.left;
        node := node.left;
        FocusInMemory(Memory(), cs, ts, root);
      }
      ReadyToSplice(Memory(), c0, t0, cs, ts, root);
    }

    /** Removes a node with at most one child; returns what the rebalancing needs. */
    method EraseSimple(node: RbNode, ghost c0: Ctx, ghost t0: Tree)
        returns (child: RbNode?, parent: RbNode?, color: Color, ghost ch: Tree)
      requires At(c0, t0) && t0.Node? && t0.n == node && (t0.left.Leaf? || t0.right.Leaf?)
      requires RedBlack(Plug(c0, t0)) && !IsRed(Plug(c0, t0))
      modifies this, nodes
      ensures nodes == old(nodes) - {node} && At(c0, ch) && child == Top(ch) && parent == Above(c0)
      ensures color.Black? ==> Short(c0, ch)
      ensures color.Red? ==> RedBlack(Plug(c0, ch)) && !IsRed(Plug(c0, ch))
      ensures Removed(Inorder(Plug(c0, t0)), node, Inorder(Plug(c0, ch)))
    {
      ch := if t0.left.Leaf? then t0.right else t0.left;
      ghost var m := Memory();
      FocusInMemory(m, c0, t0, root);
      ZipLinked(m, c0, t0, root);
      assert ch.Node? ==> ch.n in Nodes(ch);
      assert c0.Hole? ==> c0.n in CtxNodes(c0);
      child, parent, color := UnlinkNode(node);
      UnlinkZip(m, c0, t0, ch, old(root), root);
      UnlinkBalanced(c0, t0, ch);
      UnlinkOrder(c0, t0, ch);
    }

    /** Removes a node with two children; its successor takes its place and colour. */
    method EraseFull(victim: RbNode, ghost c0: Ctx, ghost t0: Tree)
        returns (child: RbNode?, parent: RbNode?, color: Color, ghost c: Ctx, ghost ch: Tree)
      requires At(c0, t0) && t0.Node? && t0.n == victim && t0.left.Node? && t0.right.Node?
      requires RedBlack(Plug(c0, t0)) && !IsRed(Plug(c0, t0))
      modifies this, nodes
      ensures nodes == old(nodes) - {victim} && At(c, ch) && child == Top(ch) && parent == Above(c)
      ensures color.Black? ==> Short(c, ch)
      ensures color.Red? ==> RedBlack(Plug(c, ch)) && !IsRed(Plug(c, ch))
      ensures Removed(Inorder(Plug(c0, t0)), victim, Inorder(Plug(c, ch)))
    {
      hide RedBlack, Short, Removed, Inorder;
      ghost var m := Memory();
      var node;
      ghost var cs, ts;
      node, cs, ts := FindSuccessor(victim, c0, t0);
      child, parent, color := SpliceNode(victim, node);
      c, ch := SpliceZip(m, Memory(), c0, t0, cs, ts, old(root), root);
      SpliceBalanced(cs, ts, victim);
      ZipIsPlug(m, cs, ts, old(root));
      SpliceOrder(cs, ts, victim, Before(c0) + Inorder(t0.left));
    }

    method TakeOut(node: RbNode, ghost c0: Ctx, ghost t0: Tree)
        returns (child: RbNode?, parent: RbNode?, color: Color, ghost c: Ctx, ghost ch: Tree)
      requires At(c0, t0) && t0.Node? && t0.n == node
      requires RedBlack(Plug(c0, t0)) && !IsRed(Plug(c0, t0))
      modifies this, nodes
      ensures nodes == old(nodes) - {node} && At(c, ch) && child == Top(ch) && parent == Above(c)
      ensures color.Black? ==> Short(c, ch)
      ensures color.Red? ==> RedBlack(Plug(c, ch)) && !IsRed(Plug(c, ch))
      ensures Removed(Inorder(Plug(c0, t0)), node, Inorder(Plug(c, ch)))
    {
      FocusInMemory(Memory(), c0, t0, root);
      if node.left == null || node.right == null {
        child, parent, color, ch := EraseSimple(node, c0, t0);
        c := c0;
      } else {
        child, parent, color, c, ch := EraseFull(node, c0, t0);
      }
    }

    /** Removes any node of the tree. */
    method Erase(node: RbNode)
      requires Valid() && node in nodes
      modifies this, nodes
      ensures Valid() && nodes == old(nodes) - {node}
      ensures Removed(old(Inorder(tree)), node, Inorder(tree))
    {
      ghost var c0, t0 := Locate(Memory(), Root, tree, root, node);
      var child, parent, color;
      ghost var c, ch;
      child, parent, color, c, ch := TakeOut(node, c0, t0);
      ghost var t' := Plug(c, ch);
      if color.Black? {
        t' := EraseColor(child, parent, c, ch);
      } else {
        ZipIsPlug(Memory(), c, ch, root);
      }
      Describe(t');
    }

    /** Records the tree that the heap now holds. */
    ghost method Describe(t: Tree)
      requires At(Root, t) && RedBlack(t) && !IsRed(t)
      modifies this`tree
      ensures Valid() && tree == t
    {
      ghost var m := Memory();
      tree := t;
      assert Memory() == m;
    }
  }
}
