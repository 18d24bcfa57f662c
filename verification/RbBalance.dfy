/** Colours: the red-black invariants of trees and of trees with a hole. */
module RbBalance {
  import opened Radix
  import opened RbModel

  ghost predicate IsRed(t: Tree) { t.Node? && t.color.Red? }

  ghost function Weight(c: Color): nat { if c.Black? then 1 else 0 }

  ghost function BlackHeight(t: Tree): nat
  {
    if t.Leaf? then 0 else BlackHeight(t.left) + Weight(t.color)
  }

  /** No red node has a red child, and every path down crosses as many black nodes. */
  ghost predicate RedBlack(t: Tree)
  {
    t.Node? ==>
      && RedBlack(t.left) && RedBlack(t.right)
      && BlackHeight(t.left) == BlackHeight(t.right)
      && (t.color.Red? ==> !IsRed(t.left) && !IsRed(t.right))
  }

  ghost predicate AboveBlack(c: Ctx) { c.Hole? && c.color.Black? }

  /** The context completes any balanced subtree of black height `k` to a balanced tree with a black root. */
  ghost predicate RedBlackCtx(c: Ctx, k: nat)
    decreases c
  {
    c.Hole? ==>
      && RedBlack(c.sib) && BlackHeight(c.sib) == k
      && (c.color.Red? ==> !IsRed(c.sib) && AboveBlack(c.up))
      && RedBlackCtx(c.up, k + Weight(c.color))
  }

  lemma {:induction false} PlugRedBlack(c: Ctx, t: Tree)
    requires RedBlackCtx(c, BlackHeight(t)) && RedBlack(t) && (IsRed(t) ==> AboveBlack(c))
    ensures RedBlack(Plug(c, t)) && !IsRed(Plug(c, t))
    decreases c
  {
    if c.Hole? {
      PlugRedBlack(c.up, Mk(c.dir, t, c.n, c.color, c.sib));
    }
  }

  /** Converse of `PlugRedBlack`. */
  lemma {:induction false} UnplugRedBlack(c: Ctx, t: Tree)
    requires RedBlack(Plug(c, t)) && !IsRed(Plug(c, t))
    ensures RedBlackCtx(c, BlackHeight(t)) && RedBlack(t) && (IsRed(t) ==> AboveBlack(c))
    decreases c
  {
    if c.Hole? {
      UnplugRedBlack(c.up, Mk(c.dir, t, c.n, c.color, c.sib));
    }
  }

  // ---- insertion ----

  /** A balanced red focus in a balanced context: only the edge above the focus may be red-red. */
  ghost predicate Pending(c: Ctx, t: Tree)
  {
    IsRed(t) && RedBlack(t) && RedBlackCtx(c, BlackHeight(t))
  }

  lemma RepaintBalanced(c: Ctx, t: Tree, t': Tree)
    requires Pending(c, t) && c.Hole? && c.color.Red? && IsRed(c.up.sib)
    requires t' == Mk(c.up.dir, Mk(c.dir, t, c.n, Black, c.sib), c.up.n, Red, c.up.sib.(color := Black))
    ensures Pending(c.up.up, t')
    ensures Inorder(Plug(c.up.up, t')) == Inorder(Plug(c, t))
  {
    var pt := Mk(c.dir, t, c.n, Red, c.sib);
    assert RedBlackCtx(c.up, BlackHeight(t));
    assert RedBlack(Mk(c.dir, t, c.n, Black, c.sib));
    assert RedBlack(c.up.sib.(color := Black));
    assert Inorder(Mk(c.dir, t, c.n, Black, c.sib)) == Inorder(pt);
    assert Inorder(c.up.sib.(color := Black)) == Inorder(c.up.sib);
    PlugKeepsOrder(c.up.up, Mk(c.up.dir, pt, c.up.n, c.up.color, c.up.sib), t');
  }

  lemma StraightenBalanced(d: Dir, c: Ctx, t: Tree, b: Tree, e: Tree, c': Ctx, t': Tree)
    requires Pending(c, t) && c.Hole? && c.color.Red? && c.dir == Flip(d)
    requires t == Mk(d, b, t.n, Red, e)
    requires c' == Hole(d, t.n, Red, e, c.up) && t' == Mk(d, c.sib, c.n, Red, b)
    ensures Pending(c', t')
    ensures Inorder(Plug(c', t')) == Inorder(Plug(c, t))
  {
    RotationKeepsOrder(d, c.sib, c.n, Red, b, t.n, Red, e);
    PlugKeepsOrder(c.up, Mk(c.dir, t, c.n, c.color, c.sib), Mk(d, t', t.n, Red, e));
  }

  lemma LiftBalanced(d: Dir, c: Ctx, t: Tree, c': Ctx)
    requires Pending(c, t) && c.Hole? && c.color.Red? && c.dir == d
    requires c.up.dir == d && !IsRed(c.up.sib)
    requires c' == Hole(d, c.n, Black, Mk(d, c.sib, c.up.n, Red, c.up.sib), c.up.up)
    ensures Pending(c', t) && RedBlack(Plug(c', t)) && !IsRed(Plug(c', t))
    ensures Inorder(Plug(c', t)) == Inorder(Plug(c, t))
  {
    var gt := Mk(d, Mk(d, t, c.n, Red, c.sib), c.up.n, c.up.color, c.up.sib);
    var rest := Mk(d, c.sib, c.up.n, Red, c.up.sib);
    assert RedBlackCtx(c.up, BlackHeight(t));
    assert RedBlack(rest);
    RotationKeepsOrder(d, t, c.n, Black, c.sib, c.up.n, Red, c.up.sib);
    assert Inorder(gt) == Inorder(Rotated(d, t, c.n, Black, c.sib, c.up.n, Red, c.up.sib)) by {
      assert Inorder(Mk(d, t, c.n, Red, c.sib)) == Inorder(Mk(d, t, c.n, Black, c.sib));
    }
    PlugKeepsOrder(c.up.up, gt, Mk(d, t, c.n, Black, rest));
    PlugRedBlack(c', t);
  }

  // ---- removal ----

  ghost function Blacken(t: Tree): Tree { if t.Leaf? then t else t.(color := Black) }

  /** The focus is one black node short of what the context needs, and balanced once its top is black. */
  ghost predicate Short(c: Ctx, t: Tree)
  {
    && RedBlack(Blacken(t))
    && (t.Node? && t.color.Black? ==> RedBlack(t))
    && RedBlackCtx(c, BlackHeight(t) + 1)
  }

  lemma ShortSibling(c: Ctx, t: Tree)
    requires Short(c, t) && c.Hole?
    ensures c.sib.Node? && RedBlack(c.sib)
  {
  }

  lemma RedSiblingBalanced(c: Ctx, t: Tree, c': Ctx)
    requires Short(c, t) && !IsRed(t) && c.Hole? && IsRed(c.sib)
    requires c' == Hole(c.dir, c.n, Red, Near(c.dir, c.sib),
                        Hole(c.dir, c.sib.n, Black, Near(Flip(c.dir), c.sib), c.up))
    ensures Short(c', t) && !IsRed(c'.sib)
    ensures Inorder(Plug(c', t)) == Inorder(Plug(c, t))
  {
    var d, sl, sr := c.dir, Near(c.dir, c.sib), Near(Flip(c.dir), c.sib);
    assert RedBlackCtx(Hole(d, c.sib.n, Black, sr, c.up), BlackHeight(t) + 1);
    RotationKeepsOrder(d, t, c.n, Red, sl, c.sib.n, Black, sr);
    var old' := Mk(d, t, c.n, c.color, c.sib);
    assert Inorder(old') == Inorder(Unrotated(d, t, c.n, Red, sl, c.sib.n, Black, sr)) by {
      assert Inorder(c.sib) == Inorder(Mk(d, sl, c.sib.n, Black, sr));
    }
    PlugKeepsOrder(c.up, old', Rotated(d, t, c.n, Red, sl, c.sib.n, Black, sr));
  }

  lemma BlackNephewsBalanced(c: Ctx, t: Tree, t': Tree)
    requires Short(c, t) && !IsRed(t) && c.Hole? && c.sib.Node? && !IsRed(c.sib)
    requires !IsRed(c.sib.left) && !IsRed(c.sib.right)
    requires t' == Mk(c.dir, t, c.n, c.color, c.sib.(color := Red))
    ensures Short(c.up, t')
    ensures Inorder(Plug(c.up, t')) == Inorder(Plug(c, t))
  {
    var s' := c.sib.(color := Red);
    assert RedBlack(s') && BlackHeight(s') == BlackHeight(t);
    assert Inorder(s') == Inorder(c.sib);
    PlugKeepsOrder(c.up, Mk(c.dir, t, c.n, c.color, c.sib), t');
  }

  lemma NearNephewBalanced(c: Ctx, t: Tree, q: Tree, s': Tree)
    requires Short(c, t) && !IsRed(t) && c.Hole? && c.sib.Node? && !IsRed(c.sib)
    requires q == Near(c.dir, c.sib) && IsRed(q) && !IsRed(Near(Flip(c.dir), c.sib))
    requires s' == Mk(c.dir, Near(c.dir, q), q.n, Black,
                      Mk(c.dir, Near(Flip(c.dir), q), c.sib.n, Red, Near(Flip(c.dir), c.sib)))
    ensures Short(c.(sib := s'), t)
    ensures Inorder(Plug(c.(sib := s'), t)) == Inorder(Plug(c, t))
  {
    var d, x1, x2, nr := c.dir, Near(c.dir, q), Near(Flip(c.dir), q), Near(Flip(c.dir), c.sib);
    var o' := Mk(d, x2, c.sib.n, Red, nr);
    assert RedBlack(q);
    assert RedBlack(o') && BlackHeight(o') == BlackHeight(t);
    assert RedBlack(s');
    RotationKeepsOrder(d, x1, q.n, Black, x2, c.sib.n, Red, nr);
    assert Inorder(s') == Inorder(c.sib) by {
      assert Inorder(q) == Inorder(Mk(d, x1, q.n, Black, x2));
    }
    PlugKeepsOrder(c.up, Mk(d, t, c.n, c.color, c.sib), Mk(d, t, c.n, c.color, s'));
  }

  lemma FarNephewBalanced(c: Ctx, t: Tree, f: Tree, t': Tree)
    requires Short(c, t) && !IsRed(t) && c.Hole? && c.sib.Node? && !IsRed(c.sib)
    requires f == Near(Flip(c.dir), c.sib) && IsRed(f)
    requires t' == Mk(c.dir, Mk(c.dir, t, c.n, Black, Near(c.dir, c.sib)), c.sib.n, c.color, f.(color := Black))
    ensures RedBlack(Plug(c.up, t')) && !IsRed(Plug(c.up, t'))
    ensures Inorder(Plug(c.up, t')) == Inorder(Plug(c, t))
  {
    var d, nl, f' := c.dir, Near(c.dir, c.sib), f.(color := Black);
    assert RedBlack(f);
    assert RedBlack(f') && BlackHeight(f') == BlackHeight(t) + 1;
    var p' := Mk(d, t, c.n, Black, nl);
    assert RedBlack(p') && BlackHeight(p') == BlackHeight(t) + 1;
    assert RedBlack(t') && BlackHeight(t') == BlackHeight(t) + 1 + Weight(c.color);
    PlugRedBlack(c.up, t');
    RotationKeepsOrder(d, t, c.n, Black, nl, c.sib.n, c.color, f');
    var old' := Mk(d, t, c.n, c.color, c.sib);
    assert Inorder(old') == Inorder(Unrotated(d, t, c.n, Black, nl, c.sib.n, c.color, f')) by {
      assert Inorder(f') == Inorder(f);
      assert Inorder(c.sib) == Inorder(Mk(d, nl, c.sib.n, c.color, f'));
    }
    PlugKeepsOrder(c.up, old', t');
  }

  /** When the loop stops, blackening the focus settles the debt. */
  lemma SettleBalanced(c: Ctx, t: Tree)
    requires Short(c, t) && (IsRed(t) || c.Root?)
    ensures RedBlack(Plug(c, Blacken(t))) && !IsRed(Plug(c, Blacken(t)))
    ensures Inorder(Plug(c, Blacken(t))) == Inorder(Plug(c, t))
  {
    if IsRed(t) { PlugRedBlack(c, Blacken(t)); }
    if t.Node? { RecolorKeepsOrder(c, t, Black); }
  }

  // ---- height ----

  ghost function Height(t: Tree): nat
  {
    if t.Leaf? then 0
    else 1 + if Height(t.left) > Height(t.right) then Height(t.left) else Height(t.right)
  }

  lemma Twice(x: nat, y: nat)
    ensures 2 * (x * y) == (2 * x) * y
  {
  }

  lemma {:induction false} Pow2Adds(a: nat, b: nat)
    ensures Pow2(a + b) == Pow2(a) * Pow2(b)
  {
    if a > 0 {
      Pow2Adds(a - 1, b);
      Twice(Pow2(a - 1), Pow2(b));
    }
  }

  lemma {:induction false} Pow2Grows(a: nat, b: nat)
    requires a <= b
    ensures 1 <= Pow2(a) <= Pow2(b)
    decreases b
  {
    if a < b { Pow2Grows(a, b - 1); } else if b > 0 { Pow2Grows(a - 1, b - 1); }
  }

  lemma {:induction false} HeightFromBlackHeight(t: Tree)
    requires RedBlack(t)
    ensures Height(t) <= 2 * BlackHeight(t) + (if IsRed(t) then 1 else 0)
  {
    if t.Node? {
      HeightFromBlackHeight(t.left);
      HeightFromBlackHeight(t.right);
    }
  }

  lemma {:induction false} BlackHeightFromSize(t: Tree)
    requires RedBlack(t)
    ensures Pow2(BlackHeight(t)) <= |Inorder(t)| + 1
  {
    if t.Node? {
      BlackHeightFromSize(t.left);
      BlackHeightFromSize(t.right);
    }
  }

  lemma SquareGrows(a: nat, b: nat)
    requires a <= b
    ensures a * a <= b * b
  {
    assert a * a <= a * b <= b * b;
  }

  /** A red-black tree with n nodes has height at most 2 log2(n + 1). */
  lemma HeightBound(t: Tree)
    requires RedBlack(t) && !IsRed(t)
    ensures Pow2(Height(t)) <= (|Inorder(t)| + 1) * (|Inorder(t)| + 1)
  {
    var k, s := BlackHeight(t), |Inorder(t)| + 1;
    HeightFromBlackHeight(t);
    BlackHeightFromSize(t);
    Pow2Grows(Height(t), 2 * k);
    assert Pow2(2 * k) == Pow2(k) * Pow2(k) by { assert 2 * k == k + k; Pow2Adds(k, k); }
    SquareGrows(Pow2(k), s);
  }
}
