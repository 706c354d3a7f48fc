/**
 The tree ____rb_erase_color leaves, as a function of the tree it starts from, and when its stored values are
 right.
 */
module RbEraseResult {
  import opened Options
  import opened RbTreeModel
  import opened RbMemory

  /** parent and sibling as the two nodes of a rotation. */
  function SiblingPair(k: Ctx, t: Tree): Pair
    requires k.Crumb? && k.sib.Node?
  {
    Pair(Other(k.s), Kid(k.sib, Other(k.s)), k.sib.x, k.sib.c, k.sib.a, Kid(k.sib, k.s), k.x, k.c, k.a, t)
  }

  /** The context of `node` after Case 1: `parent`, now red, below its old sibling. */
  function CaseOneCtx(cb: Callbacks, k: Ctx, t: Tree): Ctx
    requires k.Crumb? && k.sib.Node?
  {
    var t' := Turned(cb, SiblingPair(k, t), Kid(k.sib, k.s), Red);
    Crumb(Crumb(k.up, k.s, k.sib.x, k.c, t'.a, Kid(k.sib, Other(k.s))), k.s, k.x, Red, Kid(t', k.s).a, Kid(k.sib, k.s))
  }

  /** The tree at `parent` after Case 2. */
  function FlippedSibling(k: Ctx, t: Tree): Tree
    requires k.Crumb?
  {
    Mk(k.s, t, k.x, Black, k.a, Recolor(k.sib, Red))
  }

  /** The pair Case 4 rotates when the outer child of the sibling is red: that child has been blackened. */
  function BlackenedPair(k: Ctx, t: Tree): Pair
    requires k.Crumb? && k.sib.Node?
  {
    SiblingPair(k, t).(t1 := Recolor(Kid(k.sib, Other(k.s)), Black))
  }

  /** The first rotation of Case 3: the inner child of the sibling comes above the sibling. */
  function InnerPair(k: Ctx): Pair
    requires k.Crumb? && k.sib.Node? && Kid(k.sib, k.s).Node?
  {
    var near := Kid(k.sib, k.s);
    Pair(k.s, Kid(near, k.s), near.x, near.c, near.a, Kid(near, Other(k.s)), k.sib.x, k.sib.c, k.sib.a,
        Kid(k.sib, Other(k.s)))
  }

  /** The pair of the second rotation, Case 4 after Case 3. */
  function OuterPair(cb: Callbacks, k: Ctx, t: Tree): Pair
    requires k.Crumb? && k.sib.Node? && Kid(k.sib, k.s).Node?
  {
    var u := Turned(cb, InnerPair(k), InnerPair(k).t2, Black);
    Pair(Other(k.s), Kid(u, Other(k.s)), u.x, u.c, u.a, Kid(u, k.s), k.x, k.c, k.a, t)
  }

  /** The end of the loop at a black sibling: Case 4, Cases 3 and 4, or the last Case 2. */
  function Last(cb: Callbacks, k: Ctx, t: Tree): Tree
    requires k.Crumb?
  {
    if k.sib.Leaf? then Plug(k, t)
    else if !IsBlack(Kid(k.sib, Other(k.s))) then Plug(k.up, Turned(cb, BlackenedPair(k, t), Kid(k.sib, k.s), Black))
    else if !IsBlack(Kid(k.sib, k.s)) then
      Plug(k.up, Turned(cb, OuterPair(cb, k, t), OuterPair(cb, k, t).t2, Black))
    else Plug(k.up, FlippedSibling(k, t))
  }

  /** Case 2 with a black parent that is not the root: the loop goes on one level up. */
  predicate GoesUp(k: Ctx) {
    && k.Crumb? && k.up.Crumb? && k.c.Black? && k.sib.Node? && k.sib.c.Black?
    && IsBlack(Kid(k.sib, Lft)) && IsBlack(Kid(k.sib, Rgt))
  }

  /** The tree ____rb_erase_color makes of Plug(k, t), one black node short at `t`. */
  function Mended(cb: Callbacks, k: Ctx, t: Tree): Tree
    decreases k
  {
    if k.Top? then t
    else if k.sib.Node? && k.sib.c.Red? then Last(cb, CaseOneCtx(cb, k, t), t)
    else if GoesUp(k) then Mended(cb, k.up, FlippedSibling(k, t))
    else Last(cb, k, t)
  }

  /** The equation the end of the loop depends on: none for Case 2. */
  predicate LastRight(f: Rule, k: Ctx, t: Tree)
    requires k.Crumb?
  {
    if k.sib.Leaf? then true
    else if !IsBlack(Kid(k.sib, Other(k.s))) then PairRight(f, k, t)
    else if !IsBlack(Kid(k.sib, k.s)) then DoubleEq(f, SiblingTriple(k, t))
    else true
  }

  /** The rotation equation at parent and sibling. */
  predicate PairRight(f: Rule, k: Ctx, t: Tree)
    requires k.Crumb? && k.sib.Node?
  {
    RotationEqAt(f, Other(k.s), k.sib.x, k.x, Val(Kid(k.sib, Other(k.s))), Val(Kid(k.sib, k.s)), Val(t))
  }

  /** The three nodes Cases 3 and 4 rotate. */
  function SiblingTriple(k: Ctx, t: Tree): Triple
    requires k.Crumb? && k.sib.Node? && Kid(k.sib, k.s).Node?
  {
    var o, near := Other(k.s), Kid(k.sib, k.s);
    Triple(o, Kid(k.sib, o), k.sib.x, Kid(near, o), near.x, Kid(near, k.s), k.x, t)
  }

  /** The equations the whole loop depends on: that of Case 1, if it is taken, and that of the end. */
  predicate EraseRight(f: Rule, k: Ctx, t: Tree)
    decreases k
  {
    if k.Top? then true
    else if k.sib.Node? && k.sib.c.Red? then PairRight(f, k, t) && LastRight(f, CaseOneCtx(Augmented(f), k, t), t)
    else if GoesUp(k) then EraseRight(f, k.up, FlippedSibling(k, t))
    else LastRight(f, k, t)
  }

  // ---------------------------------------------------------------- when the stored values are right

  /** The tree at the parent. */
  function ParentTree(k: Ctx, t: Tree): Tree
    requires k.Crumb?
  {
    Mk(k.s, t, k.x, k.c, k.a, k.sib)
  }

  /** From right values, the values after the loop are right exactly when those equations hold. */
  lemma {:induction false} MendedExact(f: Rule, k: Ctx, t: Tree)
    requires AugOk(f, Plug(k, t))
    ensures AugOk(f, Mended(Augmented(f), k, t)) <==> EraseRight(f, k, t)
    decreases k
  {
    if k.Crumb? {
      AugPlug(f, k.up, ParentTree(k, t));
      if k.sib.Node? && k.sib.c.Red? {
        CaseOneExact(f, k, t);
        LastExact(f, CaseOneCtx(Augmented(f), k, t), t);
      } else if GoesUp(k) {
        FlippedAug(f, k, t);
        MendedExact(f, k.up, FlippedSibling(k, t));
      } else {
        LastExact(f, k, t);
      }
    }
  }

  lemma {:induction false} FlippedAug(f: Rule, k: Ctx, t: Tree)
    requires k.Crumb? && AugOk(f, ParentTree(k, t))
    ensures AugOk(f, FlippedSibling(k, t))
    ensures AugOk(f, Plug(k.up, FlippedSibling(k, t))) <==> AugOkC(f, k.up, Some(k.a))
  {
    AugMk(f, k.s, t, k.x, k.c, k.a, k.sib);
    AugMk(f, k.s, t, k.x, Black, k.a, Recolor(k.sib, Red));
    AugPlug(f, k.up, FlippedSibling(k, t));
  }

  /** After Case 1 the values at the parent are right, and those above it exactly when the equation holds. */
  lemma {:induction false} CaseOneExact(f: Rule, k: Ctx, t: Tree)
    requires k.Crumb? && k.sib.Node? && AugOk(f, ParentTree(k, t)) && AugOkC(f, k.up, Some(k.a))
    ensures var k1 := CaseOneCtx(Augmented(f), k, t);
            AugOk(f, ParentTree(k1, t)) && (AugOkC(f, k1.up, Some(k1.a)) <==> PairRight(f, k, t))
  {
    var o, k1 := Other(k.s), CaseOneCtx(Augmented(f), k, t);
    var far, near := Kid(k.sib, o), Kid(k.sib, k.s);
    AugMk(f, k.s, t, k.x, k.c, k.a, k.sib);
    AugMk(f, o, far, k.sib.x, k.sib.c, k.sib.a, near);
    AugMk(f, k.s, t, k.x, Red, k1.a, near);
  }

  /** The end of the loop, from a tree whose values are right at the parent and below. */
  lemma {:induction false} LastExact(f: Rule, k: Ctx, t: Tree)
    requires k.Crumb? && AugOk(f, ParentTree(k, t))
    ensures AugOk(f, Last(Augmented(f), k, t)) <==> AugOkC(f, k.up, Some(k.a)) && LastRight(f, k, t)
  {
    var o := Other(k.s);
    if k.sib.Leaf? {
      AugPlug(f, k.up, ParentTree(k, t));
    } else if !IsBlack(Kid(k.sib, o)) {
      CaseFourExact(f, k, t);
    } else if !IsBlack(Kid(k.sib, k.s)) {
      CaseThreeExact(f, k, t);
    } else {
      FlippedAug(f, k, t);
    }
  }

  lemma {:induction false} CaseFourExact(f: Rule, k: Ctx, t: Tree)
    requires k.Crumb? && k.sib.Node? && AugOk(f, ParentTree(k, t))
    ensures AugOk(f, Plug(k.up, Turned(Augmented(f), BlackenedPair(k, t), Kid(k.sib, k.s), Black)))
            <==> AugOkC(f, k.up, Some(k.a)) && PairRight(f, k, t)
  {
    var o, v := Other(k.s), BlackenedPair(k, t);
    var far, near := Kid(k.sib, o), Kid(k.sib, k.s);
    AugMk(f, k.s, t, k.x, k.c, k.a, k.sib);
    AugMk(f, o, far, k.sib.x, k.sib.c, k.sib.a, near);
    AugMk(f, o, v.t1, k.sib.x, k.sib.c, k.sib.a, near);
    AugMk(f, o, Mk(o, v.t1, k.sib.x, k.sib.c, k.sib.a, near), k.x, k.c, k.a, t);
    assert Val(v.t1) == Val(far) && AugOk(f, v.t1);
    TurnExact(f, k.up, v, Black);
  }

  lemma {:induction false} CaseThreeExact(f: Rule, k: Ctx, t: Tree)
    requires k.Crumb? && k.sib.Node? && Kid(k.sib, k.s).Node? && AugOk(f, ParentTree(k, t))
    ensures AugOk(f, Plug(k.up, Turned(Augmented(f), OuterPair(Augmented(f), k, t), OuterPair(Augmented(f), k, t).t2,
        Black)))
            <==> AugOkC(f, k.up, Some(k.a)) && DoubleEq(f, SiblingTriple(k, t))
  {
    var o, w, v := Other(k.s), SiblingTriple(k, t), OuterPair(Augmented(f), k, t);
    var far, near := Kid(k.sib, o), Kid(k.sib, k.s);
    AugMk(f, k.s, t, k.x, k.c, k.a, k.sib);
    AugMk(f, o, far, k.sib.x, k.sib.c, k.sib.a, near);
    AugMk(f, o, Kid(near, o), near.x, near.c, near.a, Kid(near, k.s));
    assert Turned(Augmented(f), v, v.t2, Black) == TripleTree(f, w, Black, k.c, k.a, Black);
    TripleExact(f, w, Black, k.c, k.a, Black);
    AugPlug(f, k.up, TripleTree(f, w, Black, k.c, k.a, Black));
  }
}
