/**
 The tree rb_insert_color and rb_insert_augmented leave, as a function of the tree they start from, and when its
 stored values are right.
 */
module RbInsertResult {
  import opened Options
  import opened RbTreeModel
  import opened RbMemory

  /** The tree at the grandparent after the colour flips of Case 1. */
  function Flipped(k: Ctx, t: Tree): Tree
    requires k.Crumb? && k.up.Crumb?
  {
    Mk(k.up.s, Mk(k.s, t, k.x, Black, k.a, k.sib), k.up.x, Red, k.up.a, Recolor(k.up.sib, Black))
  }

  /** The two nodes Case 3 rotates when node is an outer grandchild. */
  function OuterPair(k: Ctx, t: Tree): Pair
    requires k.Crumb? && k.up.Crumb?
  {
    Pair(k.up.s, t, k.x, Red, k.a, k.sib, k.up.x, Black, k.up.a, k.up.sib)
  }

  /** The two nodes Case 2 rotates. */
  function InnerPair(k: Ctx, t: Tree): Pair
    requires k.Crumb? && k.up.Crumb? && t.Node?
  {
    Pair(Other(k.up.s), Kid(t, Other(k.up.s)), t.x, Red, t.a, Kid(t, k.up.s), k.x, Red, k.a, k.sib)
  }

  /** The two nodes Case 3 rotates behind Case 2: the top of `t1` and the grandparent. */
  function SecondPair(s: Side, t1: Tree, g: Ptr, ga: Aug, u: Tree): Pair
    requires t1.Node?
  {
    Pair(s, Kid(t1, s), t1.x, Red, t1.a, Kid(t1, Other(s)), g, Black, ga, u)
  }

  /** The tree at the grandparent after Case 3, or after Cases 2 and 3. */
  function RotatedTop(cb: Callbacks, k: Ctx, t: Tree): Tree
    requires k.Crumb? && k.up.Crumb? && t.Node?
  {
    if k.s == k.up.s then Turned(cb, OuterPair(k, t), k.sib, Red)
    else
      var t1 := Turned(cb, InnerPair(k, t), Kid(t, k.up.s), Red);
      Turned(cb, SecondPair(k.up.s, t1, k.up.x, k.up.a, k.up.sib), Kid(t, Other(k.up.s)), Red)
  }

  /** The tree __rb_insert makes of Plug(k, t) with the red node at the top of `t`. */
  function Fixed(cb: Callbacks, k: Ctx, t: Tree): Tree
    decreases k
  {
    if k.Top? then Recolor(t, Black)
    else if k.c.Black? || k.up.Top? || t.Leaf? then Plug(k, t)
    else if !IsBlack(k.up.sib) then Fixed(cb, k.up.up, Flipped(k, t))
    else Plug(k.up.up, RotatedTop(cb, k, t))
  }

  /** The equation the insertion at that place depends on: none when the loop ends without a rotation. */
  predicate InsertRight(f: Rule, k: Ctx, t: Tree)
    decreases k
  {
    if k.Top? || k.c.Black? || k.up.Top? || t.Leaf? then true
    else if !IsBlack(k.up.sib) then InsertRight(f, k.up.up, Flipped(k, t))
    else if k.s == k.up.s then RotationEqAt(f, k.s, k.x, k.up.x, Val(t), Val(k.sib), Val(k.up.sib))
    else DoubleEq(f, InnerTriple(k, t))
  }

  /** The three nodes Cases 2 and 3 rotate. */
  function InnerTriple(k: Ctx, t: Tree): Triple
    requires k.Crumb? && k.up.Crumb? && t.Node?
  {
    Triple(k.up.s, k.sib, k.x, Kid(t, k.up.s), t.x, Kid(t, Other(k.up.s)), k.up.x, k.up.sib)
  }

  /** From right values, the values after an insertion are right exactly when that equation holds. */
  lemma {:induction false} FixedExact(f: Rule, k: Ctx, t: Tree)
    requires AugOk(f, Plug(k, t))
    ensures AugOk(f, Fixed(Augmented(f), k, t)) <==> InsertRight(f, k, t)
    decreases k
  {
    if k.Top? || k.c.Black? || k.up.Top? || t.Leaf? {
    } else if !IsBlack(k.up.sib) {
      FlippedAug(f, k, t);
      FixedExact(f, k.up.up, Flipped(k, t));
    } else if k.s == k.up.s {
      var v := OuterPair(k, t);
      GrandAug(f, k, t);
      SameAug(f, v, GrandTree(k, t));
      TurnExact(f, k.up.up, v, Red);
    } else {
      InnerExact(f, k, t);
    }
  }

  /** The tree at the grandparent before. */
  function GrandTree(k: Ctx, t: Tree): Tree
    requires k.Crumb? && k.up.Crumb?
  {
    Mk(k.up.s, Mk(k.s, t, k.x, k.c, k.a, k.sib), k.up.x, k.up.c, k.up.a, k.up.sib)
  }

  lemma {:induction false} GrandAug(f: Rule, k: Ctx, t: Tree)
    requires k.Crumb? && k.up.Crumb?
    ensures AugOk(f, Plug(k, t)) <==> AugOk(f, GrandTree(k, t)) && AugOkC(f, k.up.up, Some(k.up.a))
  {
    assert Plug(k.up, Mk(k.s, t, k.x, k.c, k.a, k.sib)) == Plug(k.up.up, GrandTree(k, t));
    AugPlug(f, k.up.up, GrandTree(k, t));
  }

  /** Colours do not matter to the values of a pair. */
  lemma {:induction false} SameAug(f: Rule, v: Pair, t: Tree)
    requires t.Node? && t.x == v.y && t.a == v.ay && Kid(t, Other(v.s)) == v.t3
    requires Kid(t, v.s).Node? && Kid(t, v.s).x == v.x && Kid(t, v.s).a == v.ax
    requires Kid(Kid(t, v.s), v.s) == v.t1 && Kid(Kid(t, v.s), Other(v.s)) == v.t2
    ensures AugOk(f, PairTree(v)) <==> AugOk(f, t)
  {
  }

  lemma {:induction false} FlippedAug(f: Rule, k: Ctx, t: Tree)
    requires k.Crumb? && k.up.Crumb? && AugOk(f, Plug(k, t))
    ensures AugOk(f, Plug(k.up.up, Flipped(k, t)))
  {
    var g, up := k.up, k.up.up;
    GrandAug(f, k, t);
    AugPlug(f, up, Flipped(k, t));
    AugMk(f, g.s, Mk(k.s, t, k.x, k.c, k.a, k.sib), g.x, g.c, g.a, g.sib);
    AugMk(f, g.s, Mk(k.s, t, k.x, Black, k.a, k.sib), g.x, Red, g.a, Recolor(g.sib, Black));
    AugMk(f, k.s, t, k.x, k.c, k.a, k.sib);
    AugMk(f, k.s, t, k.x, Black, k.a, k.sib);
  }

  lemma {:induction false} InnerExact(f: Rule, k: Ctx, t: Tree)
    requires k.Crumb? && k.up.Crumb? && t.Node? && k.s != k.up.s && AugOk(f, Plug(k, t))
    ensures AugOk(f, Plug(k.up.up, RotatedTop(Augmented(f), k, t))) <==> DoubleEq(f, InnerTriple(k, t))
  {
    var g, s, up := k.up, k.up.s, k.up.up;
    var w := InnerTriple(k, t);
    GrandAug(f, k, t);
    AugMk(f, s, Mk(k.s, t, k.x, k.c, k.a, k.sib), g.x, g.c, g.a, g.sib);
    AugMk(f, s, k.sib, k.x, k.c, k.a, t);
    AugMk(f, s, Kid(t, s), t.x, t.c, t.a, Kid(t, Other(s)));
    assert RotatedTop(Augmented(f), k, t) == TripleTree(f, w, Red, Black, g.a, Red);
    TripleExact(f, w, Red, Black, g.a, Red);
    AugPlug(f, up, TripleTree(f, w, Red, Black, g.a, Red));
  }
}
