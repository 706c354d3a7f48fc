/**
 The rebalancing loop of rb_erase (kernel/linux/rbtree.c, ____rb_erase_color). The focus `t` is the
 subtree of `node`, on side `s` of `parent`; the paths through it are one black node short.
 */
module RbEraseColor {
  import opened RbTreeModel
  import opened RbMemory
  import opened RbRoots
  import opened RbEraseResult
  import opened Options

  // ---------------------------------------------------------------- the cases on trees

  /** The sibling exists; it is a node because its side has at least one black node. */
  lemma {:induction false} SiblingShape(k: Ctx, t: Tree, n: nat)
    requires EraseInv(k, t, n)
    ensures k.sib.Node? && Bal(k.sib, n + 1) && NoRedRed(k.sib)
    ensures k.sib == Mk(Other(k.s), Kid(k.sib, Other(k.s)), k.sib.x, k.sib.c, k.sib.a, Kid(k.sib, k.s))
    ensures k.sib.c.Red? ==> k.c.Black? && IsBlack(Kid(k.sib, Lft)) && IsBlack(Kid(k.sib, Rgt))
    ensures k.sib.c.Black? ==> Bal(Kid(k.sib, Lft), n) && Bal(Kid(k.sib, Rgt), n)
    ensures NoRedRed(Kid(k.sib, Lft)) && NoRedRed(Kid(k.sib, Rgt))
  {
  }

  lemma SiblingPairTree(k: Ctx, t: Tree)
    requires k.Crumb? && k.sib.Node?
    ensures PairTree(SiblingPair(k, t)) == Mk(k.s, t, k.x, k.c, k.a, k.sib)
    ensures Plug(k.up, PairTree(SiblingPair(k, t))) == Plug(k, t)
  {
  }

  lemma {:induction false} CaseOneInv(cb: Callbacks, k: Ctx, t: Tree, n: nat)
    requires EraseInv(k, t, n) && k.sib.Node? && k.sib.c.Red?
    ensures EraseInv(CaseOneCtx(cb, k, t), t, n)
    ensures Plug(CaseOneCtx(cb, k, t), t) == Plug(k.up, Turned(cb, SiblingPair(k, t), Kid(k.sib, k.s), Red))
  {
    SiblingShape(k, t, n);
    var k' := CaseOneCtx(cb, k, t);
    assert BalC(k'.up, n + 1) && NoRedRedC(k'.up);
  }

  lemma {:induction false} CaseTwoInv(k: Ctx, t: Tree, n: nat)
    requires EraseInv(k, t, n) && k.sib.Node? && k.sib.c.Black? && IsBlack(Kid(k.sib, Lft)) && IsBlack(Kid(k.sib, Rgt))
    ensures k.c.Red? ==> Fits(k.up, FlippedSibling(k, t), n + 1)
    ensures k.c.Black? && k.up.Crumb? ==> EraseInv(k.up, FlippedSibling(k, t), n + 1)
    ensures k.c.Black? && k.up.Top? ==> Fits(k.up, FlippedSibling(k, t), n + 1)
  {
    SiblingShape(k, t, n);
    MkShape(k.s, t, k.x, Black, k.a, Recolor(k.sib, Red), n + 1);
  }

  lemma {:induction false} FlipKeeps(cb: Callbacks, k: Ctx, t: Tree)
    requires k.Crumb?
    ensures Kept(cb, Plug(k, t), Plug(k.up, FlippedSibling(k, t)))
  {
    var t1, t2 := Mk(k.s, t, k.x, k.c, k.a, k.sib), FlippedSibling(k, t);
    SameOrderKeeps(k.up, t1, t2);
    if cb.Augmented? {
      AugPlug(cb.compute, k.up, t1);
      AugPlug(cb.compute, k.up, t2);
      AugMk(cb.compute, k.s, t, k.x, k.c, k.a, k.sib);
      AugMk(cb.compute, k.s, t, k.x, Black, k.a, Recolor(k.sib, Red));
    }
  }

  /** Case 4, also reached through Case 3: a black node `x` on the sibling's side whose outer subtree
      `far` is black and one black node higher ends the shortage. */
  lemma {:induction false} CaseFourInv(cb: Callbacks, up: Ctx, v: Pair, n: nat)
    requires Bal(v.t1, n + 1) && IsBlack(v.t1) && NoRedRed(v.t1)
    requires Bal(v.t2, n) && NoRedRed(v.t2)
    requires Bal(v.t3, n) && NoRedRed(v.t3) && IsBlack(v.t3)
    requires BalC(up, n + 1 + Bit(v.cy)) && NoRedRedC(up) && (v.cy.Red? ==> AcceptsRed(up))
    ensures Fits(up, Turned(cb, v, v.t2, Black), n + 1 + Bit(v.cy))
  {
    var t' := Turned(cb, v, v.t2, Black);
    var inner := Kid(t', Other(v.s));
    MkShape(v.s, v.t2, v.y, Black, inner.a, v.t3, n + 1);
    MkShape(v.s, v.t1, v.x, v.cy, t'.a, inner, n + 1 + Bit(v.cy));
  }

  // ---------------------------------------------------------------- the loop

  /** What the pointers around the shortage turn out to be. */
  lemma {:induction false} ReadSibling(m: Image, k: Ctx, t: Tree, n: nat)
    requires Rep(m, Plug(k, t)) && EraseInv(k, t, n)
    ensures k.sib.Node? && k.x != NULL && k.x in m.h && k.sib.x in m.h && k.sib.x != NULL
    ensures k.s.Lft? <==> Root(t) != m.h[k.x].right
    ensures GetKid(m.h[k.x], Other(k.s)) == k.sib.x
    ensures ColorOf(m.h[k.x].pc) == k.c && ParentOf(m.h[k.x].pc) == ParentPtr(k.up, NULL)
    ensures ColorOf(m.h[k.sib.x].pc) == k.sib.c
    ensures forall q :: ReadKid(m.h, k.sib, q)
  {
    RepPlug(m, k, t);
    SiblingShape(k, t, n);
    RepRoot(m.h, k.sib, k.x);
    RepRoot(m.h, t, k.x);
    assert RepC(m.h, k.up, NULL, k.x);
    PackUnpack(ParentPtr(k.up, NULL), k.c);
    PackUnpack(k.x, k.sib.c);
    forall q ensures ReadKid(m.h, k.sib, q) {
      RepRoot(m.h, Kid(k.sib, q), k.sib.x);
      PackUnpack(k.sib.x, ColorOr(Kid(k.sib, q), Black));
    }
  }

  /** The code finds the child of `t` on side `q`, and its colour. */
  predicate ReadKid(h: Heap, t: Tree, q: Side) {
    && t.Node? && t.x in h && GetKid(h[t.x], q) == Root(Kid(t, q))
    && (Kid(t, q).Leaf? <==> Root(Kid(t, q)) == NULL)
    && (Kid(t, q).Node? ==> Kid(t, q).x in h && ColorOf(h[Kid(t, q).x].pc) == Kid(t, q).c)
  }

  /** Case 1: rotate at parent; the new sibling is black. */
  method CaseOne(r: RbRoot, cb: Callbacks, s: Side, parent: Ptr, sibling: Ptr, ghost k: Ctx, ghost t: Tree,
                 ghost n: nat)
      returns (tmp1: Ptr)
    requires Rep(r.Img(), Plug(k, t)) && EraseInv(k, t, n) && k.sib.Node? && k.sib.c.Red?
    requires s == k.s && parent == k.x && sibling == k.sib.x
    modifies r
    ensures Rep(r.Img(), Plug(CaseOneCtx(cb, k, t), t)) && EraseInv(CaseOneCtx(cb, k, t), t, n)
    ensures tmp1 == Root(CaseOneCtx(cb, k, t).sib) && IsBlack(CaseOneCtx(cb, k, t).sib)
    ensures Kept(cb, Plug(k, t), Plug(CaseOneCtx(cb, k, t), t)) && r.OnlyTree(Plug(k, t))
  {
    ReadSibling(r.Img(), k, t, n);
    SiblingShape(k, t, n);
    SiblingPairTree(k, t);
    RepPlug(r.Img(), k.up, PairTree(SiblingPair(k, t)));
    assert ReadKid(r.h, k.sib, s);
    tmp1 := GetKid(r.h[sibling], s);
    PairTmp(r.Img(), r.Img(), k.up, SiblingPair(k, t));
    r.TurnUp(cb, Other(s), parent, sibling, tmp1, Red, false, r.Img(), k.up, SiblingPair(k, t));
    CaseOneInv(cb, k, t, n);
  }

  /** Case 2: the sibling turns red; a red parent turns black and ends the loop, a black one is the next
      node. */
  method CaseTwo(r: RbRoot, cb: Callbacks, parent: Ptr, sibling: Ptr, ghost k: Ctx, ghost t: Tree, ghost n: nat)
      returns (again: bool, above: Ptr)
    requires Rep(r.Img(), Plug(k, t)) && EraseInv(k, t, n) && k.sib.Node? && k.sib.c.Black?
    requires IsBlack(Kid(k.sib, Lft)) && IsBlack(Kid(k.sib, Rgt)) && parent == k.x && sibling == k.sib.x
    modifies r
    ensures Rep(r.Img(), Plug(k.up, FlippedSibling(k, t))) && above == ParentPtr(k.up, NULL)
    ensures Kept(cb, Plug(k, t), Plug(k.up, FlippedSibling(k, t))) && r.OnlyTree(Plug(k, t))
    ensures again <==> k.c.Black? && k.up.Crumb?
    ensures again ==> EraseInv(k.up, FlippedSibling(k, t), n + 1)
    ensures !again ==> Fits(k.up, FlippedSibling(k, t), n + 1)
  {
    var wasRed: bool;
    wasRed, above := FlipSibling(r, parent, sibling, k, t) by { RepPlug(r.Img(), k, t); }
    again := !wasRed && above != NULL;
    CaseTwoInv(k, t, n);
    FlipKeeps(cb, k, t);
  }

  /** The colour writes of Case 2. */
  method FlipSibling(r: RbRoot, parent: Ptr, sibling: Ptr, ghost k: Ctx, ghost t: Tree)
      returns (wasRed: bool, above: Ptr)
    requires RepZ(r.Img(), k, t) && k.Crumb? && k.sib.Node? && parent == k.x && sibling == k.sib.x
    modifies r`h
    ensures Rep(r.Img(), Plug(k.up, FlippedSibling(k, t)))
    ensures wasRed <==> k.c.Red?
    ensures above == ParentPtr(k.up, NULL) && (above == NULL <==> k.up.Top?)
    ensures r.OnlyTree(Plug(k, t))
  {
    ghost var pt := Mk(k.s, t, k.x, k.c, k.a, Recolor(k.sib, Red));
    InsidePair(k, t);
    RecolorSibling(r.Img(), k, t, Red);
    r.h := SetPc(r.h, sibling, Pack(parent, Red));
    assert Recolor(pt, Black) == FlippedSibling(k, t);
    wasRed, above := BlackenParent(r, parent, k.up, pt);
  }

  /** rb_set_black(parent), if it is red */
  method BlackenParent(r: RbRoot, parent: Ptr, ghost up: Ctx, ghost pt: Tree) returns (wasRed: bool, above: Ptr)
    requires RepZ(r.Img(), up, pt) && pt.Node? && parent == pt.x
    modifies r`h
    ensures Rep(r.Img(), Plug(up, Recolor(pt, Black)))
    ensures (wasRed <==> pt.c.Red?) && above == ParentPtr(up, NULL) && (above == NULL <==> up.Top?)
    ensures r.h.Keys == old(r.h).Keys && SameOff(old(r.h), r.h, {parent})
  {
    BlackenedWord(r.Img(), up, pt);
    wasRed, above := ColorOf(r.h[parent].pc).Red?, ParentOf(r.h[parent].pc);
    if wasRed {
      RecolorRep(r.Img(), up, pt, Black);
      r.h := SetPc(r.h, parent, Blackened(r.h[parent].pc)); // rb_set_black
    }
    RepPlug(r.Img(), up, Recolor(pt, Black));
  }

  lemma {:induction false} BlackenedWord(m: Image, k: Ctx, t: Tree)
    requires RepZ(m, k, t) && t.Node?
    ensures t.x in m.h && Blackened(m.h[t.x].pc) == Pack(ParentPtr(k, NULL), Black)
    ensures ParentOf(m.h[t.x].pc) == ParentPtr(k, NULL) && ColorOf(m.h[t.x].pc) == t.c
    ensures ParentPtr(k, NULL) == NULL <==> k.Top?
  {
    PackUnpack(ParentPtr(k, NULL), t.c);
  }

  lemma {:induction false} InsidePair(k: Ctx, t: Tree)
    requires k.Crumb? && k.sib.Node?
    ensures k.x in Ptrs(Plug(k, t)) && k.sib.x in Ptrs(Plug(k, t)) && Ptrs(k.sib) <= Ptrs(Plug(k, t))
  {
    PtrsPlug(k, t);
    assert k.sib.x in Ptrs(k.sib);
  }

  /** Writing a colour into the sibling. */
  lemma {:induction false} RecolorSibling(m: Image, k: Ctx, t: Tree, c: Color)
    requires RepZ(m, k, t) && k.Crumb? && k.sib.Node?
    ensures RepZ(m.(h := SetPc(m.h, k.sib.x, Pack(k.x, c))), k.up, Mk(k.s, t, k.x, k.c, k.a, Recolor(k.sib, c)))
  {
    SwapFocus(m, k.up, k.s, k.x, k.c, k.a, k.sib, t);
    var k1 := Crumb(k.up, Other(k.s), k.x, k.c, k.a, t);
    RecolorRep(m, k1, k.sib, c);
    var m' := m.(h := SetPc(m.h, k.sib.x, Pack(k.x, c)));
    FoldCrumb(m', k.up, Other(k.s), k.x, k.c, k.a, t, Recolor(k.sib, c));
  }

  /** Blackening the outer child of the sibling. */
  lemma {:induction false} BlackenOuter(m: Image, k: Ctx, t: Tree)
    requires RepZ(m, k, t) && k.Crumb? && k.sib.Node? && Kid(k.sib, Other(k.s)).Node?
    ensures var far := Kid(k.sib, Other(k.s));
            && far.x in m.h && far.x in Ptrs(k.sib)
            && RepZ(m.(h := SetPc(m.h, far.x, Pack(k.sib.x, Black))), k.up, PairTree(BlackenedPair(k, t)))
  {
    var o := Other(k.s);
    var far, near := Kid(k.sib, o), Kid(k.sib, k.s);
    var k1 := Crumb(k.up, o, k.x, k.c, k.a, t);
    var k2 := Crumb(k1, o, k.sib.x, k.sib.c, k.sib.a, near);
    SwapFocus(m, k.up, k.s, k.x, k.c, k.a, k.sib, t);
    FoldCrumb(m, k1, o, k.sib.x, k.sib.c, k.sib.a, near, far);
    RecolorRep(m, k2, far, Black);
    var m' := m.(h := SetPc(m.h, far.x, Pack(k.sib.x, Black)));
    FoldCrumb(m', k1, o, k.sib.x, k.sib.c, k.sib.a, near, Recolor(far, Black));
    FoldCrumb(m', k.up, o, k.x, k.c, k.a, t, Mk(o, Recolor(far, Black), k.sib.x, k.sib.c, k.sib.a, near));
    assert far.x in Ptrs(far);
  }

  lemma {:induction false} BlackenOuterKeeps(cb: Callbacks, k: Ctx, t: Tree)
    requires k.Crumb? && k.sib.Node?
    ensures Kept(cb, Plug(k, t), Plug(k.up, PairTree(BlackenedPair(k, t))))
  {
    var o := Other(k.s);
    var far, near, v := Kid(k.sib, o), Kid(k.sib, k.s), BlackenedPair(k, t);
    var t1, t2 := PairTree(SiblingPair(k, t)), PairTree(v);
    SiblingPairTree(k, t);
    assert Inorder(v.t1) == Inorder(far);
    assert Inorder(Mk(o, v.t1, v.x, v.cx, v.ax, near)) == Inorder(Mk(o, far, v.x, v.cx, v.ax, near));
    SameOrderKeeps(k.up, t1, t2);
    if cb.Augmented? {
      var f := cb.compute;
      AugPlug(f, k.up, t1);
      AugPlug(f, k.up, t2);
      AugMk(f, o, Mk(o, far, v.x, v.cx, v.ax, near), v.y, v.cy, v.ay, t);
      AugMk(f, o, Mk(o, v.t1, v.x, v.cx, v.ax, near), v.y, v.cy, v.ay, t);
      AugMk(f, o, far, v.x, v.cx, v.ax, near);
      AugMk(f, o, v.t1, v.x, v.cx, v.ax, near);
    }
  }

  lemma BlackenedFits(far: Tree, n: nat)
    requires far.Node? && far.c.Red? && Bal(far, n) && NoRedRed(far)
    ensures Bal(Recolor(far, Black), n + 1) && NoRedRed(Recolor(far, Black)) && IsBlack(Recolor(far, Black))
  {
  }

  lemma {:induction false} CaseFourFits(cb: Callbacks, k: Ctx, t: Tree, n: nat)
    requires EraseInv(k, t, n) && k.sib.Node? && k.sib.c.Black?
    requires Kid(k.sib, Other(k.s)).Node? && Kid(k.sib, Other(k.s)).c.Red?
    ensures Fits(k.up, Turned(cb, BlackenedPair(k, t), BlackenedPair(k, t).t2, Black), n + 1 + Bit(k.c))
  {
    SiblingShape(k, t, n);
    BlackenedFits(Kid(k.sib, Other(k.s)), n);
    CaseFourInv(cb, k.up, BlackenedPair(k, t), n);
  }

  /** Case 4: rotate at parent, colour flips; the loop ends. */
  method CaseFour(r: RbRoot, cb: Callbacks, s: Side, parent: Ptr, sibling: Ptr, tmp1: Ptr, ghost k: Ctx,
                  ghost t: Tree, ghost n: nat)
    requires Rep(r.Img(), Plug(k, t)) && EraseInv(k, t, n) && k.sib.Node? && k.sib.c.Black?
    requires s == k.s && parent == k.x && sibling == k.sib.x
    requires Kid(k.sib, Other(s)).Node? && Kid(k.sib, Other(s)).c.Red? && tmp1 == Kid(k.sib, Other(s)).x
    modifies r
    ensures Rep(r.Img(), Last(cb, k, t)) && RedBlack(Last(cb, k, t))
    ensures Kept(cb, Plug(k, t), Last(cb, k, t)) && r.OnlyTree(Plug(k, t))
  {
    ghost var v := BlackenedPair(k, t);
    BlackenOuterChild(r, sibling, tmp1, k, t);
    BlackenOuterKeeps(cb, k, t);
    assert RepZ(r.Img(), k.up, PairTree(v)) by { RepPlug(r.Img(), k.up, PairTree(v)); }
    PairTmp(r.Img(), r.Img(), k.up, v);
    var tmp2 := GetKid(r.h[sibling], s);
    r.TurnUp(cb, Other(s), parent, sibling, tmp2, Black, true, r.Img(), k.up, v);
    CaseFourLast(cb, k, t, n);
    KeptTrans(cb, Plug(k, t), Plug(k.up, PairTree(v)), Last(cb, k, t));
  }

  lemma {:induction false} CaseFourLast(cb: Callbacks, k: Ctx, t: Tree, n: nat)
    requires EraseInv(k, t, n) && k.sib.Node? && k.sib.c.Black?
    requires Kid(k.sib, Other(k.s)).Node? && Kid(k.sib, Other(k.s)).c.Red?
    ensures RedBlack(Last(cb, k, t))
    ensures Last(cb, k, t) == Plug(k.up, Turned(cb, BlackenedPair(k, t), BlackenedPair(k, t).t2, Black))
  {
    var v := BlackenedPair(k, t);
    CaseFourFits(cb, k, t, n);
    PlugRedBlack(k.up, Turned(cb, v, v.t2, Black), n + 1 + Bit(k.c));
  }

  method BlackenOuterChild(r: RbRoot, sibling: Ptr, tmp1: Ptr, ghost k: Ctx, ghost t: Tree)
    requires Rep(r.Img(), Plug(k, t)) && k.Crumb? && k.sib.Node? && Kid(k.sib, Other(k.s)).Node?
    requires sibling == k.sib.x && tmp1 == Kid(k.sib, Other(k.s)).x
    modifies r
    ensures Rep(r.Img(), Plug(k.up, PairTree(BlackenedPair(k, t)))) && r.OnlyTree(Plug(k, t))
  {
    RepPlug(r.Img(), k, t);
    BlackenOuter(r.Img(), k, t);
    InsidePair(k, t);
    r.h := SetPc(r.h, tmp1, Pack(sibling, Black));
    RepPlug(r.Img(), k.up, PairTree(BlackenedPair(k, t)));
  }

  /** The context of the sibling. */
  function SiblingCtx(k: Ctx, t: Tree): Ctx
    requires k.Crumb?
  {
    Crumb(k.up, Other(k.s), k.x, k.c, k.a, t)
  }

  lemma {:induction false} CaseThreeShape(cb: Callbacks, k: Ctx, t: Tree)
    requires k.Crumb? && k.sib.Node? && Kid(k.sib, k.s).Node?
    ensures PairTree(InnerPair(k)) == k.sib && Plug(SiblingCtx(k, t), k.sib) == Plug(k, t)
    ensures Plug(SiblingCtx(k, t), Turned(cb, InnerPair(k), InnerPair(k).t2, Black)) == Plug(k.up,
        PairTree(OuterPair(cb, k, t)))
    ensures OuterPair(cb, k, t).t2 == Kid(Kid(k.sib, k.s), k.s) && OuterPair(cb, k, t).x == Kid(k.sib, k.s).x
    ensures OuterPair(cb, k, t).t1 == Mk(k.s, InnerPair(k).t2, k.sib.x, Black, OuterPair(cb, k, t).t1.a,
        Kid(k.sib, Other(k.s)))
  {
  }

  lemma {:induction false} CaseThreeInv(cb: Callbacks, k: Ctx, t: Tree, n: nat)
    requires EraseInv(k, t, n) && k.sib.Node? && k.sib.c.Black?
    requires Kid(k.sib, k.s).Node? && Kid(k.sib, k.s).c.Red? && IsBlack(Kid(k.sib, Other(k.s)))
    ensures IsBlack(InnerPair(k).t2)
    ensures Fits(k.up, Turned(cb, OuterPair(cb, k, t), OuterPair(cb, k, t).t2, Black), n + 1 + Bit(k.c))
  {
    SiblingShape(k, t, n);
    CaseThreeShape(cb, k, t);
    var near, v := Kid(k.sib, k.s), OuterPair(cb, k, t);
    assert Bal(Kid(near, Lft), n) && Bal(Kid(near, Rgt), n) && NoRedRed(Kid(near, Lft)) && NoRedRed(Kid(near, Rgt));
    MkShape(k.s, InnerPair(k).t2, k.sib.x, Black, v.t1.a, Kid(k.sib, Other(k.s)), n + 1);
    CaseFourInv(cb, k.up, v, n);
  }

  /** Case 3, rotate at sibling, continued into Case 4. */
  method CaseThreeFour(r: RbRoot, cb: Callbacks, s: Side, parent: Ptr, sibling: Ptr, tmp2: Ptr, ghost k: Ctx,
                       ghost t: Tree, ghost n: nat)
    requires Rep(r.Img(), Plug(k, t)) && EraseInv(k, t, n) && k.sib.Node? && k.sib.c.Black?
    requires s == k.s && parent == k.x && sibling == k.sib.x
    requires Kid(k.sib, s).Node? && Kid(k.sib, s).c.Red? && tmp2 == Kid(k.sib, s).x && IsBlack(Kid(k.sib, Other(s)))
    modifies r
    ensures Rep(r.Img(), Last(cb, k, t)) && RedBlack(Last(cb, k, t))
    ensures Kept(cb, Plug(k, t), Last(cb, k, t)) && r.OnlyTree(Plug(k, t))
  {
    ghost var v := OuterPair(cb, k, t);
    CaseThreeLast(cb, k, t, n);
    ghost var m1 := TurnAtSibling(r, cb, s, parent, sibling, tmp2, k, t);
    TurnAtParent(r, cb, s, parent, tmp2, m1, k.up, v);
    KeptTrans(cb, Plug(k, t), Plug(k.up, PairTree(v)), Last(cb, k, t));
  }

  lemma {:induction false} CaseThreeLast(cb: Callbacks, k: Ctx, t: Tree, n: nat)
    requires EraseInv(k, t, n) && k.sib.Node? && k.sib.c.Black?
    requires Kid(k.sib, k.s).Node? && Kid(k.sib, k.s).c.Red? && IsBlack(Kid(k.sib, Other(k.s)))
    ensures IsBlack(InnerPair(k).t2) && RedBlack(Last(cb, k, t))
    ensures Last(cb, k, t) == Plug(k.up, Turned(cb, OuterPair(cb, k, t), OuterPair(cb, k, t).t2, Black))
  {
    var v := OuterPair(cb, k, t);
    CaseThreeInv(cb, k, t, n);
    PlugRedBlack(k.up, Turned(cb, v, v.t2, Black), n + 1 + Bit(k.c));
  }

  /** The rotation of Case 3, which leaves one word to the one that follows. */
  method TurnAtSibling(r: RbRoot, cb: Callbacks, s: Side, parent: Ptr, sibling: Ptr, tmp2: Ptr, ghost k: Ctx,
                       ghost t: Tree)
      returns (ghost m1: Image)
    requires Rep(r.Img(), Plug(k, t)) && k.Crumb? && k.sib.Node? && s == k.s && parent == k.x && sibling == k.sib.x
    requires Kid(k.sib, s).Node? && tmp2 == Kid(k.sib, s).x && IsBlack(InnerPair(k).t2)
    modifies r
    ensures Rep(m1, Plug(k.up, PairTree(OuterPair(cb, k, t)))) && Loose(m1, r.Img(), Other(s), parent, tmp2)
    ensures Kept(cb, Plug(k, t), Plug(k.up, PairTree(OuterPair(cb, k, t)))) && r.OnlyTree(Plug(k, t))
    ensures OuterPair(cb, k, t).s == Other(s) && OuterPair(cb, k, t).x == tmp2 && OuterPair(cb, k, t).y == parent
  {
    CaseThreeShape(cb, k, t);
    ghost var v := InnerPair(k);
    assert RepZ(r.Img(), SiblingCtx(k, t), PairTree(v)) by { RepPlug(r.Img(), SiblingCtx(k, t), PairTree(v)); }
    PairTmp(r.Img(), r.Img(), SiblingCtx(k, t), v);
    var tmp1 := GetKid(r.h[tmp2], Other(s));
    m1 := r.TurnSibling(cb, s, sibling, tmp2, tmp1, parent, Other(s), SiblingCtx(k, t), v);
  }

  /** The rotation of Case 4 behind it. */
  method TurnAtParent(r: RbRoot, cb: Callbacks, s: Side, parent: Ptr, tmp2: Ptr, ghost m1: Image, ghost up: Ctx,
                      ghost v: Pair)
    requires Rep(m1, Plug(up, PairTree(v))) && Loose(m1, r.Img(), Other(s), parent, tmp2)
    requires v.s == Other(s) && v.x == tmp2 && v.y == parent
    modifies r
    ensures Rep(r.Img(), Plug(up, Turned(cb, v, v.t2, Black)))
    ensures Kept(cb, Plug(up, PairTree(v)), Plug(up, Turned(cb, v, v.t2, Black))) && r.OnlyTree(Plug(up, PairTree(v)))
  {
    assert RepZ(m1, up, PairTree(v)) by { RepPlug(m1, up, PairTree(v)); }
    PairTmp(m1, r.Img(), up, v);
    var tmp1 := GetKid(r.h[tmp2], s);
    r.TurnUp(cb, Other(s), parent, tmp2, tmp1, Black, true, m1, up, v);
  }

  /** One iteration of the loop; `again` when it continues, one level up. */
  method Iterate(r: RbRoot, cb: Callbacks, node: Ptr, parent: Ptr, ghost k: Ctx, ghost t: Tree, ghost n: nat)
      returns (again: bool, above: Ptr)
    requires Rep(r.Img(), Plug(k, t)) && EraseInv(k, t, n) && node == Root(t) && parent == k.x
    modifies r
    ensures r.OnlyTree(Plug(k, t)) && (again <==> GoesUp(k))
    ensures again ==> Stepped(r.Img(), cb, k, t, n, parent, above)
    ensures !again ==>
              Rep(r.Img(), Mended(cb, k, t)) && RedBlack(Mended(cb, k, t)) && Kept(cb, Plug(k, t), Mended(cb, k, t))
  {
    ReadSibling(r.Img(), k, t, n);
    var s := if node != r.h[parent].right then Lft else Rgt;
    var sibling := GetKid(r.h[parent], Other(s));
    if ColorOf(r.h[sibling].pc).Red? {
      sibling := CaseOne(r, cb, s, parent, sibling, k, t, n);
      again, above := SettleBlackSibling(r, cb, s, parent, sibling, CaseOneCtx(cb, k, t), t, n);
    } else {
      again, above := SettleBlackSibling(r, cb, s, parent, sibling, k, t, n);
    }
  }

  /** The loop goes on at the parent. */
  ghost predicate Stepped(m: Image, cb: Callbacks, k: Ctx, t: Tree, n: nat, parent: Ptr, above: Ptr)
    requires GoesUp(k)
  {
    && Rep(m, Plug(k.up, FlippedSibling(k, t))) && Kept(cb, Plug(k, t), Plug(k.up, FlippedSibling(k, t)))
    && EraseInv(k.up, FlippedSibling(k, t), n + 1) && Root(FlippedSibling(k, t)) == parent && above == k.up.x
  }

  /** A child of the sibling, and whether it is there and red. */
  method RedKid(r: RbRoot, sibling: Ptr, q: Side, ghost k: Ctx, ghost t: Tree, ghost n: nat)
      returns (tmp: Ptr, red: bool)
    requires Rep(r.Img(), Plug(k, t)) && EraseInv(k, t, n) && sibling == Root(k.sib)
    ensures k.sib.Node? && tmp == Root(Kid(k.sib, q)) && (red <==> !IsBlack(Kid(k.sib, q)))
  {
    ReadSibling(r.Img(), k, t, n);
    assert ReadKid(r.h, k.sib, q);
    tmp := GetKid(r.h[sibling], q);
    red := tmp != NULL && ColorOf(r.h[tmp].pc).Red?;
  }

  /** Cases 2, 3 and 4. */
  method SettleBlackSibling(r: RbRoot, cb: Callbacks, s: Side, parent: Ptr, sibling: Ptr, ghost k: Ctx,
                            ghost t: Tree, ghost n: nat)
      returns (again: bool, above: Ptr)
    requires Rep(r.Img(), Plug(k, t)) && EraseInv(k, t, n) && IsBlack(k.sib) && s == k.s && parent == k.x
    requires sibling == Root(k.sib)
    modifies r
    ensures r.OnlyTree(Plug(k, t)) && (again <==> GoesUp(k))
    ensures again ==> Stepped(r.Img(), cb, k, t, n, parent, above)
    ensures !again ==> Rep(r.Img(), Last(cb, k, t)) && RedBlack(Last(cb, k, t)) && Kept(cb, Plug(k, t), Last(cb, k, t))
  {
    again, above := false, parent;
    var tmp1, red1 := RedKid(r, sibling, Other(s), k, t, n);
    if !red1 {
      var tmp2, red2 := RedKid(r, sibling, s, k, t, n);
      if !red2 {
        again, above := CaseTwo(r, cb, parent, sibling, k, t, n);
        if !again { PlugRedBlack(k.up, FlippedSibling(k, t), n + 1); }
      } else {
        CaseThreeFour(r, cb, s, parent, sibling, tmp2, k, t, n);
      }
    } else {
      CaseFour(r, cb, s, parent, sibling, tmp1, k, t, n);
    }
  }

  /** The loop is at `t` in context `k`. */
  ghost predicate Mending(m: Image, cb: Callbacks, k0: Ctx, k: Ctx, t: Tree, n: nat) {
    && Rep(m, Plug(k, t)) && Kept(cb, Plug(k0, Leaf), Plug(k, t)) && EraseInv(k, t, n)
    && Mended(cb, k, t) == Mended(cb, k0, Leaf)
  }

  /** The loop is over. */
  ghost predicate MendedNow(m: Image, cb: Callbacks, k0: Ctx) {
    && Rep(m, Mended(cb, k0, Leaf)) && RedBlack(Mended(cb, k0, Leaf))
    && Kept(cb, Plug(k0, Leaf), Mended(cb, k0, Leaf))
  }

  /** ____rb_erase_color: from a tree that is one black node short at the empty place below `parent` to a
      red-black tree with the same nodes in the same order. Each repeat is one level closer to the root. */
  method EraseColor(r: RbRoot, cb: Callbacks, parent0: Ptr, ghost k0: Ctx, ghost n0: nat) returns (ghost t': Tree)
    requires Rep(r.Img(), Plug(k0, Leaf)) && EraseInv(k0, Leaf, n0) && parent0 == k0.x
    modifies r
    ensures Rep(r.Img(), t') && RedBlack(t') && Kept(cb, Plug(k0, Leaf), t') && t' == Mended(cb, k0, Leaf)
    ensures r.OnlyTree(Plug(k0, Leaf))
  {
    var node, parent, again := NULL, parent0, true;
    ghost var k, t, n := k0, Leaf, n0;
    while again
      invariant if again then Mending(r.Img(), cb, k0, k, t, n) && Root(t) == node && parent == k.x
                else MendedNow(r.Img(), cb, k0)
      invariant r.OnlyTree(Plug(k0, Leaf))
      decreases again, k
    {
      var above: Ptr;
      again, above := Iterate(r, cb, node, parent, k, t, n);
      if again { k, t, n := k.up, FlippedSibling(k, t), n + 1; }
      node, parent := parent, above;
    }
    t' := Mended(cb, k0, Leaf);
  }
}
