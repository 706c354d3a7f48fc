/**
 rb_link_node, rb_insert_color and rb_insert_augmented (kernel/linux/rbtree.c, __rb_insert).
 */
module RbInsert {
  import opened Options
  import opened RbTreeModel
  import opened RbMemory
  import opened RbRoots
  import opened RbInsertResult
  import opened RbLookup

  // ---------------------------------------------------------------- the cases on trees

  /** Case 1 moves the red node, the only possible violation, two levels up. */
  lemma {:induction false} ColorFlipInv(up: Ctx, s: Side, g: Ptr, cg: Color, ga: Aug, u: Tree, s2: Side, p: Ptr,
                                        pa: Aug, sib: Tree,
                                        t: Tree, n: nat)
    requires InsertInv(Crumb(Crumb(up, s, g, cg, ga, u), s2, p, Red, pa, sib), t, n)
    ensures cg.Black?
    ensures !IsBlack(u) ==> InsertInv(up, Mk(s, Mk(s2, t, p, Black, pa, sib), g, Red, ga, Recolor(u, Black)), n + 1)
  {
    var k := Crumb(up, s, g, cg, ga, u);
    assert BalC(k, n) && NoRedRedC(k);
    if !IsBlack(u) {
      MkShape(s2, t, p, Black, pa, sib, n + 1);
      MkShape(s, Mk(s2, t, p, Black, pa, sib), g, Red, ga, Recolor(u, Black), n + 1);
    }
  }

  /** Case 3 ends with a black node on top and no violation left. */
  lemma {:induction false} OuterInv(cb: Callbacks, up: Ctx, s: Side, g: Ptr, ga: Aug, u: Tree, p: Ptr, pa: Aug,
                                    sib: Tree, t: Tree, n: nat)
    requires InsertInv(Crumb(Crumb(up, s, g, Black, ga, u), s, p, Red, pa, sib), t, n) && IsBlack(u)
    ensures Recolor(sib, Black) == sib
    ensures Fits(up, Turned(cb, Pair(s, t, p, Red, pa, sib, g, Black, ga, u), sib, Red), n + 1)
  {
    var k := Crumb(up, s, g, Black, ga, u);
    assert BalC(k, n) && NoRedRedC(k);
    var v := Pair(s, t, p, Red, pa, sib, g, Black, ga, u);
    var inner := Kid(Turned(cb, v, sib, Red), Other(s));
    MkShape(s, sib, g, Red, inner.a, u, n);
    MkShape(s, t, p, Black, Turned(cb, v, sib, Red).a, inner, n + 1);
  }

  /** Cases 2 and 3 together do as well. */
  lemma {:induction false} InnerInv(cb: Callbacks, up: Ctx, s: Side, g: Ptr, ga: Aug, u: Tree, p: Ptr, pa: Aug,
                                    sib: Tree, t: Tree, n: nat,
                                    a1: Aug, a2: Aug)
    requires InsertInv(Crumb(Crumb(up, s, g, Black, ga, u), Other(s), p, Red, pa, sib), t, n) && IsBlack(u)
    ensures Recolor(Kid(t, Lft), Black) == Kid(t, Lft) && Recolor(Kid(t, Rgt), Black) == Kid(t, Rgt)
    ensures Fits(up, Turned(cb, Pair(s, Mk(s, sib, p, Red, a1, Kid(t, s)), t.x, Red, a2, Kid(t, Other(s)), g, Black,
        ga, u),
                            Kid(t, Other(s)), Red), n + 1)
  {
    var k := Crumb(up, s, g, Black, ga, u);
    assert BalC(k, n) && NoRedRedC(k);
    var outer := Mk(s, sib, p, Red, a1, Kid(t, s));
    var v := Pair(s, outer, t.x, Red, a2, Kid(t, Other(s)), g, Black, ga, u);
    var t' := Turned(cb, v, Kid(t, Other(s)), Red);
    var inner := Kid(t', Other(s));
    MkShape(s, sib, p, Red, a1, Kid(t, s), n);
    MkShape(s, Kid(t, Other(s)), g, Red, inner.a, u, n);
    MkShape(s, outer, t.x, Black, t'.a, inner, n + 1);
  }

  /** Recolouring keeps the order of the nodes and the stored values. */
  lemma {:induction false} ColorFlipKeeps(cb: Callbacks, up: Ctx, s: Side, g: Ptr, cg: Color, ga: Aug, u: Tree,
                                          s2: Side, p: Ptr, pa: Aug,
                                          sib: Tree, t: Tree)
    ensures Kept(cb, Plug(Crumb(Crumb(up, s, g, cg, ga, u), s2, p, Red, pa, sib), t),
                 Plug(up, Mk(s, Mk(s2, t, p, Black, pa, sib), g, Red, ga, Recolor(u, Black))))
  {
    var t1 := Mk(s, Mk(s2, t, p, Red, pa, sib), g, cg, ga, u);
    var t2 := Mk(s, Mk(s2, t, p, Black, pa, sib), g, Red, ga, Recolor(u, Black));
    assert Inorder(t1) == Inorder(t2) by {
      assert Inorder(Mk(s2, t, p, Red, pa, sib)) == Inorder(Mk(s2, t, p, Black, pa, sib));
    }
    SameOrderKeeps(up, t1, t2);
    if cb.Augmented? {
      var f := cb.compute;
      AugPlug(f, up, t1);
      AugPlug(f, up, t2);
      AugMk(f, s, Mk(s2, t, p, Red, pa, sib), g, cg, ga, u);
      AugMk(f, s, Mk(s2, t, p, Black, pa, sib), g, Red, ga, Recolor(u, Black));
      AugMk(f, s2, t, p, Red, pa, sib);
      AugMk(f, s2, t, p, Black, pa, sib);
    }
  }

  // ---------------------------------------------------------------- the loop

  /** The three colour writes of Case 1. */
  method FlipColors(r: RbRoot, gparent: Ptr, parent: Ptr, uncle: Ptr, ghost up: Ctx, ghost s: Side, ghost cg: Color,
                    ghost ga: Aug,
                    ghost u: Tree, ghost s2: Side, ghost pa: Aug, ghost sib: Tree, ghost t: Tree)
    requires Rep(r.Img(), Plug(up, Mk(s, Mk(s2, t, parent, Red, pa, sib), gparent, cg, ga, u)))
    requires u.Node? && u.x == uncle
    modifies r`h
    ensures Rep(r.Img(), Plug(up, Mk(s, Mk(s2, t, parent, Black, pa, sib), gparent, Red, ga, Recolor(u, Black))))
    ensures r.h.Keys == old(r.h.Keys) && SameOff(old(r.h), r.h, {gparent, parent, uncle})
  {
    ghost var p1, p2 := Mk(s2, t, parent, Red, pa, sib), Mk(s2, t, parent, Black, pa, sib);
    ghost var u2 := Recolor(u, Black);
    ghost var ku, kp := Crumb(up, Other(s), gparent, cg, ga, p1), Crumb(up, s, gparent, cg, ga, u2);
    assert Plug(ku, u) == Plug(up, Mk(s, p1, gparent, cg, ga, u));
    r.SetColor(uncle, gparent, Black, ku, u);
    assert Plug(ku, u2) == Plug(kp, p1);
    r.SetColor(parent, gparent, Black, kp, p1);
    ghost var g2 := Mk(s, p2, gparent, cg, ga, u2);
    assert Plug(kp, p2) == Plug(up, g2);
    GrandparentWord(r.Img(), up, g2);
    var above := ParentOf(r.h[gparent].pc);
    r.SetColor(gparent, above, Red, up, g2);
  }

  lemma {:induction false} GrandparentWord(m: Image, k: Ctx, t: Tree)
    requires Rep(m, Plug(k, t)) && t.Node?
    ensures t.x in m.h && ParentOf(m.h[t.x].pc) == ParentPtr(k, NULL)
  {
    RepPlug(m, k, t);
    RepT1(m, k, t);
    SlotCells(m.h, k, t.x, t.c);
  }

  /** Case 3: right rotate at gparent (left rotate in the mirrored half). */
  method RotateOuter(r: RbRoot, cb: Callbacks, s: Side, gparent: Ptr, parent: Ptr, tmp: Ptr, ghost k: Ctx,
                     ghost t: Tree, ghost n: nat)
    requires RepZ(r.Img(), k, t) && InsertInv(k, t, n) && Rotates(k, s, gparent, parent) && k.s == s
    requires tmp == Root(k.sib)
    modifies r
    ensures Rep(r.Img(), Plug(k.up.up, RotatedTop(cb, k, t))) && Fits(k.up.up, RotatedTop(cb, k, t), n + 1)
    ensures Kept(cb, Plug(k, t), Plug(k.up.up, RotatedTop(cb, k, t))) && r.OnlyTree(Plug(k, t))
  {
    ghost var v := OuterPair(k, t);
    FoldCrumb(r.Img(), k.up, s, parent, Red, k.a, k.sib, t);
    FoldCrumb(r.Img(), k.up.up, s, gparent, Black, k.up.a, k.up.sib, Mk(s, t, parent, Red, k.a, k.sib));
    OuterInv(cb, k.up.up, s, gparent, k.up.a, k.up.sib, parent, k.a, k.sib, t, n);
    PairParts(r.Img(), k.up.up, v);
    r.TurnUp(cb, s, gparent, parent, tmp, Red, false, r.Img(), k.up.up, v);
  }

  /** The parent is red, the grandparent black, and so is the uncle. */
  predicate Rotates(k: Ctx, s: Side, gparent: Ptr, parent: Ptr) {
    && k.Crumb? && k.up.Crumb? && k.c.Red? && k.up.c.Black? && IsBlack(k.up.sib)
    && k.x == parent && k.up.x == gparent && k.up.s == s
  }

  /** Case 2, left rotate at parent, continued into Case 3. */
  method RotateInnerOuter(r: RbRoot, cb: Callbacks, s: Side, gparent: Ptr, parent: Ptr, node: Ptr, ghost k: Ctx,
                          ghost t: Tree, ghost n: nat)
    requires RepZ(r.Img(), k, t) && InsertInv(k, t, n) && Rotates(k, s, gparent, parent) && k.s != s && node == t.x
    modifies r
    ensures Rep(r.Img(), Plug(k.up.up, RotatedTop(cb, k, t))) && Fits(k.up.up, RotatedTop(cb, k, t), n + 1)
    ensures Kept(cb, Plug(k, t), Plug(k.up.up, RotatedTop(cb, k, t))) && r.OnlyTree(Plug(k, t))
  {
    InnerFits(cb, k, t, n);
    TurnTwice(r, cb, s, gparent, parent, node, k, t);
  }

  lemma {:induction false} InnerFits(cb: Callbacks, k: Ctx, t: Tree, n: nat)
    requires InsertInv(k, t, n) && k.Crumb? && k.up.Crumb? && Rotates(k, k.up.s, k.up.x, k.x) && k.s != k.up.s
    ensures t.Node? && t.c.Red? && IsBlack(Kid(t, k.up.s)) && IsBlack(Kid(t, Other(k.up.s)))
    ensures Fits(k.up.up, RotatedTop(cb, k, t), n + 1)
  {
    var s, v1 := k.up.s, InnerPair(k, t);
    var t1 := Turned(cb, v1, Kid(t, s), Red);
    InnerShape(cb, k.up.up, s, v1, k.up.x, k.up.a, k.up.sib, t1);
    var v2 := SecondPair(s, t1, k.up.x, k.up.a, k.up.sib);
    InnerInv(cb, k.up.up, s, k.up.x, k.up.a, k.up.sib, k.x, k.a, k.sib, t, n, v2.t1.a, v2.ax);
  }

  method TurnTwice(r: RbRoot, cb: Callbacks, s: Side, gparent: Ptr, parent: Ptr, node: Ptr, ghost k: Ctx, ghost t: Tree)
    requires RepZ(r.Img(), k, t) && Rotates(k, s, gparent, parent) && k.s != s
    requires t.Node? && t.c.Red? && node == t.x && IsBlack(Kid(t, s)) && IsBlack(Kid(t, Other(s)))
    modifies r
    ensures Rep(r.Img(), Plug(k.up.up, RotatedTop(cb, k, t)))
    ensures Kept(cb, Plug(k, t), Plug(k.up.up, RotatedTop(cb, k, t))) && r.OnlyTree(Plug(k, t))
  {
    ghost var v1 := InnerPair(k, t);
    ghost var t1 := Turned(cb, v1, Kid(t, s), Red);
    ghost var v2 := SecondPair(s, t1, gparent, k.up.a, k.up.sib);
    ghost var m1 := TurnFirst(r, cb, s, parent, node, k, t);
    InnerShape(cb, k.up.up, s, v1, gparent, k.up.a, k.up.sib, t1);
    TurnSecond(r, cb, s, gparent, node, m1, k.up.up, v2);
  }

  /** Case 2: the rotation that leaves two words to the one that follows. */
  method TurnFirst(r: RbRoot, cb: Callbacks, s: Side, parent: Ptr, node: Ptr, ghost k: Ctx, ghost t: Tree)
      returns (ghost m1: Image)
    requires RepZ(r.Img(), k, t) && t.Node? && k.Crumb? && k.up.Crumb? && k.s != s && k.up.s == s && k.x == parent
    requires k.c.Red?
    requires t.c.Red? && IsBlack(Kid(t, s)) && node == t.x
    modifies r
    ensures Rep(m1, Plug(k.up, Turned(cb, InnerPair(k, t), Kid(t, s), Red))) && Loose(m1, r.Img(), s, k.up.x, node)
    ensures Kept(cb, Plug(k, t), Plug(k.up, Turned(cb, InnerPair(k, t), Kid(t, s), Red))) && r.OnlyTree(Plug(k, t))
  {
    ghost var v := InnerPair(k, t);
    FoldCrumb(r.Img(), k.up, Other(s), parent, Red, k.a, k.sib, t);
    PairTmp(r.Img(), r.Img(), k.up, v);
    var tmp := GetKid(r.h[node], s);
    m1 := r.TurnInner(cb, Other(s), parent, node, tmp, k.up, v);
  }

  /** Case 3 behind Case 2: the rotation that completes what the first one left open. */
  method TurnSecond(r: RbRoot, cb: Callbacks, s: Side, gparent: Ptr, node: Ptr, ghost m1: Image, ghost up: Ctx,
                    ghost v: Pair)
    requires Rep(m1, Plug(up, PairTree(v))) && Loose(m1, r.Img(), s, gparent, node)
    requires v.s == s && v.y == gparent && v.x == node && IsBlack(v.t2)
    modifies r
    ensures Rep(r.Img(), Plug(up, Turned(cb, v, v.t2, Red)))
    ensures Kept(cb, Plug(up, PairTree(v)), Plug(up, Turned(cb, v, v.t2, Red)))
    ensures r.OnlyTree(Plug(up, PairTree(v)))
  {
    RepPlug(m1, up, PairTree(v));
    PairTmp(m1, r.Img(), up, v);
    var tmp := GetKid(r.h[node], Other(s));
    r.TurnUp(cb, s, gparent, node, tmp, Red, false, m1, up, v);
  }

  lemma InnerShape(cb: Callbacks, up: Ctx, s: Side, v1: Pair, g: Ptr, ga: Aug, u: Tree, t1: Tree)
    requires v1.s == Other(s) && v1.cx.Red? && v1.cy.Red? && t1 == Turned(cb, v1, v1.t2, Red)
    ensures t1.Node? && t1.x == v1.x
    ensures Kid(t1, s).Node? && Kid(t1, s) == Mk(s, v1.t3, v1.y, Red, Kid(t1, s).a, v1.t2) && Kid(t1, Other(s)) == v1.t1
    ensures PairTree(SecondPair(s, t1, g, ga, u)) == Mk(s, t1, g, Black, ga, u)
    ensures Plug(up, PairTree(SecondPair(s, t1, g, ga, u))) == Plug(Crumb(up, s, g, Black, ga, u), t1)
  {
  }

  /** The tests of the loop: what the parent, grandparent and uncle pointers turn out to be. */
  lemma {:induction false} ReadAbove(m: Image, k: Ctx, t: Tree, n: nat)
    requires RepZ(m, k, t) && InsertInv(k, t, n)
    ensures k.Crumb? ==> k.x != NULL && k.x in m.h && ColorOf(m.h[k.x].pc) == k.c
    ensures k.Crumb? && k.c.Red? ==>
              k.up.Crumb? && k.up.c.Black? && m.h[k.x].pc == k.up.x && k.up.x in m.h && k.up.x != NULL
    ensures k.Crumb? && k.c.Red? ==>
              PtrIn(m.h, Root(k.up.sib)) && GetKid(m.h[k.up.x], k.up.s) == k.x && k.x != Root(k.up.sib)
    ensures k.Crumb? && k.c.Red? ==> GetKid(m.h[k.up.x], Other(k.up.s)) == Root(k.up.sib)
    ensures k.Crumb? && k.c.Red? && k.up.sib.Node? ==>
              k.up.sib.x != NULL && k.up.sib.x in m.h && ColorOf(m.h[k.up.sib.x].pc) == k.up.sib.c
    ensures k.Crumb? ==>
              GetKid(m.h[k.x], k.s) == t.x && GetKid(m.h[k.x], Other(k.s)) == Root(k.sib) && t.x != Root(k.sib)
  {
    if k.Crumb? {
      RepRoot(m.h, k.sib, k.x);
      assert RepC(m.h, k.up, NULL, k.x);
      PackUnpack(ParentPtr(k.up, NULL), k.c);
      assert k.x in PtrsC(k) && t.x in Ptrs(t);
      if k.c.Red? {
        assert RepC(m.h, k.up, NULL, k.x) && UniqC(k.up) && NoRedRedC(k.up);
        RepRoot(m.h, k.up.sib, k.up.x);
        assert k.up.x in PtrsC(k.up) && Ptrs(k.up.sib) <= PtrsC(k.up);
        if k.up.sib.Node? { PackUnpack(k.up.x, k.up.sib.c); }
      }
    }
  }

  /** The inserted node, or the one the loop recursed at, is the root. */
  method BlackenRoot(r: RbRoot, cb: Callbacks, node: Ptr, ghost t: Tree, ghost n: nat)
    requires RepZ(r.Img(), Top, t) && InsertInv(Top, t, n) && t.x == node
    modifies r
    ensures Rep(r.Img(), Recolor(t, Black)) && RedBlack(Recolor(t, Black)) && Kept(cb, t, Recolor(t, Black))
    ensures r.OnlyTree(t)
  {
    RepT1(r.Img(), Top, t);
    RecolorRep(r.Img(), Top, t, Black);
    r.h := SetPc(r.h, node, Pack(NULL, Black));
    RootBlack(cb, t, n);
    assert node in Ptrs(t);
  }

  /** Case 1: color flips, and the loop goes on at gparent. */
  method FlipStep(r: RbRoot, cb: Callbacks, s: Side, gparent: Ptr, parent: Ptr, uncle: Ptr, ghost k: Ctx,
                  ghost t: Tree, ghost n: nat)
      returns (above: Ptr, ghost t': Tree)
    requires Rep(r.Img(), Plug(k, t)) && InsertInv(k, t, n) && k.Crumb? && k.up.Crumb? && k.up.sib.Node?
    requires k.x == parent && k.c.Red? && k.up.x == gparent && k.up.s == s && k.up.sib.x == uncle && k.up.sib.c.Red?
    modifies r
    ensures t' == Flipped(k, t)
    ensures Rep(r.Img(), Plug(k.up.up, t')) && InsertInv(k.up.up, t', n + 1) && t'.x == gparent
    ensures above == ParentPtr(k.up.up, NULL)
    ensures Kept(cb, Plug(k, t), Plug(k.up.up, t')) && r.OnlyTree(Plug(k, t))
  {
    ghost var up, u := k.up.up, k.up.sib;
    ColorFlipInv(up, s, gparent, k.up.c, k.up.a, u, k.s, parent, k.a, k.sib, t, n);
    ColorFlipKeeps(cb, up, s, gparent, k.up.c, k.up.a, u, k.s, parent, k.a, k.sib, t);
    assert {gparent, parent, uncle} <= Ptrs(Plug(k, t)) by {
      PtrsPlug(k, t);
      assert uncle in Ptrs(u) && uncle in PtrsC(k.up);
    }
    assert Plug(k, t) == Plug(up, Mk(s, Mk(k.s, t, parent, Red, k.a, k.sib), gparent, k.up.c, k.up.a, u));
    FlipColors(r, gparent, parent, uncle, up, s, k.up.c, k.up.a, u, k.s, k.a, k.sib, t);
    t' := Mk(s, Mk(k.s, t, parent, Black, k.a, k.sib), gparent, Red, k.up.a, Recolor(u, Black));
    GrandparentWord(r.Img(), up, t');
    above := ParentOf(r.h[gparent].pc);
  }

  /** Cases 2 and 3: rotations that end the loop. */
  method RotateStep(r: RbRoot, cb: Callbacks, s: Side, gparent: Ptr, parent: Ptr, node: Ptr, ghost k: Ctx,
                    ghost t: Tree, ghost n: nat)
    requires RepZ(r.Img(), k, t) && InsertInv(k, t, n) && Rotates(k, s, gparent, parent) && t.x == node
    modifies r
    ensures Rep(r.Img(), Plug(k.up.up, RotatedTop(cb, k, t))) && RedBlack(Plug(k.up.up, RotatedTop(cb, k, t)))
    ensures Kept(cb, Plug(k, t), Plug(k.up.up, RotatedTop(cb, k, t))) && r.OnlyTree(Plug(k, t))
  {
    ReadInner(r.Img(), k, t, n, s);
    var tmp := GetKid(r.h[parent], Other(s));
    if node == tmp {
      RotateInnerOuter(r, cb, s, gparent, parent, node, k, t, n);
    } else {
      RotateOuter(r, cb, s, gparent, parent, tmp, k, t, n);
    }
    PlugRedBlack(k.up.up, RotatedTop(cb, k, t), n + 1);
  }

  lemma {:induction false} ReadInner(m: Image, k: Ctx, t: Tree, n: nat, s: Side)
    requires RepZ(m, k, t) && InsertInv(k, t, n) && k.Crumb?
    ensures k.x in m.h && (GetKid(m.h[k.x], Other(s)) == t.x <==> k.s != s)
    ensures (k.s == s ==> GetKid(m.h[k.x], Other(s)) == Root(k.sib))
  {
    ReadAbove(m, k, t, n);
  }

  /** One iteration of the loop: `again` when it continues, at `node'`; the focus goes two levels up. */
  method Iterate(r: RbRoot, cb: Callbacks, node: Ptr, parent: Ptr, ghost k: Ctx, ghost t: Tree, ghost n: nat)
      returns (again: bool, node': Ptr, parent': Ptr, ghost k': Ctx, ghost t': Tree)
    requires Rep(r.Img(), Plug(k, t)) && InsertInv(k, t, n) && t.x == node && parent == ParentPtr(k, NULL)
    modifies r
    ensures Kept(cb, Plug(k, t), Plug(k', t')) && r.OnlyTree(Plug(k, t)) && Rep(r.Img(), Plug(k', t'))
    ensures again ==>
              InsertInv(k', t', n + 1) && t'.x == node' && parent' == ParentPtr(k', NULL) && Length(k') < Length(k)
    ensures !again ==> RedBlack(Plug(k', t'))
    ensures Fixed(cb, k, t) == if again then Fixed(cb, k', t') else Plug(k', t')
  {
    RepPlug(r.Img(), k, t);
    ReadAbove(r.Img(), k, t, n);
    again, node', parent', k', t' := false, node, parent, k, t;
    if parent == NULL {
      BlackenRoot(r, cb, node, t, n);
      t' := Recolor(t, Black);
      return;
    }
    if ColorOf(r.h[parent].pc).Black? {
      PlugRedBlack(k, t, n);
      return;
    }
    var gparent := r.h[parent].pc; // rb_red_parent
    var s := if parent != r.h[gparent].right then Lft else Rgt;
    var uncle := GetKid(r.h[gparent], Other(s));
    if uncle != NULL && ColorOf(r.h[uncle].pc).Red? {
      assert Length(k) == 2 + Length(k.up.up);
      again, node', k' := true, gparent, k.up.up;
      parent', t' := FlipStep(r, cb, s, gparent, parent, uncle, k, t, n);
      return;
    }
    RotateStep(r, cb, s, gparent, parent, node, k, t, n);
    k', t' := k.up.up, RotatedTop(cb, k, t);
  }

  /** __rb_insert: whatever tree and insertion point it starts from, the result is a red-black tree with
      the same nodes in the same order, and right stored values if they were right. */
  method Insert(r: RbRoot, cb: Callbacks, node0: Ptr, ghost k0: Ctx, ghost t0: Tree, ghost n0: nat)
      returns (ghost t': Tree)
    requires Rep(r.Img(), Plug(k0, t0)) && InsertInv(k0, t0, n0) && t0.x == node0
    modifies r
    ensures Rep(r.Img(), t') && RedBlack(t') && Kept(cb, Plug(k0, t0), t') && t' == Fixed(cb, k0, t0)
    ensures r.OnlyTree(Plug(k0, t0))
  {
    ghost var k, t, n := k0, t0, n0;
    RedParent(r.Img(), k, t, n);
    var node, parent, again := node0, r.h[node0].pc, true; // rb_red_parent
    while again
      invariant Rep(r.Img(), Plug(k, t)) && Kept(cb, Plug(k0, t0), Plug(k, t)) && r.OnlyTree(Plug(k0, t0))
      invariant again ==> InsertInv(k, t, n) && t.x == node && parent == ParentPtr(k, NULL)
      invariant !again ==> RedBlack(Plug(k, t))
      invariant Fixed(cb, k0, t0) == if again then Fixed(cb, k, t) else Plug(k, t)
      decreases again, Length(k)
    {
      again, node, parent, k, t := Iterate(r, cb, node, parent, k, t, n);
      n := n + 1;
    }
    t' := Plug(k, t);
  }

  /** The word of a red node is the address of its parent. */
  lemma {:induction false} RedParent(m: Image, k: Ctx, t: Tree, n: nat)
    requires Rep(m, Plug(k, t)) && InsertInv(k, t, n)
    ensures t.x in m.h && m.h[t.x].pc == ParentPtr(k, NULL)
  {
    RepPlug(m, k, t);
    RepT1(m, k, t);
  }

  lemma {:induction false} RepT1(m: Image, k: Ctx, t: Tree)
    requires RepZ(m, k, t) && t.Node?
    ensures t.x != NULL && t.x in m.h && m.h[t.x].pc == Pack(ParentPtr(k, NULL), t.c) && t.x !in PtrsC(k)
  {
    assert t.x in Ptrs(t);
  }

  lemma {:induction false} RootBlack(cb: Callbacks, t: Tree, n: nat)
    requires InsertInv(Top, t, n)
    ensures RedBlack(Recolor(t, Black)) && Kept(cb, t, Recolor(t, Black))
  {
    assert Bal(Recolor(t, Black), n + 1);
  }

  // ---------------------------------------------------------------- entry points

  lemma {:induction false} LeafInsertInv(k: Ctx, x: Ptr, a: Aug)
    requires RedBlack(Plug(k, Leaf))
    ensures InsertInv(k, Node(Leaf, x, Red, a, Leaf), 0)
  {
    var n := UnplugRedBlack(k, Leaf);
  }

  /** rb_link_node: `node` becomes a red leaf in the empty slot below `parent` on side `s`, or the root. */
  method LinkNode(r: RbRoot, node: Ptr, parent: Ptr, s: Side, ghost k: Ctx)
    requires RepZ(r.Img(), k, Leaf) && parent == ParentPtr(k, NULL) && (k.Crumb? ==> s == k.s)
    requires node != NULL && Aligned(node) && node in r.h && node !in PtrsC(k)
    modifies r
    ensures RepZ(r.Img(), k, Node(Leaf, node, Red, old(r.h)[node].aug, Leaf))
    ensures r.Wrote(Plug(k, Node(Leaf, node, Red, old(r.h)[node].aug, Leaf)))
    ensures EitherSafe(old(r.seen), r.seen, Ptrs(Plug(k, Leaf)),
                       Ptrs(Plug(k, Node(Leaf, node, Red, old(r.h)[node].aug, Leaf))))
  {
    ghost var m0 := r.Img();
    PrepareNode(r, node, parent, k);
    if parent == NULL {
      r.StoreRoot(node);
    } else {
      r.StoreKid(parent, s, node);
    }
    Linked(m0, r.Img(), node, parent, s, k);
    LinkedSafe(m0, r.Img(), k, Node(Leaf, node, Red, m0.h[node].aug, Leaf));
  }

  /** The stores into the node itself, before anything leads to it. */
  method PrepareNode(r: RbRoot, node: Ptr, parent: Ptr, ghost k: Ctx)
    requires RepZ(r.Img(), k, Leaf) && node in r.h && node !in PtrsC(k)
    modifies r`h, r`seen
    ensures r.h == old(r.h)[node := RbNode(parent, NULL, NULL, old(r.h)[node].aug)]
    ensures AllSafe(old(r.seen), r.seen, Ptrs(Plug(k, Leaf)))
  {
    assert Rep(r.Img(), Plug(k, Leaf)) && node !in Ptrs(Plug(k, Leaf)) by {
      RepPlug(r.Img(), k, Leaf);
      PtrsPlug(k, Leaf);
    }
    OutsideSafe(r.Img(), Image(Unlinked(r.h, node, parent, r.h[node].left), r.root), Plug(k, Leaf), node);
    OutsideSafe(r.Img(), Image(Unlinked(r.h, node, parent, NULL), r.root), Plug(k, Leaf), node);
    PrepareStores(r, node, parent);
  }

  function Unlinked(h: Heap, node: Ptr, parent: Ptr, left: Ptr): Heap
    requires node in h
  {
    h[node := RbNode(parent, NULL, left, h[node].aug)]
  }

  method PrepareStores(r: RbRoot, node: Ptr, parent: Ptr)
    requires node in r.h
    modifies r`h, r`seen
    ensures r.h == Unlinked(old(r.h), node, parent, NULL)
    ensures r.seen == old(r.seen) + {Image(Unlinked(old(r.h), node, parent, old(r.h)[node].left), r.root), r.Img()}
  {
    r.h := SetPc(r.h, node, parent);
    r.StoreKid(node, Rgt, NULL);
    assert r.h == Unlinked(old(r.h), node, parent, old(r.h)[node].left);
    r.StoreKid(node, Lft, NULL);
    assert r.h == Unlinked(old(r.h), node, parent, NULL);
  }

  lemma {:induction false} Linked(m: Image, m': Image, node: Ptr, parent: Ptr, s: Side, k: Ctx)
    requires RepZ(m, k, Leaf) && parent == ParentPtr(k, NULL) && (k.Crumb? ==> s == k.s) && PtrIn(m.h, parent)
    requires node != NULL && Aligned(node) && node in m.h && node !in PtrsC(k)
    requires m'.root == if parent == NULL then node else m.root
    requires var h := m.h[node := RbNode(parent, NULL, NULL, m.h[node].aug)];
             m'.h == if parent == NULL then h else SetKid(h, parent, s, node)
    ensures RepZ(m', k, Node(Leaf, node, Red, m.h[node].aug, Leaf))
    ensures m'.h.Keys == m.h.Keys && SameOff(m.h, m'.h, {node, parent} - {NULL})
  {
    assert k.Crumb? ==> k.x in PtrsC(k);
    Refill(m.h, m'.h, k, NULL, NULL, node);
    TopPtrRefill(k, NULL, node);
  }

  lemma {:induction false} LinkedSafe(m: Image, m': Image, k: Ctx, t: Tree)
    requires RepZ(m', k, t) && t.Node? && SameOff(m.h, m'.h, {t.x, ParentPtr(k, NULL)} - {NULL})
    ensures SameOff(m.h, m'.h, Ptrs(Plug(k, t))) && Safe(m', Ptrs(Plug(k, t)))
  {
    PtrsPlug(k, t);
    assert k.Crumb? ==> k.x in PtrsC(k);
    assert t.x in Ptrs(t);
    RepPlug(m', k, t);
    RepSafe(m', Plug(k, t));
  }

  /** Linking a node and rebalancing: for every red-black tree and every empty slot of it, the result is
      a red-black tree whose nodes in order are the old ones with `node` at that slot. With an augmented
      table, and when the caller has updated the insertion path first, the stored values are right afterwards
      exactly when the rule meets the equation of InsertRight at that place. */
  method LinkAndInsert(r: RbRoot, cb: Callbacks, node: Ptr, parent: Ptr, s: Side, ghost k: Ctx) returns (ghost t': Tree)
    requires Rep(r.Img(), Plug(k, Leaf)) && RedBlack(Plug(k, Leaf))
    requires parent == ParentPtr(k, NULL) && (k.Crumb? ==> s == k.s)
    requires node != NULL && Aligned(node) && node in r.h && node !in Ptrs(Plug(k, Leaf))
    modifies r
    ensures Rep(r.Img(), t') && RedBlack(t')
    ensures Inorder(Plug(k, Leaf)) == Before(k) + After(k) && Inorder(t') == Before(k) + [node] + After(k)
    ensures t' == Fixed(cb, k, Node(Leaf, node, Red, old(r.h)[node].aug, Leaf))
    ensures cb.Augmented? && AugOk(cb.compute, Plug(k, Node(Leaf, node, Red, old(r.h)[node].aug, Leaf))) ==>
              (AugOk(cb.compute, t') <==> InsertRight(cb.compute, k, Node(Leaf, node, Red, old(r.h)[node].aug, Leaf)))
    ensures Sound(cb) && AugGood(cb, Plug(k, Node(Leaf, node, Red, old(r.h)[node].aug, Leaf))) ==> AugGood(cb, t')
    ensures r.Wrote(Plug(k, Node(Leaf, node, Red, old(r.h)[node].aug, Leaf)))
    ensures EitherSafe(old(r.seen), r.seen, Ptrs(Plug(k, Leaf)), Ptrs(t'))
  {
    ghost var t := Node(Leaf, node, Red, r.h[node].aug, Leaf);
    assert Inorder(Plug(k, Leaf)) == Before(k) + After(k) by { InorderPlug(k, Leaf); }
    assert Inorder(Plug(k, t)) == Before(k) + [node] + After(k) by { InorderPlug(k, t); }
    assert RepZ(r.Img(), k, Leaf) by { RepPlug(r.Img(), k, Leaf); }
    assert node !in PtrsC(k) by { PtrsPlug(k, Leaf); }
    assert InsertInv(k, t, 0) by { LeafInsertInv(k, node, t.a); }
    LinkNode(r, node, parent, s, k);
    RepPlug(r.Img(), k, t);
    t' := Insert(r, cb, node, k, t, 0);
    if cb.Augmented? && AugOk(cb.compute, Plug(k, t)) { FixedExact(cb.compute, k, t); }
  }
}
