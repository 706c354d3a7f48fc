/**
 rb_erase and rb_erase_augmented (include/linux/rbtree_augmented.h, __rb_erase_augmented): splice a node
 out, propagate the stored values, and rebalance if a black node went missing.
 */
module RbErase {
  import opened RbTreeModel
  import opened RbMemory
  import opened RbRoots
  import opened RbLookup
  import opened RbEraseResult
  import opened RbPropagate
  import RbEraseColor

  /** What the splice hands over: the tree is Plug(k, t); `rebalance` is NULL when it is red-black again,
      and otherwise the parent of the empty place `t` whose paths are one black node short. */
  ghost predicate Spliced(rebalance: Ptr, k: Ctx, t: Tree) {
    if rebalance == NULL then RedBlack(Plug(k, t)) else t.Leaf? && EraseInv(k, t, 0) && rebalance == k.x
  }

  // ---------------------------------------------------------------- no more than one child

  /** `ct` is the only child of `t`, or `t` has none and `ct` is Leaf. */
  predicate OnlyChild(t: Tree, ct: Tree) {
    t.Node? && ((t.l.Leaf? && ct == t.r) || (t.r.Leaf? && ct == t.l))
  }

  /** A lone child is red and its parent black, so giving the child its parent's colour is enough. */
  lemma {:induction false} OnlyChildFits(k: Ctx, t: Tree, ct: Tree, n: nat)
    requires Fits(k, t, n) && OnlyChild(t, ct)
    ensures ct.Node? || t.c.Red? ==> Fits(k, Recolor(ct, t.c), n)
    ensures ct.Leaf? && t.c.Black? && k.Crumb? ==> EraseInv(k, Leaf, 0)
  {
    var below: nat := n - Bit(t.c);
    assert Bal(t.l, below) && Bal(t.r, below);
    assert below == 0;
    if ct.Node? {
      assert Bal(ct, 0) && ct.c.Red? && NoRedRed(ct);
    }
  }

  lemma {:induction false} SpliceRep(m: Image, m': Image, k: Ctx, t: Tree, ct: Tree)
    requires RepZ(m, k, t) && OnlyChild(t, ct)
    requires m'.h.Keys == m.h.Keys && SameOff(m.h, m'.h, {ParentPtr(k, NULL), Root(ct)} - {NULL})
    requires k.Crumb? ==> m'.root == m.root && k.x in m.h && m'.h[k.x] == SetKid(m.h, k.x, k.s, Root(ct))[k.x]
    requires k.Top? ==> m'.root == Root(ct)
    requires ct.Node? ==> ct.x in m.h && m'.h[ct.x] == m.h[ct.x].(pc := Pack(ParentPtr(k, NULL), t.c))
    ensures RepZ(m', k, Recolor(ct, t.c))
  {
    assert Ptrs(ct) <= Ptrs(t) && Uniq(ct) && RepT(m.h, ct, t.x);
    RepRoot(m.h, ct, t.x);
    assert k.Crumb? ==> k.x in PtrsC(k);
    Reparent(m.h, m'.h, ct, t.x, ParentPtr(k, NULL), t.c);
    Refill(m.h, m'.h, k, NULL, t.x, Root(ct));
    TopPtrRefill(k, t.x, Root(ct));
  }

  /** The links of Case 1. */
  method SpliceLinks(r: RbRoot, node: Ptr, child: Ptr, ghost k: Ctx, ghost t: Tree, ghost ct: Tree)
      returns (parent: Ptr, black: bool)
    requires RepZ(r.Img(), k, t) && OnlyChild(t, ct) && node == t.x && child == Root(ct)
    modifies r
    ensures RepZ(r.Img(), k, Recolor(ct, t.c)) && parent == ParentPtr(k, NULL) && (black <==> t.c.Black?)
    ensures (parent == NULL <==> k.Top?) && (child == NULL <==> ct.Leaf?)
    ensures r.OnlyTree(Plug(k, t))
  {
    ghost var m := r.Img();
    assert t.x in Ptrs(t) && RepT(m.h, ct, t.x) && Ptrs(ct) <= Ptrs(t);
    SlotCells(r.h, k, node, t.c);
    RepRoot(r.h, ct, t.x);
    PtrsPlug(k, t);
    var pc := r.h[node].pc;
    parent, black := ParentOf(pc), ColorOf(pc).Black?;
    SpliceStores(r, node, child, parent, pc);
    SpliceRep(m, r.Img(), k, t, ct);
    SpliceLinksSafe(m, r.Img(), k, t, ct);
    SafeAfter(old(r.seen), r.seen, r.Img(), Ptrs(Plug(k, t)));
  }

  method SpliceStores(r: RbRoot, node: Ptr, child: Ptr, parent: Ptr, pc: nat)
    requires PtrIn(r.h, child) && PtrIn(r.h, parent) && (child != NULL ==> child != parent)
    modifies r
    ensures r.h.Keys == old(r.h).Keys && SameOff(old(r.h), r.h, {parent, child} - {NULL})
    ensures child != NULL ==> r.h[child] == old(r.h)[child].(pc := pc)
    ensures parent != NULL ==> r.h[parent] == SetKid(old(r.h), parent, SlotSide(old(r.h), parent, node), child)[parent]
    ensures r.root == if parent == NULL then child else old(r.root)
    ensures old(r.seen) <= r.seen && forall i :: i in r.seen && i !in old(r.seen) ==> SameLinks(r.Img(), i)
  {
    r.ChangeChild(node, child, parent);
    if child != NULL {
      PcLinks(r.h, r.root, child, pc);
      r.h := SetPc(r.h, child, pc);
    }
  }

  /** Nothing leads to the erased node any more, and it still leads to its child. */
  lemma {:induction false} SpliceLinksSafe(m: Image, m': Image, k: Ctx, t: Tree, ct: Tree)
    requires RepZ(m, k, t) && OnlyChild(t, ct) && RepZ(m', k, Recolor(ct, t.c)) && t.x in m'.h && m'.h[t.x] == m.h[t.x]
    ensures Safe(m', Ptrs(Plug(k, t)))
  {
    var u := Recolor(ct, t.c);
    RepPlug(m', k, u);
    RepSafe(m', Plug(k, u));
    PtrsPlug(k, t);
    PtrsPlug(k, u);
    RepRoot(m.h, ct, t.x);
    assert Ptrs(Plug(k, t)) == Ptrs(Plug(k, u)) + {t.x};
    Extend(m', Ptrs(Plug(k, u)), t.x);
  }

  /** Case 1 of __rb_erase_augmented: `child`, NULL or not, takes the place of `node`. */
  method EraseOneChild(r: RbRoot, cb: Callbacks, node: Ptr, child: Ptr, ghost k: Ctx, ghost t: Tree, ghost ct: Tree)
      returns (rebalance: Ptr, ghost k': Ctx)
    requires Rep(r.Img(), Plug(k, t)) && RedBlack(Plug(k, t)) && OnlyChild(t, ct) && node == t.x && child == Root(ct)
    modifies r
    ensures Rep(r.Img(), Plug(k', Recolor(ct, t.c))) && Spliced(rebalance, k', Recolor(ct, t.c))
    ensures Inorder(Plug(k', Recolor(ct, t.c))) == Before(k) + Inorder(ct) + After(k)
    ensures AugGood(cb, Plug(k, t)) ==> AugGood(cb, Plug(k', Recolor(ct, t.c)))
    ensures k' == Settle(cb, k, Val(ct)) && (rebalance != NULL <==> ct.Leaf? && t.c.Black? && k.Crumb?)
    ensures r.OnlyTree(Plug(k, t))
  {
    RepPlug(r.Img(), k, t);
    var parent, black := SpliceLinks(r, node, child, k, t, ct);
    rebalance := if child == NULL && black then parent else NULL;
    ghost var u := Recolor(ct, t.c);
    PropagateUp(r, cb, parent, k, u);
    k' := Settle(cb, k, Val(u));
    OneChildDone(cb, rebalance, k, t, ct);
    assert Spine(k) <= Ptrs(Plug(k, t)) by { SpineInside(k); PtrsPlug(k, t); }
  }

  lemma {:induction false} OneChildDone(cb: Callbacks, rebalance: Ptr, k: Ctx, t: Tree, ct: Tree)
    requires RedBlack(Plug(k, t)) && OnlyChild(t, ct)
    requires rebalance == if ct.Leaf? && t.c.Black? then ParentPtr(k, NULL) else NULL
    requires k.Crumb? ==> k.x != NULL
    ensures var u := Recolor(ct, t.c); var k' := Settle(cb, k, Val(u));
            && Spliced(rebalance, k', u)
            && Inorder(Plug(k', u)) == Before(k) + Inorder(ct) + After(k)
            && (AugGood(cb, Plug(k, t)) ==> AugGood(cb, Plug(k', u)))
  {
    var u := Recolor(ct, t.c);
    var k' := Settle(cb, k, Val(u));
    var n := UnplugRedBlack(k, t);
    OnlyChildFits(k, t, ct, n);
    SettleShape(cb, k, Val(u));
    SameFacts(k, k', NULL, NULL);
    if ct.Node? || t.c.Red? { PlugRedBlack(k', u, n); }
    else if k.Top? { assert Bal(u, 0) && RedBlack(u); }
    InorderPlug(k', u);
    if cb.Augmented? && AugGood(cb, Plug(k, t)) {
      AugPlug(cb.compute, k, t);
      SettleRight(cb.compute, k, Val(u));
      AugPlug(cb.compute, k', u);
    }
  }

  /** propagate(rb, NULL) from the parent of the focus. */
  method PropagateUp(r: RbRoot, cb: Callbacks, rb: Ptr, ghost k: Ctx, ghost t: Tree)
    requires RepZ(r.Img(), k, t) && rb == ParentPtr(k, NULL)
    modifies r`h
    ensures Rep(r.Img(), Plug(Settle(cb, k, Val(t)), t))
    ensures AugWrites(old(r.h), r.h, Spine(k))
  {
    ghost var h0 := r.h;
    RepRoot(r.h, t, ParentPtr(k, NULL));
    NullOutside(r.h, k, NULL, Root(t));
    Propagate(r, cb, rb, NULL, k, Root(t), Val(t));
    ghost var k' := Settle(cb, k, Val(t));
    SettleShape(cb, k, Val(t));
    SameFacts(k, k', Root(t), NULL);
    SpineInside(k);
    FrameT(h0, r.h, t, ParentPtr(k, NULL));
    RepPlug(r.Img(), k', t);
  }

  lemma {:induction false} NullOutside(h: Heap, k: Ctx, base: Ptr, hole: Ptr)
    requires RepC(h, k, base, hole)
    ensures NULL !in PtrsC(k)
  {
    if k.Crumb? {
      NullOutside(h, k.up, base, k.x);
      NullOutsideT(h, k.sib, k.x);
    }
  }

  // ---------------------------------------------------------------- two children

  /** A path that only goes left. */
  predicate AllLeft(k: Ctx) {
    k.Crumb? ==> k.s.Lft? && AllLeft(k.up)
  }

  lemma {:induction false} AllLeftBefore(k: Ctx)
    requires AllLeft(k)
    ensures Before(k) == []
  {
    if k.Crumb? { AllLeftBefore(k.up); }
  }

  lemma {:induction false} TopPtrInside(k: Ctx, hole: Ptr)
    requires k.Crumb?
    ensures TopPtr(k, hole) in PtrsC(k)
  {
    if k.up.Crumb? { TopPtrInside(k.up, k.x); }
  }

  /** Giving the outermost node of a path another parent. */
  lemma {:induction false} Rebase(h: Heap, k: Ctx, b: Ptr, b': Ptr, hole: Ptr)
    requires RepC(h, k, b, hole) && UniqC(k) && k.Crumb? && (b == NULL || Aligned(b))
    ensures TopPtr(k, hole) in h
    ensures RepC(SetPc(h, TopPtr(k, hole), Pack(b', ColorOf(h[TopPtr(k, hole)].pc))), k, b', hole)
  {
    var o := TopPtr(k, hole);
    if k.up.Top? {
      assert TopPtr(k.up, k.x) == k.x;
      PackUnpack(b, k.c);
      FrameT(h, SetPc(h, o, Pack(b', k.c)), k.sib, k.x);
    } else {
      Rebase(h, k.up, b, b', k.x);
      TopPtrInside(k.up, k.x);
      FrameT(h, SetPc(h, o, Pack(b', ColorOf(h[o].pc))), k.sib, k.x);
    }
  }

  /** The successor of the erased node: `path` leads from its right child to the leftmost node `cur`. */
  datatype Successor = Successor(path: Ctx, cur: Tree)

  ghost predicate IsSuccessor(t: Tree, q: Successor) {
    t.Node? && q.cur.Node? && q.cur.l.Leaf? && AllLeft(q.path) && Plug(q.path, q.cur) == t.r
  }

  /** Where the successor is, seen from the whole tree. */
  function Below(k: Ctx, t: Tree, q: Successor): Ctx
    requires t.Node?
  {
    Compose(q.path, Crumb(k, Rgt, t.x, t.c, t.a, t.l))
  }

  lemma {:induction false} BelowPlug(k: Ctx, t: Tree, path: Ctx, cur: Tree)
    requires t.Node? && Plug(path, cur) == t.r
    ensures Plug(Compose(path, Crumb(k, Rgt, t.x, t.c, t.a, t.l)), cur) == Plug(k, t)
  {
    PlugCompose(path, Crumb(k, Rgt, t.x, t.c, t.a, t.l), cur);
  }

  /** The leftmost node of `t`, below `path`. */
  function LeftMost(t: Tree, path: Ctx): (q: Successor)
    requires t.Node?
    ensures q.cur.Node? && q.cur.l.Leaf?
    decreases t
  {
    if t.l.Leaf? then Successor(path, t) else LeftMost(t.l, Crumb(path, Lft, t.x, t.c, t.a, t.r))
  }

  /** The do-while loop of Case 3 (no iteration in Case 2). */
  method FindSuccessor(r: RbRoot, child: Ptr, ghost k: Ctx, ghost t: Tree)
      returns (parent: Ptr, successor: Ptr, ghost q: Successor)
    requires Rep(r.Img(), Plug(k, t)) && t.Node? && t.r.Node? && child == t.r.x
    ensures IsSuccessor(t, q) && successor == q.cur.x && parent == ParentPtr(q.path, successor)
    ensures Inorder(t.r) != [] && successor == Inorder(t.r)[0] && q == LeftMost(t.r, Top)
  {
    successor, parent := child, child;
    ghost var path, cur := Top, t.r;
    ReadLeft(r.Img(), k, t, path, cur);
    var tmp := r.h[successor].left;
    while tmp != NULL
      invariant Plug(path, cur) == t.r && AllLeft(path) && cur.Node? && cur.x == successor && tmp == Root(cur.l)
      invariant (cur.l.Leaf? <==> tmp == NULL) && LeftMost(cur, path) == LeftMost(t.r, Top)
      invariant parent == ParentPtr(path, successor)
      decreases cur
    {
      parent := successor;
      successor := tmp;
      path, cur := Crumb(path, Lft, cur.x, cur.c, cur.a, cur.r), cur.l;
      ReadLeft(r.Img(), k, t, path, cur);
      tmp := r.h[tmp].left;
    }
    q := Successor(path, cur);
    AllLeftBefore(path);
    InorderPlug(path, cur);
  }

  lemma {:induction false} ReadLeft(m: Image, k: Ctx, t: Tree, path: Ctx, cur: Tree)
    requires Rep(m, Plug(k, t)) && t.Node? && Plug(path, cur) == t.r && cur.Node?
    ensures cur.x in m.h && m.h[cur.x].left == Root(cur.l) && (cur.l.Leaf? <==> Root(cur.l) == NULL)
  {
    BelowPlug(k, t, path, cur);
    var kk := Compose(path, Crumb(k, Rgt, t.x, t.c, t.a, t.l));
    RepPlug(m, kk, cur);
    RepRoot(m.h, cur.l, cur.x);
  }

  /** The parts of the tree around a node with two children and its successor. */
  ghost predicate Parts(h: Heap, k: Ctx, t: Tree, q: Successor) {
    && IsSuccessor(t, q) && t.l.Node?
    && t.x in h && t.x != NULL && Aligned(t.x) && h[t.x].pc == Pack(ParentPtr(k, NULL), t.c) && h[t.x].aug == t.a
    && h[t.x].left == t.l.x
    && q.cur.x in h && q.cur.x != NULL && Aligned(q.cur.x)
    && h[q.cur.x] == RbNode(Pack(ParentPtr(q.path, t.x), q.cur.c), Root(q.cur.r), NULL, q.cur.a)
    && RepC(h, k, NULL, t.x) && RepT(h, t.l, t.x) && RepC(h, q.path, t.x, q.cur.x) && RepT(h, q.cur.r, q.cur.x)
  }

  /** They are pairwise disjoint. */
  predicate PartsUniq(k: Ctx, t: Tree, q: Successor)
    requires t.Node? && q.cur.Node?
  {
    && UniqC(k) && Uniq(t.l) && UniqC(q.path) && Uniq(q.cur.r) && t.x != q.cur.x
    && t.x !in PtrsC(k) + Ptrs(t.l) + PtrsC(q.path) + Ptrs(q.cur.r)
    && q.cur.x !in PtrsC(k) + Ptrs(t.l) + PtrsC(q.path) + Ptrs(q.cur.r)
    && PtrsC(k) !! Ptrs(t.l) && PtrsC(k) !! PtrsC(q.path) && PtrsC(k) !! Ptrs(q.cur.r)
    && Ptrs(t.l) !! PtrsC(q.path) && Ptrs(t.l) !! Ptrs(q.cur.r) && PtrsC(q.path) !! Ptrs(q.cur.r)
  }

  lemma {:induction false} TakeApart(m: Image, k: Ctx, t: Tree, q: Successor)
    requires Rep(m, Plug(k, t)) && IsSuccessor(t, q) && t.l.Node?
    ensures Parts(m.h, k, t, q) && PartsUniq(k, t, q)
    ensures Ptrs(Plug(k, t)) == PtrsC(k) + {t.x} + Ptrs(t.l) + PtrsC(q.path) + {q.cur.x} + Ptrs(q.cur.r)
    ensures m.root == TopPtr(k, t.x)
  {
    var base := Crumb(k, Rgt, t.x, t.c, t.a, t.l);
    BelowPlug(k, t, q.path, q.cur);
    RepPlug(m, Below(k, t, q), q.cur);
    ComposeRep(m.h, q.path, base, NULL, q.cur.x);
    ComposeShape(q.path, base, q.cur.x, NULL);
    PtrsPlug(Below(k, t, q), q.cur);
  }

  /** The tree after the splice, before the last propagate: the successor, with the colour and the stored
      value `a` of the erased node, in its place. */
  function Replanted(k: Ctx, t: Tree, q: Successor, path: Ctx, a: Aug): Ctx
    requires t.Node? && q.cur.Node?
  {
    Compose(path, Crumb(k, Rgt, q.cur.x, t.c, a, t.l))
  }

  lemma {:induction false} PutTogether(m: Image, k: Ctx, t: Tree, q: Successor, path: Ctx, a: Aug)
    requires t.Node? && q.cur.Node? && PartsUniq(k, t, q) && SameButAug(q.path, path)
    requires q.cur.x in m.h && q.cur.x != NULL && Aligned(q.cur.x)
    requires m.h[q.cur.x] == RbNode(Pack(ParentPtr(k, NULL), t.c), TopPtr(path, Root(q.cur.r)), Root(t.l), a)
    requires RepC(m.h, k, NULL, q.cur.x) && RepT(m.h, t.l, q.cur.x) && RepC(m.h, path, q.cur.x, Root(q.cur.r))
    requires RepT(m.h, Recolor(q.cur.r, Black), ParentPtr(path, q.cur.x)) && m.root == TopPtr(k, q.cur.x)
    ensures RepZ(m, Replanted(k, t, q, path, a), Recolor(q.cur.r, Black))
  {
    var base := Crumb(k, Rgt, q.cur.x, t.c, a, t.l);
    SameFacts(q.path, path, Root(q.cur.r), q.cur.x);
    ComposeRep(m.h, path, base, NULL, Root(q.cur.r));
    ComposeShape(path, base, Root(q.cur.r), NULL);
  }

  /** The copy callback. */
  method Copy(r: RbRoot, cb: Callbacks, from: Ptr, to: Ptr)
    requires from in r.h && to in r.h
    modifies r`h
    ensures r.h == if cb.Dummy? then old(r.h) else SetAug(old(r.h), to, old(r.h)[from].aug)
    ensures SameLinks(old(r.Img()), r.Img())
    ensures r.h.Keys == old(r.h).Keys && SameOff(old(r.h), r.h, {to})
  {
    if cb.Augmented? { r.h := SetAug(r.h, to, r.h[from].aug); }
  }

  /** The stored value the successor takes over. */
  function Copied(cb: Callbacks, t: Tree, q: Successor): Aug
    requires t.Node? && q.cur.Node?
  {
    if cb.Dummy? then q.cur.a else t.a
  }

  /** The links Case 3 writes before its first propagate. */
  method DetachLinks(r: RbRoot, child: Ptr, parent: Ptr, successor: Ptr, child2: Ptr, ghost k: Ctx, ghost t: Tree,
                     ghost q: Successor)
    requires Parts(r.h, k, t, q) && PartsUniq(k, t, q) && q.path.Crumb?
    requires child == TopPtr(q.path, q.cur.x) && parent == q.path.x && successor == q.cur.x && child2 == Root(q.cur.r)
    modifies r`h, r`seen
    ensures RepC(r.h, q.path, successor, child2)
    ensures r.h.Keys == old(r.h).Keys && r.h[successor] == old(r.h)[successor].(right := child)
    ensures parent in old(r.h)
    ensures DetachSeen(old(r.seen), r.seen, old(r.Img()), r.Img(), parent, successor, child2, child)
    ensures SameOff(old(r.h), r.h, Spine(q.path) + {successor})
  {
    TopPtrSpine(q.path, q.cur.x);
    SpineInside(q.path);
    DetachFrame(r.h, k, t, q);
    DetachStores(r, child, parent, successor, child2);
  }

  method DetachStores(r: RbRoot, child: Ptr, parent: Ptr, successor: Ptr, child2: Ptr)
    requires {child, parent, successor} <= r.h.Keys && parent != successor && successor != child
    modifies r`h, r`seen
    ensures parent in old(r.h)
    ensures DetachSeen(old(r.seen), r.seen, old(r.Img()), r.Img(), parent, successor, child2, child)
    ensures r.h == Detached(old(r.h), child, parent, successor, child2)
  {
    r.StoreKid(parent, Lft, child2);
    r.StoreKid(successor, Rgt, child);
    PcLinks(r.h, r.root, child, Pack(successor, ColorOf(r.h[child].pc)));
    r.h := SetPc(r.h, child, Pack(successor, ColorOf(r.h[child].pc)));
  }

  function Detached(h: Heap, child: Ptr, parent: Ptr, successor: Ptr, child2: Ptr): Heap
    requires {child, parent, successor} <= h.Keys
  {
    SetPc(SetKid(SetKid(h, parent, Lft, child2), successor, Rgt, child), child, Pack(successor, ColorOf(h[child].pc)))
  }

  /** What they do to the path. */
  lemma {:induction false} DetachFrame(h: Heap, k: Ctx, t: Tree, q: Successor)
    requires Parts(h, k, t, q) && PartsUniq(k, t, q) && q.path.Crumb?
    ensures TopPtr(q.path, q.cur.x) in h && q.path.x in h
    ensures RepC(Detached(h, TopPtr(q.path, q.cur.x), q.path.x, q.cur.x, Root(q.cur.r)), q.path, q.cur.x, Root(q.cur.r))
  {
    var child2, child := Root(q.cur.r), TopPtr(q.path, q.cur.x);
    var h1 := SetKid(h, q.path.x, Lft, child2);
    var h2 := SetKid(h1, q.cur.x, Rgt, child);
    assert q.path.x in PtrsC(q.path);
    Refill(h, h1, q.path, t.x, q.cur.x, child2);
    FrameC(h1, h2, q.path, t.x, child2);
    TopPtrRefill(q.path, q.cur.x, child2);
    Rebase(h2, q.path, t.x, q.cur.x, child2);
  }

  lemma {:induction false} TopPtrSpine(k: Ctx, hole: Ptr)
    requires k.Crumb?
    ensures TopPtr(k, hole) in Spine(k)
  {
    if k.up.Crumb? { TopPtrSpine(k.up, k.x); } else { assert TopPtr(k.up, k.x) == k.x; }
  }

  /** The child pointers, the parent of `child`, the copy and the first propagate of Case 3. */
  method DetachFar(r: RbRoot, cb: Callbacks, node: Ptr, child: Ptr, parent: Ptr, successor: Ptr, child2: Ptr,
                   ghost k: Ctx, ghost t: Tree, ghost q: Successor)
    requires Parts(r.h, k, t, q) && PartsUniq(k, t, q) && q.path.Crumb?
    requires node == t.x && child == TopPtr(q.path, q.cur.x) && parent == q.path.x
    requires successor == q.cur.x && child2 == Root(q.cur.r)
    modifies r`h, r`seen
    ensures parent in old(r.h)
    ensures DetachSeen(old(r.seen), r.seen, old(r.Img()), r.Img(), parent, successor, child2, child)
    ensures RepC(r.h, Settle(cb, q.path, Val(q.cur.r)), successor, child2)
    ensures r.h.Keys == old(r.h).Keys
    ensures r.h[successor] == old(r.h)[successor].(right := child, aug := Copied(cb, t, q))
    ensures SameOff(old(r.h), r.h, Spine(q.path) + {successor})
  {
    DetachCopy(r, cb, node, child, parent, successor, child2, k, t, q);
    assert successor !in PtrsC(q.path) && child2 !in PtrsC(q.path) by { NullOutside(r.h, q.path, successor, child2); }
    Propagate(r, cb, parent, successor, q.path, child2, Val(q.cur.r));
    assert successor !in Spine(q.path) by { SpineInside(q.path); }
  }

  /** The same up to the first propagate. */
  method DetachCopy(r: RbRoot, cb: Callbacks, node: Ptr, child: Ptr, parent: Ptr, successor: Ptr, child2: Ptr,
                    ghost k: Ctx, ghost t: Tree, ghost q: Successor)
    requires Parts(r.h, k, t, q) && PartsUniq(k, t, q) && q.path.Crumb?
    requires node == t.x && child == TopPtr(q.path, q.cur.x) && parent == q.path.x
    requires successor == q.cur.x && child2 == Root(q.cur.r)
    modifies r`h, r`seen
    ensures parent in old(r.h)
    ensures DetachSeen(old(r.seen), r.seen, old(r.Img()), r.Img(), parent, successor, child2, child)
    ensures RepC(r.h, q.path, successor, child2) && r.h.Keys == old(r.h).Keys
    ensures r.h[successor] == old(r.h)[successor].(right := child, aug := Copied(cb, t, q))
    ensures SameOff(old(r.h), r.h, Spine(q.path) + {successor})
    ensures PtrIn(r.h, child2) && ValAt(r.h, child2) == Val(q.cur.r)
  {
    assert node !in Spine(q.path) by { SpineInside(q.path); }
    DetachLinks(r, child, parent, successor, child2, k, t, q);
    ghost var h1 := r.h;
    ghost var m1 := r.Img();
    Copy(r, cb, node, successor);
    DetachLater(old(r.seen), r.seen, old(r.Img()), m1, r.Img(), parent, successor, child2, child);
    CopyFrames(old(r.h), h1, r.h, k, t, q);
  }

  /** Neither the stores nor the copy touch what hangs below the successor. */
  lemma {:induction false} CopyFrames(h: Heap, h1: Heap, h2: Heap, k: Ctx, t: Tree, q: Successor)
    requires Parts(h, k, t, q) && PartsUniq(k, t, q) && SameOff(h, h1, Spine(q.path) + {q.cur.x})
    requires RepC(h1, q.path, q.cur.x, Root(q.cur.r)) && SameOff(h1, h2, {q.cur.x})
    ensures RepC(h2, q.path, q.cur.x, Root(q.cur.r))
    ensures PtrIn(h2, Root(q.cur.r)) && ValAt(h2, Root(q.cur.r)) == Val(q.cur.r)
  {
    SpineInside(q.path);
    FrameC(h1, h2, q.path, q.cur.x, Root(q.cur.r));
    FrameT(h, h2, q.cur.r, q.cur.x);
    RepRoot(h2, q.cur.r, q.cur.x);
  }

  /** Cases 2 and 3 up to the first propagate: the successor leaves its place below `parent`. */
  method Detach(r: RbRoot, cb: Callbacks, node: Ptr, child: Ptr, parent: Ptr, successor: Ptr, child2: Ptr,
                ghost k: Ctx, ghost t: Tree, ghost q: Successor)
    requires Parts(r.h, k, t, q) && PartsUniq(k, t, q)
    requires node == t.x && child == TopPtr(q.path, q.cur.x) && parent == ParentPtr(q.path, q.cur.x)
    requires successor == q.cur.x && child2 == Root(q.cur.r)
    modifies r`h, r`seen
    ensures parent in old(r.h)
    ensures DetachSeen(old(r.seen), r.seen, old(r.Img()), r.Img(), parent, successor, child2, child)
    ensures var path := Settle(cb, q.path, Val(q.cur.r));
            && RepC(r.h, path, successor, child2)
            && r.h.Keys == old(r.h).Keys
            && r.h[successor] == RbNode(old(r.h)[successor].pc, TopPtr(path, child2), NULL, Copied(cb, t, q))
    ensures SameOff(old(r.h), r.h, Spine(q.path) + {successor})
  {
    SettleShape(cb, q.path, Val(q.cur.r));
    SameFacts(q.path, Settle(cb, q.path, Val(q.cur.r)), child2, NULL);
    TopPtrRefill(q.path, q.cur.x, child2);
    if parent == successor {
      assert q.path.Top?;
      Copy(r, cb, node, successor);
    } else {
      DetachFar(r, cb, node, child, parent, successor, child2, k, t, q);
    }
  }

  /** Memory `m'` is `m` after the last writes of Cases 2 and 3. */
  ghost predicate ReplantWrites(m: Image, m': Image, k: Ctx, t: Tree, q: Successor, path: Ctx, a: Aug)
    requires t.Node? && t.l.Node? && q.cur.Node?
  {
    var s, c2, p := q.cur.x, Root(q.cur.r), ParentPtr(k, NULL);
    && {s, t.l.x} <= m.h.Keys && PtrIn(m.h, c2) && PtrIn(m.h, p)
    && m'.h.Keys == m.h.Keys && SameOff(m.h, m'.h, {s, t.l.x, c2, p} - {NULL})
    && m'.h[s] == RbNode(Pack(p, t.c), TopPtr(path, c2), t.l.x, a)
    && m'.h[t.l.x] == m.h[t.l.x].(pc := Pack(s, t.l.c))
    && (c2 != NULL ==> m'.h[c2] == m.h[c2].(pc := Pack(ParentPtr(q.path, s), Black)))
    && (if k.Top? then m'.root == s else m'.root == m.root && p != NULL && m'.h[p] == SetKid(m.h, p, k.s, s)[p])
  }

  method ReplantLinks(r: RbRoot, node: Ptr, parent: Ptr, successor: Ptr, child2: Ptr,
                      ghost k: Ctx, ghost t: Tree, ghost q: Successor, ghost path: Ctx,
                          ghost a: Aug) returns (black: bool)
    requires t.Node? && t.l.Node? && q.cur.Node? && PartsUniq(k, t, q) && (q.path.Crumb? ==> Aligned(q.path.x))
    requires node == t.x && parent == ParentPtr(q.path, q.cur.x) && successor == q.cur.x && child2 == Root(q.cur.r)
    requires RepC(r.h, k, NULL, node) && RepT(r.h, t.l, node) && RepT(r.h, q.cur.r, successor)
    requires node in r.h && node != NULL && r.h[node].pc == Pack(ParentPtr(k, NULL), t.c) && r.h[node].left == t.l.x
    requires Aligned(node) && successor in r.h && successor != NULL && Aligned(successor)
    requires r.h[successor] == RbNode(Pack(ParentPtr(q.path, node), q.cur.c), TopPtr(path, child2), NULL, a)
    modifies r
    ensures ReplantWrites(old(r.Img()), r.Img(), k, t, q, path, a)
    ensures ReplantSeen(old(r.seen), r.seen, old(r.Img()), r.Img(), successor, t.l.x)
    ensures black <==> q.cur.c.Black?
  {
    RepRoot(r.h, t.l, node);
    RepRoot(r.h, q.cur.r, successor);
    SlotCells(r.h, k, node, t.c);
    PackUnpack(node, t.l.c);
    PackUnpack(ParentPtr(q.path, node), q.cur.c);
    assert k.Crumb? ==> k.x in PtrsC(k);
    black := ReplantStores(r, node, parent, successor, child2, t.l.x, ParentPtr(k, NULL),
        if k.Crumb? then k.s else Lft);
  }

  /** The stores themselves; `left` is the left child of `node`, which hangs on side `q` of `p`. */
  method ReplantStores(r: RbRoot, node: Ptr, parent: Ptr, successor: Ptr, child2: Ptr, ghost left: Ptr, ghost p: Ptr,
                       ghost q: Side)
      returns (black: bool)
    requires node in r.h && successor in r.h && left in r.h && PtrIn(r.h, child2) && PtrIn(r.h, p)
    requires successor != NULL && left != NULL && node !in {successor, left, child2, p}
    requires successor !in {left, child2, p}
    requires left != child2 && left != p && (child2 != NULL ==> child2 != p)
    requires r.h[node].left == left && ParentOf(r.h[node].pc) == p && (p != NULL ==> SlotSide(r.h, p, node) == q)
    modifies r
    ensures r.h.Keys == old(r.h).Keys && SameOff(old(r.h), r.h, {successor, left, child2, p} - {NULL})
    ensures r.h[successor] == old(r.h)[successor].(pc := old(r.h)[node].pc, left := left)
    ensures r.h[left] == old(r.h)[left].(pc := Pack(successor, ColorOf(old(r.h)[left].pc)))
    ensures child2 != NULL ==> r.h[child2] == old(r.h)[child2].(pc := Pack(parent, Black))
    ensures r.root == if p == NULL then successor else old(r.root)
    ensures p != NULL ==> r.h[p] == SetKid(old(r.h), p, q, successor)[p]
    ensures black <==> ColorOf(old(r.h)[successor].pc).Black?
    ensures ReplantSeen(old(r.seen), r.seen, old(r.Img()), r.Img(), successor, left)
  {
    var tmp := r.h[node].left;
    r.StoreKid(successor, Lft, tmp);
    r.h := SetPc(r.h, tmp, Pack(successor, ColorOf(r.h[tmp].pc)));
    var pc := r.h[node].pc;
    r.ChangeChild(node, successor, ParentOf(pc));
    black := ColorOf(r.h[successor].pc).Black?;
    ReplantWords(r, parent, successor, child2, pc);
  }

  /** The parent words behind them. */
  method ReplantWords(r: RbRoot, parent: Ptr, successor: Ptr, child2: Ptr, pc: nat)
    requires successor in r.h && successor != NULL && PtrIn(r.h, child2) && successor != child2
    modifies r`h
    ensures r.h.Keys == old(r.h).Keys && SameOff(old(r.h), r.h, {successor, child2} - {NULL})
    ensures r.h[successor] == old(r.h)[successor].(pc := pc)
    ensures child2 != NULL ==> r.h[child2] == old(r.h)[child2].(pc := Pack(parent, Black))
    ensures SameLinks(r.Img(), old(r.Img()))
  {
    r.h := SetPc(r.h, successor, pc);
    if child2 != NULL {
      r.h := SetPc(r.h, child2, Pack(parent, Black));
    }
  }

  lemma {:induction false} ReplantFrames(m: Image, m': Image, k: Ctx, t: Tree, q: Successor, path: Ctx, a: Aug)
    requires t.Node? && t.l.Node? && q.cur.Node? && PartsUniq(k, t, q) && SameButAug(q.path, path)
    requires ReplantWrites(m, m', k, t, q, path, a)
    requires RepC(m.h, k, NULL, t.x) && RepT(m.h, t.l, t.x) && RepT(m.h, q.cur.r, q.cur.x)
    requires RepC(m.h, path, q.cur.x, Root(q.cur.r))
    ensures RepC(m'.h, k, NULL, q.cur.x) && RepT(m'.h, t.l, q.cur.x) && RepC(m'.h, path, q.cur.x, Root(q.cur.r))
    ensures RepT(m'.h, Recolor(q.cur.r, Black), ParentPtr(path, q.cur.x))
  {
    SameFacts(q.path, path, NULL, q.cur.x);
    RepRoot(m.h, t.l, t.x);
    RepRoot(m.h, q.cur.r, q.cur.x);
    assert k.Crumb? ==> k.x in PtrsC(k);
    Refill(m.h, m'.h, k, NULL, t.x, q.cur.x);
    Reparent(m.h, m'.h, t.l, t.x, q.cur.x, t.l.c);
    Reparent(m.h, m'.h, q.cur.r, q.cur.x, ParentPtr(path, q.cur.x), Black);
    FrameC(m.h, m'.h, path, q.cur.x, Root(q.cur.r));
  }

  /** The rest of Cases 2 and 3: the successor takes the place, the colour and the left subtree of `node`,
      and what it left behind turns black. */
  method Replant(r: RbRoot, node: Ptr, parent: Ptr, successor: Ptr, child2: Ptr, ghost h0: Heap,
                 ghost k: Ctx, ghost t: Tree, ghost q: Successor, ghost path: Ctx, ghost a: Aug) returns (black: bool)
    requires Parts(h0, k, t, q) && PartsUniq(k, t, q) && SameButAug(q.path, path) && r.root == TopPtr(k, t.x)
    requires r.h.Keys == h0.Keys && SameOff(h0, r.h, Spine(q.path) + {successor})
    requires node == t.x && parent == ParentPtr(q.path, q.cur.x) && successor == q.cur.x && child2 == Root(q.cur.r)
    requires RepC(r.h, path, successor, child2)
    requires r.h[successor] == RbNode(h0[successor].pc, TopPtr(path, child2), NULL, a)
    modifies r
    ensures RepZ(r.Img(), Replanted(k, t, q, path, a), Recolor(q.cur.r, Black))
    ensures black <==> q.cur.c.Black?
    ensures ReplantSeen(old(r.seen), r.seen, old(r.Img()), r.Img(), successor, t.l.x)
    ensures r.h.Keys == old(r.h).Keys && SameOff(old(r.h), r.h, PtrsC(k) + Ptrs(t.l) + {successor} + Ptrs(q.cur.r))
  {
    ghost var m1 := r.Img();
    ghost var h1 := r.h;
    SpineInside(q.path);
    assert RepC(h1, k, NULL, node) by { FrameC(h0, h1, k, NULL, node); }
    assert RepT(h1, t.l, node) by { FrameT(h0, h1, t.l, node); }
    assert RepT(h1, q.cur.r, successor) by { FrameT(h0, h1, q.cur.r, successor); }
    assert h1[node] == h0[node];
    black := ReplantLinks(r, node, parent, successor, child2, k, t, q, path, a);
    ReplantFrames(m1, r.Img(), k, t, q, path, a);
    TopPtrRefill(k, node, successor);
    PutTogether(r.Img(), k, t, q, path, a);
  }

  /** Equal sides, colours and siblings; addresses and stored values may differ. */
  predicate SameColors(k: Ctx, k': Ctx) {
    if k.Top? then k'.Top? else k'.Crumb? && k'.s == k.s && k'.c == k.c && k'.sib == k.sib && SameColors(k.up, k'.up)
  }

  lemma {:induction false} SameColorsFits(k: Ctx, k': Ctx, t: Tree, n: nat)
    requires SameColors(k, k')
    ensures NoRedRedC(k') <==> NoRedRedC(k)
    ensures BalC(k', n) <==> BalC(k, n)
    ensures AcceptsRed(k') <==> AcceptsRed(k)
  {
    if k.Crumb? { SameColorsFits(k.up, k'.up, t, n + Bit(k.c)); }
  }

  lemma {:induction false} SameColorsCompose(k: Ctx, k': Ctx, b: Ctx, b': Ctx)
    requires SameButAug(k, k') && SameColors(b, b')
    ensures SameColors(Compose(k, b), Compose(k', b'))
  {
    if k.Crumb? { SameColorsCompose(k.up, k'.up, b, b'); }
  }

  lemma {:induction false} SameButAugColors(k: Ctx, k': Ctx)
    requires SameButAug(k, k')
    ensures SameColors(k, k')
  {
    if k.Crumb? { SameButAugColors(k.up, k'.up); }
  }

  // The outcome of the splice when the node has two children.

  function NewPath(cb: Callbacks, q: Successor): Ctx
    requires q.cur.Node?
  {
    Settle(cb, q.path, Val(q.cur.r))
  }

  function NewRight(cb: Callbacks, q: Successor): Tree
    requires q.cur.Node?
  {
    Plug(NewPath(cb, q), Recolor(q.cur.r, Black))
  }

  function Base(cb: Callbacks, k: Ctx, t: Tree, q: Successor): Ctx
    requires t.Node? && q.cur.Node?
  {
    Crumb(k, Rgt, q.cur.x, t.c, Copied(cb, t, q), t.l)
  }

  function NewBase(cb: Callbacks, k: Ctx, t: Tree, q: Successor): Ctx
    requires t.Node? && q.cur.Node?
  {
    Settle(cb, Base(cb, k, t, q), Val(NewRight(cb, q)))
  }

  lemma {:induction false} TwoChildrenColors(cb: Callbacks, rebalance: Ptr, k: Ctx, t: Tree, q: Successor)
    requires RedBlack(Plug(k, t)) && IsSuccessor(t, q)
    requires q.cur.x != NULL && (q.path.Crumb? ==> q.path.x != NULL)
    requires rebalance == if q.cur.r.Leaf? && q.cur.c.Black? then ParentPtr(q.path, q.cur.x) else NULL
    ensures Spliced(rebalance, Compose(NewPath(cb, q), NewBase(cb, k, t, q)), Recolor(q.cur.r, Black))
  {
    var kb, c2 := Below(k, t, q), q.cur.r;
    var k' := Compose(NewPath(cb, q), NewBase(cb, k, t, q));
    BelowPlug(k, t, q.path, q.cur);
    var n := UnplugRedBlack(kb, q.cur);
    OnlyChildFits(kb, q.cur, c2, n);
    SettleShape(cb, q.path, Val(c2));
    SettleShape(cb, Base(cb, k, t, q), Val(NewRight(cb, q)));
    SameFacts(Base(cb, k, t, q), NewBase(cb, k, t, q), NULL, NULL);
    SameFacts(q.path, NewPath(cb, q), NULL, q.cur.x);
    SameButAugColors(Base(cb, k, t, q), NewBase(cb, k, t, q));
    SameButAugColors(k, k) by { SameRefl(k); }
    SameColorsTrans(k, t, q, cb);
    SameColorsCompose(q.path, NewPath(cb, q), Crumb(k, Rgt, t.x, t.c, t.a, t.l), NewBase(cb, k, t, q));
    SameColorsFits(kb, k', Leaf, n);
    SameColorsFits(kb, k', Leaf, 1);
    ComposeShape(NewPath(cb, q), NewBase(cb, k, t, q), NULL, NULL);
    if c2.Node? || q.cur.c.Red? {
      PlugRedBlack(k', Recolor(c2, Black), n);
    }
  }

  lemma {:induction false} SameColorsTrans(k: Ctx, t: Tree, q: Successor, cb: Callbacks)
    requires t.Node? && q.cur.Node? && SameColors(Base(cb, k, t, q), NewBase(cb, k, t, q))
    ensures SameColors(Crumb(k, Rgt, t.x, t.c, t.a, t.l), NewBase(cb, k, t, q))
  {
  }

  lemma {:induction false} TwoChildrenOrder(cb: Callbacks, k: Ctx, t: Tree, q: Successor)
    requires IsSuccessor(t, q)
    ensures Inorder(Plug(NewBase(cb, k, t, q), NewRight(cb, q))) == Before(k) + Inorder(t.l) + Inorder(t.r) + After(k)
  {
    var s, u, base, base', path := q.cur.x, Recolor(q.cur.r, Black), Base(cb, k, t, q), NewBase(cb, k, t, q),
        NewPath(cb, q);
    SettleShape(cb, q.path, Val(q.cur.r));
    SettleShape(cb, base, Val(NewRight(cb, q)));
    SameFacts(base, base', NULL, NULL);
    SameFacts(q.path, path, NULL, NULL);
    AllLeftBefore(q.path);
    var c2, ap, bk, l, ak := Inorder(q.cur.r), After(q.path), Before(k), Inorder(t.l), After(k);
    assert Inorder(t.r) == [s] + c2 + ap by {
      InorderPlug(q.path, q.cur);
      assert Inorder(q.cur) == [] + [s] + c2;
    }
    assert Inorder(NewRight(cb, q)) == c2 + ap by {
      InorderPlug(path, u);
      assert Inorder(u) == c2;
    }
    assert Before(base') == bk + l + [s] && After(base') == ak;
    InorderPlug(base', NewRight(cb, q));
    Reassociate(bk, l, s, c2, ap, ak);
  }

  lemma Reassociate(a: seq<Ptr>, b: seq<Ptr>, s: Ptr, c: seq<Ptr>, d: seq<Ptr>, e: seq<Ptr>)
    ensures (a + b + [s]) + (c + d) + e == a + b + ([s] + c + d) + e
  {
  }

  lemma {:induction false} TwoChildrenAug(f: Rule, k: Ctx, t: Tree, q: Successor)
    requires IsSuccessor(t, q) && AugOk(f, Plug(k, t))
    ensures AugOk(f, Plug(NewBase(Augmented(f), k, t, q), NewRight(Augmented(f), q)))
  {
    var cb := Augmented(f);
    var u, base := Recolor(q.cur.r, Black), Base(cb, k, t, q);
    AugPlug(f, k, t);
    AugPlug(f, q.path, q.cur);
    SettleRight(f, q.path, Val(u));
    AugPlug(f, NewPath(cb, q), u);
    SettleRight(f, base, Val(NewRight(cb, q)));
    AugPlug(f, NewBase(cb, k, t, q), NewRight(cb, q));
  }

  /** The pointer work of Cases 2 and 3 and the two propagates. */
  method SpliceSuccessor(r: RbRoot, cb: Callbacks, node: Ptr, child: Ptr, ghost k: Ctx, ghost t: Tree)
      returns (rebalance: Ptr, ghost q: Successor)
    requires Rep(r.Img(), Plug(k, t)) && t.Node? && t.l.Node? && t.r.Node? && node == t.x && child == t.r.x
    modifies r
    ensures IsSuccessor(t, q) && q.cur.x != NULL && (q.path.Crumb? ==> q.path.x != NULL)
    ensures Rep(r.Img(), Plug(NewBase(cb, k, t, q), NewRight(cb, q)))
    ensures rebalance == if q.cur.r.Leaf? && q.cur.c.Black? then ParentPtr(q.path, q.cur.x) else NULL
    ensures q == LeftMost(t.r, Top)
    ensures r.OnlyTree(Plug(k, t))
  {
    var parent, successor;
    parent, successor, q := FindSuccessor(r, child, k, t);
    assert child == TopPtr(q.path, q.cur.x) by { RootOfPlug(q.path, q.cur); }
    rebalance := MoveSuccessor(r, cb, node, child, parent, successor, k, t, q);
    FinishSuccessor(r, cb, successor, k, t, q);
    assert Spine(Base(cb, k, t, q)) <= Ptrs(Plug(k, t)) by { SpineInside(k); }
  }

  /** Cases 2 and 3 up to the last propagate. */
  method MoveSuccessor(r: RbRoot, cb: Callbacks, node: Ptr, child: Ptr, parent: Ptr, successor: Ptr,
                       ghost k: Ctx, ghost t: Tree, ghost q: Successor) returns (rebalance: Ptr)
    requires Rep(r.Img(), Plug(k, t)) && IsSuccessor(t, q) && t.l.Node? && node == t.x
    requires child == TopPtr(q.path, q.cur.x)
    requires successor == q.cur.x && parent == ParentPtr(q.path, successor)
    modifies r
    ensures RepZ(r.Img(), Replanted(k, t, q, NewPath(cb, q), Copied(cb, t, q)), Recolor(q.cur.r, Black))
    ensures q.cur.x != NULL && (q.path.Crumb? ==> q.path.x != NULL)
    ensures rebalance == if q.cur.r.Leaf? && q.cur.c.Black? then ParentPtr(q.path, q.cur.x) else NULL
    ensures r.OnlyTree(Plug(k, t)) && PtrsC(k) <= Ptrs(Plug(k, t)) && successor in Ptrs(Plug(k, t))
  {
    ghost var m0 := r.Img();
    TakeApart(m0, k, t, q);
    RepRoot(m0.h, q.cur.r, successor);
    var child2 := r.h[successor].right;
    ghost var m1, seen1;
    var black;
    black, m1, seen1 := MoveLinks(r, cb, node, child, parent, successor, child2, k, t, q);
    rebalance := if child2 == NULL && black then parent else NULL;
    assert SameButAug(q.path, NewPath(cb, q)) by { SettleShape(cb, q.path, Val(q.cur.r)); }
    MoveSafe(old(r.seen), seen1, r.seen, m0, m1, r.Img(), k, t, q, NewPath(cb, q), Copied(cb, t, q));
  }

  /** The writes; `m1` is the memory, and `seen1` what was seen, behind the first propagate. */
  method MoveLinks(r: RbRoot, cb: Callbacks, node: Ptr, child: Ptr, parent: Ptr, successor: Ptr, child2: Ptr,
                   ghost k: Ctx, ghost t: Tree, ghost q: Successor)
      returns (black: bool, ghost m1: Image, ghost seen1: set<Image>)
    requires Parts(r.h, k, t, q) && PartsUniq(k, t, q) && r.root == TopPtr(k, t.x)
    requires node == t.x && child == TopPtr(q.path, q.cur.x) && parent == ParentPtr(q.path, q.cur.x)
    requires successor == q.cur.x && child2 == Root(q.cur.r)
    modifies r
    ensures RepZ(r.Img(), Replanted(k, t, q, NewPath(cb, q), Copied(cb, t, q)), Recolor(q.cur.r, Black))
    ensures (black <==> q.cur.c.Black?) && r.h.Keys == old(r.h).Keys && r.h[node] == old(r.h)[node]
    ensures SameOff(old(r.h), r.h, PtrsC(k) + Ptrs(t.l) + PtrsC(q.path) + {successor} + Ptrs(q.cur.r))
    ensures parent in old(r.h) && successor in m1.h
    ensures DetachSeen(old(r.seen), seen1, old(r.Img()), m1, parent, successor, child2, child)
    ensures ReplantSeen(seen1, r.seen, m1, r.Img(), successor, t.l.x)
  {
    ghost var h0 := r.h;
    SettleShape(cb, q.path, Val(q.cur.r));
    SpineInside(q.path);
    Detach(r, cb, node, child, parent, successor, child2, k, t, q);
    m1, seen1 := r.Img(), r.seen;
    black := Replant(r, node, parent, successor, child2, h0, k, t, q, NewPath(cb, q), Copied(cb, t, q));
  }

  lemma {:induction false} MoveSafe(seen0: set<Image>, seen1: set<Image>, seen2: set<Image>, m0: Image, m1: Image,
                                    m2: Image, k: Ctx, t: Tree, q: Successor, path: Ctx, a: Aug)
    requires Rep(m0, Plug(k, t)) && IsSuccessor(t, q) && t.l.Node? && SameButAug(q.path, path)
    requires RepZ(m2, Replanted(k, t, q, path, a), Recolor(q.cur.r, Black))
    requires t.x in m0.h && t.x in m2.h && m2.h[t.x] == m0.h[t.x] && q.cur.x in m1.h
    requires {ParentPtr(q.path, q.cur.x), q.cur.x} <= m0.h.Keys
    requires DetachSeen(seen0, seen1, m0, m1, ParentPtr(q.path, q.cur.x), q.cur.x, Root(q.cur.r),
                        TopPtr(q.path, q.cur.x))
    requires ReplantSeen(seen1, seen2, m1, m2, q.cur.x, t.l.x)
    ensures AllSafe(seen0, seen2, Ptrs(Plug(k, t)))
  {
    SuccessorAround(m0, k, t, q);
    ReplantedSafe(m0, m2, k, t, q, path, a);
    SpliceSafe(seen0, seen1, seen2, m0, m1, m2, Plug(k, t), t.x, ParentPtr(q.path, q.cur.x), q.cur.x);
  }

  lemma {:induction false} SuccessorAround(m: Image, k: Ctx, t: Tree, q: Successor)
    requires Rep(m, Plug(k, t)) && IsSuccessor(t, q) && t.l.Node?
    ensures Around(m, Plug(k, t), t.x, ParentPtr(q.path, q.cur.x), q.cur.x)
    ensures m.h[q.cur.x].right == Root(q.cur.r) && m.h[t.x].left == t.l.x
    ensures m.h[t.x].right == TopPtr(q.path, q.cur.x)
  {
    TakeApart(m, k, t, q);
    RepPlug(m, k, t);
    RootOfPlug(q.path, q.cur);
    RepRoot(m.h, t.l, t.x);
    if q.path.Crumb? {
      RepRoot(m.h, q.path.sib, q.path.x);
      assert q.path.x in PtrsC(q.path) && Ptrs(q.path.sib) <= PtrsC(q.path);
    }
  }

  /** Nothing leads to the erased node any more, and it still leads to its old children. */
  lemma {:induction false} ReplantedSafe(m0: Image, m: Image, k: Ctx, t: Tree, q: Successor, path: Ctx, a: Aug)
    requires Rep(m0, Plug(k, t)) && IsSuccessor(t, q) && t.l.Node? && SameButAug(q.path, path)
    requires RepZ(m, Replanted(k, t, q, path, a), Recolor(q.cur.r, Black))
    requires t.x in m0.h && t.x in m.h && m.h[t.x] == m0.h[t.x]
    ensures Safe(m, Ptrs(Plug(k, t)))
  {
    var kk, u := Replanted(k, t, q, path, a), Recolor(q.cur.r, Black);
    RepPlug(m, kk, u);
    RepSafe(m, Plug(kk, u));
    assert Ptrs(Plug(k, t)) == Ptrs(Plug(kk, u)) + {t.x} && t.x !in Ptrs(Plug(kk, u)) by {
      ReplantedPtrs(m0, k, t, q, path, a);
    }
    ChildrenInside(m0, k, t, q);
    SuccessorAround(m0, k, t, q);
    Extend(m, Ptrs(Plug(kk, u)), t.x);
  }

  lemma {:induction false} ReplantedPtrs(m: Image, k: Ctx, t: Tree, q: Successor, path: Ctx, a: Aug)
    requires Rep(m, Plug(k, t)) && IsSuccessor(t, q) && t.l.Node? && SameButAug(q.path, path)
    ensures var xs := Ptrs(Plug(Replanted(k, t, q, path, a), Recolor(q.cur.r, Black)));
            Ptrs(Plug(k, t)) == xs + {t.x} && t.x !in xs
  {
    var base, u := Crumb(k, Rgt, q.cur.x, t.c, a, t.l), Recolor(q.cur.r, Black);
    assert Ptrs(Plug(Compose(path, base), u)) == PtrsC(q.path) + PtrsC(base) + Ptrs(u) by {
      SameFacts(q.path, path, NULL, NULL);
      ComposeShape(path, base, NULL, NULL);
      PtrsPlug(Compose(path, base), u);
    }
    assert PtrsC(base) == {q.cur.x} + Ptrs(t.l) + PtrsC(k) && Ptrs(u) == Ptrs(q.cur.r);
    TakeApart(m, k, t, q);
  }

  lemma {:induction false} ChildrenInside(m: Image, k: Ctx, t: Tree, q: Successor)
    requires Rep(m, Plug(k, t)) && IsSuccessor(t, q) && t.l.Node?
    ensures {t.l.x, TopPtr(q.path, q.cur.x)} <= Ptrs(Plug(k, t)) - {t.x}
  {
    TakeApart(m, k, t, q);
    if q.path.Crumb? { TopPtrInside(q.path, q.cur.x); }
  }

  lemma {:induction false} RootOfPlug(k: Ctx, t: Tree)
    ensures Root(Plug(k, t)) == TopPtr(k, Root(t))
    decreases k
  {
    if k.Crumb? { RootOfPlug(k.up, Mk(k.s, t, k.x, k.c, k.a, k.sib)); }
  }

  /** propagate(successor, NULL) */
  method FinishSuccessor(r: RbRoot, cb: Callbacks, successor: Ptr, ghost k: Ctx, ghost t: Tree, ghost q: Successor)
    requires t.Node? && q.cur.Node? && successor == q.cur.x
    requires RepZ(r.Img(), Replanted(k, t, q, NewPath(cb, q), Copied(cb, t, q)), Recolor(q.cur.r, Black))
    modifies r`h
    ensures Rep(r.Img(), Plug(NewBase(cb, k, t, q), NewRight(cb, q)))
    ensures AugWrites(old(r.h), r.h, Spine(Base(cb, k, t, q)))
  {
    ghost var u := Recolor(q.cur.r, Black);
    RepPlug(r.Img(), Compose(NewPath(cb, q), Base(cb, k, t, q)), u);
    PlugCompose(NewPath(cb, q), Base(cb, k, t, q), u);
    RepPlug(r.Img(), Base(cb, k, t, q), NewRight(cb, q));
    PropagateUp(r, cb, successor, Base(cb, k, t, q), NewRight(cb, q));
  }

  // ---------------------------------------------------------------- entry points

  /** `s` with `x` left out. */
  function Without(s: seq<Ptr>, x: Ptr): seq<Ptr> {
    if s == [] then [] else if s[0] == x then Without(s[1..], x) else [s[0]] + Without(s[1..], x)
  }

  lemma {:induction false} WithoutAppend(a: seq<Ptr>, b: seq<Ptr>, x: Ptr)
    ensures Without(a + b, x) == Without(a, x) + Without(b, x)
  {
    if a == [] {
      assert a + b == b;
    } else {
      assert (a + b)[0] == a[0] && (a + b)[1..] == a[1..] + b;
      WithoutAppend(a[1..], b, x);
      assert Without(a + b, x) == if a[0] == x then Without(a[1..] + b, x) else [a[0]] + Without(a[1..] + b, x);
      if a[0] != x {
        var wa, wb := Without(a[1..], x), Without(b, x);
        assert [a[0]] + (wa + wb) == ([a[0]] + wa) + wb;
      }
    }
  }

  lemma {:induction false} WithoutAbsent(a: seq<Ptr>, x: Ptr)
    requires x !in a
    ensures Without(a, x) == a
  {
    if a != [] { WithoutAbsent(a[1..], x); }
  }

  lemma {:induction false} WithoutMiddle(a: seq<Ptr>, x: Ptr, b: seq<Ptr>)
    requires x !in a && x !in b
    ensures Without(a + [x] + b, x) == a + b
  {
    WithoutAppend(a + [x], b, x);
    WithoutAppend(a, [x], x);
    WithoutAbsent(a, x);
    WithoutAbsent(b, x);
    assert Without([x], x) == [];
  }

  lemma {:induction false} EraseOrder(k: Ctx, t: Tree)
    requires Uniq(Plug(k, t)) && t.Node?
    ensures Before(k) + Inorder(t.l) + Inorder(t.r) + After(k) == Without(Inorder(Plug(k, t)), t.x)
  {
    var b, l, r, a := Before(k), Inorder(t.l), Inorder(t.r), After(k);
    assert t.x !in b + l && t.x !in r + a by {
      UniqPlug(k, t);
      InorderMembers(t.l);
      InorderMembers(t.r);
      BeforeAfterMembers(k);
    }
    InorderPlug(k, t);
    Regroup(b, l, t.x, r, a);
    WithoutMiddle(b + l, t.x, r + a);
  }

  lemma Regroup(b: seq<Ptr>, l: seq<Ptr>, x: Ptr, r: seq<Ptr>, a: seq<Ptr>)
    ensures b + (l + [x] + r) + a == (b + l) + [x] + (r + a)
    ensures b + l + r + a == (b + l) + (r + a)
  {
  }

  /** The place and the subtree that __rb_erase_augmented leaves there, in all three cases. */
  function SplicedAt(cb: Callbacks, k: Ctx, t: Tree): (Ctx, Tree)
    requires t.Node?
  {
    if t.l.Leaf? then (Settle(cb, k, Val(t.r)), Recolor(t.r, t.c))
    else if t.r.Leaf? then (Settle(cb, k, Val(t.l)), Recolor(t.l, t.c))
    else
      var q := LeftMost(t.r, Top);
      (Compose(NewPath(cb, q), NewBase(cb, k, t, q)), Recolor(q.cur.r, Black))
  }

  /** A black node left that place empty: __rb_erase_color has to run. */
  predicate Short(k: Ctx, t: Tree)
    requires t.Node?
  {
    if t.l.Leaf? then t.r.Leaf? && t.c.Black? && k.Crumb?
    else if t.r.Leaf? then false
    else
      var q := LeftMost(t.r, Top);
      q.cur.r.Leaf? && q.cur.c.Black?
  }

  /** The tree an erase of node `x` leaves. */
  function Erased(cb: Callbacks, t: Tree, x: Ptr): Tree
    requires x in Ptrs(t)
  {
    var (k, u) := Locate(t, x, Top);
    var (k1, u1) := SplicedAt(cb, k, u);
    if Short(k, u) then Mended(cb, k1, u1) else Plug(k1, u1)
  }

  /** The equations an erase of node `x` depends on: none when __rb_erase_color does not run. */
  predicate ErasedRight(f: Rule, t: Tree, x: Ptr)
    requires x in Ptrs(t)
  {
    var (k, u) := Locate(t, x, Top);
    Short(k, u) ==> EraseRight(f, SplicedAt(Augmented(f), k, u).0, SplicedAt(Augmented(f), k, u).1)
  }

  /** __rb_erase_augmented: whatever the rule, the stored values of the remaining tree are right if they
      were right before, in spite of the early exits of propagate. */
  method EraseAugmented(r: RbRoot, cb: Callbacks, node: Ptr, ghost k: Ctx, ghost t: Tree)
      returns (rebalance: Ptr, ghost k': Ctx, ghost t': Tree)
    requires Rep(r.Img(), Plug(k, t)) && RedBlack(Plug(k, t)) && t.Node? && node == t.x
    modifies r
    ensures Rep(r.Img(), Plug(k', t')) && Spliced(rebalance, k', t')
    ensures Inorder(Plug(k', t')) == Without(Inorder(Plug(k, t)), node)
    ensures AugGood(cb, Plug(k, t)) ==> AugGood(cb, Plug(k', t'))
    ensures (k', t') == SplicedAt(cb, k, t) && (rebalance != NULL <==> Short(k, t))
    ensures r.OnlyTree(Plug(k, t))
  {
    assert Uniq(Plug(k, t));
    rebalance := SpliceOut(r, cb, node, k, t);
    k', t' := SplicedAt(cb, k, t).0, SplicedAt(cb, k, t).1;
    EraseOrder(k, t);
  }

  /** What all three cases leave. */
  ghost predicate SpliceDone(m: Image, cb: Callbacks, k: Ctx, t: Tree, rebalance: Ptr)
    requires t.Node?
  {
    var (k', t') := SplicedAt(cb, k, t);
    && Rep(m, Plug(k', t')) && Spliced(rebalance, k', t') && (rebalance != NULL <==> Short(k, t))
    && Inorder(Plug(k', t')) == Before(k) + Inorder(t.l) + Inorder(t.r) + After(k)
    && (AugGood(cb, Plug(k, t)) ==> AugGood(cb, Plug(k', t')))
  }

  /** The three cases. */
  method SpliceOut(r: RbRoot, cb: Callbacks, node: Ptr, ghost k: Ctx, ghost t: Tree) returns (rebalance: Ptr)
    requires Rep(r.Img(), Plug(k, t)) && RedBlack(Plug(k, t)) && t.Node? && node == t.x
    modifies r
    ensures SpliceDone(r.Img(), cb, k, t, rebalance) && r.OnlyTree(Plug(k, t))
  {
    ReadNode(r.Img(), k, t);
    var child, tmp := r.h[node].right, r.h[node].left;
    if tmp == NULL {
      rebalance := SpliceOne(r, cb, node, child, k, t, t.r);
    } else if child == NULL {
      rebalance := SpliceOne(r, cb, node, tmp, k, t, t.l);
    } else {
      rebalance := EraseTwoChildren(r, cb, node, child, k, t);
    }
  }

  /** Case 1. */
  method SpliceOne(r: RbRoot, cb: Callbacks, node: Ptr, child: Ptr, ghost k: Ctx, ghost t: Tree, ghost ct: Tree)
      returns (rebalance: Ptr)
    requires Rep(r.Img(), Plug(k, t)) && RedBlack(Plug(k, t)) && OnlyChild(t, ct) && node == t.x && child == Root(ct)
    requires t.l.Leaf? ==> ct == t.r
    modifies r
    ensures SpliceDone(r.Img(), cb, k, t, rebalance) && r.OnlyTree(Plug(k, t))
  {
    OneChildIs(cb, k, t, ct);
    ghost var k';
    rebalance, k' := EraseOneChild(r, cb, node, child, k, t, ct);
  }

  lemma {:induction false} OneChildIs(cb: Callbacks, k: Ctx, t: Tree, ct: Tree)
    requires OnlyChild(t, ct) && (t.l.Leaf? ==> ct == t.r)
    ensures SplicedAt(cb, k, t) == (Settle(cb, k, Val(ct)), Recolor(ct, t.c))
    ensures Short(k, t) <==> ct.Leaf? && t.c.Black? && k.Crumb?
    ensures Before(k) + Inorder(ct) + After(k) == Before(k) + Inorder(t.l) + Inorder(t.r) + After(k)
  {
  }

  /** Cases 2 and 3. */
  method EraseTwoChildren(r: RbRoot, cb: Callbacks, node: Ptr, child: Ptr, ghost k: Ctx, ghost t: Tree)
      returns (rebalance: Ptr)
    requires Rep(r.Img(), Plug(k, t)) && RedBlack(Plug(k, t)) && t.Node? && t.l.Node? && t.r.Node? && node == t.x
    requires child == t.r.x
    modifies r
    ensures SpliceDone(r.Img(), cb, k, t, rebalance) && r.OnlyTree(Plug(k, t))
  {
    ghost var q;
    rebalance, q := SpliceSuccessor(r, cb, node, child, k, t);
    ghost var k', t' := Compose(NewPath(cb, q), NewBase(cb, k, t, q)), Recolor(q.cur.r, Black);
    PlugCompose(NewPath(cb, q), NewBase(cb, k, t, q), t');
    TwoChildrenColors(cb, rebalance, k, t, q);
    TwoChildrenOrder(cb, k, t, q);
    if cb.Augmented? && AugGood(cb, Plug(k, t)) { TwoChildrenAug(cb.compute, k, t, q); }
  }

  lemma {:induction false} ReadNode(m: Image, k: Ctx, t: Tree)
    requires Rep(m, Plug(k, t)) && t.Node?
    ensures t.x in m.h && m.h[t.x].left == Root(t.l) && m.h[t.x].right == Root(t.r)
    ensures (t.l.Leaf? <==> Root(t.l) == NULL) && (t.r.Leaf? <==> Root(t.r) == NULL)
    ensures t.l.Leaf? ==> Inorder(t.l) == []
    ensures t.r.Leaf? ==> Inorder(t.r) == []
  {
    RepPlug(m, k, t);
    RepRoot(m.h, t.l, t.x);
    RepRoot(m.h, t.r, t.x);
  }

  /** rb_erase (dummy callbacks) and rb_erase_augmented: for every red-black tree and every node in it the
      result is a red-black tree whose nodes in order are the old ones without `node`. Stored values are right
      afterwards exactly when the rule meets the equations of ErasedRight. */
  method Erase(r: RbRoot, cb: Callbacks, node: Ptr, ghost t0: Tree) returns (ghost t': Tree)
    requires Rep(r.Img(), t0) && RedBlack(t0) && node in Ptrs(t0)
    modifies r
    ensures Rep(r.Img(), t') && RedBlack(t')
    ensures Inorder(t') == Without(Inorder(t0), node)
    ensures t' == Erased(cb, t0, node)
    ensures cb.Augmented? && AugOk(cb.compute, t0) ==> (AugOk(cb.compute, t') <==> ErasedRight(cb.compute, t0, node))
    ensures Sound(cb) && AugGood(cb, t0) ==> AugGood(cb, t')
    ensures r.Wrote(t0) && EitherSafe(old(r.seen), r.seen, Ptrs(t0), Ptrs(t'))
  {
    LocateCorrect(t0, node, Top);
    ghost var (k, t) := Locate(t0, node, Top);
    var rebalance: Ptr;
    ghost var k1, t1;
    rebalance, k1, t1 := EraseAugmented(r, cb, node, k, t);
    t' := Plug(k1, t1);
    if rebalance != NULL {
      assert Ptrs(t') <= Ptrs(t0) by {
        InorderMembers(t');
        InorderMembers(t0);
        WithoutMembers(Inorder(t0), node);
      }
      t' := RbEraseColor.EraseColor(r, cb, rebalance, k1, 0);
      if cb.Augmented? && AugOk(cb.compute, t0) { MendedExact(cb.compute, k1, t1); }
    }
  }

  lemma {:induction false} WithoutMembers(s: seq<Ptr>, x: Ptr)
    ensures forall y :: y in Without(s, x) <==> y in s && y != x
  {
    if s != [] {
      WithoutMembers(s[1..], x);
      assert s == [s[0]] + s[1..];
    }
  }
}
