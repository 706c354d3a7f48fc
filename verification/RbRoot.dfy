/**
 struct rb_root with the memory its nodes live in, and the pointer writes the insertion and erase
 loops share.
 */
module RbRoots {
  import opened RbTreeModel
  import opened RbMemory
  import opened RbLookup

  class RbRoot {
    var h: Heap
    var root: Ptr
    /** What a lookup may find: the memory behind each store of a child pointer or of the root in a tree. */
    ghost var seen: set<Image>

    ghost function Img(): Image
      reads this
    {
      Image(h, root)
    }

    /** RB_ROOT: an empty tree over a given memory. */
    constructor (mem: Heap)
      ensures h == mem && Rep(Img(), Leaf)
    {
      h, root, seen := mem, NULL, {};
    }

    /** WRITE_ONCE of a child pointer */
    method StoreKid(x: Ptr, s: Side, q: Ptr)
      requires x in h
      modifies `h, `seen
      ensures h == SetKid(old(h), x, s, q) && seen == old(seen) + {Img()}
    {
      h := SetKid(h, x, s, q);
      seen := seen + {Img()};
    }

    /** WRITE_ONCE of the root */
    method StoreRoot(q: Ptr)
      modifies `root, `seen
      ensures root == q && seen == old(seen) + {Img()}
    {
      root := q;
      seen := seen + {Img()};
    }

    /** __rb_change_child */
    method ChangeChild(was: Ptr, now: Ptr, parent: Ptr)
      requires PtrIn(h, parent)
      modifies this
      ensures parent == NULL ==> Img() == Image(old(h), now)
      ensures parent != NULL ==> Img() == Image(SetKid(old(h), parent, SlotSide(old(h), parent, was), now), old(root))
      ensures seen == old(seen) + {Img()}
    {
      if parent != NULL {
        StoreKid(parent, if h[parent].left == was then Lft else Rgt, now);
      } else {
        StoreRoot(now);
      }
    }

    /** rb_set_parent_color with the parent the node already has: a change of colour. */
    method SetColor(rb: Ptr, p: Ptr, c: Color, ghost k: Ctx, ghost t: Tree)
      requires Rep(Img(), Plug(k, t)) && t.Node? && rb == t.x && p == ParentPtr(k, NULL)
      modifies `h
      ensures Rep(Img(), Plug(k, Recolor(t, c)))
      ensures h.Keys == old(h).Keys && SameOff(old(h), h, {rb}) && rb in Ptrs(Plug(k, t))
    {
      RepPlug(Img(), k, t);
      RecolorRep(Img(), k, t, c);
      PtrsPlug(k, t);
      h := SetPc(h, rb, Pack(p, c));
      RepPlug(Img(), k, Recolor(t, c));
    }

    /** __rb_rotate_set_parents */
    method RotateSetParents(y: Ptr, x: Ptr, color: Color, ghost p: Ptr, ghost q: Side)
      requires y in h && x in h && x != y && x != NULL && y != NULL
      requires ParentOf(h[y].pc) == p && PtrIn(h, p) && p != x && p != y
      requires p != NULL ==> SlotSide(h, p, y) == q
      modifies this
      ensures h.Keys == old(h).Keys && SameOff(old(h), h, {x, y, p} - {NULL})
      ensures h[x] == old(h)[x].(pc := old(h)[y].pc) && h[y] == old(h)[y].(pc := Pack(x, color))
      ensures p != NULL ==> h[p] == SetKid(old(h), p, q, x)[p]
      ensures root == if p == NULL then x else old(root)
      ensures seen == old(seen) + {Img()}
    {
      var parent := ParentOf(h[y].pc);
      h := SetPc(h, x, h[y].pc);
      h := SetPc(h, y, Pack(x, color));
      ChangeChild(y, x, parent);
    }

    /** The rotate callback: dummy_rotate, or the one of RB_DECLARE_CALLBACKS. */
    method AugmentRotate(cb: Callbacks, y: Ptr, x: Ptr)
      requires y in h && x in h && x != y && PtrIn(h, h[y].left) && PtrIn(h, h[y].right)
      requires h[y].left != x && h[y].right != x
      modifies `h
      ensures AugRotated(cb, old(h), h, y, x)
    {
      match cb
      case Dummy =>
      case Augmented(compute) =>
        h := SetAug(h, x, h[y].aug);
        h := SetAug(h, y, compute(y, ValAt(h, h[y].left), ValAt(h, h[y].right)));
    }

    /** The child pointers of a rotation, and the parent of the subtree that changes sides. */
    method Relink(s: Side, y: Ptr, x: Ptr, tmp: Ptr, b: Color)
      requires x in h && y in h && x != NULL && y != NULL && PtrIn(h, tmp) && x != y && tmp != x && tmp != y
      modifies `h, `seen
      ensures h.Keys == old(h).Keys && SameOff(old(h), h, {x, y, tmp} - {NULL})
      ensures h[y] == SetKid(old(h), y, s, tmp)[y] && h[x] == SetKid(old(h), x, Other(s), y)[x]
      ensures tmp != NULL ==> h[tmp] == old(h)[tmp].(pc := Pack(y, b))
      ensures seen == old(seen) + {FirstStore(old(Img()), s, y, tmp), SecondStore(old(Img()), s, y, x, tmp)}
    {
      StoreKid(y, s, tmp);
      StoreKid(x, Other(s), y);
      if tmp != NULL {
        h := SetPc(h, tmp, Pack(y, b));
      }
    }

    /** The links and colours of a rotation. */
    method RotateLinks(s: Side, y: Ptr, x: Ptr, tmp: Ptr, color: Color, b: Color, ghost r: Turn)
      requires CanTurn(h, r) && r.s == s && r.y == y && r.x == x && r.tmp == tmp
      requires ParentOf(h[y].pc) == r.p && (r.p != NULL ==> SlotSide(h, r.p, y) == r.q)
      modifies this
      ensures TurnWrites(Dummy, old(Img()), Img(), r, color, b)
      ensures TurnSeen(old(seen), seen, old(Img()), r, Img())
    {
      Relink(s, y, x, tmp, b);
      RotateSetParents(y, x, color, r.p, r.q);
    }

    /** A whole rotation: Case 3 of the insertion loop, Cases 1 and 4 of the erase loop. */
    method Rotate(cb: Callbacks, s: Side, y: Ptr, x: Ptr, tmp: Ptr, color: Color, keep: bool, ghost r: Turn)
      requires CanTurn(h, r) && r.s == s && r.y == y && r.x == x && r.tmp == tmp
      requires ParentOf(h[y].pc) == r.p && (r.p != NULL ==> SlotSide(h, r.p, y) == r.q)
      modifies this
      ensures TurnWrites(cb, old(Img()), Img(), r, color,
                         if keep && tmp != NULL then ColorOf(old(h)[tmp].pc) else Black)
      ensures TurnSeen(old(seen), seen, old(Img()), r, Img())
    {
      ghost var m := Img();
      var b := if keep && tmp != NULL then ColorOf(h[tmp].pc) else Black;
      RotateLinks(s, y, x, tmp, color, b, r);
      ghost var m1 := Img();
      AugmentRotate(cb, y, x);
      TurnThenAug(cb, m, m1, Img(), r, color, b);
      AugLinks(cb, m1.h, h, y, x, root);
      TurnSeenLater(old(seen), seen, m, r, m1, Img());
    }

    /** Only nodes of the tree `t` were written. */
    twostate predicate Wrote(t: Tree)
      reads this
    {
      h.Keys == old(h.Keys) && SameOff(old(h), h, Ptrs(t))
    }

    /** And a lookup between any two stores of child pointers was safe. */
    twostate predicate OnlyTree(t: Tree)
      reads this
    {
      Wrote(t) && AllSafe(old(seen), seen, Ptrs(t))
    }

    /** A rotation, seen on the tree: `v` in context `k` becomes Turned(v). */
    method TurnUp(cb: Callbacks, s: Side, y: Ptr, x: Ptr, tmp: Ptr, color: Color, keep: bool, ghost m: Image,
                  ghost k: Ctx, ghost v: Pair)
      requires RepZ(m, k, PairTree(v)) && Loose(m, Img(), s, y, x)
      requires v.s == s && v.y == y && v.x == x && tmp == Root(v.t2)
      requires !keep ==> IsBlack(v.t2)
      modifies this
      ensures Rep(Img(), Plug(k, Turned(cb, v, v.t2, color)))
      ensures Kept(cb, Plug(k, PairTree(v)), Plug(k, Turned(cb, v, v.t2, color)))
      ensures OnlyTree(Plug(k, PairTree(v)))
    {
      ghost var loose := Img();
      TurnReady(m, loose, k, v);
      Rotate(cb, s, y, x, tmp, color, keep, PairTurn(v, k));
      TurnDone(cb, m, loose, Img(), k, v, color, ColorOr(v.t2, Black));
      TurnAllSafe(old(seen), seen, m, loose, Img(), k, v, Plug(k, Turned(cb, v, v.t2, color)));
    }

    method RotateInnerLinks(s: Side, y: Ptr, x: Ptr, tmp: Ptr, ghost r: Turn)
      requires CanTurn(h, r) && r.s == s && r.y == y && r.x == x && r.tmp == tmp && r.p != NULL
      modifies `h, `seen
      ensures seen == old(seen) + {FirstStore(old(Img()), s, y, tmp), SecondStore(old(Img()), s, y, x, tmp)}
      ensures h.Keys == old(h).Keys && SameOff(old(h), h, {x, y, tmp} - {NULL})
      ensures TurnWrites(Dummy, old(Img()), Image(SetKid(SetPc(h, x, old(h)[y].pc), r.p, r.q, x), root), r, Red, Black)
    {
      Relink(s, y, x, tmp, Black);
      h := SetPc(h, y, Pack(x, Red));
    }

    /** Case 2 of the insertion loop: a rotation that leaves the parent word of `x` and the child slot
        of `p` to the rotation that follows. `m1` is the memory that one may assume. */
    method RotateInner(cb: Callbacks, s: Side, y: Ptr, x: Ptr, tmp: Ptr, ghost r: Turn) returns (ghost m1: Image)
      requires CanTurn(h, r) && r.s == s && r.y == y && r.x == x && r.tmp == tmp && r.p != NULL
      modifies `h, `seen
      ensures TurnSeen(old(seen), seen, old(Img()), r, m1)
      ensures TurnWrites(cb, old(Img()), m1, r, Red, Black)
      ensures h.Keys == old(h).Keys && SameOff(old(h), h, {x, y, tmp} - {NULL})
      ensures m1 == Image(SetKid(SetPc(h, x, old(h)[y].pc), r.p, r.q, x), root)
    {
      RotateInnerLinks(s, y, x, tmp, r);
      ghost var h1, pc := h, old(h)[y].pc;
      AugmentRotate(cb, y, x);
      m1 := Image(SetKid(SetPc(h, x, pc), r.p, r.q, x), root);
      AugLater(cb, h1, h, y, x, pc, r.p, r.q);
      TurnThenAug(cb, old(Img()), Image(SetKid(SetPc(h1, x, pc), r.p, r.q, x), root), m1, r, Red, Black);
    }

    /** The same, seen on the tree. */
    method TurnInner(cb: Callbacks, s: Side, y: Ptr, x: Ptr, tmp: Ptr, ghost k: Ctx, ghost v: Pair)
        returns (ghost m1: Image)
      requires RepZ(Img(), k, PairTree(v)) && k.Crumb? && IsBlack(v.t2)
      requires v.s == s && v.y == y && v.x == x && tmp == Root(v.t2)
      modifies `h, `seen
      ensures Rep(m1, Plug(k, Turned(cb, v, v.t2, Red))) && Loose(m1, Img(), k.s, k.x, x)
      ensures Kept(cb, Plug(k, PairTree(v)), Plug(k, Turned(cb, v, v.t2, Red)))
      ensures OnlyTree(Plug(k, PairTree(v)))
    {
      ghost var m := Img();
      TurnReady(m, m, k, v) by { PairParts(m, k, v); }
      m1 := RotateInner(cb, s, y, x, tmp, PairTurn(v, k));
      CompletedLoose(h, root, x, m.h[y].pc, k.x, k.s);
      TurnDone(cb, m, m, m1, k, v, Red, Black) by { PairParts(m, k, v); }
      TurnAllSafe(old(seen), seen, m, m, m1, k, v, Plug(k, Turned(cb, v, v.t2, Red)));
    }

    /** Its three child pointers. */
    method SiblingStores(s: Side, y: Ptr, x: Ptr, tmp: Ptr, parent: Ptr, q: Side, ghost r: Turn)
      requires CanTurn(h, r) && r == Turn(s, y, x, tmp, r.far, parent, q) && parent != NULL
      modifies `h, `seen
      ensures h.Keys == old(h).Keys && SameOff(old(h), h, {x, y, tmp, parent} - {NULL})
      ensures h[y] == SetKid(old(h), y, s, tmp)[y] && h[x] == SetKid(old(h), x, Other(s), y)[x]
      ensures tmp != NULL ==> h[tmp] == old(h)[tmp].(pc := Pack(y, Black))
      ensures h[parent] == SetKid(old(h), parent, q, x)[parent]
      ensures TurnSeen(old(seen), seen, old(Img()), r, Img())
    {
      Relink(s, y, x, tmp, Black);
      StoreKid(parent, q, x);
    }

    method RotateSiblingLinks(s: Side, y: Ptr, x: Ptr, tmp: Ptr, parent: Ptr, q: Side, ghost r: Turn)
      requires CanTurn(h, r) && r == Turn(s, y, x, tmp, r.far, parent, q) && parent != NULL
      modifies `h, `seen
      ensures h.Keys == old(h).Keys && SameOff(old(h), h, {x, y, tmp, parent} - {NULL})
      ensures TurnWrites(Dummy, old(Img()), Image(SetPc(h, x, old(h)[y].pc), root), r, Black, Black)
      ensures TurnSeen(old(seen), seen, old(Img()), r, Img())
    {
      ghost var m := Img();
      SiblingStores(s, y, x, tmp, parent, q, r);
      ghost var h1 := h;
      h := SetPc(h, y, Pack(x, Black));
      TurnSeenLater(old(seen), seen, m, r, Image(h1, root), Img()) by { PcLinks(h1, root, y, Pack(x, Black)); }
    }

    /** Case 3 of the erase loop, with the black parent word Case 4 writes into `y`: a rotation that
        leaves the parent word of `x` to the rotation that follows. */
    method RotateSibling(cb: Callbacks, s: Side, y: Ptr, x: Ptr, tmp: Ptr, parent: Ptr, q: Side, ghost r: Turn)
        returns (ghost m1: Image)
      requires CanTurn(h, r) && r == Turn(s, y, x, tmp, r.far, parent, q) && parent != NULL
      modifies `h, `seen
      ensures TurnWrites(cb, old(Img()), m1, r, Black, Black)
      ensures h.Keys == old(h).Keys && SameOff(old(h), h, {x, y, tmp, parent} - {NULL})
      ensures m1 == Image(SetPc(h, x, old(h)[y].pc), root)
      ensures TurnSeen(old(seen), seen, old(Img()), r, m1)
    {
      RotateSiblingLinks(s, y, x, tmp, parent, q, r);
      ghost var h1, pc := h, old(h)[y].pc;
      AugmentRotate(cb, y, x);
      m1 := Image(SetPc(h, x, pc), root);
      AugLater(cb, h1, h, y, x, pc, parent, q);
      TurnThenAug(cb, old(Img()), Image(SetPc(h1, x, pc), root), m1, r, Black, Black);
      AugLinks(cb, h1, h, y, x, root);
      TurnSeenLater(old(seen), seen, old(Img()), r, Image(h1, root), Img());
      PcLinks(h, root, x, pc);
      TurnSeenLater(old(seen), seen, old(Img()), r, Img(), m1);
    }

    /** The same, seen on the tree. */
    method TurnSibling(cb: Callbacks, s: Side, y: Ptr, x: Ptr, tmp: Ptr, parent: Ptr, q: Side, ghost k: Ctx,
                       ghost v: Pair)
        returns (ghost m1: Image)
      requires RepZ(Img(), k, PairTree(v)) && k.Crumb? && k.x == parent && k.s == q && IsBlack(v.t2)
      requires v.s == s && v.y == y && v.x == x && tmp == Root(v.t2)
      modifies `h, `seen
      ensures Rep(m1, Plug(k, Turned(cb, v, v.t2, Black))) && Loose(m1, Img(), q, parent, x)
      ensures Kept(cb, Plug(k, PairTree(v)), Plug(k, Turned(cb, v, v.t2, Black)))
      ensures OnlyTree(Plug(k, PairTree(v)))
    {
      ghost var m := Img();
      TurnReady(m, m, k, v) by { PairParts(m, k, v); }
      m1 := RotateSibling(cb, s, y, x, tmp, parent, q, PairTurn(v, k));
      StaleLoose(h, root, x, m.h[y].pc, parent, q);
      TurnDone(cb, m, m, m1, k, v, Black, Black) by { PairParts(m, k, v); }
      TurnAllSafe(old(seen), seen, m, m, m1, k, v, Plug(k, Turned(cb, v, v.t2, Black)));
    }
  }
}
