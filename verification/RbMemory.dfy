/**
 Kernel memory holding `struct rb_node`s, and what it means for memory to hold a given tree.

 `__rb_parent_color` is kept packed, as in the source: the parent address, a multiple of 4, plus the
 colour in bit 0.
 */
module RbMemory {
  import opened Options
  import opened RbTreeModel

  datatype RbNode = RbNode(pc: nat, right: Ptr, left: Ptr, aug: Aug)

  type Heap = map<Ptr, RbNode>

  /** A memory together with the root pointer of the tree (struct rb_root). */
  datatype Image = Image(h: Heap, root: Ptr)

  /** (unsigned long)p | color */
  function Pack(p: Ptr, c: Color): nat {
    p + Bit(c)
  }

  /** pc & ~3 */
  function ParentOf(pc: nat): Ptr {
    pc / 4 * 4
  }

  /** pc & 1 */
  function ColorOf(pc: nat): Color {
    if pc - pc / 4 * 4 == 1 || pc - pc / 4 * 4 == 3 then Black else Red
  }

  /** pc | RB_BLACK */
  function Blackened(pc: nat): nat {
    if ColorOf(pc).Black? then pc else pc + 1
  }

  function Times4(j: nat): nat {
    4 * j
  }

  /** Node addresses are multiples of 4, which is what leaves room for the colour. */
  ghost predicate Aligned(p: Ptr) {
    exists j :: p == Times4(j)
  }

  lemma DivideBy4(j: nat)
    ensures 4 * j / 4 == j && (4 * j + 1) / 4 == j
  {
  }

  lemma {:induction false} PackUnpack(p: Ptr, c: Color)
    requires p == NULL || Aligned(p)
    ensures ParentOf(Pack(p, c)) == p && ColorOf(Pack(p, c)) == c
    ensures Blackened(Pack(p, c)) == Pack(p, Black)
    ensures c.Red? ==> Pack(p, c) == p
  {
    if p != NULL {
      var j :| p == Times4(j);
      DivideBy4(j);
    }
  }

  function GetKid(n: RbNode, s: Side): Ptr {
    if s.Lft? then n.left else n.right
  }

  function SetKid(h: Heap, x: Ptr, s: Side, q: Ptr): Heap
    requires x in h
  {
    h[x := if s.Lft? then h[x].(left := q) else h[x].(right := q)]
  }

  function SetPc(h: Heap, x: Ptr, pc: nat): Heap
    requires x in h
  {
    h[x := h[x].(pc := pc)]
  }

  function SetAug(h: Heap, x: Ptr, a: Aug): Heap
    requires x in h
  {
    h[x := h[x].(aug := a)]
  }

  /** NULL or a node. */
  predicate PtrIn(h: Heap, x: Ptr) {
    x == NULL || x in h
  }

  function ValAt(h: Heap, x: Ptr): Option<Aug>
    requires PtrIn(h, x)
  {
    if x == NULL then None else Some(h[x].aug)
  }

  // ---------------------------------------------------------------- representation

  /** The nodes of `t` are in memory with the links, colours and values of `t`, below parent `p`. */
  ghost predicate RepT(h: Heap, t: Tree, p: Ptr) {
    match t
    case Leaf => true
    case Node(l, x, c, a, r) =>
      && x != NULL && Aligned(x) && x in h
      && h[x] == RbNode(Pack(p, c), Root(r), Root(l), a)
      && RepT(h, l, x) && RepT(h, r, x)
  }

  /** The same for a context whose outermost node has parent `base` and whose hole holds `hole`. */
  ghost predicate RepC(h: Heap, k: Ctx, base: Ptr, hole: Ptr) {
    match k
    case Top => true
    case Crumb(up, s, x, c, a, sib) =>
      && x != NULL && Aligned(x) && x in h
      && h[x] == (if s.Lft? then RbNode(Pack(ParentPtr(up, base), c), Root(sib), hole, a)
                  else RbNode(Pack(ParentPtr(up, base), c), hole, Root(sib), a))
      && RepT(h, sib, x) && RepC(h, up, base, x)
  }

  /** Memory holds the tree with focus `t` in context `k`. */
  ghost predicate RepZ(m: Image, k: Ctx, t: Tree) {
    && UniqZ(k, t)
    && RepT(m.h, t, ParentPtr(k, NULL)) && RepC(m.h, k, NULL, Root(t))
    && m.root == TopPtr(k, Root(t))
  }

  /** Memory holds the tree `t`: child links, and parent links that are their inverse. */
  ghost predicate Rep(m: Image, t: Tree) {
    Uniq(t) && RepT(m.h, t, NULL) && m.root == Root(t)
  }

  lemma {:induction false} RepPlug(m: Image, k: Ctx, t: Tree)
    ensures Rep(m, Plug(k, t)) <==> RepZ(m, k, t)
    decreases k
  {
    match k
    case Top =>
    case Crumb(up, s, x, c, a, sib) =>
      RepPlug(m, up, Mk(s, t, x, c, a, sib));
      UniqPlug(k, t);
      UniqPlug(up, Mk(s, t, x, c, a, sib));
  }

  /** Moving one crumb between the context and the focus. */
  lemma {:induction false} FoldCrumb(m: Image, k: Ctx, s: Side, x: Ptr, c: Color, a: Aug, sib: Tree, t: Tree)
    ensures RepZ(m, Crumb(k, s, x, c, a, sib), t) <==> RepZ(m, k, Mk(s, t, x, c, a, sib))
  {
    RepPlug(m, Crumb(k, s, x, c, a, sib), t);
    RepPlug(m, k, Mk(s, t, x, c, a, sib));
  }

  /** A node record whose child on side `s` is `near`. */
  function Cell(s: Side, pc: nat, near: Ptr, far: Ptr, a: Aug): RbNode {
    if s.Lft? then RbNode(pc, far, near, a) else RbNode(pc, near, far, a)
  }

  lemma {:induction false} RepMk(h: Heap, s: Side, near: Tree, x: Ptr, c: Color, a: Aug, far: Tree, p: Ptr)
    ensures RepT(h, Mk(s, near, x, c, a, far), p) <==>
            && x != NULL && Aligned(x) && x in h
            && h[x] == Cell(s, Pack(p, c), Root(near), Root(far), a)
            && RepT(h, near, x) && RepT(h, far, x)
    ensures Ptrs(Mk(s, near, x, c, a, far)) == Ptrs(near) + {x} + Ptrs(far)
    ensures Uniq(Mk(s, near, x, c, a, far)) <==>
            x !in Ptrs(near) && x !in Ptrs(far) && Ptrs(near) !! Ptrs(far) && Uniq(near) && Uniq(far)
  {
  }

  /** The root of a represented tree is NULL or a node that holds the tree's value. */
  lemma {:induction false} RepRoot(h: Heap, t: Tree, p: Ptr)
    requires RepT(h, t, p)
    ensures PtrIn(h, Root(t)) && ValAt(h, Root(t)) == Val(t)
    ensures t.Node? ==> t.x in Ptrs(t) && t.x != NULL && Aligned(t.x) && h[t.x].pc == Pack(p, t.c)
    ensures t.Leaf? <==> Root(t) == NULL
  {
  }

  // ---------------------------------------------------------------- frames

  /** NULL is no node. */
  lemma {:induction false} NullOutsideT(h: Heap, t: Tree, p: Ptr)
    requires RepT(h, t, p)
    ensures NULL !in Ptrs(t)
  {
    if t.Node? {
      NullOutsideT(h, t.l, t.x);
      NullOutsideT(h, t.r, t.x);
    }
  }

  ghost predicate SameOn(h: Heap, h': Heap, xs: set<Ptr>) {
    forall x :: x in xs && x in h ==> x in h' && h'[x] == h[x]
  }

  /** Nothing outside `xs` changed. */
  ghost predicate SameOff(h: Heap, h': Heap, xs: set<Ptr>) {
    forall y :: y in h && y !in xs ==> y in h' && h'[y] == h[y]
  }

  lemma {:induction false} FrameT(h: Heap, h': Heap, t: Tree, p: Ptr)
    requires RepT(h, t, p) && SameOn(h, h', Ptrs(t))
    ensures RepT(h', t, p)
  {
    if t.Node? {
      FrameT(h, h', t.l, t.x);
      FrameT(h, h', t.r, t.x);
    }
  }

  lemma {:induction false} FrameC(h: Heap, h': Heap, k: Ctx, base: Ptr, hole: Ptr)
    requires RepC(h, k, base, hole) && SameOn(h, h', PtrsC(k))
    ensures RepC(h', k, base, hole)
  {
    if k.Crumb? {
      FrameT(h, h', k.sib, k.x);
      FrameC(h, h', k.up, base, k.x);
    }
  }

  /** Rewriting the parent and colour of the root of a subtree. */
  lemma {:induction false} Reparent(h: Heap, h': Heap, t: Tree, p: Ptr, p': Ptr, c: Color)
    requires RepT(h, t, p) && Uniq(t)
    requires SameOn(h, h', Ptrs(t) - {Root(t)})
    requires t.Node? ==> t.x in h' && h'[t.x] == h[t.x].(pc := Pack(p', c))
    ensures RepT(h', Recolor(t, c), p')
  {
    if t.Node? {
      FrameT(h, h', t.l, t.x);
      FrameT(h, h', t.r, t.x);
    }
  }

  /** Rewriting the child pointer at the hole. */
  lemma {:induction false} Refill(h: Heap, h': Heap, k: Ctx, base: Ptr, hole: Ptr, hole': Ptr)
    requires RepC(h, k, base, hole) && UniqC(k)
    requires SameOn(h, h', PtrsC(k) - {ParentPtr(k, base)})
    requires k.Crumb? ==> k.x in h' && h'[k.x] == SetKid(h, k.x, k.s, hole')[k.x]
    ensures RepC(h', k, base, hole')
  {
    if k.Crumb? {
      FrameT(h, h', k.sib, k.x);
      FrameC(h, h', k.up, base, k.x);
    }
  }

  /** Writing a colour into the parent word of a node of the tree. */
  lemma {:induction false} RecolorRep(m: Image, k: Ctx, t: Tree, c: Color)
    requires RepZ(m, k, t) && t.Node?
    ensures RepZ(m.(h := SetPc(m.h, t.x, Pack(ParentPtr(k, NULL), c))), k, Recolor(t, c))
  {
    var h' := SetPc(m.h, t.x, Pack(ParentPtr(k, NULL), c));
    assert t.x in Ptrs(t);
    Reparent(m.h, h', t, ParentPtr(k, NULL), ParentPtr(k, NULL), c);
    FrameC(m.h, h', k, NULL, t.x);
  }

  /** Seeing a node's other child as the focus. */
  lemma {:induction false} SwapFocus(m: Image, k: Ctx, s: Side, x: Ptr, c: Color, a: Aug, sib: Tree, t: Tree)
    ensures RepZ(m, Crumb(k, s, x, c, a, sib), t) <==> RepZ(m, Crumb(k, Other(s), x, c, a, t), sib)
  {
    FoldCrumb(m, k, s, x, c, a, sib, t);
    FoldCrumb(m, k, Other(s), x, c, a, t, sib);
  }

  // ---------------------------------------------------------------- rotation

  /** The side of `p` that __rb_change_child rewrites when it replaces `y`. */
  function SlotSide(h: Heap, p: Ptr, y: Ptr): Side
    requires p in h
  {
    if h[p].left == y then Lft else Rgt
  }

  /** What memory says about a node that hangs in a tree: its parent, its colour and its slot. */
  lemma {:induction false} SlotCells(h: Heap, k: Ctx, y: Ptr, c: Color)
    requires RepC(h, k, NULL, y) && y != NULL && y !in PtrsC(k) && y in h && h[y].pc == Pack(ParentPtr(k, NULL), c)
    ensures ParentOf(h[y].pc) == ParentPtr(k, NULL) && ColorOf(h[y].pc) == c
    ensures k.Crumb? ==> k.x != NULL && k.x in h && k.x in PtrsC(k) && SlotSide(h, k.x, y) == k.s
  {
    PackUnpack(ParentPtr(k, NULL), c);
    if k.Crumb? { RepRoot(h, k.sib, k.x); }
  }

  /** The cells of one rotation: `x` on side `s` of `y` comes above `y`, whose parent is `p` (its slot is
      on side `q`); `tmp` is the subtree that changes sides and `far` the other child of `y`. */
  datatype Turn = Turn(s: Side, y: Ptr, x: Ptr, tmp: Ptr, far: Ptr, p: Ptr, q: Side)

  predicate CanTurn(h: Heap, r: Turn) {
    && r.y in h && r.x in h && r.x != r.y && r.x != NULL && r.y != NULL && PtrIn(h, r.tmp) && PtrIn(h, r.far)
    && PtrIn(h, r.p)
    && r.tmp != r.x && r.tmp != r.y && r.far != r.x && r.far != r.y && r.p != r.x && r.p != r.y
    && (r.p != NULL ==> r.p != r.tmp)
    && GetKid(h[r.x], Other(r.s)) == r.tmp && GetKid(h[r.y], Other(r.s)) == r.far
  }

  /** Memory `m'` is `m` after the rotation: `x` took the parent word and stored value of `y`, `y` got
      `color` and a recomputed value, and `tmp` hangs from `y` with colour `b`. Neither the old parent
      word of `x` nor the old child of `y` on side `s` is consulted. */
  ghost predicate TurnWrites(cb: Callbacks, m: Image, m': Image, r: Turn, color: Color, b: Color)
    requires CanTurn(m.h, r)
  {
    && m'.h.Keys == m.h.Keys
    && SameOff(m.h, m'.h, {r.x, r.y, r.tmp, r.p} - {NULL})
    && m'.h[r.x] == Cell(r.s, m.h[r.y].pc, GetKid(m.h[r.x], r.s), r.y, if cb.Dummy? then m.h[r.x].aug else m.h[r.y].aug)
    && m'.h[r.y] == Cell(r.s, Pack(r.x, color), r.tmp, r.far,
                         if cb.Dummy? then m.h[r.y].aug
                         else Compute(cb.compute, r.s, r.y, ValAt(m.h, r.tmp), ValAt(m.h, r.far)))
    && (r.tmp != NULL ==> m'.h[r.tmp] == m.h[r.tmp].(pc := Pack(r.y, b)))
    && (if r.p != NULL then m'.h[r.p] == SetKid(m.h, r.p, r.q, r.x)[r.p] && m'.root == m.root else m'.root == r.x)
  }

  /** The effect of the rotate callback on memory. */
  ghost predicate AugRotated(cb: Callbacks, h: Heap, h': Heap, y: Ptr, x: Ptr) {
    && y in h && x in h && PtrIn(h, h[y].left) && PtrIn(h, h[y].right)
    && h'.Keys == h.Keys && SameOff(h, h', {x, y}) && (cb.Dummy? ==> h' == h)
    && (cb.Augmented? ==> h'[x] == h[x].(aug := h[y].aug))
    && (cb.Augmented? ==> h'[y] == h[y].(aug := cb.compute(y, ValAt(h, h[y].left), ValAt(h, h[y].right))))
  }

  /** The callback may run before or after two of the link writes. */
  lemma {:induction false} AugLater(cb: Callbacks, h: Heap, h': Heap, y: Ptr, x: Ptr, pc: nat, p: Ptr, q: Side)
    requires AugRotated(cb, h, h', y, x) && x != y && p in h && p != x && p != y
    ensures AugRotated(cb, SetPc(h, x, pc), SetPc(h', x, pc), y, x)
    ensures AugRotated(cb, SetKid(SetPc(h, x, pc), p, q, x), SetKid(SetPc(h', x, pc), p, q, x), y, x)
  {
  }

  lemma {:induction false} TurnThenAug(cb: Callbacks, m: Image, m1: Image, m2: Image, r: Turn, color: Color, b: Color)
    requires CanTurn(m.h, r) && TurnWrites(Dummy, m, m1, r, color, b) && AugRotated(cb, m1.h, m2.h, r.y, r.x)
    requires m2.root == m1.root
    ensures TurnWrites(cb, m, m2, r, color, b)
  {
    assert ValAt(m1.h, r.tmp) == ValAt(m.h, r.tmp) && ValAt(m1.h, r.far) == ValAt(m.h, r.far);
  }

  /** Two nodes in a tree that are about to be rotated. */
  datatype Pair = Pair(s: Side, t1: Tree, x: Ptr, cx: Color, ax: Aug, t2: Tree, y: Ptr, cy: Color, ay: Aug, t3: Tree)

  function PairTree(v: Pair): Tree {
    Mk(v.s, Mk(v.s, v.t1, v.x, v.cx, v.ax, v.t2), v.y, v.cy, v.ay, v.t3)
  }

  function PairTurn(v: Pair, k: Ctx): Turn {
    Turn(v.s, v.y, v.x, Root(v.t2), Root(v.t3), ParentPtr(k, NULL), if k.Crumb? then k.s else Lft)
  }

  /** The addresses of the pair are different from each other and from those of the context. */
  predicate PairUniq(v: Pair, k: Ctx) {
    && Uniq(v.t1) && Uniq(v.t2) && Uniq(v.t3) && UniqC(k) && v.x != v.y
    && Ptrs(v.t1) !! Ptrs(v.t2) && Ptrs(v.t1) !! Ptrs(v.t3) && Ptrs(v.t2) !! Ptrs(v.t3)
    && v.x !in Ptrs(v.t1) && v.x !in Ptrs(v.t2) && v.x !in Ptrs(v.t3)
    && v.y !in Ptrs(v.t1) && v.y !in Ptrs(v.t2) && v.y !in Ptrs(v.t3)
    && v.x !in PtrsC(k) && v.y !in PtrsC(k)
    && Ptrs(v.t1) !! PtrsC(k) && Ptrs(v.t2) !! PtrsC(k) && Ptrs(v.t3) !! PtrsC(k)
  }

  ghost predicate PairRep(h: Heap, v: Pair, p: Ptr) {
    && v.x != NULL && Aligned(v.x) && v.y != NULL && Aligned(v.y) && v.x in h && v.y in h
    && h[v.x] == Cell(v.s, Pack(v.y, v.cx), Root(v.t1), Root(v.t2), v.ax)
    && h[v.y] == Cell(v.s, Pack(p, v.cy), v.x, Root(v.t3), v.ay)
    && RepT(h, v.t1, v.x) && RepT(h, v.t2, v.x) && RepT(h, v.t3, v.y)
  }

  lemma {:induction false} PairParts(m: Image, k: Ctx, v: Pair)
    requires RepZ(m, k, PairTree(v))
    ensures PairRep(m.h, v, ParentPtr(k, NULL))
    ensures PairUniq(v, k)
  {
    RepMk(m.h, v.s, Mk(v.s, v.t1, v.x, v.cx, v.ax, v.t2), v.y, v.cy, v.ay, v.t3, ParentPtr(k, NULL));
    RepMk(m.h, v.s, v.t1, v.x, v.cx, v.ax, v.t2, v.y);
  }

  lemma {:induction false} PairCanTurn(h: Heap, k: Ctx, v: Pair)
    requires PairRep(h, v, ParentPtr(k, NULL)) && PairUniq(v, k) && RepC(h, k, NULL, v.y)
    ensures CanTurn(h, PairTurn(v, k))
    ensures ValAt(h, Root(v.t2)) == Val(v.t2) && ValAt(h, Root(v.t3)) == Val(v.t3)
  {
    RepRoot(h, v.t2, v.x);
    RepRoot(h, v.t3, v.y);
    assert k.Crumb? ==> k.x in PtrsC(k);
  }

  lemma {:induction false} PairInside(h: Heap, k: Ctx, v: Pair)
    requires RepT(h, v.t2, v.x)
    ensures {v.x, v.y, Root(v.t2), ParentPtr(k, NULL)} - {NULL} <= Ptrs(Plug(k, PairTree(v)))
  {
    PtrsPlug(k, PairTree(v));
    RepRoot(h, v.t2, v.x);
    RepMk(h, v.s, Mk(v.s, v.t1, v.x, v.cx, v.ax, v.t2), v.y, v.cy, v.ay, v.t3, NULL);
    RepMk(h, v.s, v.t1, v.x, v.cx, v.ax, v.t2, v.y);
  }

  /** The pair after the rotation. */
  function Turned(cb: Callbacks, v: Pair, u2: Tree, color: Color): Tree {
    Rotated(cb, v.s, v.t1, v.x, v.ax, u2, v.y, v.cy, v.ay, v.t3, color)
  }

  /** Rotating in memory rotates the tree that memory holds. */
  lemma {:induction false} RotateRep(cb: Callbacks, m: Image, m': Image, k: Ctx, v: Pair, color: Color, b: Color)
    requires RepZ(m, k, PairTree(v))
    requires CanTurn(m.h, PairTurn(v, k)) ==> TurnWrites(cb, m, m', PairTurn(v, k), color, b)
    ensures CanTurn(m.h, PairTurn(v, k))
    ensures RepZ(m', k, Turned(cb, v, Recolor(v.t2, b), color))
  {
    var h, h', p := m.h, m'.h, ParentPtr(k, NULL);
    PairParts(m, k, v);
    PairCanTurn(h, k, v);
    TurnFrames(cb, m, m', k, v, color, b);
    TurnFrameC(cb, m, m', k, v, color, b);
    TurnUniq(cb, k, v, color, b);
    TurnCells(cb, m, m', k, v, color, b);
    TopPtrRefill(k, v.y, v.x);
  }

  lemma {:induction false} TopPtrRefill(k: Ctx, hole: Ptr, hole': Ptr)
    ensures k.Crumb? ==> TopPtr(k, hole) == TopPtr(k, hole')
  {
  }

  lemma {:induction false} TurnUniq(cb: Callbacks, k: Ctx, v: Pair, color: Color, b: Color)
    requires PairUniq(v, k)
    ensures UniqZ(k, Turned(cb, v, Recolor(v.t2, b), color))
  {
    var u2 := Recolor(v.t2, b);
    assert Ptrs(u2) == Ptrs(v.t2) && Uniq(u2);
    assert Ptrs(Turned(cb, v, u2, color)) == Ptrs(v.t1) + {v.x} + Ptrs(v.t2) + {v.y} + Ptrs(v.t3);
  }

  lemma {:induction false} TurnCells(cb: Callbacks, m: Image, m': Image, k: Ctx, v: Pair, color: Color, b: Color)
    requires PairRep(m.h, v, ParentPtr(k, NULL))
    requires CanTurn(m.h, PairTurn(v, k)) && TurnWrites(cb, m, m', PairTurn(v, k), color, b)
    requires ValAt(m.h, Root(v.t2)) == Val(v.t2) && ValAt(m.h, Root(v.t3)) == Val(v.t3)
    requires RepT(m'.h, v.t1, v.x) && RepT(m'.h, v.t3, v.y) && RepT(m'.h, Recolor(v.t2, b), v.y)
    ensures RepT(m'.h, Turned(cb, v, Recolor(v.t2, b), color), ParentPtr(k, NULL))
  {
    var h', p, u2 := m'.h, ParentPtr(k, NULL), Recolor(v.t2, b);
    var ax' := if cb.Dummy? then v.ax else v.ay;
    var ay' := if cb.Dummy? then v.ay else Compute(cb.compute, v.s, v.y, Val(v.t2), Val(v.t3));
    RepMk(h', v.s, u2, v.y, color, ay', v.t3, v.x);
    RepMk(h', v.s, v.t1, v.x, v.cy, ax', Mk(v.s, u2, v.y, color, ay', v.t3), p);
  }

  lemma {:induction false} TurnFrames(cb: Callbacks, m: Image, m': Image, k: Ctx, v: Pair, color: Color, b: Color)
    requires PairRep(m.h, v, ParentPtr(k, NULL)) && PairUniq(v, k)
    requires CanTurn(m.h, PairTurn(v, k)) && TurnWrites(cb, m, m', PairTurn(v, k), color, b)
    ensures RepT(m'.h, v.t1, v.x) && RepT(m'.h, v.t3, v.y) && RepT(m'.h, Recolor(v.t2, b), v.y)
  {
    var h, h' := m.h, m'.h;
    RepRoot(h, v.t2, v.x);
    assert k.Crumb? ==> k.x in PtrsC(k);
    FrameT(h, h', v.t1, v.x);
    FrameT(h, h', v.t3, v.y);
    Reparent(h, h', v.t2, v.x, v.y, b);
  }

  lemma {:induction false} TurnFrameC(cb: Callbacks, m: Image, m': Image, k: Ctx, v: Pair, color: Color, b: Color)
    requires PairUniq(v, k) && RepT(m.h, v.t2, v.x) && RepC(m.h, k, NULL, v.y)
    requires CanTurn(m.h, PairTurn(v, k)) && TurnWrites(cb, m, m', PairTurn(v, k), color, b)
    ensures RepC(m'.h, k, NULL, v.x)
  {
    RepRoot(m.h, v.t2, v.x);
    assert k.Crumb? ==> k.x in PtrsC(k);
    Refill(m.h, m'.h, k, NULL, v.y, v.x);
  }

  /** Memory `l` is `m` but for what a rotation of `x` above `y` overwrites unread. */
  ghost predicate Loose(m: Image, l: Image, s: Side, y: Ptr, x: Ptr) {
    && l.root == m.root && l.h.Keys == m.h.Keys && x in l.h && y in l.h
    && SameOff(m.h, l.h, {x, y})
    && l.h[x] == m.h[x].(pc := l.h[x].pc)
    && l.h[y] == SetKid(m.h, y, s, GetKid(l.h[y], s))[y]
  }

  lemma CompletedLoose(h: Heap, root: Ptr, x: Ptr, pc: nat, p: Ptr, q: Side)
    requires x in h && p in h && x != p
    ensures Loose(Image(SetKid(SetPc(h, x, pc), p, q, x), root), Image(h, root), q, p, x)
  {
  }

  lemma StaleLoose(h: Heap, root: Ptr, x: Ptr, pc: nat, p: Ptr, q: Side)
    requires x in h && p in h && x != p
    ensures Loose(Image(SetPc(h, x, pc), root), Image(h, root), q, p, x)
  {
  }

  /** A rotation does not read the parent word of `x` or the child of `y` it replaces: memories that
      differ only there end up the same. */
  lemma LooseTurn(cb: Callbacks, m: Image, l: Image, m': Image, r: Turn, color: Color, b: Color)
    requires CanTurn(m.h, r) && Loose(m, l, r.s, r.y, r.x)
    requires CanTurn(l.h, r) ==> TurnWrites(cb, l, m', r, color, b)
    ensures CanTurn(l.h, r) && TurnWrites(cb, m, m', r, color, b)
  {
  }

  function ColorOr(t: Tree, c: Color): Color {
    if t.Node? then t.c else c
  }

  /** The code finds the subtree that changes sides below `x`. */
  lemma {:induction false} PairTmp(m: Image, l: Image, k: Ctx, v: Pair)
    requires RepZ(m, k, PairTree(v)) && (l == m || Loose(m, l, v.s, v.y, v.x))
    ensures v.x in l.h && v.y in l.h && GetKid(l.h[v.x], Other(v.s)) == Root(v.t2)
  {
    PairParts(m, k, v);
  }

  /** What the code can read before a rotation. */
  lemma {:induction false} TurnReady(m: Image, l: Image, k: Ctx, v: Pair)
    requires RepZ(m, k, PairTree(v)) && Loose(m, l, v.s, v.y, v.x)
    ensures CanTurn(m.h, PairTurn(v, k)) && CanTurn(l.h, PairTurn(v, k))
    ensures ParentOf(l.h[v.y].pc) == ParentPtr(k, NULL)
    ensures k.Crumb? ==> k.x != NULL && SlotSide(l.h, k.x, v.y) == k.s
    ensures v.t2.Node? ==> Root(v.t2) != NULL && ColorOf(l.h[v.t2.x].pc) == v.t2.c
  {
    PairParts(m, k, v);
    PairCanTurn(m.h, k, v);
    LooseCanTurn(m, l, PairTurn(v, k));
    SlotCells(m.h, k, v.y, v.cy);
    RepRoot(m.h, v.t2, v.x);
    if v.t2.Node? { PackUnpack(v.x, v.t2.c); }
  }

  lemma LooseCanTurn(m: Image, l: Image, r: Turn)
    requires CanTurn(m.h, r) && Loose(m, l, r.s, r.y, r.x)
    ensures CanTurn(l.h, r)
  {
  }

  /** What a rotation leaves, on the tree. */
  lemma {:induction false} TurnDone(cb: Callbacks, m: Image, l: Image, m': Image, k: Ctx, v: Pair, color: Color,
                                    b: Color)
    requires RepZ(m, k, PairTree(v)) && Loose(m, l, v.s, v.y, v.x)
    requires b == ColorOr(v.t2, b)
    requires CanTurn(l.h, PairTurn(v, k)) && TurnWrites(cb, l, m', PairTurn(v, k), color, b)
    ensures Rep(m', Plug(k, Turned(cb, v, v.t2, color)))
    ensures Kept(cb, Plug(k, PairTree(v)), Plug(k, Turned(cb, v, v.t2, color)))
    ensures SameOff(l.h, m'.h, Ptrs(Plug(k, PairTree(v))))
    ensures {v.x, v.y, Root(v.t2), ParentPtr(k, NULL)} - {NULL} <= Ptrs(Plug(k, PairTree(v)))
  {
    PairParts(m, k, v);
    PairCanTurn(m.h, k, v);
    PairInside(m.h, k, v);
    LooseTurn(cb, m, l, m', PairTurn(v, k), color, b);
    RotateRep(cb, m, m', k, v, color, b);
    TurnKeeps(cb, k, v, color, b);
    assert Recolor(v.t2, b) == v.t2;
    RepPlug(m', k, Turned(cb, v, v.t2, color));
  }

  // ---------------------------------------------------------------- what a rotation keeps

  /** The rule gives a subtree the same value before and after every rotation of a right tree. */
  ghost predicate RotationInvariantOnTrees(f: Rule) {
    forall x, y, t1, t2, t3 :: AugOk(f, t1) && AugOk(f, t2) && AugOk(f, t3) ==>
      RotationEq(f, x, y, Val(t1), Val(t2), Val(t3))
  }

  predicate AugGood(cb: Callbacks, t: Tree) {
    cb.Augmented? ==> AugOk(cb.compute, t)
  }

  /** The user's rule gives a subtree the same value before and after a rotation. */
  ghost predicate Sound(cb: Callbacks) {
    cb.Augmented? ==> RotationInvariantOnTrees(cb.compute)
  }

  /** The same nodes in the same order, and the stored values are still right. */
  ghost predicate Kept(cb: Callbacks, t: Tree, t': Tree) {
    Inorder(t') == Inorder(t) && Ptrs(t') == Ptrs(t) && (Sound(cb) && AugGood(cb, t) ==> AugGood(cb, t'))
  }

  lemma {:induction false} KeptTrans(cb: Callbacks, t: Tree, t': Tree, t'': Tree)
    requires Kept(cb, t, t') && Kept(cb, t', t'')
    ensures Kept(cb, t, t'') && Ptrs(t') == Ptrs(t)
  {
  }

  lemma {:induction false} SameOrderKeeps(k: Ctx, t: Tree, t': Tree)
    requires Inorder(t) == Inorder(t')
    ensures Inorder(Plug(k, t)) == Inorder(Plug(k, t')) && Ptrs(Plug(k, t)) == Ptrs(Plug(k, t'))
  {
    InorderPlug(k, t);
    InorderPlug(k, t');
    InorderMembers(Plug(k, t));
    InorderMembers(Plug(k, t'));
  }

  lemma {:induction false} TurnKeeps(cb: Callbacks, k: Ctx, v: Pair, color: Color, b: Color)
    ensures Kept(cb, Plug(k, PairTree(v)), Plug(k, Turned(cb, v, Recolor(v.t2, b), color)))
  {
    var u2 := Recolor(v.t2, b);
    var t, t' := PairTree(v), Turned(cb, v, u2, color);
    RotatedInorder(cb, v.s, v.t1, v.x, v.cx, v.ax, u2, v.y, v.cy, v.ay, v.t3, color);
    assert Inorder(Mk(v.s, v.t1, v.x, v.cx, v.ax, u2)) == Inorder(Mk(v.s, v.t1, v.x, v.cx, v.ax, v.t2)) by {
      assert Inorder(u2) == Inorder(v.t2);
    }
    SameOrderKeeps(k, t, t');
    if cb.Augmented? && Sound(cb) && AugGood(cb, Plug(k, t)) {
      TurnKeepsAug(cb.compute, k, v, color, b);
    }
  }

  lemma {:induction false} TurnKeepsAug(f: Rule, k: Ctx, v: Pair, color: Color, b: Color)
    requires AugOk(f, Plug(k, PairTree(v))) && RotationInvariantOnTrees(f)
    ensures AugOk(f, Plug(k, Turned(Augmented(f), v, Recolor(v.t2, b), color)))
  {
    var u2 := Recolor(v.t2, b);
    AugPlug(f, k, PairTree(v));
    AugMk(f, v.s, Mk(v.s, v.t1, v.x, v.cx, v.ax, v.t2), v.y, v.cy, v.ay, v.t3);
    AugMk(f, v.s, v.t1, v.x, v.cx, v.ax, v.t2);
    assert AugOk(f, u2) && Val(u2) == Val(v.t2);
    AugMk(f, v.s, v.t1, v.x, v.cx, v.ax, u2);
    AugMk(f, v.s, Mk(v.s, v.t1, v.x, v.cx, v.ax, u2), v.y, v.cy, v.ay, v.t3);
    assert RotationEq(f, v.x, v.y, Val(v.t1), Val(u2), Val(v.t3));
    assert RotationEq(f, v.y, v.x, Val(v.t3), Val(u2), Val(v.t1));
    RotatedAug(f, v.s, v.t1, v.x, v.cx, v.ax, u2, v.y, v.cy, v.ay, v.t3, color);
    AugPlug(f, k, Turned(Augmented(f), v, u2, color));
  }

  /** One rotation, exactly: around a pair with right values, all values are right afterwards when those above the
      pair are and the rotation equation holds at the pair. */
  lemma {:induction false} TurnExact(f: Rule, k: Ctx, v: Pair, color: Color)
    requires AugOk(f, PairTree(v))
    ensures AugOk(f, Plug(k, Turned(Augmented(f), v, v.t2, color)))
            <==> AugOkC(f, k, Some(v.ay)) && RotationEqAt(f, v.s, v.x, v.y, Val(v.t1), Val(v.t2), Val(v.t3))
  {
    RotatedAug(f, v.s, v.t1, v.x, v.cx, v.ax, v.t2, v.y, v.cy, v.ay, v.t3, color);
    AugPlug(f, k, Turned(Augmented(f), v, v.t2, color));
  }

  /** Three nodes that two rotations in a row turn: `n`, the inner grandchild of `g`, comes above `p` and `g`. The
      four subtrees are in order when `s` is Lft. */
  datatype Triple = Triple(s: Side, t1: Tree, p: Ptr, t2: Tree, n: Ptr, t3: Tree, g: Ptr, t4: Tree)

  /** What the two rotations make of them; `a` is the value `g` had. */
  function TripleTree(f: Rule, w: Triple, cp: Color, cn: Color, a: Aug, cg: Color): Tree {
    Mk(w.s, Mk(w.s, w.t1, w.p, cp, Compute(f, w.s, w.p, Val(w.t1), Val(w.t2)), w.t2), w.n, cn, a,
       Mk(w.s, w.t3, w.g, cg, Compute(f, w.s, w.g, Val(w.t3), Val(w.t4)), w.t4))
  }

  /** The value of the subtree is the same with `g` on top and with `n` on top. */
  predicate DoubleEq(f: Rule, w: Triple) {
    var v1, v2, v3, v4 := Val(w.t1), Val(w.t2), Val(w.t3), Val(w.t4);
    Compute(f, w.s, w.g, Some(Compute(f, w.s, w.p, v1, Some(Compute(f, w.s, w.n, v2, v3)))), v4)
    == Compute(f, w.s, w.n, Some(Compute(f, w.s, w.p, v1, v2)), Some(Compute(f, w.s, w.g, v3, v4)))
  }

  lemma {:induction false} TripleExact(f: Rule, w: Triple, cp: Color, cn: Color, a: Aug, cg: Color)
    requires AugOk(f, w.t1) && AugOk(f, w.t2) && AugOk(f, w.t3) && AugOk(f, w.t4)
    requires a == Compute(f, w.s, w.g, Some(Compute(f, w.s, w.p, Val(w.t1),
        Some(Compute(f, w.s, w.n, Val(w.t2), Val(w.t3))))),
                          Val(w.t4))
    ensures AugOk(f, TripleTree(f, w, cp, cn, a, cg)) <==> DoubleEq(f, w)
  {
    var lower := Mk(w.s, w.t1, w.p, cp, Compute(f, w.s, w.p, Val(w.t1), Val(w.t2)), w.t2);
    var upper := Mk(w.s, w.t3, w.g, cg, Compute(f, w.s, w.g, Val(w.t3), Val(w.t4)), w.t4);
    AugMk(f, w.s, w.t1, w.p, cp, lower.a, w.t2);
    AugMk(f, w.s, w.t3, w.g, cg, upper.a, w.t4);
    AugMk(f, w.s, lower, w.n, cn, a, upper);
  }

  /** The rotate callback leaves right values on every rotation of every tree with right values. */
  ghost predicate RotateCallbackRight(f: Rule) {
    forall v: Pair, color :: AugOk(f, PairTree(v)) ==> AugOk(f, Turned(Augmented(f), v, v.t2, color))
  }

  /** The rotate callback is right exactly for the rotation-invariant rules. */
  lemma {:induction false} RotateCallbackExact(f: Rule)
    ensures RotateCallbackRight(f) <==> RotationInvariantOnTrees(f)
  {
    if RotateCallbackRight(f) {
      forall x, y, t1, t2, t3 | AugOk(f, t1) && AugOk(f, t2) && AugOk(f, t3)
        ensures RotationEq(f, x, y, Val(t1), Val(t2), Val(t3))
      {
        var ax := f(x, Val(t1), Val(t2));
        var ay := f(y, Some(ax), Val(t3));
        var v := Pair(Lft, t1, x, Red, ax, t2, y, Red, ay, t3);
        AugMk(f, Lft, t1, x, Red, ax, t2);
        AugMk(f, Lft, Mk(Lft, t1, x, Red, ax, t2), y, Red, ay, t3);
        assert AugOk(f, Turned(Augmented(f), v, v.t2, Red));
        RotatedAug(f, Lft, t1, x, Red, ax, t2, y, Red, ay, t3, Red);
      }
    }
    if RotationInvariantOnTrees(f) {
      forall v: Pair, color | AugOk(f, PairTree(v))
        ensures AugOk(f, Turned(Augmented(f), v, v.t2, color))
      {
        AugMk(f, v.s, Mk(v.s, v.t1, v.x, v.cx, v.ax, v.t2), v.y, v.cy, v.ay, v.t3);
        AugMk(f, v.s, v.t1, v.x, v.cx, v.ax, v.t2);
        assert RotationEq(f, v.x, v.y, Val(v.t1), Val(v.t2), Val(v.t3));
        assert RotationEq(f, v.y, v.x, Val(v.t3), Val(v.t2), Val(v.t1));
        RotatedAug(f, v.s, v.t1, v.x, v.cx, v.ax, v.t2, v.y, v.cy, v.ay, v.t3, color);
      }
    }
  }

  /** Subtree height as an augmented value: not a rule the rotate callback supports. */
  function HeightRule(x: Ptr, l: Option<Aug>, r: Option<Aug>): Aug {
    var hl := if l.Some? then l.value else 0;
    var hr := if r.Some? then r.value else 0;
    1 + if hl > hr then hl else hr
  }

  /** Subtree size as an augmented value: a rule the rotate callback supports. */
  function SizeRule(x: Ptr, l: Option<Aug>, r: Option<Aug>): Aug {
    var nl := if l.Some? then l.value else 0;
    var nr := if r.Some? then r.value else 0;
    nl + 1 + nr
  }

  lemma SizeRuleSound()
    ensures Sound(Augmented(SizeRule))
  {
  }
}
