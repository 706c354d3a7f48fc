/**
 The mathematical side of the red-black tree of kernel/linux/rbtree.c: trees, zippers (a tree
 with a hole), the red-black properties, in-order sequences and augmented values.

 A zipper is how the bottom-up loops are described: `node` is the root of the focus, and the
 path from `node` up to the root is the context, nearest crumb first.
 */
module RbTreeModel {
  import opened Options
  import opened Powers

  /** A node address. 0 is NULL. */
  type Ptr = nat

  const NULL: Ptr := 0

  /** rbtype, the scalar a user keeps per node. */
  type Aug = int

  datatype Color = Red | Black

  /** The mirrored halves of the C code are one text here, indexed by the side it works on. */
  datatype Side = Lft | Rgt

  function Other(s: Side): Side {
    if s.Lft? then Rgt else Lft
  }

  /** A tree of node addresses; `a` is the augmented value stored in the node. */
  datatype Tree = Leaf | Node(l: Tree, x: Ptr, c: Color, a: Aug, r: Tree)

  /** A tree with a hole: the hole is the child on side `s` of `x`, and `sib` is the other child. */
  datatype Ctx = Top | Crumb(up: Ctx, s: Side, x: Ptr, c: Color, a: Aug, sib: Tree)

  /** rbcompute: the value of a node from the node itself and its left and right child's values. */
  type Rule = (Ptr, Option<Aug>, Option<Aug>) -> Aug

  /** The callback table: dummy_callbacks, or the one RB_DECLARE_CALLBACKS builds from rbcompute. */
  datatype Callbacks = Dummy | Augmented(compute: Rule)

  /** The node with `near` on side `s` and `far` on the other side. */
  function Mk(s: Side, near: Tree, x: Ptr, c: Color, a: Aug, far: Tree): Tree {
    if s.Lft? then Node(near, x, c, a, far) else Node(far, x, c, a, near)
  }

  function Root(t: Tree): Ptr {
    if t.Leaf? then NULL else t.x
  }

  function Kid(t: Tree, s: Side): Tree
    requires t.Node?
  {
    if s.Lft? then t.l else t.r
  }

  function Recolor(t: Tree, c: Color): Tree {
    if t.Leaf? then Leaf else t.(c := c)
  }

  function Plug(k: Ctx, t: Tree): Tree
    decreases k
  {
    match k
    case Top => t
    case Crumb(up, s, x, c, a, sib) => Plug(up, Mk(s, t, x, c, a, sib))
  }

  /** The context `k` continued by the context `base`. */
  function Compose(k: Ctx, base: Ctx): Ctx {
    match k
    case Top => base
    case Crumb(up, s, x, c, a, sib) => Crumb(Compose(up, base), s, x, c, a, sib)
  }

  function Length(k: Ctx): nat {
    if k.Top? then 0 else 1 + Length(k.up)
  }

  /** The parent of the hole, `base` when the context is empty. */
  function ParentPtr(k: Ctx, base: Ptr): Ptr {
    if k.Top? then base else k.x
  }

  /** The root of the whole when `hole` is the address plugged in. */
  function TopPtr(k: Ctx, hole: Ptr): Ptr {
    match k
    case Top => hole
    case Crumb(up, _, x, _, _, _) => TopPtr(up, x)
  }

  // ---------------------------------------------------------------- addresses and order

  function Ptrs(t: Tree): set<Ptr> {
    match t
    case Leaf => {}
    case Node(l, x, _, _, r) => Ptrs(l) + {x} + Ptrs(r)
  }

  function PtrsC(k: Ctx): set<Ptr> {
    match k
    case Top => {}
    case Crumb(up, _, x, _, _, sib) => PtrsC(up) + {x} + Ptrs(sib)
  }

  /** No address occurs twice. */
  predicate Uniq(t: Tree) {
    match t
    case Leaf => true
    case Node(l, x, _, _, r) =>
      x !in Ptrs(l) && x !in Ptrs(r) && Ptrs(l) !! Ptrs(r) && Uniq(l) && Uniq(r)
  }

  predicate UniqC(k: Ctx) {
    match k
    case Top => true
    case Crumb(up, _, x, _, _, sib) =>
      x !in Ptrs(sib) && x !in PtrsC(up) && Ptrs(sib) !! PtrsC(up) && Uniq(sib) && UniqC(up)
  }

  predicate UniqZ(k: Ctx, t: Tree) {
    Uniq(t) && UniqC(k) && Ptrs(t) !! PtrsC(k)
  }

  /** The nodes in sort order: the order rb_first and rb_next follow. */
  function Inorder(t: Tree): seq<Ptr> {
    match t
    case Leaf => []
    case Node(l, x, _, _, r) => Inorder(l) + [x] + Inorder(r)
  }

  function Before(k: Ctx): seq<Ptr> {
    match k
    case Top => []
    case Crumb(up, s, x, _, _, sib) =>
      if s.Lft? then Before(up) else Before(up) + Inorder(sib) + [x]
  }

  function After(k: Ctx): seq<Ptr> {
    match k
    case Top => []
    case Crumb(up, s, x, _, _, sib) =>
      if s.Lft? then [x] + Inorder(sib) + After(up) else After(up)
  }

  lemma {:induction false} InorderPlug(k: Ctx, t: Tree)
    ensures Inorder(Plug(k, t)) == Before(k) + Inorder(t) + After(k)
    decreases k
  {
    match k
    case Top =>
    case Crumb(up, s, x, c, a, sib) => InorderPlug(up, Mk(s, t, x, c, a, sib));
  }

  lemma {:induction false} PtrsPlug(k: Ctx, t: Tree)
    ensures Ptrs(Plug(k, t)) == PtrsC(k) + Ptrs(t)
    decreases k
  {
    match k
    case Top =>
    case Crumb(up, s, x, c, a, sib) => PtrsPlug(up, Mk(s, t, x, c, a, sib));
  }

  lemma {:induction false} UniqPlug(k: Ctx, t: Tree)
    ensures Uniq(Plug(k, t)) <==> UniqZ(k, t)
    decreases k
  {
    match k
    case Top =>
    case Crumb(up, s, x, c, a, sib) => UniqPlug(up, Mk(s, t, x, c, a, sib));
  }

  lemma {:induction false} PlugCompose(k: Ctx, base: Ctx, t: Tree)
    ensures Plug(Compose(k, base), t) == Plug(base, Plug(k, t))
    decreases k
  {
    match k
    case Top =>
    case Crumb(up, s, x, c, a, sib) => PlugCompose(up, base, Mk(s, t, x, c, a, sib));
  }

  lemma {:induction false} ComposeShape(k: Ctx, base: Ctx, hole: Ptr, b: Ptr)
    ensures PtrsC(Compose(k, base)) == PtrsC(k) + PtrsC(base)
    ensures UniqC(Compose(k, base)) <==> UniqC(k) && UniqC(base) && PtrsC(k) !! PtrsC(base)
    ensures TopPtr(Compose(k, base), hole) == TopPtr(base, TopPtr(k, hole))
    ensures ParentPtr(Compose(k, base), b) == ParentPtr(k, ParentPtr(base, b))
    decreases k
  {
    match k
    case Top =>
    case Crumb(up, s, x, c, a, sib) => ComposeShape(up, base, x, b);
  }

  lemma {:induction false} InorderMembers(t: Tree)
    ensures forall x :: x in Inorder(t) <==> x in Ptrs(t)
  {
    if t.Node? {
      InorderMembers(t.l);
      InorderMembers(t.r);
    }
  }

  lemma {:induction false} BeforeAfterMembers(k: Ctx)
    ensures forall x :: x in PtrsC(k) <==> x in Before(k) || x in After(k)
  {
    if k.Crumb? {
      BeforeAfterMembers(k.up);
      InorderMembers(k.sib);
    }
  }

  /** The position of node `x`: the context above it. */
  function Locate(t: Tree, x: Ptr, k: Ctx): (r: (Ctx, Tree))
    requires x in Ptrs(t)
    ensures r.1.Node?
    decreases t
  {
    if t.x == x then (k, t)
    else if x in Ptrs(t.l) then Locate(t.l, x, Crumb(k, Lft, t.x, t.c, t.a, t.r))
    else Locate(t.r, x, Crumb(k, Rgt, t.x, t.c, t.a, t.l))
  }

  lemma {:induction false} LocateCorrect(t: Tree, x: Ptr, k: Ctx)
    requires x in Ptrs(t)
    ensures var (kx, tx) := Locate(t, x, k);
            Plug(kx, tx) == Plug(k, t) && tx.Node? && tx.x == x
    decreases t
  {
    if t.x == x {
    } else if x in Ptrs(t.l) {
      LocateCorrect(t.l, x, Crumb(k, Lft, t.x, t.c, t.a, t.r));
    } else {
      LocateCorrect(t.r, x, Crumb(k, Rgt, t.x, t.c, t.a, t.l));
    }
  }

  // ---------------------------------------------------------------- red-black properties

  predicate IsBlack(t: Tree) {
    t.Leaf? || t.c.Black?
  }

  function Bit(c: Color): nat {
    if c.Black? then 1 else 0
  }

  /** Property 5: every path from the root of `t` to a leaf has `n` black nodes. */
  predicate Bal(t: Tree, n: nat) {
    match t
    case Leaf => n == 0
    case Node(l, _, c, _, r) => Bit(c) <= n && Bal(l, n - Bit(c)) && Bal(r, n - Bit(c))
  }

  /** Property 5 around a hole that must be filled by a tree of black height `n`. */
  predicate BalC(k: Ctx, n: nat) {
    match k
    case Top => true
    case Crumb(up, _, _, c, _, sib) => Bal(sib, n) && BalC(up, n + Bit(c))
  }

  /** Property 4: both children of every red node are black. */
  predicate NoRedRed(t: Tree) {
    match t
    case Leaf => true
    case Node(l, _, c, _, r) => (c.Red? ==> IsBlack(l) && IsBlack(r)) && NoRedRed(l) && NoRedRed(r)
  }

  /** Properties 2 and 4 around a hole, whatever fills it: a red crumb has a black crumb above it. */
  predicate NoRedRedC(k: Ctx) {
    match k
    case Top => true
    case Crumb(up, _, _, c, _, sib) =>
      && NoRedRed(sib)
      && (c.Red? ==> IsBlack(sib) && up.Crumb? && up.c.Black?)
      && NoRedRedC(up)
  }

  /** A red tree may fill the hole. */
  predicate AcceptsRed(k: Ctx) {
    k.Crumb? && k.c.Black?
  }

  /** Properties 2, 4 and 5 (1 and 3 are built into the datatypes). */
  ghost predicate RedBlack(t: Tree) {
    IsBlack(t) && NoRedRed(t) && exists n: nat :: Bal(t, n)
  }

  /** Everything right around and inside the focus. */
  predicate Fits(k: Ctx, t: Tree, n: nat) {
    && Bal(t, n) && BalC(k, n)
    && NoRedRed(t) && NoRedRedC(k)
    && (!IsBlack(t) ==> AcceptsRed(k))
  }

  lemma {:induction false} MkShape(s: Side, near: Tree, x: Ptr, c: Color, a: Aug, far: Tree, n: nat)
    ensures Bal(Mk(s, near, x, c, a, far), n) <==> Bit(c) <= n && Bal(near, n - Bit(c)) && Bal(far, n - Bit(c))
    ensures NoRedRed(Mk(s, near, x, c, a, far)) <==>
            (c.Red? ==> IsBlack(near) && IsBlack(far)) && NoRedRed(near) && NoRedRed(far)
  {
  }

  lemma {:induction false} PlugRedBlack(k: Ctx, t: Tree, n: nat)
    requires Fits(k, t, n)
    ensures RedBlack(Plug(k, t))
    decreases k
  {
    match k
    case Top =>
    case Crumb(up, s, x, c, a, sib) => PlugRedBlack(up, Mk(s, t, x, c, a, sib), n + Bit(c));
  }

  lemma {:induction false} UnplugRedBlack(k: Ctx, t: Tree) returns (n: nat)
    requires RedBlack(Plug(k, t))
    ensures Fits(k, t, n)
    decreases k
  {
    match k
    case Top =>
      n :| Bal(t, n);
    case Crumb(up, s, x, c, a, sib) =>
      var m := UnplugRedBlack(up, Mk(s, t, x, c, a, sib));
      n := m - Bit(c);
  }

  /** What holds when the insertion loop starts an iteration: the focus is red, and a red parent is
      the only thing that can be wrong. */
  predicate InsertInv(k: Ctx, t: Tree, n: nat) {
    && t.Node? && t.c.Red?
    && Bal(t, n) && BalC(k, n)
    && NoRedRed(t) && NoRedRedC(k)
  }

  /** What holds when the erase loop starts an iteration: node is black or NULL, is not the root, and
      the paths through it are one black node short. */
  predicate EraseInv(k: Ctx, t: Tree, n: nat) {
    && k.Crumb? && IsBlack(t)
    && Bal(t, n) && BalC(k, n + 1)
    && NoRedRed(t) && NoRedRedC(k)
  }

  // ---------------------------------------------------------------- height

  function Size(t: Tree): nat {
    if t.Leaf? then 0 else Size(t.l) + 1 + Size(t.r)
  }

  function Height(t: Tree): nat {
    if t.Leaf? then 0
    else if Height(t.l) > Height(t.r) then Height(t.l) + 1 else Height(t.r) + 1
  }

  lemma {:induction false} SquareMonotone(p: nat, q: nat)
    requires p <= q
    ensures p * p <= q * q
  {
    assert p * p <= p * q;
    assert p * q <= q * q;
  }

  lemma {:induction false} BlackHeightBounds(t: Tree, n: nat)
    requires Bal(t, n) && NoRedRed(t)
    ensures Pow2(n) <= Size(t) + 1
    ensures Height(t) <= 2 * n + (if IsBlack(t) then 0 else 1)
    decreases t
  {
    if t.Node? {
      BlackHeightBounds(t.l, n - Bit(t.c));
      BlackHeightBounds(t.r, n - Bit(t.c));
    }
  }

  /** The O(log n) promise: 2^height <= (size + 1)^2, that is, height <= 2 * log2(size + 1). */
  lemma {:induction false} HeightBound(t: Tree)
    requires RedBlack(t)
    ensures Pow2(Height(t)) <= (Size(t) + 1) * (Size(t) + 1)
  {
    var n: nat :| Bal(t, n);
    BlackHeightBounds(t, n);
    Pow2Monotone(Height(t), 2 * n);
    Pow2Double(n);
    SquareMonotone(Pow2(n), Size(t) + 1);
  }

  // ---------------------------------------------------------------- augmented values

  function Val(t: Tree): Option<Aug> {
    if t.Leaf? then None else Some(t.a)
  }

  /** rbcompute at node `x` whose child on side `s` has value `near` and whose other child has `far`. */
  function Compute(f: Rule, s: Side, x: Ptr, near: Option<Aug>, far: Option<Aug>): Aug {
    if s.Lft? then f(x, near, far) else f(x, far, near)
  }

  /** Every stored value equals the recomputed one. */
  predicate AugOk(f: Rule, t: Tree) {
    match t
    case Leaf => true
    case Node(l, x, _, a, r) => a == f(x, Val(l), Val(r)) && AugOk(f, l) && AugOk(f, r)
  }

  /** Every stored value in the context is right when the hole's value is `v`. */
  predicate AugOkC(f: Rule, k: Ctx, v: Option<Aug>) {
    match k
    case Top => true
    case Crumb(up, s, x, _, a, sib) =>
      a == Compute(f, s, x, v, Val(sib)) && AugOk(f, sib) && AugOkC(f, up, Some(a))
  }

  lemma {:induction false} AugMk(f: Rule, s: Side, near: Tree, x: Ptr, c: Color, a: Aug, far: Tree)
    ensures AugOk(f, Mk(s, near, x, c, a, far)) <==>
            a == Compute(f, s, x, Val(near), Val(far)) && AugOk(f, near) && AugOk(f, far)
  {
  }

  lemma {:induction false} AugPlug(f: Rule, k: Ctx, t: Tree)
    ensures AugOk(f, Plug(k, t)) <==> AugOk(f, t) && AugOkC(f, k, Val(t))
    decreases k
  {
    match k
    case Top =>
    case Crumb(up, s, x, c, a, sib) => AugPlug(f, up, Mk(s, t, x, c, a, sib));
  }

  /** The value of a subtree does not change when the two nodes at its top are rotated. */
  predicate RotationEq(f: Rule, x: Ptr, y: Ptr,
                              a: Option<Aug>, b: Option<Aug>, c: Option<Aug>) {
    f(y, Some(f(x, a, b)), c) == f(x, a, Some(f(y, b, c)))
  }

  /** The tree after rotating `x`, the child of `y` on side `s`, above `y`: `x` takes the colour and
      the stored value of `y`, and `y` gets `color` and a recomputed value. */
  function Rotated(cb: Callbacks, s: Side, t1: Tree, x: Ptr, ax: Aug, t2: Tree,
                      y: Ptr, cy: Color, ay: Aug, t3: Tree, color: Color): Tree {
    Mk(s, t1, x, cy, if cb.Dummy? then ax else ay,
       Mk(s, t2, y, color, if cb.Dummy? then ay else Compute(cb.compute, s, y, Val(t2), Val(t3)), t3))
  }

  lemma {:induction false} RotatedInorder(cb: Callbacks, s: Side, t1: Tree, x: Ptr, cx: Color, ax: Aug, t2: Tree,
                          y: Ptr, cy: Color, ay: Aug, t3: Tree, color: Color)
    ensures Inorder(Rotated(cb, s, t1, x, ax, t2, y, cy, ay, t3, color))
            == Inorder(Mk(s, Mk(s, t1, x, cx, ax, t2), y, cy, ay, t3))
  {
    if s.Lft? {
      assert Inorder(t1) + [x] + (Inorder(t2) + [y] + Inorder(t3))
             == (Inorder(t1) + [x] + Inorder(t2)) + [y] + Inorder(t3);
    } else {
      assert Inorder(t3) + [y] + (Inorder(t2) + [x] + Inorder(t1))
             == (Inorder(t3) + [y] + Inorder(t2)) + [x] + Inorder(t1);
    }
  }

  /** The equation a rotation on side `s` depends on: a left and a right rotation need the same one. */
  predicate RotationEqAt(f: Rule, s: Side, x: Ptr, y: Ptr,
                                v1: Option<Aug>, v2: Option<Aug>, v3: Option<Aug>) {
    if s.Lft? then RotationEq(f, x, y, v1, v2, v3) else RotationEq(f, y, x, v3, v2, v1)
  }

  /** The rotate callback is right for one rotation exactly when the rotation equation holds there. */
  lemma {:induction false} RotatedAug(f: Rule, s: Side, t1: Tree, x: Ptr, cx: Color, ax: Aug, t2: Tree,
                      y: Ptr, cy: Color, ay: Aug, t3: Tree, color: Color)
    requires AugOk(f, Mk(s, Mk(s, t1, x, cx, ax, t2), y, cy, ay, t3))
    ensures AugOk(f, Rotated(Augmented(f), s, t1, x, ax, t2, y, cy, ay, t3, color))
            <==> RotationEqAt(f, s, x, y, Val(t1), Val(t2), Val(t3))
  {
  }
}
