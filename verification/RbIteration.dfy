/**
 Reading a tree in order: rb_first and rb_next, with rb_last and rb_prev as their mirror images, and the
 postorder iteration; and rb_replace_node (kernel/linux/rbtree.c).
 */
module RbIteration {
  import opened RbTreeModel
  import opened RbMemory
  import opened RbRoots
  import opened RbLookup

  function Head(s: seq<Ptr>): Ptr {
    if s == [] then NULL else s[0]
  }

  // ---------------------------------------------------------------- sort order, in both directions

  /** The nodes of `t` in sort order (d == Rgt) or in reverse sort order (d == Lft). */
  function Order(d: Side, t: Tree): seq<Ptr> {
    if t.Leaf? then []
    else if d.Rgt? then Order(d, t.l) + [t.x] + Order(d, t.r)
    else Order(d, t.r) + [t.x] + Order(d, t.l)
  }

  function Preceding(d: Side, k: Ctx): seq<Ptr> {
    if k.Top? then [] else if k.s != d then Preceding(d, k.up) else Preceding(d, k.up) + Order(d, k.sib) + [k.x]
  }

  function Following(d: Side, k: Ctx): seq<Ptr> {
    if k.Top? then [] else if k.s != d then [k.x] + Order(d, k.sib) + Following(d, k.up) else Following(d, k.up)
  }

  lemma {:induction false} OrderForward(t: Tree)
    ensures Order(Rgt, t) == Inorder(t)
  {
    if t.Node? {
      OrderForward(t.l);
      OrderForward(t.r);
    }
  }

  lemma {:induction false} OrderBackward(t: Tree)
    ensures |Order(Lft, t)| == |Inorder(t)|
    ensures forall i :: 0 <= i < |Inorder(t)| ==> Order(Lft, t)[i] == Inorder(t)[|Inorder(t)| - 1 - i]
  {
    if t.Node? {
      OrderBackward(t.l);
      OrderBackward(t.r);
    }
  }

  lemma Shift(p: seq<Ptr>, o: seq<Ptr>, x: Ptr, q: seq<Ptr>, f: seq<Ptr>)
    ensures p + (o + [x] + q) + f == p + o + ([x] + q + f)
    ensures p + (o + [x] + q) + f == (p + o + [x]) + q + f
  {
  }

  lemma {:induction false} OrderPlug(d: Side, k: Ctx, t: Tree)
    ensures Order(d, Plug(k, t)) == Preceding(d, k) + Order(d, t) + Following(d, k)
    decreases k
  {
    if k.Crumb? {
      var u := Mk(k.s, t, k.x, k.c, k.a, k.sib);
      OrderPlug(d, k.up, u);
      var p, o, q, f := Preceding(d, k.up), Order(d, t), Order(d, k.sib), Following(d, k.up);
      if k.s != d {
        assert Order(d, u) == o + [k.x] + q;
        Shift(p, o, k.x, q, f);
      } else {
        assert Order(d, u) == q + [k.x] + o;
        Shift(p, q, k.x, o, f);
      }
    }
  }

  lemma {:induction false} OrderMembers(d: Side, t: Tree)
    ensures forall x :: x in Order(d, t) <==> x in Ptrs(t)
  {
    if t.Node? {
      OrderMembers(d, t.l);
      OrderMembers(d, t.r);
    }
  }

  lemma {:induction false} OrderDistinct(d: Side, t: Tree)
    requires Uniq(t)
    ensures forall i, j :: 0 <= i < j < |Order(d, t)| ==> Order(d, t)[i] != Order(d, t)[j]
  {
    if t.Node? {
      OrderDistinct(d, t.l);
      OrderDistinct(d, t.r);
      OrderMembers(d, t.l);
      OrderMembers(d, t.r);
      var a, b := if d.Rgt? then Order(d, t.l) else Order(d, t.r), if d.Rgt? then Order(d, t.r) else Order(d, t.l);
      assert Order(d, t) == a + [t.x] + b;
      assert forall i :: 0 <= i < |a| ==> a[i] in a;
      assert forall i :: 0 <= i < |b| ==> b[i] in b;
    }
  }

  /** Where a node stands in the order. */
  lemma {:induction false} OrderAt(d: Side, k: Ctx, t: Tree, i: nat)
    requires Uniq(Plug(k, t)) && t.Node? && i < |Order(d, Plug(k, t))| && Order(d, Plug(k, t))[i] == t.x
    ensures Order(d, Plug(k, t))[i + 1..] == Order(d, Kid(t, d)) + Following(d, k)
  {
    OrderPlug(d, k, t);
    OrderDistinct(d, Plug(k, t));
    var p, a, b, f := Preceding(d, k), Order(d, Kid(t, Other(d))), Order(d, Kid(t, d)), Following(d, k);
    assert Order(d, t) == a + [t.x] + b;
    Position(Order(d, Plug(k, t)), p, a, t.x, b, f, i);
  }

  lemma Position(whole: seq<Ptr>, p: seq<Ptr>, a: seq<Ptr>, x: Ptr, b: seq<Ptr>, f: seq<Ptr>, i: nat)
    requires whole == p + (a + [x] + b) + f && i < |whole| && whole[i] == x
    requires forall i, j :: 0 <= i < j < |whole| ==> whole[i] != whole[j]
    ensures whole[i + 1..] == b + f
  {
    assert whole[|p| + |a|] == x;
    assert i == |p| + |a|;
  }

  lemma {:induction false} ReadCell(m: Image, k: Ctx, t: Tree)
    requires Rep(m, Plug(k, t)) && t.Node?
    ensures t.x in m.h && t.x != NULL && m.h[t.x].left == Root(t.l) && m.h[t.x].right == Root(t.r)
    ensures (t.l.Leaf? <==> Root(t.l) == NULL) && (t.r.Leaf? <==> Root(t.r) == NULL)
    ensures ParentOf(m.h[t.x].pc) == ParentPtr(k, NULL) && m.h[t.x].pc != t.x
    ensures k.Crumb? ==>
              k.x in m.h && k.x != NULL && (m.h[k.x].left == t.x <==> k.s.Lft?) && (m.h[k.x].right == t.x <==> k.s.Rgt?)
    ensures k.Crumb? ==> GetKid(m.h[k.x], Other(k.s)) == Root(k.sib) && (k.sib.Leaf? <==> Root(k.sib) == NULL)
  {
    RepPlug(m, k, t);
    RepRoot(m.h, t.l, t.x);
    RepRoot(m.h, t.r, t.x);
    assert t.x in Ptrs(t);
    SlotCells(m.h, k, t.x, t.c);
    PackUnpack(t.x, Red);
    if k.Crumb? { RepRoot(m.h, k.sib, k.x); }
  }

  /** The descent shared by all of them: from a node as far as possible to the side opposite to `d`. */
  method Descend(r: RbRoot, d: Side, n0: Ptr, ghost k0: Ctx, ghost t0: Tree) returns (n: Ptr)
    requires Rep(r.Img(), Plug(k0, t0)) && t0.Node? && t0.x == n0
    ensures n == Head(Order(d, t0)) && n != NULL
  {
    n := n0;
    ghost var k, t := k0, t0;
    ReadCell(r.Img(), k, t);
    while GetKid(r.h[n], Other(d)) != NULL
      invariant t.Node? && t.x == n && n in r.h && Plug(k, t) == Plug(k0, t0)
      invariant Head(Order(d, t)) == Head(Order(d, t0)) && n != NULL
      invariant GetKid(r.h[n], Other(d)) == Root(Kid(t, Other(d)))
      invariant (Kid(t, Other(d)).Leaf? <==> Root(Kid(t, Other(d))) == NULL)
      decreases t
    {
      n := GetKid(r.h[n], Other(d));
      k, t := Crumb(k, Other(d), t.x, t.c, t.a, Kid(t, d)), Kid(t, Other(d));
      ReadCell(r.Img(), k, t);
    }
  }

  /** rb_first (d == Rgt) and rb_last (d == Lft). */
  method First(r: RbRoot, d: Side, ghost t: Tree) returns (n: Ptr)
    requires Rep(r.Img(), t)
    ensures n == Head(Order(d, t))
    ensures n == NULL <==> t.Leaf?
  {
    n := r.root;
    if t.Node? { ReadCell(r.Img(), Top, t); }
    if n == NULL { return; }
    n := Descend(r, d, n, Top, t);
  }

  /** rb_next (d == Rgt) and rb_prev (d == Lft): the node after `node` in the order, NULL after the last. */
  method Next(r: RbRoot, d: Side, node0: Ptr, ghost t0: Tree, ghost i: nat) returns (n: Ptr)
    requires Rep(r.Img(), t0) && i < |Order(d, t0)| && Order(d, t0)[i] == node0
    ensures n == Head(Order(d, t0)[i + 1..])
    ensures n == NULL <==> i + 1 == |Order(d, t0)|
  {
    OrderMembers(d, t0);
    LocateCorrect(t0, node0, Top);
    ghost var (k, t) := Locate(t0, node0, Top);
    OrderAt(d, k, t, i);
    ReadCell(r.Img(), k, t);
    NullNotIn(r.Img(), d, t0);
    if r.h[node0].pc == node0 { return NULL; } // RB_EMPTY_NODE
    var node := node0;
    if GetKid(r.h[node], d) != NULL {
      node := GetKid(r.h[node], d);
      n := Descend(r, d, node, Crumb(k, d, t.x, t.c, t.a, Kid(t, Other(d))), Kid(t, d));
      return;
    }
    n := Climb(r, d, node, k, t);
  }

  /** The climb of rb_next: up while `node` is the child on side `d`. */
  method Climb(r: RbRoot, d: Side, node0: Ptr, ghost k0: Ctx, ghost t0: Tree) returns (parent: Ptr)
    requires Rep(r.Img(), Plug(k0, t0)) && t0.Node? && t0.x == node0
    ensures parent == Head(Following(d, k0))
  {
    var node := node0;
    ghost var k, t := k0, t0;
    ReadCell(r.Img(), k, t);
    parent := ParentOf(r.h[node].pc);
    while parent != NULL && node == GetKid(r.h[parent], d)
      invariant Plug(k, t) == Plug(k0, t0) && t.Node? && t.x == node && parent == ParentPtr(k, NULL)
      invariant k.Crumb? ==> parent in r.h && parent != NULL && (GetKid(r.h[parent], d) == node <==> k.s == d)
      invariant Following(d, k) == Following(d, k0)
      decreases k
    {
      node := parent;
      k, t := k.up, Mk(k.s, t, k.x, k.c, k.a, k.sib);
      ReadCell(r.Img(), k, t);
      parent := ParentOf(r.h[node].pc);
    }
  }

  lemma {:induction false} NullNotIn(m: Image, d: Side, t: Tree)
    requires Rep(m, t)
    ensures NULL !in Order(d, t)
  {
    OrderMembers(d, t);
    NullOutsideT(m.h, t, NULL);
  }

  /** Starting at rb_first and following rb_next visits exactly the nodes in order, and ends. */
  method Walk(r: RbRoot, d: Side, ghost t: Tree) returns (out: seq<Ptr>)
    requires Rep(r.Img(), t)
    ensures out == Order(d, t)
  {
    out := [];
    var n := First(r, d, t);
    while n != NULL
      invariant out <= Order(d, t) && n == Head(Order(d, t)[|out|..]) && (n == NULL <==> |out| == |Order(d, t)|)
      decreases |Order(d, t)| - |out|
    {
      ghost var i := |out|;
      out := out + [n];
      assert Order(d, t)[i] == n && Order(d, t)[..i + 1] == out;
      n := Next(r, d, n, t, i);
    }
  }

  // ---------------------------------------------------------------- postorder

  function Postorder(t: Tree): seq<Ptr> {
    if t.Leaf? then [] else Postorder(t.l) + Postorder(t.r) + [t.x]
  }

  function FollowingPost(k: Ctx): seq<Ptr> {
    if k.Top? then [] else (if k.s.Lft? then Postorder(k.sib) else []) + [k.x] + FollowingPost(k.up)
  }

  function PrecedingPost(k: Ctx): seq<Ptr> {
    if k.Top? then [] else PrecedingPost(k.up) + (if k.s.Lft? then [] else Postorder(k.sib))
  }

  lemma {:induction false} PostorderPlug(k: Ctx, t: Tree)
    ensures Postorder(Plug(k, t)) == PrecedingPost(k) + Postorder(t) + FollowingPost(k)
    decreases k
  {
    if k.Crumb? { PostorderPlug(k.up, Mk(k.s, t, k.x, k.c, k.a, k.sib)); }
  }

  lemma {:induction false} PostorderMembers(t: Tree)
    ensures forall x :: x in Postorder(t) <==> x in Ptrs(t)
  {
    if t.Node? {
      PostorderMembers(t.l);
      PostorderMembers(t.r);
    }
  }

  /** Postorder lists each node once, after every node below it. */
  lemma {:induction false} PostorderDistinct(t: Tree)
    requires Uniq(t)
    ensures forall i, j :: 0 <= i < j < |Postorder(t)| ==> Postorder(t)[i] != Postorder(t)[j]
  {
    if t.Node? {
      PostorderDistinct(t.l);
      PostorderDistinct(t.r);
      PostorderMembers(t.l);
      PostorderMembers(t.r);
      var a, b := Postorder(t.l), Postorder(t.r);
      assert forall i :: 0 <= i < |a| ==> a[i] in a;
      assert forall i :: 0 <= i < |b| ==> b[i] in b;
    }
  }

  lemma {:induction false} PostorderAfterBelow(k: Ctx, t: Tree, i: nat, j: nat)
    requires Uniq(Plug(k, t)) && t.Node? && i < |Postorder(Plug(k, t))| && j < |Postorder(Plug(k, t))|
    requires Postorder(Plug(k, t))[i] == t.x && Postorder(Plug(k, t))[j] in Ptrs(t.l) + Ptrs(t.r)
    ensures j < i
  {
    PostorderPlug(k, t);
    PostorderDistinct(Plug(k, t));
    PostorderMembers(t.l);
    PostorderMembers(t.r);
    UniqPlug(k, t);
    var p, a, b, f := PrecedingPost(k), Postorder(t.l), Postorder(t.r), FollowingPost(k);
    assert Postorder(Plug(k, t))[j] in a + b;
    BelowFirst(Postorder(Plug(k, t)), p, a + b, t.x, f, i, j);
  }

  lemma BelowFirst(whole: seq<Ptr>, p: seq<Ptr>, a: seq<Ptr>, x: Ptr, f: seq<Ptr>, i: nat, j: nat)
    requires whole == p + (a + [x]) + f && i < |whole| && j < |whole| && whole[i] == x && whole[j] in a
    requires forall i, j :: 0 <= i < j < |whole| ==> whole[i] != whole[j]
    ensures j < i
  {
    assert whole[|p| + |a|] == x;
    var m :| 0 <= m < |a| && a[m] == whole[j];
    assert whole[|p| + m] == a[m];
  }

  /** rb_left_deepest_node */
  method LeftDeepest(r: RbRoot, n0: Ptr, ghost k0: Ctx, ghost t0: Tree) returns (n: Ptr)
    requires Rep(r.Img(), Plug(k0, t0)) && t0.Node? && t0.x == n0
    ensures n == Head(Postorder(t0)) && n != NULL
  {
    n := n0;
    ghost var k, t := k0, t0;
    while true
      invariant Plug(k, t) == Plug(k0, t0) && t.Node? && t.x == n && Head(Postorder(t)) == Head(Postorder(t0))
      decreases t
    {
      ReadCell(r.Img(), k, t);
      if r.h[n].left != NULL {
        n := r.h[n].left;
        k, t := Crumb(k, Lft, t.x, t.c, t.a, t.r), t.l;
        assert Postorder(t) != [];
      } else if r.h[n].right != NULL {
        n := r.h[n].right;
        k, t := Crumb(k, Rgt, t.x, t.c, t.a, t.l), t.r;
        assert Postorder(t) != [];
      } else {
        return;
      }
    }
  }

  /** rb_first_postorder */
  method FirstPostorder(r: RbRoot, ghost t: Tree) returns (n: Ptr)
    requires Rep(r.Img(), t)
    ensures n == Head(Postorder(t)) && (n == NULL <==> t.Leaf?)
  {
    if t.Node? { ReadCell(r.Img(), Top, t); }
    if r.root == NULL { return NULL; }
    n := LeftDeepest(r, r.root, Top, t);
  }

  lemma {:induction false} PostorderAt(k: Ctx, t: Tree, i: nat)
    requires Uniq(Plug(k, t)) && t.Node? && i < |Postorder(Plug(k, t))| && Postorder(Plug(k, t))[i] == t.x
    ensures Postorder(Plug(k, t))[i + 1..] == FollowingPost(k)
  {
    PostorderPlug(k, t);
    PostorderDistinct(Plug(k, t));
    Position(Postorder(Plug(k, t)), PrecedingPost(k), Postorder(t.l) + Postorder(t.r), t.x, [], FollowingPost(k), i);
  }

  /** rb_next_postorder */
  method NextPostorder(r: RbRoot, node: Ptr, ghost t0: Tree, ghost i: nat) returns (n: Ptr)
    requires Rep(r.Img(), t0) && i < |Postorder(t0)| && Postorder(t0)[i] == node
    ensures n == Head(Postorder(t0)[i + 1..]) && (n == NULL <==> i + 1 == |Postorder(t0)|)
  {
    PostorderMembers(t0);
    LocateCorrect(t0, node, Top);
    ghost var (k, t) := Locate(t0, node, Top);
    PostorderAt(k, t, i);
    ReadCell(r.Img(), k, t);
    if node == NULL { return NULL; }
    var parent := ParentOf(r.h[node].pc);
    if parent != NULL && node == r.h[parent].left && r.h[parent].right != NULL {
      n := LeftDeepest(r, r.h[parent].right, Crumb(k.up, Rgt, k.x, k.c, k.a, t), k.sib);
    } else {
      n := parent;
    }
  }

  /** Postorder iteration visits every node exactly once, children before parents, and ends. */
  method WalkPostorder(r: RbRoot, ghost t: Tree) returns (out: seq<Ptr>)
    requires Rep(r.Img(), t)
    ensures out == Postorder(t)
  {
    out := [];
    var n := FirstPostorder(r, t);
    while n != NULL
      invariant out <= Postorder(t) && n == Head(Postorder(t)[|out|..]) && (n == NULL <==> |out| == |Postorder(t)|)
      decreases |Postorder(t)| - |out|
    {
      ghost var i := |out|;
      out := out + [n];
      assert Postorder(t)[i] == n && Postorder(t)[..i + 1] == out;
      n := NextPostorder(r, n, t, i);
    }
  }

  // ---------------------------------------------------------------- replacing a node

  /** Memory `m'` is `m` after rb_replace_node: `spare` took over the links and the colour of `victim`. */
  ghost predicate ReplaceWrites(m: Image, m': Image, victim: Ptr, spare: Ptr, left: Ptr, right: Ptr, p: Ptr, q: Side) {
    && victim in m.h && spare in m.h && PtrIn(m.h, left) && PtrIn(m.h, right) && PtrIn(m.h, p)
    && m'.h.Keys == m.h.Keys && SameOff(m.h, m'.h, {spare, left, right, p} - {NULL})
    && m'.h[spare] == m.h[victim].(aug := m.h[spare].aug)
    && (left != NULL ==> m'.h[left] == m.h[left].(pc := Pack(spare, ColorOf(m.h[left].pc))))
    && (right != NULL ==> m'.h[right] == m.h[right].(pc := Pack(spare, ColorOf(m.h[right].pc))))
    && (if p == NULL then m'.root == spare else m'.root == m.root && m'.h[p] == SetKid(m.h, p, q, spare)[p])
  }

  /** The stores of rb_replace_node. */
  method ReplaceStores(r: RbRoot, victim: Ptr, spare: Ptr, ghost left: Ptr, ghost right: Ptr, ghost p: Ptr,
                       ghost q: Side)
    requires victim in r.h && spare in r.h && PtrIn(r.h, left) && PtrIn(r.h, right) && PtrIn(r.h, p)
    requires spare != NULL && victim !in {spare, left, right, p} && spare !in {left, right, p}
    requires (left != NULL ==> left != right && left != p) && (right != NULL ==> right != p)
    requires r.h[victim].left == left && r.h[victim].right == right && ParentOf(r.h[victim].pc) == p
    requires p != NULL ==> SlotSide(r.h, p, victim) == q
    modifies r
    ensures ReplaceWrites(old(r.Img()), r.Img(), victim, spare, left, right, p, q)
    ensures r.seen == old(r.seen) + {r.Img()}
  {
    var parent := ParentOf(r.h[victim].pc);
    r.h := r.h[spare := r.h[victim].(aug := r.h[spare].aug)];
    var l := r.h[victim].left;
    if l != NULL { r.h := SetPc(r.h, l, Pack(spare, ColorOf(r.h[l].pc))); }
    var t := r.h[victim].right;
    if t != NULL { r.h := SetPc(r.h, t, Pack(spare, ColorOf(r.h[t].pc))); }
    r.ChangeChild(victim, spare, parent);
  }

  /** rb_replace_node: exactly one element of the order changes, and nothing else about the tree. */
  method Replace(r: RbRoot, victim: Ptr, spare: Ptr, ghost k: Ctx, ghost t: Tree) returns (ghost t': Tree)
    requires Rep(r.Img(), Plug(k, t)) && RedBlack(Plug(k, t)) && t.Node? && victim == t.x
    requires spare in r.h && spare != NULL && Aligned(spare) && spare !in Ptrs(Plug(k, t))
    modifies r
    ensures Rep(r.Img(), t') && RedBlack(t')
    ensures Inorder(Plug(k, t)) == Before(k) + Inorder(t.l) + [victim] + Inorder(t.r) + After(k)
    ensures Inorder(t') == Before(k) + Inorder(t.l) + [spare] + Inorder(t.r) + After(k)
    ensures AllSafe(old(r.seen), r.seen, Ptrs(t'))
  {
    ghost var m := r.Img();
    ghost var u := Node(t.l, spare, t.c, r.h[spare].aug, t.r);
    assert spare !in Ptrs(t) && spare !in PtrsC(k) by { PtrsPlug(k, t); }
    ReplaceReady(m, k, t, spare);
    ReplaceStores(r, victim, spare, Root(t.l), Root(t.r), ParentPtr(k, NULL), if k.Crumb? then k.s else Lft);
    ReplaceRep(m, r.Img(), k, t, u);
    ReplaceDone(k, t, u);
    t' := Plug(k, u);
    RepSafe(r.Img(), t');
  }

  lemma {:induction false} ReplaceReady(m: Image, k: Ctx, t: Tree, spare: Ptr)
    requires Rep(m, Plug(k, t)) && t.Node? && spare !in Ptrs(t) && spare !in PtrsC(k) && spare != NULL
    ensures var p := ParentPtr(k, NULL);
            && t.x in m.h && PtrIn(m.h, Root(t.l)) && PtrIn(m.h, Root(t.r)) && PtrIn(m.h, p)
            && t.x !in {spare, Root(t.l), Root(t.r), p} && spare !in {Root(t.l), Root(t.r), p}
            && (t.l.Node? ==> Root(t.l) != Root(t.r) && Root(t.l) != p) && (t.r.Node? ==> Root(t.r) != p)
            && (t.l.Node? <==> Root(t.l) != NULL) && (t.r.Node? <==> Root(t.r) != NULL)
            && m.h[t.x].left == Root(t.l) && m.h[t.x].right == Root(t.r) && ParentOf(m.h[t.x].pc) == p
            && (p != NULL ==> k.Crumb? && SlotSide(m.h, p, t.x) == k.s)
  {
    RepPlug(m, k, t);
    assert t.x in Ptrs(t);
    SlotCells(m.h, k, t.x, t.c);
    RepRoot(m.h, t.l, t.x);
    RepRoot(m.h, t.r, t.x);
  }

  lemma {:induction false} ReplaceDone(k: Ctx, t: Tree, u: Tree)
    requires RedBlack(Plug(k, t)) && t.Node? && u.Node? && u == Node(t.l, u.x, t.c, u.a, t.r)
    ensures RedBlack(Plug(k, u))
    ensures Inorder(Plug(k, t)) == Before(k) + Inorder(t.l) + [t.x] + Inorder(t.r) + After(k)
    ensures Inorder(Plug(k, u)) == Before(k) + Inorder(t.l) + [u.x] + Inorder(t.r) + After(k)
  {
    var n := UnplugRedBlack(k, t);
    PlugRedBlack(k, u, n);
    InorderPlug(k, t);
    InorderPlug(k, u);
    Flatten(Before(k), Inorder(t.l), t.x, Inorder(t.r), After(k));
    Flatten(Before(k), Inorder(t.l), u.x, Inorder(t.r), After(k));
  }

  lemma Flatten(b: seq<Ptr>, l: seq<Ptr>, x: Ptr, r: seq<Ptr>, a: seq<Ptr>)
    ensures b + (l + [x] + r) + a == b + l + [x] + r + a
  {
  }

  lemma {:induction false} ReplaceRep(m: Image, m': Image, k: Ctx, t: Tree, u: Tree)
    requires Rep(m, Plug(k, t)) && t.Node? && u.Node? && Aligned(u.x) && u.x != NULL
    requires u.x !in Ptrs(t) && u.x !in PtrsC(k) && u.x in m.h && u == Node(t.l, u.x, t.c, m.h[u.x].aug, t.r)
    requires ReplaceWrites(m, m', t.x, u.x, Root(t.l), Root(t.r), ParentPtr(k, NULL), if k.Crumb? then k.s else Lft)
    ensures Rep(m', Plug(k, u))
  {
    RepPlug(m, k, t);
    ReplaceFrames(m, m', k, t, u);
    TopPtrRefill(k, t.x, u.x);
    RepPlug(m', k, u);
  }

  lemma {:induction false} ReplaceFrames(m: Image, m': Image, k: Ctx, t: Tree, u: Tree)
    requires RepZ(m, k, t) && t.Node? && u.Node? && u.x != NULL && u.x !in Ptrs(t) && u.x !in PtrsC(k)
    requires ReplaceWrites(m, m', t.x, u.x, Root(t.l), Root(t.r), ParentPtr(k, NULL), if k.Crumb? then k.s else Lft)
    ensures RepT(m'.h, t.l, u.x) && RepT(m'.h, t.r, u.x) && RepC(m'.h, k, NULL, u.x)
  {
    RepRoot(m.h, t.l, t.x);
    RepRoot(m.h, t.r, t.x);
    PackUnpack(t.x, ColorOr(t.l, Black));
    PackUnpack(t.x, ColorOr(t.r, Black));
    assert k.Crumb? ==> k.x in PtrsC(k) && k.x != NULL;
    Reparent(m.h, m'.h, t.l, t.x, u.x, ColorOr(t.l, Black));
    Reparent(m.h, m'.h, t.r, t.x, u.x, ColorOr(t.r, Black));
    Refill(m.h, m'.h, k, NULL, t.x, u.x);
    assert Recolor(t.l, ColorOr(t.l, Black)) == t.l && Recolor(t.r, ColorOr(t.r, Black)) == t.r;
  }
}
