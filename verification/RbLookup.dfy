/**
 What a lookup sees between two stores of an operation (the notes on lockless lookups in kernel/linux/rbtree.c):
 the child links lead only to nodes of the tree, and they have no loop.
 */
module RbLookup {
  import opened Sequences
  import opened RbTreeModel
  import opened RbMemory

  /** NULL, or a node ranked below `v`. */
  predicate Lower(rank: map<Ptr, int>, x: Ptr, v: int) {
    x == NULL || (x in rank && rank[x] < v)
  }

  predicate RankedAt(h: Heap, rank: map<Ptr, int>, x: Ptr)
    requires x in rank
  {
    x in h && Lower(rank, h[x].left, rank[x]) && Lower(rank, h[x].right, rank[x])
  }

  /** Child links go down in `rank`. */
  ghost predicate Ranked(m: Image, rank: map<Ptr, int>) {
    (m.root == NULL || m.root in rank) && forall x :: x in rank ==> RankedAt(m.h, rank, x)
  }

  /** The root and the child links of the nodes `xs` lead only to nodes of `xs`, and there is no loop. */
  ghost predicate Safe(m: Image, xs: set<Ptr>) {
    exists rank: map<Ptr, int> :: rank.Keys == xs && Ranked(m, rank)
  }

  // ---------------------------------------------------------------- what it means for a lookup

  /** `w` follows child links, whichever way it turns. */
  ghost predicate Walk(h: Heap, w: seq<Ptr>) {
    forall i: nat :: StepAt(h, w, i)
  }

  predicate StepAt(h: Heap, w: seq<Ptr>, i: nat) {
    && (i < |w| ==> w[i] != NULL)
    && (i + 1 < |w| ==> w[i] in h && (w[i + 1] == h[w[i]].left || w[i + 1] == h[w[i]].right))
  }

  /** A lookup from the root, or one that goes on from any node, sees only nodes of `xs`, none of them twice, so it
      ends after at most |xs| steps. */
  lemma {:induction false} LookupEnds(m: Image, xs: set<Ptr>, w: seq<Ptr>)
    requires Safe(m, xs) && Walk(m.h, w) && w != [] && (w[0] == m.root || w[0] in xs)
    ensures (forall i :: 0 <= i < |w| ==> w[i] in xs) && NoDup(w) && |w| <= |xs|
  {
    var rank: map<Ptr, int> :| rank.Keys == xs && Ranked(m, rank);
    WalkDown(m, rank, w);
    Pigeons(w, xs);
  }

  lemma {:induction false} WalkDown(m: Image, rank: map<Ptr, int>, w: seq<Ptr>)
    requires Ranked(m, rank) && Walk(m.h, w) && w != [] && (w[0] == m.root || w[0] in rank)
    ensures forall i :: 0 <= i < |w| ==> w[i] in rank
    ensures forall i, j :: 0 <= i < j < |w| ==> rank[w[j]] < rank[w[i]]
  {
    assert StepAt(m.h, w, 0);
    if |w| > 1 {
      var v := w[1..];
      assert Walk(m.h, v) by {
        forall i: nat
          ensures StepAt(m.h, v, i)
        {
          assert StepAt(m.h, w, i + 1);
        }
      }
      assert RankedAt(m.h, rank, w[0]) && StepAt(m.h, w, 1);
      WalkDown(m, rank, v);
      assert w == [w[0]] + v;
    }
  }

  /** A list without repetition is no longer than the set its members are from. */
  lemma {:induction false} Pigeons(w: seq<Ptr>, xs: set<Ptr>)
    requires NoDup(w) && forall i :: 0 <= i < |w| ==> w[i] in xs
    ensures |w| <= |xs|
  {
    if w != [] {
      var v, last := w[..|w| - 1], w[|w| - 1];
      Pigeons(v, xs - {last});
    }
  }

  // ---------------------------------------------------------------- trees

  /** Heights as ranks. */
  function Ranks(t: Tree): map<Ptr, int> {
    match t
    case Leaf => map[]
    case Node(l, x, _, _, r) => (Ranks(l) + Ranks(r))[x := Height(t)]
  }

  lemma {:induction false} RanksDown(h: Heap, t: Tree, p: Ptr)
    requires RepT(h, t, p) && Uniq(t)
    ensures Ranks(t).Keys == Ptrs(t)
    ensures forall x :: x in Ranks(t) ==> RankedAt(h, Ranks(t), x) && Ranks(t)[x] <= Height(t)
  {
    if t.Node? {
      RanksDown(h, t.l, t.x);
      RanksDown(h, t.r, t.x);
      forall x | x in Ranks(t)
        ensures RankedAt(h, Ranks(t), x) && Ranks(t)[x] <= Height(t)
      {
        RankDown(h, t, p, x);
      }
    }
  }

  lemma {:induction false} RankDown(h: Heap, t: Tree, p: Ptr, x: Ptr)
    requires t.Node? && RepT(h, t, p) && Uniq(t) && x in Ranks(t)
    requires Ranks(t.l).Keys == Ptrs(t.l) && Ranks(t.r).Keys == Ptrs(t.r)
    requires forall z :: z in Ranks(t.l) ==> RankedAt(h, Ranks(t.l), z) && Ranks(t.l)[z] <= Height(t.l)
    requires forall z :: z in Ranks(t.r) ==> RankedAt(h, Ranks(t.r), z) && Ranks(t.r)[z] <= Height(t.r)
    ensures RankedAt(h, Ranks(t), x) && Ranks(t)[x] <= Height(t)
  {
    if x == t.x {
      RepRoot(h, t.l, t.x);
      RepRoot(h, t.r, t.x);
    } else if x in Ptrs(t.l) {
      assert RankedAt(h, Ranks(t.l), x);
    } else {
      assert RankedAt(h, Ranks(t.r), x);
    }
  }

  /** Memory that represents a tree is safe. */
  lemma {:induction false} RepSafe(m: Image, t: Tree)
    requires Rep(m, t)
    ensures Safe(m, Ptrs(t))
  {
    RanksDown(m.h, t, NULL);
    RepRoot(m.h, t, NULL);
    assert Ranked(m, Ranks(t));
  }

  /** A child's parent word says whose child it is. */
  lemma {:induction false} KidsParent(h: Heap, t: Tree, p: Ptr, z: Ptr, s: Side)
    requires RepT(h, t, p) && z in Ptrs(t)
    ensures z in h && (GetKid(h[z], s) != NULL ==>
              GetKid(h[z], s) in h && ParentOf(h[GetKid(h[z], s)].pc) == z)
  {
    if z == t.x {
      RepRoot(h, Kid(t, s), z);
      if Kid(t, s).Node? { PackUnpack(z, Kid(t, s).c); }
    } else if z in Ptrs(t.l) {
      KidsParent(h, t.l, t.x, z, s);
    } else {
      KidsParent(h, t.r, t.x, z, s);
    }
  }

  // ---------------------------------------------------------------- stores

  /** The same root and child links. */
  ghost predicate SameLinks(m: Image, m': Image) {
    && m'.root == m.root
    && forall x :: x in m.h ==> x in m'.h && m'.h[x].left == m.h[x].left && m'.h[x].right == m.h[x].right
  }

  lemma {:induction false} SameLinksTrans(m: Image, m': Image, m'': Image)
    requires SameLinks(m, m') && SameLinks(m', m'')
    ensures SameLinks(m, m'')
  {
    forall x | x in m.h
      ensures x in m''.h && m''.h[x].left == m.h[x].left && m''.h[x].right == m.h[x].right
    {
      assert x in m'.h;
    }
  }

  lemma {:induction false} SafeSame(m: Image, m': Image, xs: set<Ptr>)
    requires Safe(m, xs) && SameLinks(m, m')
    ensures Safe(m', xs)
  {
    var rank: map<Ptr, int> :| rank.Keys == xs && Ranked(m, rank);
    forall x | x in rank
      ensures RankedAt(m'.h, rank, x)
    {
      assert RankedAt(m.h, rank, x);
    }
    assert Ranked(m', rank);
  }

  /** The same root, and the same child links but for those of `x`. */
  ghost predicate OneChanged(m: Image, m': Image, x: Ptr) {
    && m'.root == m.root && x in m'.h
    && forall z :: z in m.h && z != x ==>
         z in m'.h && m'.h[z].left == m.h[z].left && m'.h[z].right == m.h[z].right
  }

  /** Whichever links `x` gets, there is no loop if its new children are below `y`, and so below every node that has
      `x` as a child. */
  lemma {:induction false} Lifted(m: Image, m': Image, xs: set<Ptr>, rank: map<Ptr, int>, x: Ptr, v: int)
    requires rank.Keys == xs && Ranked(m, rank) && x in xs && OneChanged(m, m', x)
    requires KidsBelow(m'.h, rank, x, v)
    requires ParentsAbove(m.h, rank, x, v)
    ensures Safe(m', xs)
  {
    var r2 := map z | z in rank :: if z == x then v else 2 * rank[z];
    forall z | z in r2
      ensures RankedAt(m'.h, r2, z)
    {
      assert RankedAt(m.h, rank, z);
      if z != x { assert ParentAbove(m.h, rank, z, x, v); }
    }
    assert Ranked(m', r2);
  }

  predicate KidsBelow(h: Heap, rank: map<Ptr, int>, x: Ptr, v: int) {
    x in h && KidBelow(rank, x, h[x].left, v) && KidBelow(rank, x, h[x].right, v)
  }

  predicate KidBelow(rank: map<Ptr, int>, x: Ptr, c: Ptr, v: int) {
    c == NULL || (c in rank && c != x && 2 * rank[c] < v)
  }

  predicate ParentAbove(h: Heap, rank: map<Ptr, int>, z: Ptr, x: Ptr, v: int)
    requires z in rank
  {
    z in h && (x in {h[z].left, h[z].right} ==> v < 2 * rank[z])
  }

  /** A node that nothing leads to any more but that still leads to the others. */
  lemma {:induction false} Extend(m: Image, xs: set<Ptr>, x: Ptr)
    requires Safe(m, xs) && x !in xs && x in m.h
    requires forall s :: GetKid(m.h[x], s) == NULL || GetKid(m.h[x], s) in xs
    ensures Safe(m, xs + {x})
  {
    var rank: map<Ptr, int> :| rank.Keys == xs && Ranked(m, rank);
    var l, r := GetKid(m.h[x], Lft), GetKid(m.h[x], Rgt);
    var v := (if l == NULL then 0 else rank[l]) + 1;
    var r2 := rank[x := if r == NULL || rank[r] < v then v else rank[r] + 1];
    assert r2.Keys == xs + {x};
    forall z | z in r2
      ensures RankedAt(m.h, r2, z)
    {
      if z != x { assert RankedAt(m.h, rank, z); }
    }
    assert Ranked(m, r2);
  }

  /** Everything that was seen since is safe. */
  ghost predicate AllSafe(seen: set<Image>, seen': set<Image>, xs: set<Ptr>) {
    seen <= seen' && forall i :: i in seen' && i !in seen ==> Safe(i, xs)
  }

  /** Every node that has `x` as a child is above `v`. */
  ghost predicate ParentsAbove(h: Heap, rank: map<Ptr, int>, x: Ptr, v: int) {
    forall z :: z in rank && z != x ==> ParentAbove(h, rank, z, x, v)
  }

  /** The same for an operation that goes from a tree with the nodes `xs` to one with the nodes `ys`. */
  ghost predicate EitherSafe(seen: set<Image>, seen': set<Image>, xs: set<Ptr>, ys: set<Ptr>) {
    seen <= seen' && forall i :: i in seen' && i !in seen ==> Safe(i, xs) || Safe(i, ys)
  }

  /** Memory that was written outside the tree is as safe. */
  lemma {:induction false} OutsideSafe(m: Image, m': Image, t: Tree, x: Ptr)
    requires Rep(m, t) && m'.root == m.root && SameOff(m.h, m'.h, {x}) && x !in Ptrs(t)
    ensures Safe(m', Ptrs(t))
  {
    FrameT(m.h, m'.h, t, NULL);
    RepSafe(m', t);
  }

  /** One store, and writes that leave the links alone. */
  lemma {:induction false} SafeAfter(seen: set<Image>, seen': set<Image>, m: Image, xs: set<Ptr>)
    requires Safe(m, xs) && seen <= seen' && forall i :: i in seen' && i !in seen ==> SameLinks(m, i)
    ensures AllSafe(seen, seen', xs)
  {
    forall i | i in seen' && i !in seen
      ensures Safe(i, xs)
    {
      SafeSame(m, i, xs);
    }
  }

  // ---------------------------------------------------------------- rotations

  /** Memory after the first and after the second child-pointer store of a rotation. */
  function FirstStore(m: Image, s: Side, y: Ptr, tmp: Ptr): Image
    requires y in m.h
  {
    m.(h := SetKid(m.h, y, s, tmp))
  }

  function SecondStore(m: Image, s: Side, y: Ptr, x: Ptr, tmp: Ptr): Image
    requires y in m.h && x in m.h
  {
    m.(h := SetKid(FirstStore(m, s, y, tmp).h, x, Other(s), y))
  }

  /** What a rotation from `m` to memory with the links of `m'` lets a lookup see. */
  ghost predicate TurnSeen(seen: set<Image>, seen': set<Image>, m: Image, r: Turn, m': Image)
    requires r.y in m.h && r.x in m.h
  {
    seen <= seen' && forall i :: i in seen' && i !in seen ==>
      i == FirstStore(m, r.s, r.y, r.tmp) || i == SecondStore(m, r.s, r.y, r.x, r.tmp) || SameLinks(m', i)
  }

  /** The rotate callback and parent words do not matter. */
  lemma {:induction false} TurnSeenLater(seen: set<Image>, seen': set<Image>, m: Image, r: Turn, m1: Image, m2: Image)
    requires r.y in m.h && r.x in m.h && TurnSeen(seen, seen', m, r, m1) && SameLinks(m2, m1)
    ensures TurnSeen(seen, seen', m, r, m2)
  {
    forall i | i in seen' && i !in seen && SameLinks(m1, i)
      ensures SameLinks(m2, i)
    {
      assert forall x :: x in m2.h ==> x in m1.h;
    }
  }

  lemma {:induction false} AugLinks(cb: Callbacks, h: Heap, h': Heap, y: Ptr, x: Ptr, root: Ptr)
    requires AugRotated(cb, h, h', y, x)
    ensures SameLinks(Image(h', root), Image(h, root))
  {
  }

  lemma PcLinks(h: Heap, root: Ptr, x: Ptr, pc: nat)
    requires x in h
    ensures SameLinks(Image(SetPc(h, x, pc), root), Image(h, root))
    ensures SameLinks(Image(h, root), Image(SetPc(h, x, pc), root))
  {
  }

  lemma {:induction false} FirstRanked(m: Image, rank: map<Ptr, int>, r: Turn)
    requires Ranked(m, rank) && CanTurn(m.h, r) && r.x in rank && r.y in rank && GetKid(m.h[r.y], r.s) == r.x
    ensures Ranked(FirstStore(m, r.s, r.y, r.tmp), rank)
    ensures KidsBelow(SecondStore(m, r.s, r.y, r.x, r.tmp).h, rank, r.x, 2 * rank[r.y] + 1)
    ensures OneChanged(FirstStore(m, r.s, r.y, r.tmp), SecondStore(m, r.s, r.y, r.x, r.tmp), r.x)
  {
    assert RankedAt(m.h, rank, r.x) && RankedAt(m.h, rank, r.y);
    forall z | z in rank
      ensures RankedAt(FirstStore(m, r.s, r.y, r.tmp).h, rank, z)
    {
      assert RankedAt(m.h, rank, z);
    }
  }

  /** After the first store nothing leads to `x`. */
  lemma {:induction false} FirstCutsOff(m: Image, t: Tree, r: Turn, z: Ptr)
    requires Rep(m, t) && CanTurn(m.h, r) && r.y in Ptrs(t) && GetKid(m.h[r.y], r.s) == r.x && z in Ptrs(t)
    ensures var h := FirstStore(m, r.s, r.y, r.tmp).h; z in h && r.x !in {h[z].left, h[z].right}
  {
    KidsParent(m.h, t, NULL, z, Lft);
    KidsParent(m.h, t, NULL, z, Rgt);
    KidsParent(m.h, t, NULL, r.y, r.s);
  }

  /** Both states are safe: `x` is out of reach when it gets `y` as its child. */
  lemma {:induction false} TurnSafe(m: Image, t: Tree, r: Turn)
    requires Rep(m, t) && CanTurn(m.h, r) && r.x in Ptrs(t) && r.y in Ptrs(t) && GetKid(m.h[r.y], r.s) == r.x
    ensures Safe(FirstStore(m, r.s, r.y, r.tmp), Ptrs(t)) && Safe(SecondStore(m, r.s, r.y, r.x, r.tmp), Ptrs(t))
  {
    RepSafe(m, t);
    var rank: map<Ptr, int> :| rank.Keys == Ptrs(t) && Ranked(m, rank);
    var m1, m2 := FirstStore(m, r.s, r.y, r.tmp), SecondStore(m, r.s, r.y, r.x, r.tmp);
    var v := 2 * rank[r.y] + 1;
    FirstRanked(m, rank, r);
    assert ParentsAbove(m1.h, rank, r.x, v) by {
      forall z | z in rank && z != r.x
        ensures ParentAbove(m1.h, rank, z, r.x, v)
      {
        FirstCutsOff(m, t, r, z);
      }
    }
    Lifted(m1, m2, Ptrs(t), rank, r.x, v);
  }

  /** The order of the two stores matters: the other way round there is a loop in between. */
  lemma {:induction false} OtherOrderLoops(m: Image, xs: set<Ptr>, r: Turn)
    requires CanTurn(m.h, r) && GetKid(m.h[r.y], r.s) == r.x && r.y in xs
    ensures !Safe(m.(h := SetKid(m.h, r.x, Other(r.s), r.y)), xs)
  {
    var m' := m.(h := SetKid(m.h, r.x, Other(r.s), r.y));
    forall rank: map<Ptr, int> | rank.Keys == xs && Ranked(m', rank)
      ensures false
    {
      KidRanked(m', rank, r.y, r.s);
      KidRanked(m', rank, r.x, Other(r.s));
    }
  }

  lemma {:induction false} KidRanked(m: Image, rank: map<Ptr, int>, x: Ptr, s: Side)
    requires Ranked(m, rank) && x in rank
    ensures x in m.h && Lower(rank, GetKid(m.h[x], s), rank[x])
  {
    assert RankedAt(m.h, rank, x);
  }

  /** A whole rotation, from memory that is `m` but for what the rotation overwrites. */
  lemma {:induction false} TurnAllSafe(seen: set<Image>, seen': set<Image>, m: Image, l: Image, m': Image, k: Ctx,
                                       v: Pair, t': Tree)
    requires RepZ(m, k, PairTree(v)) && Loose(m, l, v.s, v.y, v.x)
    requires Rep(m', t') && Ptrs(t') == Ptrs(Plug(k, PairTree(v)))
    requires TurnSeen(seen, seen', l, PairTurn(v, k), m')
    ensures AllSafe(seen, seen', Ptrs(Plug(k, PairTree(v))))
  {
    var r, xs := PairTurn(v, k), Ptrs(Plug(k, PairTree(v)));
    PairTurnSafe(m, k, v);
    LooseStores(m, l, r);
    assert Safe(m', xs) by { RepSafe(m', t'); }
    forall i | i in seen' && i !in seen
      ensures Safe(i, xs)
    {
      var m0 := if i == FirstStore(l, r.s, r.y, r.tmp) then FirstStore(m, r.s, r.y, r.tmp)
                else if i == SecondStore(l, r.s, r.y, r.x, r.tmp) then SecondStore(m, r.s, r.y, r.x, r.tmp)
                else m';
      SafeSame(m0, i, xs);
    }
  }

  lemma {:induction false} LooseStores(m: Image, l: Image, r: Turn)
    requires Loose(m, l, r.s, r.y, r.x) && r.x in m.h && r.y in m.h
    ensures SameLinks(FirstStore(m, r.s, r.y, r.tmp), FirstStore(l, r.s, r.y, r.tmp))
    ensures SameLinks(SecondStore(m, r.s, r.y, r.x, r.tmp), SecondStore(l, r.s, r.y, r.x, r.tmp))
  {
  }

  lemma {:induction false} PairTurnSafe(m: Image, k: Ctx, v: Pair)
    requires RepZ(m, k, PairTree(v))
    ensures var t, r := Plug(k, PairTree(v)), PairTurn(v, k);
            && r.y in m.h && r.x in m.h
            && Safe(FirstStore(m, r.s, r.y, r.tmp), Ptrs(t)) && Safe(SecondStore(m, r.s, r.y, r.x, r.tmp), Ptrs(t))
  {
    PairParts(m, k, v);
    PairCanTurn(m.h, k, v);
    PairInside(m.h, k, v);
    RepPlug(m, k, PairTree(v));
    TurnSafe(m, Plug(k, PairTree(v)), PairTurn(v, k));
  }

  // ---------------------------------------------------------------- the splice of a node with two children

  /** Memory after the first and after the second child-pointer store of Case 3. */
  function CutStore(m: Image, parent: Ptr, child2: Ptr): Image
    requires parent in m.h
  {
    m.(h := SetKid(m.h, parent, Lft, child2))
  }

  function HangStore(m: Image, parent: Ptr, successor: Ptr, child2: Ptr, child: Ptr): Image
    requires parent in m.h && successor in m.h
  {
    m.(h := SetKid(CutStore(m, parent, child2).h, successor, Rgt, child))
  }

  /** Memory after the store that gives the successor the left subtree of the node. */
  function LeftStore(m: Image, successor: Ptr, left: Ptr): Image
    requires successor in m.h
  {
    m.(h := SetKid(m.h, successor, Lft, left))
  }

  /** Case 3: `parent` is not `node`. After the first store nothing leads to the successor. */
  lemma {:induction false} CutSafe(m: Image, t: Tree, node: Ptr, parent: Ptr, successor: Ptr)
    requires Rep(m, t) && {node, parent, successor} <= Ptrs(t) && node != parent
    requires node in m.h && parent in m.h && successor in m.h && successor != NULL && successor != parent
    requires m.h[parent].left == successor && m.h[parent].right != successor && m.h[successor].left == NULL
    ensures var c2, child, left := m.h[successor].right, m.h[node].right, m.h[node].left;
            var m2 := HangStore(m, parent, successor, c2, child);
            && Safe(CutStore(m, parent, c2), Ptrs(t)) && Safe(m2, Ptrs(t))
            && Safe(LeftStore(m2, successor, left), Ptrs(t))
  {
    RepSafe(m, t);
    var rank: map<Ptr, int> :| rank.Keys == Ptrs(t) && Ranked(m, rank);
    var m1, v := CutStore(m, parent, m.h[successor].right), 2 * rank[node] - 1;
    CutRanked(m, rank, parent, successor);
    KidsBelowNode(m, t, rank, node, parent, successor);
    assert ParentsAbove(m1.h, rank, successor, v) by {
      forall z | z in rank && z != successor
        ensures ParentAbove(m1.h, rank, z, successor, v)
      {
        CutsOff(m, t, parent, successor, z);
      }
    }
    HangSafe(m, m1, Ptrs(t), rank, node, parent, successor, v);
  }

  lemma {:induction false} HangSafe(m: Image, m1: Image, xs: set<Ptr>, rank: map<Ptr, int>, node: Ptr, parent: Ptr,
                                    successor: Ptr, v: int)
    requires {node, parent, successor} <= m.h.Keys && m1 == CutStore(m, parent, m.h[successor].right)
    requires rank.Keys == xs && Ranked(m1, rank) && successor in xs && ParentsAbove(m1.h, rank, successor, v)
    requires successor != parent && m.h[successor].left == NULL
    requires KidBelow(rank, successor, m.h[node].left, v) && KidBelow(rank, successor, m.h[node].right, v)
    ensures var m2 := HangStore(m, parent, successor, m.h[successor].right, m.h[node].right);
            Safe(m1, xs) && Safe(m2, xs) && Safe(LeftStore(m2, successor, m.h[node].left), xs)
  {
    var m2 := HangStore(m, parent, successor, m.h[successor].right, m.h[node].right);
    Lifted(m1, m2, xs, rank, successor, v);
    Lifted(m1, LeftStore(m2, successor, m.h[node].left), xs, rank, successor, v);
  }

  lemma {:induction false} CutRanked(m: Image, rank: map<Ptr, int>, parent: Ptr, successor: Ptr)
    requires Ranked(m, rank) && parent in rank && successor in rank && successor in m.h && parent in m.h
    requires m.h[parent].left == successor && successor != NULL
    ensures Ranked(CutStore(m, parent, m.h[successor].right), rank)
  {
    assert RankedAt(m.h, rank, successor) && RankedAt(m.h, rank, parent);
    forall z | z in rank
      ensures RankedAt(CutStore(m, parent, m.h[successor].right).h, rank, z)
    {
      assert RankedAt(m.h, rank, z);
    }
  }

  lemma {:induction false} CutsOff(m: Image, t: Tree, parent: Ptr, successor: Ptr, z: Ptr)
    requires Rep(m, t) && z in Ptrs(t) && parent in Ptrs(t) && successor != NULL && successor in m.h && parent in m.h
    requires m.h[parent].left == successor && m.h[parent].right != successor && m.h[successor].right != successor
    ensures var h := CutStore(m, parent, m.h[successor].right).h; z in h && successor !in {h[z].left, h[z].right}
  {
    KidsParent(m.h, t, NULL, z, Lft);
    KidsParent(m.h, t, NULL, z, Rgt);
    KidsParent(m.h, t, NULL, parent, Lft);
  }

  /** The children of the node are below it, and the successor is none of them. */
  lemma {:induction false} KidsBelowNode(m: Image, t: Tree, rank: map<Ptr, int>, node: Ptr, parent: Ptr, successor: Ptr)
    requires Rep(m, t) && Ranked(m, rank) && rank.Keys == Ptrs(t)
    requires {node, parent, successor} <= rank.Keys && successor != NULL && node != parent
    requires node in m.h && parent in m.h && successor in m.h && m.h[parent].left == successor
    ensures KidBelow(rank, successor, m.h[node].left, 2 * rank[node] - 1)
    ensures KidBelow(rank, successor, m.h[node].right, 2 * rank[node] - 1)
    ensures m.h[successor].right != successor
  {
    assert RankedAt(m.h, rank, node) && RankedAt(m.h, rank, successor);
    KidsParent(m.h, t, NULL, node, Lft);
    KidsParent(m.h, t, NULL, node, Rgt);
    KidsParent(m.h, t, NULL, parent, Lft);
  }

  /** Case 2: the successor is the right child of `node`. */
  lemma {:induction false} LeftSafe(m: Image, t: Tree, node: Ptr, successor: Ptr)
    requires Rep(m, t) && {node, successor} <= Ptrs(t) && node in m.h && successor in m.h && successor != NULL
    requires m.h[node].right == successor && m.h[node].left != successor
    ensures Safe(LeftStore(m, successor, m.h[node].left), Ptrs(t))
  {
    RepSafe(m, t);
    var rank: map<Ptr, int> :| rank.Keys == Ptrs(t) && Ranked(m, rank);
    var m3, v := LeftStore(m, successor, m.h[node].left), 2 * rank[node] - 1;
    assert RankedAt(m.h, rank, node) && RankedAt(m.h, rank, successor);
    assert ParentsAbove(m.h, rank, successor, v) by {
      forall z | z in rank && z != successor
        ensures ParentAbove(m.h, rank, z, successor, v)
      {
        OnlyParent(m, t, node, successor, z);
      }
    }
    Lifted(m, m3, Ptrs(t), rank, successor, v);
  }

  lemma {:induction false} OnlyParent(m: Image, t: Tree, node: Ptr, successor: Ptr, z: Ptr)
    requires Rep(m, t) && z in Ptrs(t) && node in Ptrs(t) && successor != NULL && node in m.h
    requires m.h[node].right == successor
    ensures z in m.h && (successor in {m.h[z].left, m.h[z].right} ==> z == node)
  {
    KidsParent(m.h, t, NULL, z, Lft);
    KidsParent(m.h, t, NULL, z, Rgt);
    KidsParent(m.h, t, NULL, node, Rgt);
  }

  /** The stores before the first propagate: none in Case 2, two in Case 3. */
  ghost predicate DetachSeen(seen: set<Image>, seen': set<Image>, m: Image, m': Image, parent: Ptr, successor: Ptr,
                             child2: Ptr, child: Ptr)
    requires parent in m.h && successor in m.h
  {
    if parent == successor then seen' == seen && SameLinks(m, m')
    else
      && seen' == seen + {CutStore(m, parent, child2), HangStore(m, parent, successor, child2, child)}
      && SameLinks(HangStore(m, parent, successor, child2, child), m')
  }

  /** Stored values do not matter. */
  lemma {:induction false} DetachLater(seen: set<Image>, seen': set<Image>, m: Image, m1: Image, m2: Image, parent: Ptr,
                                       successor: Ptr, child2: Ptr, child: Ptr)
    requires parent in m.h && successor in m.h && SameLinks(m1, m2)
    requires DetachSeen(seen, seen', m, m1, parent, successor, child2, child)
    ensures DetachSeen(seen, seen', m, m2, parent, successor, child2, child)
  {
    var m0 := if parent == successor then m else HangStore(m, parent, successor, child2, child);
    SameLinksTrans(m0, m1, m2);
  }

  /** The stores behind it, the last of which gives memory the links of `m'`. */
  ghost predicate ReplantSeen(seen: set<Image>, seen': set<Image>, m: Image, m': Image, successor: Ptr, left: Ptr)
    requires successor in m.h
  {
    seen <= seen' && forall i :: i in seen' && i !in seen ==> i == LeftStore(m, successor, left) || SameLinks(m', i)
  }

  /** The nodes and links around a node with two children, its successor and the parent of that. */
  predicate Around(m: Image, t: Tree, node: Ptr, parent: Ptr, successor: Ptr) {
    && {node, parent, successor} <= Ptrs(t) && {node, parent, successor} <= m.h.Keys
    && successor != NULL && node != successor && node != parent
    && m.h[successor].left == NULL && m.h[node].left != successor
    && (if parent == successor then m.h[node].right == successor
        else m.h[parent].left == successor && m.h[parent].right != successor)
  }

  /** All of them are safe. */
  lemma {:induction false} SpliceSafe(seen0: set<Image>, seen1: set<Image>, seen2: set<Image>, m0: Image, m1: Image,
                                      m2: Image, t: Tree, node: Ptr, parent: Ptr, successor: Ptr)
    requires Rep(m0, t) && Around(m0, t, node, parent, successor) && successor in m1.h
    requires DetachSeen(seen0, seen1, m0, m1, parent, successor, m0.h[successor].right, m0.h[node].right)
    requires ReplantSeen(seen1, seen2, m1, m2, successor, m0.h[node].left) && Safe(m2, Ptrs(t))
    ensures AllSafe(seen0, seen2, Ptrs(t))
  {
    var xs := Ptrs(t);
    DetachSafe(seen0, seen1, m0, m1, t, node, parent, successor);
    forall i | i in seen2 && i !in seen0
      ensures Safe(i, xs)
    {
      if i !in seen1 && i != LeftStore(m1, successor, m0.h[node].left) { SafeSame(m2, i, xs); }
    }
  }

  lemma {:induction false} DetachSafe(seen0: set<Image>, seen1: set<Image>, m0: Image, m1: Image, t: Tree, node: Ptr,
                                      parent: Ptr, successor: Ptr)
    requires Rep(m0, t) && Around(m0, t, node, parent, successor) && successor in m1.h
    requires DetachSeen(seen0, seen1, m0, m1, parent, successor, m0.h[successor].right, m0.h[node].right)
    ensures AllSafe(seen0, seen1, Ptrs(t)) && Safe(LeftStore(m1, successor, m0.h[node].left), Ptrs(t))
  {
    if parent == successor {
      LeftSafe(m0, t, node, successor);
      LeftLater(m0, m1, t, successor, m0.h[node].left);
    } else {
      DetachFarSafe(seen0, seen1, m0, m1, t, node, parent, successor);
    }
  }

  lemma {:induction false} DetachFarSafe(seen0: set<Image>, seen1: set<Image>, m0: Image, m1: Image, t: Tree, node: Ptr,
                                         parent: Ptr, successor: Ptr)
    requires Rep(m0, t) && Around(m0, t, node, parent, successor) && successor in m1.h && parent != successor
    requires DetachSeen(seen0, seen1, m0, m1, parent, successor, m0.h[successor].right, m0.h[node].right)
    ensures AllSafe(seen0, seen1, Ptrs(t)) && Safe(LeftStore(m1, successor, m0.h[node].left), Ptrs(t))
  {
    var m2 := HangStore(m0, parent, successor, m0.h[successor].right, m0.h[node].right);
    assert SameLinks(m2, m1);
    assert AllSafe(seen0, seen1, Ptrs(t)) && Safe(LeftStore(m2, successor, m0.h[node].left), Ptrs(t)) by {
      CutSafe(m0, t, node, parent, successor);
    }
    LeftLater(m2, m1, t, successor, m0.h[node].left);
  }

  lemma {:induction false} LeftLater(m: Image, m': Image, t: Tree, successor: Ptr, left: Ptr)
    requires successor in m.h && SameLinks(m, m') && Safe(LeftStore(m, successor, left), Ptrs(t))
    ensures Safe(LeftStore(m', successor, left), Ptrs(t))
  {
    assert SameLinks(LeftStore(m, successor, left), LeftStore(m', successor, left));
    SafeSame(LeftStore(m, successor, left), LeftStore(m', successor, left), Ptrs(t));
  }
}
