/**
 Two runs with subtree heights as the augmented value, a rule whose value changes under rotations: the insertion
 and the erase leave wrong values.
 */
module RbHeights {
  import opened Options
  import opened RbTreeModel
  import opened RbMemory
  import opened RbRoots
  import opened RbInsertResult
  import RbInsert
  import RbErase

  /** Nodes that are not linked yet; `a` holds the heights they will have. */
  function Fresh(a: map<Ptr, Aug>): Heap {
    map x | x in a :: RbNode(0, NULL, NULL, a[x])
  }

  lemma SmallAligned()
    ensures Aligned(4) && Aligned(8) && Aligned(12) && Aligned(16)
  {
    assert 4 == Times4(1) && 8 == Times4(2) && 12 == Times4(3) && 16 == Times4(4);
  }

  lemma EmptyRedBlack()
    ensures RedBlack(Plug(Top, Leaf)) && Plug(Top, Leaf) == Leaf
  {
    assert Bal(Leaf, 0);
  }

  /** 12 and 8 are linked; the heights are those the path will have once 4 is linked below 8. */
  method Chain() returns (r: RbRoot)
    ensures fresh(r) && 4 in r.h && r.h[4].aug == 1
    ensures Rep(r.Img(), Node(Node(Leaf, 8, Red, 2, Leaf), 12, Black, 3, Leaf))
  {
    SmallAligned();
    EmptyRedBlack();
    r := new RbRoot(Fresh(map[4 := 1, 8 := 2, 12 := 3]));
    ghost var t := RbInsert.LinkAndInsert(r, Augmented(HeightRule), 12, NULL, Lft, Top);
    assert t == Node(Leaf, 12, Black, 3, Leaf);
    t := RbInsert.LinkAndInsert(r, Augmented(HeightRule), 8, 12, Lft, Crumb(Top, Lft, 12, Black, 3, Leaf));
    assert t == Node(Node(Leaf, 8, Red, 2, Leaf), 12, Black, 3, Leaf);
  }

  /** Linking 4: with the path updated all heights are right, and after the rotation of Case 3 one is wrong. */
  method InsertBreaksHeights() returns (r: RbRoot, ghost before: Tree, ghost after: Tree)
    ensures fresh(r) && Rep(r.Img(), after) && RedBlack(after) && Inorder(after) == Inorder(before) == [4, 8, 12]
    ensures AugOk(HeightRule, before) && !AugOk(HeightRule, after)
  {
    r := Chain();
    SmallAligned();
    ghost var k := Crumb(Crumb(Top, Lft, 12, Black, 3, Leaf), Lft, 8, Red, 2, Leaf);
    before := Plug(k, Node(Leaf, 4, Red, 1, Leaf));
    assert RedBlack(Plug(k, Leaf)) by { assert Bal(Plug(k, Leaf), 1); }
    after := RbInsert.LinkAndInsert(r, Augmented(HeightRule), 4, 8, Lft, k);
  }

  /** 8, 4 and 12 are linked. */
  method Fan() returns (r: RbRoot)
    ensures fresh(r) && 16 in r.h && r.h[16].aug == 1
    ensures Rep(r.Img(), Node(Node(Leaf, 4, Red, 1, Leaf), 8, Black, 3, Node(Leaf, 12, Red, 2, Leaf)))
  {
    SmallAligned();
    EmptyRedBlack();
    r := new RbRoot(Fresh(map[4 := 1, 8 := 3, 12 := 2, 16 := 1]));
    ghost var t := RbInsert.LinkAndInsert(r, Augmented(HeightRule), 8, NULL, Lft, Top);
    assert t == Node(Leaf, 8, Black, 3, Leaf);
    t := RbInsert.LinkAndInsert(r, Augmented(HeightRule), 4, 8, Lft, Crumb(Top, Lft, 8, Black, 3, Leaf));
    assert t == Node(Node(Leaf, 4, Red, 1, Leaf), 8, Black, 3, Leaf);
    t := RbInsert.LinkAndInsert(r, Augmented(HeightRule), 12, 8, Rgt,
        Crumb(Top, Rgt, 8, Black, 3, Node(Leaf, 4, Red, 1, Leaf)));
    assert t == Node(Node(Leaf, 4, Red, 1, Leaf), 8, Black, 3, Node(Leaf, 12, Red, 2, Leaf));
  }

  /** Four nodes with right heights: 4 is a black leaf, its sibling has a red outer child. */
  function FourNodes(): Tree {
    Node(Node(Leaf, 4, Black, 1, Leaf), 8, Black, 3, Node(Leaf, 12, Black, 2, Node(Leaf, 16, Red, 1, Leaf)))
  }

  method Four() returns (r: RbRoot)
    ensures fresh(r) && Rep(r.Img(), FourNodes()) && RedBlack(FourNodes())
  {
    SmallAligned();
    r := Fan();
    ghost var k := Crumb(Crumb(Top, Rgt, 8, Black, 3, Node(Leaf, 4, Red, 1, Leaf)), Rgt, 12, Red, 2, Leaf);
    assert RedBlack(Plug(k, Leaf)) by { assert Bal(Plug(k, Leaf), 1); }
    ghost var t := RbInsert.LinkAndInsert(r, Augmented(HeightRule), 16, 12, Rgt, k);
    assert t == FourNodes();
  }

  /** Erasing 4 from them: after the rotation of Case 4 one height is wrong. */
  method EraseBreaksHeights() returns (r: RbRoot, ghost after: Tree)
    ensures fresh(r) && Rep(r.Img(), after) && RedBlack(after) && Inorder(after) == [8, 12, 16]
    ensures AugOk(HeightRule, FourNodes()) && !AugOk(HeightRule, after)
  {
    r := Four();
    WrongAfterErase();
    after := RbErase.Erase(r, Augmented(HeightRule), 4, FourNodes());
  }

  lemma WrongAfterErase()
    ensures 4 in Ptrs(FourNodes()) && AugOk(HeightRule, FourNodes()) && !RbErase.ErasedRight(HeightRule, FourNodes(), 4)
    ensures RbErase.Without(Inorder(FourNodes()), 4) == [8, 12, 16]
  {
    var k := Crumb(Top, Lft, 8, Black, 3, Node(Leaf, 12, Black, 2, Node(Leaf, 16, Red, 1, Leaf)));
    assert Locate(FourNodes(), 4, Top) == (k, Node(Leaf, 4, Black, 1, Leaf));
    assert Inorder(FourNodes()) == [4, 8, 12, 16];
  }
}
