/**
 Page-number arithmetic of kernel/mm/buddy.h: the XOR that finds a buddy and the AND that finds the head
 of a merged pair, on the binary digits of page numbers.
 */
module PageMath {
  import opened Powers

  /** The bitwise exclusive or of two numbers. */
  function Xor(a: nat, b: nat): nat {
    if a == 0 && b == 0 then 0 else (if a % 2 == b % 2 then 0 else 1) + 2 * Xor(a / 2, b / 2)
  }

  /** The bitwise and of two numbers. */
  function And(a: nat, b: nat): nat {
    if a == 0 || b == 0 then 0 else (if a % 2 == 1 && b % 2 == 1 then 1 else 0) + 2 * And(a / 2, b / 2)
  }

  /** The first page of the size-aligned block of level `k` that page `p` lies in. */
  function Base(p: nat, k: nat): nat {
    if k == 0 then p else 2 * Base(p / 2, k - 1)
  }

  lemma {:induction false} BaseBounds(p: nat, k: nat)
    ensures Base(p, k) <= p < Base(p, k) + Pow2(k)
  {
    if k > 0 { BaseBounds(p / 2, k - 1); }
  }

  /** Blocks of one level are equal or disjoint. */
  lemma {:induction false} BaseSame(p: nat, q: nat, k: nat)
    requires Base(p, k) <= q < Base(p, k) + Pow2(k)
    ensures Base(q, k) == Base(p, k)
  {
    if k > 0 { BaseSame(p / 2, q / 2, k - 1); }
  }

  /** Blocks of two levels are nested or disjoint. */
  lemma {:induction false} BaseNest(p: nat, j: nat, k: nat)
    requires j <= k
    ensures Base(Base(p, j), k) == Base(p, k) && Base(Base(p, k), j) == Base(p, k)
  {
    if k > 0 {
      if j == 0 {
        BaseNest(p / 2, 0, k - 1);
      } else {
        BaseNest(p / 2, j - 1, k - 1);
        assert Base(p, j) / 2 == Base(p / 2, j - 1) && Base(p, k) / 2 == Base(p / 2, k - 1);
      }
    }
  }

  lemma {:induction false} BaseMonotone(p: nat, q: nat, k: nat)
    requires p <= q
    ensures Base(p, k) <= Base(q, k)
  {
    if k > 0 { BaseMonotone(p / 2, q / 2, k - 1); }
  }

  /** A block below an aligned bound ends at or below it. */
  lemma {:induction false} BaseBelow(p: nat, e: nat, k: nat)
    requires Base(e, k) == e && p < e
    ensures Base(p, k) + Pow2(k) <= e
  {
    if k > 0 { BaseBelow(p / 2, e / 2, k - 1); }
  }

  /** A block of level `k` starts at a multiple of 2^k. */
  lemma {:induction false} BaseMultiple(p: nat, k: nat) returns (m: nat)
    ensures Base(p, k) == m * Pow2(k)
  {
    if k == 0 {
      m := p;
    } else {
      m := BaseMultiple(p / 2, k - 1);
      assert 2 * (m * Pow2(k - 1)) == m * (2 * Pow2(k - 1));
    }
  }

  lemma {:induction false} XorZero(a: nat)
    ensures Xor(a, 0) == a
  {
    if a > 0 { XorZero(a / 2); }
  }

  lemma {:induction false} AndSelf(a: nat)
    ensures And(a, a) == a
  {
    if a > 0 { AndSelf(a / 2); }
  }

  /** get_buddy_pgn: the other half of the block of the next level. */
  function Buddy(p: nat, k: nat): nat {
    Xor(p, Pow2(k))
  }

  /** For an aligned page the XOR is the other half, and the AND of the two halves is their common head. */
  lemma {:induction false} BuddyIs(p: nat, k: nat)
    requires Base(p, k) == p
    ensures Buddy(p, k) == if Base(p, k + 1) == p then p + Pow2(k) else p - Pow2(k)
    ensures p != Base(p, k + 1) ==> p == Base(p, k + 1) + Pow2(k)
    ensures Base(Buddy(p, k), k) == Buddy(p, k) && Base(Buddy(p, k), k + 1) == Base(p, k + 1)
    ensures And(p, Buddy(p, k)) == Base(p, k + 1)
    ensures Buddy(Buddy(p, k), k) == p
  {
    BuddyHalf(p, k);
    BuddyTwice(p, k);
  }

  lemma {:induction false} BuddyHalf(p: nat, k: nat)
    requires Base(p, k) == p
    ensures Buddy(p, k) == if Base(p, k + 1) == p then p + Pow2(k) else p - Pow2(k)
    ensures p != Base(p, k + 1) ==> p == Base(p, k + 1) + Pow2(k)
    ensures Base(Buddy(p, k), k) == Buddy(p, k) && Base(Buddy(p, k), k + 1) == Base(p, k + 1)
  {
    if k == 0 {
      BuddyBit(p);
    } else {
      BuddyHalf(p / 2, k - 1);
      DoubleBuddy(p / 2, k - 1);
      assert p == 2 * (p / 2);
      var b := Buddy(p / 2, k - 1);
      assert Buddy(p, k) == 2 * b && 2 * b / 2 == b;
    }
  }

  lemma {:induction false} BuddyTwice(p: nat, k: nat)
    requires Base(p, k) == p
    ensures And(p, Buddy(p, k)) == Base(p, k + 1)
    ensures Buddy(Buddy(p, k), k) == p
  {
    if k == 0 {
      BuddyBit(p);
    } else {
      BuddyTwice(p / 2, k - 1);
      DoubleBuddy(p / 2, k - 1);
      DoubleBuddy(Buddy(p / 2, k - 1), k - 1);
      assert p == 2 * (p / 2);
    }
  }

  lemma {:induction false} BuddyBit(p: nat)
    ensures Buddy(p, 0) == if p % 2 == 0 then p + 1 else p - 1
    ensures And(p, Buddy(p, 0)) == p / 2 * 2 && Buddy(Buddy(p, 0), 0) == p
  {
    assert Pow2(0) == 1;
    XorZero(p / 2);
    AndSelf(p / 2);
    var b := Buddy(p, 0);
    assert b / 2 == p / 2;
    XorZero(b / 2);
  }

  lemma {:induction false} DoubleBuddy(q: nat, k: nat)
    ensures Buddy(2 * q, k + 1) == 2 * Buddy(q, k)
    ensures And(2 * q, 2 * Buddy(q, k)) == 2 * And(q, Buddy(q, k))
  {
    assert Pow2(k + 1) == 2 * Pow2(k);
    assert 2 * q / 2 == q && 2 * Pow2(k) / 2 == Pow2(k) && 2 * Buddy(q, k) / 2 == Buddy(q, k);
  }
}
