/**
 Lists without repetition, as the circular lists of include/linux/list.h are used here.
 */
module Sequences {
  /** Nothing occurs twice. */
  ghost predicate NoDup(s: seq<nat>) {
    forall i, j :: 0 <= i < j < |s| ==> s[i] != s[j]
  }

  /** list_del: `s` without its first `x`. */
  function Remove(s: seq<nat>, x: nat): seq<nat> {
    if s == [] then [] else if s[0] == x then s[1..] else [s[0]] + Remove(s[1..], x)
  }

  lemma {:induction false} RemoveNoDup(s: seq<nat>, x: nat)
    requires NoDup(s)
    ensures NoDup(Remove(s, x))
    ensures forall y: nat :: y in Remove(s, x) <==> y in s && y != x
  {
    if s != [] {
      assert NoDup(s[1..]) by { assert forall i :: 0 <= i < |s[1..]| ==> s[1..][i] == s[i + 1]; }
      assert s == [s[0]] + s[1..];
      assert s[0] !in s[1..] by { assert forall i :: 0 <= i < |s[1..]| ==> s[1..][i] == s[i + 1]; }
      RemoveNoDup(s[1..], x);
      if s[0] != x {
        var t := Remove(s[1..], x);
        assert s[0] !in t;
        assert NoDup([s[0]] + t);
      }
    }
  }

  lemma {:induction false} RemoveLength(s: seq<nat>, x: nat)
    requires x in s
    ensures |Remove(s, x)| == |s| - 1
  {
    if s[0] != x { RemoveLength(s[1..], x); }
  }

  lemma {:induction false} RemoveLast(s: seq<nat>)
    requires NoDup(s) && s != []
    ensures Remove(s, s[|s| - 1]) == s[..|s| - 1]
  {
    if |s| > 1 {
      var t := s[1..];
      assert NoDup(t) && t[|t| - 1] == s[|s| - 1];
      RemoveLast(t);
      assert s[..|s| - 1] == [s[0]] + t[..|t| - 1];
    }
  }

  lemma {:induction false} RemoveMultiset(s: seq<nat>, x: nat)
    ensures multiset(Remove(s, x)) == multiset(s) - multiset{x}
  {
    if s != [] {
      assert s == [s[0]] + s[1..];
      RemoveMultiset(s[1..], x);
    }
  }

  /** How often `x` occurs. */
  function Count(s: seq<nat>, x: nat): nat {
    multiset(s)[x]
  }

  lemma {:induction false} NoDupCount(s: seq<nat>)
    ensures NoDup(s) <==> forall x: nat :: Count(s, x) <= 1
  {
    if s != [] {
      var t := s[1..];
      assert s == [s[0]] + t;
      HeadNoDup(s);
      NoDupCount(t);
      forall x: nat
        ensures Count(s, x) == Count(t, x) + (if x == s[0] then 1 else 0)
      {
        assert multiset(s) == multiset{s[0]} + multiset(t);
      }
      assert s[0] in t <==> Count(t, s[0]) >= 1;
      if forall x: nat :: Count(s, x) <= 1 {
        assert Count(s, s[0]) <= 1;
        forall x: nat ensures Count(t, x) <= 1 { assert Count(s, x) <= 1; }
      }
    }
  }

  lemma {:induction false} MiddleOnce(a: seq<nat>, x: nat, b: seq<nat>)
    requires NoDup(a + ([x] + b))
    ensures x !in a
  {
    var s := a + ([x] + b);
    assert s[|a|] == x && forall i :: 0 <= i < |a| ==> s[i] == a[i];
  }

  lemma HeadNoDup(s: seq<nat>)
    requires s != []
    ensures NoDup(s) <==> NoDup(s[1..]) && s[0] !in s[1..]
  {
    assert forall i :: 0 <= i < |s| - 1 ==> s[1..][i] == s[i + 1];
    if NoDup(s[1..]) && s[0] !in s[1..] {
      forall i, j | 0 <= i < j < |s|
        ensures s[i] != s[j]
      {
        assert s[j] == s[1..][j - 1];
        if i > 0 { assert s[i] == s[1..][i - 1]; }
      }
    }
  }

  /** Rearranging a list keeps its members, and whether any occurs twice. */
  lemma {:induction false} SameMembers(s: seq<nat>, t: seq<nat>)
    requires multiset(s) == multiset(t)
    ensures |s| == |t| && (NoDup(s) <==> NoDup(t)) && forall y: nat :: y in s <==> y in t
  {
    NoDupCount(s);
    NoDupCount(t);
    assert forall x: nat :: Count(s, x) == Count(t, x);
    assert |multiset(s)| == |s| && |multiset(t)| == |t|;
    assert forall y: nat :: y in s <==> y in multiset(s);
    assert forall y: nat :: y in t <==> y in multiset(t);
  }
}
