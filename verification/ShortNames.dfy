/**
 8.3 file names of kernel/fs/fat/fat.c: conversion in both directions and comparison without regard to case.
 */
module ShortNames {
  const SPACE: char := ' '
  const NUL: char := '\0'
  const DOT: char := '.'

  /** TO_UPPER_CASE */
  function Upper(c: char): (r: char)
    ensures !('a' <= r <= 'z') && (r != c ==> 'a' <= c <= 'z' && 'A' <= r <= 'Z' && r - 'A' == c - 'a')
  {
    if 'a' <= c <= 'z' then (c as int - 32) as char else c
  }

  /** TO_LOWER_CASE */
  function Lower(c: char): (r: char)
    ensures !('A' <= r <= 'Z') && (r != c ==> 'A' <= c <= 'Z' && 'a' <= r <= 'z' && r - 'a' == c - 'A')
  {
    if 'A' <= c <= 'Z' then (c as int + 32) as char else c
  }

  function UpperAll(s: string): (r: string)
    ensures |r| == |s| && forall i :: 0 <= i < |s| ==> r[i] == Upper(s[i])
  {
    seq(|s|, i requires 0 <= i < |s| => Upper(s[i]))
  }

  function LowerAll(s: string): (r: string)
    ensures |r| == |s| && forall i :: 0 <= i < |s| ==> r[i] == Lower(s[i])
  {
    seq(|s|, i requires 0 <= i < |s| => Lower(s[i]))
  }

  lemma CaseFacts(a: char, b: char)
    ensures Lower(Upper(a)) == Lower(a) && Upper(Lower(a)) == Upper(a)
    ensures Lower(a) == Lower(b) <==> Upper(a) == Upper(b)
    ensures (Upper(a) == SPACE <==> a == SPACE) && (Upper(a) == NUL <==> a == NUL) && (Lower(a) == NUL <==> a == NUL)
  {
  }

  /** struct filename_8dot3 */
  datatype Short = Short(name: string, ext: string)

  /** The position of the last dot, or the length. */
  ghost predicate IsDotPos(s: string, d: int) {
    0 <= d <= |s| && (d < |s| ==> s[d] == DOT) && (forall i :: d < i < |s| ==> s[i] != DOT)
    && (d == |s| ==> forall i :: 0 <= i < |s| ==> s[i] != DOT)
  }

  function DotPos(s: string): (d: nat)
    ensures IsDotPos(s, d)
  {
    DotBefore(s, |s|)
  }

  function DotBefore(s: string, n: nat): (d: nat)
    requires n <= |s| && forall i :: n <= i < |s| ==> s[i] != DOT
    ensures IsDotPos(s, d)
  {
    if n == 0 then |s| else if s[n - 1] == DOT then n - 1 else DotBefore(s, n - 1)
  }

  function Stem(s: string): string {
    s[..DotPos(s)]
  }

  function Ext(s: string): string {
    if DotPos(s) == |s| then "" else s[DotPos(s) + 1..]
  }

  /** The first `n` characters in upper case, filled up with spaces. */
  function Padded(s: string, n: nat): (r: string)
    ensures |r| == n && forall i :: 0 <= i < n ==> r[i] == if i < |s| then Upper(s[i]) else SPACE
  {
    seq(n, i requires 0 <= i < n => if i < |s| then Upper(s[i]) else SPACE)
  }

  function ToShort(s: string): Short {
    Short(Padded(Stem(s), 8), Padded(Ext(s), 3))
  }

  /** convert_normal_to_8dot3 */
  method ConvertToShort(s: string) returns (r: Short)
    ensures r == ToShort(s) && |r.name| == 8 && |r.ext| == 3
    ensures forall i :: 0 <= i < 8 ==> !('a' <= r.name[i] <= 'z')
    ensures forall i :: 0 <= i < 3 ==> !('a' <= r.ext[i] <= 'z')
    ensures exists d :: IsDotPos(s, d)
              && (forall i :: 0 <= i < 8 ==> r.name[i] == if i < d then Upper(s[i]) else SPACE)
              && (forall i :: 0 <= i < 3 ==> r.ext[i] == if d + 1 + i < |s| then Upper(s[d + 1 + i]) else SPACE)
  {
    var dot, i := -1, |s| - 1;
    while i >= 0
      invariant -1 <= i < |s| && dot == -1 && forall j :: i < j < |s| ==> s[j] != DOT
      invariant DotPos(s) == DotBefore(s, i + 1)
    {
      if s[i] == DOT {
        dot := i;
        break;
      }
      i := i - 1;
    }
    if dot < 0 { dot := |s|; }
    var name, ext := "", "";
    i := 0;
    while i < 8
      invariant 0 <= i <= 8 && name == Padded(Stem(s), 8)[..i]
    {
      name := name + [if i < dot then Upper(s[i]) else SPACE];
      i := i + 1;
    }
    i := 0;
    while i < 3
      invariant 0 <= i <= 3 && ext == Padded(Ext(s), 3)[..i]
    {
      var pos := dot + 1 + i;
      ext := ext + [if pos < |s| then Upper(s[pos]) else SPACE];
      i := i + 1;
    }
    r := Short(name, ext);
  }

  /** The number of characters in front of the first `c`. */
  function Before(s: string, c: char): (n: nat)
    ensures n <= |s| && (n < |s| ==> s[n] == c) && forall i :: 0 <= i < n ==> s[i] != c
  {
    if s == "" || s[0] == c then 0 else 1 + Before(s[1..], c)
  }

  lemma {:induction false} BeforeUnique(s: string, c: char, n: nat)
    requires n <= |s| && (n < |s| ==> s[n] == c) && forall i :: 0 <= i < n ==> s[i] != c
    ensures Before(s, c) == n
  {
  }

  function FromShort(n: Short): string {
    var stem, ext := n.name[..Before(n.name, SPACE)], n.ext[..Before(n.ext, SPACE)];
    LowerAll(stem) + if ext == "" then "" else [DOT] + LowerAll(ext)
  }

  /** convert_8dot3_to_normal */
  method ConvertFromShort(n: Short) returns (s: string)
    requires |n.name| == 8 && |n.ext| == 3
    ensures s == FromShort(n) && forall i :: 0 <= i < |s| ==> !('A' <= s[i] <= 'Z')
  {
    s := "";
    var i := 0;
    while i < 8
      invariant 0 <= i <= 8 && s == LowerAll(n.name[..i]) && forall j :: 0 <= j < i ==> n.name[j] != SPACE
    {
      if n.name[i] == SPACE { break; }
      s := s + [Lower(n.name[i])];
      i := i + 1;
    }
    BeforeUnique(n.name, SPACE, i);
    var stem := s;
    i := 0;
    while i < 3
      invariant 0 <= i <= 3 && s == stem + (if i == 0 then "" else [DOT] + LowerAll(n.ext[..i]))
      invariant forall j :: 0 <= j < i ==> n.ext[j] != SPACE
    {
      if n.ext[i] == SPACE { break; }
      if i == 0 { s := s + [DOT]; }
      s := s + [Lower(n.ext[i])];
      i := i + 1;
    }
    BeforeUnique(n.ext, SPACE, i);
  }

  /** The names an 8.3 entry can hold: short enough, without spaces, and no dot at the end. */
  predicate Fits(s: string) {
    && |Stem(s)| <= 8 && |Ext(s)| <= 3 && SPACE !in Stem(s) && SPACE !in Ext(s)
    && (s != "" ==> s[|s| - 1] != DOT)
  }

  function Min(a: nat, b: nat): nat {
    if a < b then a else b
  }

  /** How much of a name part survives: up to a space and up to `n` characters. */
  lemma {:induction false} PaddedPrefix(s: string, n: nat)
    ensures Before(Padded(s, n), SPACE) == Min(Before(s, SPACE), n)
    ensures LowerAll(Padded(s, n)[..Min(Before(s, SPACE), n)]) == LowerAll(s[..Min(Before(s, SPACE), n)])
  {
    var p, m := Padded(s, n), Min(Before(s, SPACE), n);
    forall i | 0 <= i < n && i < |s|
      ensures (p[i] == SPACE <==> s[i] == SPACE) && Lower(p[i]) == Lower(s[i])
    {
      CaseFacts(s[i], s[i]);
    }
    BeforeUnique(p, SPACE, m);
  }

  /** What comes back from a conversion to 8.3. */
  lemma {:induction false} Survivors(s: string)
    ensures var k, m := Min(Before(Stem(s), SPACE), 8), Min(Before(Ext(s), SPACE), 3);
            FromShort(ToShort(s)) == LowerAll(Stem(s)[..k]) + if m == 0 then "" else [DOT] + LowerAll(Ext(s)[..m])
  {
    PaddedPrefix(Stem(s), 8);
    PaddedPrefix(Ext(s), 3);
  }

  /** Converting to 8.3 and back gives the name in lower case exactly for the names that fit. */
  lemma {:induction false} RoundTrip(s: string)
    ensures FromShort(ToShort(s)) == LowerAll(s) <==> Fits(s)
  {
    if Fits(s) { FitsReturns(s); } else { OthersShrink(s); }
  }

  lemma {:induction false} FitsReturns(s: string)
    requires Fits(s)
    ensures FromShort(ToShort(s)) == LowerAll(s)
  {
    Survivors(s);
    WholeWhenFitting(s);
    assert Stem(s)[..|Stem(s)|] == Stem(s) && Ext(s)[..|Ext(s)|] == Ext(s);
  }

  lemma {:induction false} OthersShrink(s: string)
    requires !Fits(s)
    ensures |FromShort(ToShort(s))| < |s|
  {
    Survivors(s);
    LongerWhenNotFitting(s);
  }

  /** A part without spaces survives whole. */
  lemma {:induction false} AllBefore(s: string)
    requires SPACE !in s
    ensures Before(s, SPACE) == |s|
  {
    BeforeUnique(s, SPACE, |s|);
  }

  /** A name without a dot at its end is its stem, or its stem, a dot and its extension. */
  lemma {:induction false} NameParts(s: string)
    requires s != "" ==> s[|s| - 1] != DOT
    ensures LowerAll(s) == LowerAll(Stem(s)) + if Ext(s) == "" then "" else [DOT] + LowerAll(Ext(s))
  {
    var d := DotPos(s);
    if d == |s| {
      assert Stem(s) == s && Ext(s) == "";
    } else {
      assert s == Stem(s) + ([DOT] + Ext(s));
      LowerAppend(Stem(s), [DOT] + Ext(s));
      LowerAppend([DOT], Ext(s));
      assert LowerAll([DOT]) == [DOT];
    }
  }

  lemma LowerAppend(a: string, b: string)
    ensures LowerAll(a + b) == LowerAll(a) + LowerAll(b)
  {
  }

  lemma {:induction false} WholeWhenFitting(s: string)
    requires Fits(s)
    ensures Min(Before(Stem(s), SPACE), 8) == |Stem(s)| && Min(Before(Ext(s), SPACE), 3) == |Ext(s)|
    ensures LowerAll(s) == LowerAll(Stem(s)) + if Ext(s) == "" then "" else [DOT] + LowerAll(Ext(s))
  {
    AllBefore(Stem(s));
    AllBefore(Ext(s));
    NameParts(s);
  }

  lemma {:induction false} LongerWhenNotFitting(s: string)
    requires !Fits(s)
    ensures var k, m := Min(Before(Stem(s), SPACE), 8), Min(Before(Ext(s), SPACE), 3);
            k + (if m == 0 then 0 else 1 + m) < |s|
  {
    var d := DotPos(s);
    assert |s| == |Stem(s)| + if d == |s| then 0 else 1 + |Ext(s)|;
  }

  // ---------------------------------------------------------------- comparison

  /** The C string in a buffer: what is in front of the first NUL. */
  function CString(s: string): string {
    s[..Before(s, NUL)]
  }

  predicate SameName(a: string, b: string) {
    UpperAll(CString(a)) == UpperAll(CString(b))
  }

  /** compare_fat32 */
  method Compare(a: string, b: string) returns (r: int)
    ensures r == 0 <==> SameName(a, b)
  {
    var pos := 0;
    while pos < |a| && pos < |b|
      invariant 0 <= pos <= |a| && pos <= |b|
      invariant forall i :: 0 <= i < pos ==> a[i] != NUL && Upper(a[i]) == Upper(b[i])
    {
      if !(a[pos] != NUL && Upper(a[pos]) == Upper(b[pos])) { break; }
      pos := pos + 1;
    }
    var x := if pos == |a| then NUL else a[pos];
    var y := if pos == |b| then NUL else b[pos];
    r := x as int - y as int;
    CompareAt(a, b, pos);
  }

  /** Names that agree in front of `pos` and stop agreeing there, or end, are the same name exactly when both
      end there. */
  lemma {:induction false} CompareAt(a: string, b: string, pos: nat)
    requires pos <= |a| && pos <= |b| && forall i :: 0 <= i < pos ==> a[i] != NUL && Upper(a[i]) == Upper(b[i])
    requires pos < |a| && pos < |b| ==> a[pos] == NUL || Upper(a[pos]) != Upper(b[pos])
    ensures SameName(a, b) <==> (if pos == |a| then NUL else a[pos]) == (if pos == |b| then NUL else b[pos])
  {
    forall i | 0 <= i < pos
      ensures b[i] != NUL
    {
      CaseFacts(a[i], a[i]);
      CaseFacts(b[i], b[i]);
    }
    var x := if pos == |a| then NUL else a[pos];
    var y := if pos == |b| then NUL else b[pos];
    var ca, cb := CString(a), CString(b);
    assert |ca| >= pos && |cb| >= pos;
    if x == y {
      assert x == NUL;
      BeforeUnique(a, NUL, pos);
      BeforeUnique(b, NUL, pos);
    } else {
      forall i | 0 <= i < |ca| && SameName(a, b)
        ensures i < |cb| && Upper(ca[i]) == Upper(cb[i])
      {
        assert UpperAll(ca)[i] == UpperAll(cb)[i];
      }
    }
  }

  /** A file created under a name that fits is found under exactly the names equal to it up to case. */
  lemma {:induction false} LookupFinds(a: string, b: string)
    requires Fits(a) && NUL !in a && NUL !in b
    ensures SameName(b, FromShort(ToShort(a))) <==> UpperAll(b) == UpperAll(a)
  {
    RoundTrip(a);
    var c := LowerAll(a);
    forall i | 0 <= i < |a|
      ensures c[i] != NUL && Upper(c[i]) == Upper(a[i])
    {
      CaseFacts(a[i], a[i]);
    }
    BeforeUnique(c, NUL, |c|);
    BeforeUnique(b, NUL, |b|);
    assert CString(c) == c && CString(b) == b;
    assert UpperAll(c) == UpperAll(a);
  }

  /** Two names that fit collide on disk exactly when they are equal up to case. */
  lemma {:induction false} ShortNamesDistinct(a: string, b: string)
    requires Fits(a) && Fits(b)
    ensures ToShort(a) == ToShort(b) <==> UpperAll(a) == UpperAll(b)
  {
    RoundTrip(a);
    RoundTrip(b);
    assert UpperAll(a) == UpperAll(b) <==> LowerAll(a) == LowerAll(b) by { SameCase(a, b); }
    if UpperAll(a) == UpperAll(b) { SameShort(a, b); }
  }

  lemma {:induction false} SameCase(a: string, b: string)
    ensures UpperAll(a) == UpperAll(b) <==> LowerAll(a) == LowerAll(b)
  {
    if |a| == |b| {
      forall i | 0 <= i < |a|
        ensures Lower(a[i]) == Lower(b[i]) <==> Upper(a[i]) == Upper(b[i])
      {
        CaseFacts(a[i], b[i]);
      }
      if UpperAll(a) == UpperAll(b) {
        forall i | 0 <= i < |a| ensures LowerAll(a)[i] == LowerAll(b)[i] { assert UpperAll(a)[i] == UpperAll(b)[i]; }
      }
      if LowerAll(a) == LowerAll(b) {
        forall i | 0 <= i < |a| ensures UpperAll(a)[i] == UpperAll(b)[i] { assert LowerAll(a)[i] == LowerAll(b)[i]; }
      }
    } else {
      assert |UpperAll(a)| != |UpperAll(b)| && |LowerAll(a)| != |LowerAll(b)|;
    }
  }

  lemma {:induction false} SameShort(a: string, b: string)
    requires UpperAll(a) == UpperAll(b)
    ensures ToShort(a) == ToShort(b)
  {
    assert |a| == |b|;
    forall i | 0 <= i < |a|
      ensures Upper(a[i]) == Upper(b[i]) && (a[i] == DOT <==> b[i] == DOT)
    {
      assert UpperAll(a)[i] == UpperAll(b)[i];
    }
    assert DotPos(a) == DotPos(b);
  }
}
