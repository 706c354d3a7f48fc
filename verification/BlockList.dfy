/**
 The blocks of a file as one sequence of bytes.
 */
module BlockLists {
  import opened Words
  ghost predicate Shape(bs: nat, blocks: seq<Bytes>) {
    bs > 0 && forall i :: 0 <= i < |blocks| ==> |blocks[i]| == bs
  }

  function Concat(blocks: seq<Bytes>): Bytes {
    if blocks == [] then [] else Concat(blocks[..|blocks| - 1]) + blocks[|blocks| - 1]
  }

  /** Where block `i` starts: i * bs. */
  function At(bs: nat, i: nat): nat {
    if i == 0 then 0 else At(bs, i - 1) + bs
  }

  /** `s` with `d` written over it from position `p` on. */
  function Splice(s: Bytes, p: nat, d: Bytes): Bytes
    requires p + |d| <= |s|
  {
    s[..p] + d + s[p + |d|..]
  }

  lemma {:induction false} AtMonotone(bs: nat, i: nat, j: nat)
    requires i <= j
    ensures At(bs, i) <= At(bs, j) && (i < j ==> At(bs, i) + bs <= At(bs, j))
  {
    if i < j { AtMonotone(bs, i, j - 1); }
  }

  lemma {:induction false} AtSum(bs: nat, i: nat, j: nat)
    ensures At(bs, i + j) == At(bs, i) + At(bs, j)
  {
    if j > 0 { AtSum(bs, i, j - 1); }
  }

  lemma {:induction false} AtIs(bs: nat, i: nat)
    ensures At(bs, i) == bs * i
  {
    if i > 0 { AtIs(bs, i - 1); }
  }

  lemma {:induction false} ConcatLength(bs: nat, blocks: seq<Bytes>)
    requires Shape(bs, blocks)
    ensures |Concat(blocks)| == At(bs, |blocks|)
  {
    if blocks != [] { ConcatLength(bs, blocks[..|blocks| - 1]); }
  }

  /** Bytes `a` to `b` of block `i`. */
  lemma {:induction false} ConcatSlice(bs: nat, blocks: seq<Bytes>, i: nat, a: nat, b: nat)
    requires Shape(bs, blocks) && i < |blocks| && a <= b <= bs
    ensures At(bs, i) + bs <= |Concat(blocks)| && Concat(blocks)[At(bs, i) + a..At(bs, i) + b] == blocks[i][a..b]
    decreases |blocks|
  {
    var t := blocks[..|blocks| - 1];
    ConcatLength(bs, t);
    if i < |t| {
      ConcatSlice(bs, t, i, a, b);
      var c, d := At(bs, i) + a, At(bs, i) + b;
      assert (Concat(t) + blocks[|t|])[c..d] == Concat(t)[c..d];
    }
  }

  lemma {:induction false} ConcatAppend(blocks: seq<Bytes>, more: seq<Bytes>)
    ensures Concat(blocks + more) == Concat(blocks) + Concat(more)
    decreases |more|
  {
    if more == [] {
      assert blocks + more == blocks;
    } else {
      var t := more[..|more| - 1];
      ConcatAppend(blocks, t);
      assert (blocks + more)[..|blocks + more| - 1] == blocks + t;
    }
  }

  /** Copying `d` into block `i` at offset `o` writes it at that place of the whole. */
  lemma {:induction false} ConcatSplice(bs: nat, blocks: seq<Bytes>, i: nat, o: nat, d: Bytes)
    requires Shape(bs, blocks) && i < |blocks| && o + |d| <= bs
    ensures Shape(bs, blocks[i := Splice(blocks[i], o, d)]) && At(bs, i) + o + |d| <= |Concat(blocks)|
    ensures Concat(blocks[i := Splice(blocks[i], o, d)]) == Splice(Concat(blocks), At(bs, i) + o, d)
    decreases |blocks|
  {
    var t, b := blocks[..|blocks| - 1], Splice(blocks[i], o, d);
    var r := blocks[i := b];
    ConcatLength(bs, t);
    if i < |t| {
      assert r[..|r| - 1] == t[i := b];
      ConcatSplice(bs, t, i, o, d);
      SpliceFront(Concat(t), blocks[|t|], At(bs, i) + o, d);
    } else {
      assert r[..|r| - 1] == t;
      SpliceBack(Concat(t), blocks[|t|], o, d);
    }
  }

  lemma SpliceFront(s: Bytes, t: Bytes, p: nat, d: Bytes)
    requires p + |d| <= |s|
    ensures Splice(s + t, p, d) == Splice(s, p, d) + t
  {
  }

  lemma SpliceBack(s: Bytes, t: Bytes, p: nat, d: Bytes)
    requires p + |d| <= |t|
    ensures Splice(s + t, |s| + p, d) == s + Splice(t, p, d)
  {
    assert (s + t)[..|s| + p] == s + t[..p];
    assert (s + t)[|s| + p + |d|..] == t[p + |d|..];
  }

  lemma SpliceTwice(s: Bytes, p: nat, d: Bytes, e: Bytes)
    requires p + |d| + |e| <= |s|
    ensures Splice(Splice(s, p, d), p + |d|, e) == Splice(s, p, d + e)
  {
    var u := Splice(s, p, d);
    assert u[..p + |d|] == s[..p] + d;
    assert u[p + |d| + |e|..] == s[p + |d| + |e|..];
  }
}
