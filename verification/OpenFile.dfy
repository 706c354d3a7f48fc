/**
 Reading, writing and seeking in an open file (kernel/fs/read_write.c, dentry_open_file in kernel/fs/open.c):
 a cursor made of a block and an offset inside it, over a list of blocks.
 */
module OpenFiles {
  import opened Words
  import opened Division
  import opened BlockLists

  const INT_RANGE: nat := 0x8000_0000

  /** Unsigned 32-bit arithmetic. */
  function Wrap(x: int): nat {
    x % 0x1_0000_0000
  }

  datatype Error = NoError | AccessAuthority | EndOfFile | NoSpace

  /** The flags of fs_seek. */
  datatype Whence = Current | Head | Tail

  /** The last block is the one the file ends in or right behind: file_last_blk_remain is at most a block. */
  predicate Tight(bs: nat, n: nat, size: nat) {
    n > 0 && At(bs, n - 1) <= size <= At(bs, n)
  }

  /** The blocks hold the file, whose size is an int. */
  predicate Roomy(bs: nat, n: nat, size: nat) {
    n > 0 && bs < INT_RANGE && size < INT_RANGE && size <= At(bs, n)
  }

  /** A value as it is read back from an int. */
  function ToInt(x: int): int {
    if Wrap(x) < INT_RANGE then Wrap(x) else Wrap(x) - UINT_RANGE
  }

  /** The new size is an int, and so is its distance from the end of the last block: file_expand_to can compute how
      many blocks it needs, if it needs any. */
  predicate Askable(bs: nat, n: nat, size: nat, newSize: nat) {
    newSize > size ==> newSize < INT_RANGE && At(bs, n) <= newSize + INT_RANGE
  }

  /** file_last_blk_remain, before it is cut to an int */
  function Remain(bs: nat, n: nat, size: nat): int {
    At(bs, n) - size
  }

  /** The least number of blocks that hold `x` bytes. */
  function BlocksFor(bs: nat, x: nat): (q: nat)
    requires bs > 0
    ensures x <= At(bs, q) && (q > 0 ==> At(bs, q - 1) < x)
  {
    if x <= bs then (if x == 0 then 0 else assert At(bs, 1) == bs; 1) else 1 + BlocksFor(bs, x - bs)
  }

  /** The number of blocks file_expand_to asks for. */
  function Needed(bs: nat, n: nat, newSize: nat): nat
    requires bs > 0
  {
    if newSize <= At(bs, n) then 0 else BlocksFor(bs, newSize - At(bs, n))
  }

  /** With `spare` more blocks the file can have `newSize` bytes exactly when that many blocks are enough. */
  lemma {:induction false} EnoughSpare(bs: nat, n: nat, newSize: nat, spare: nat)
    requires bs > 0
    ensures Needed(bs, n, newSize) <= spare <==> newSize <= At(bs, n + spare)
  {
    var q := Needed(bs, n, newSize);
    AtSum(bs, n, spare);
    if q <= spare { AtMonotone(bs, q, spare); } else { AtMonotone(bs, spare, q - 1); }
  }

  /** With those blocks the file is tight again. */
  lemma {:induction false} NeededIsTight(bs: nat, n: nat, size: nat, newSize: nat)
    requires bs > 0 && Tight(bs, n, size) && size < newSize
    ensures Tight(bs, n + Needed(bs, n, newSize), newSize)
  {
    var q := Needed(bs, n, newSize);
    AtSum(bs, n, q);
    if q > 0 { AtSum(bs, n, q - 1); }
  }

  /** The code's way to compute it. */
  lemma {:induction false} BlocksForIs(bs: nat, x: nat)
    requires bs > 0
    ensures BlocksFor(bs, x) == (x + bs - 1) / bs
  {
    var q := BlocksFor(bs, x);
    AtIs(bs, q);
    if q > 0 { AtIs(bs, q - 1); }
    DivUnique(x + bs - 1, bs, q, x + bs - 1 - bs * q);
  }

  /** The arithmetic of file_expand_to. */
  method BlocksToAsk(bs: nat, n: nat, size: nat, newSize: nat) returns (q: nat)
    requires bs > 0 && size < newSize && Askable(bs, n, size, newSize)
    ensures q == Needed(bs, n, newSize)
  {
    var remain := ToInt(Remain(bs, n, size));
    var expand := ToInt(newSize - size - remain);
    ExpandIs(newSize - size, Remain(bs, n, size));
    if expand > 0 { BlocksForIs(bs, expand); }
    q := if expand > 0 then (expand + bs - 1) / bs else 0;
  }

  lemma ExpandIs(more: int, remain: int)
    requires 0 <= more - remain + INT_RANGE < UINT_RANGE
    ensures ToInt(more - ToInt(remain)) == more - remain
  {
    var k := (remain - ToInt(remain)) / UINT_RANGE;
    assert ToInt(remain) == remain - k * UINT_RANGE;
    assert more - ToInt(remain) == more - remain + k * UINT_RANGE;
  }

  /** The file behind file_expand_to. */
  lemma {:induction false} ExpandedOk(bs: nat, blocks: seq<Bytes>, size: nat, newSize: nat, more: seq<Bytes>)
    requires Shape(bs, blocks) && Shape(bs, more) && Roomy(bs, |blocks|, size) && size < newSize < INT_RANGE
    requires |more| == Needed(bs, |blocks|, newSize)
    ensures Shape(bs, blocks + more) && Roomy(bs, |blocks + more|, newSize) && newSize <= |Concat(blocks + more)|
    ensures Concat(blocks) <= Concat(blocks + more) && newSize <= At(bs, |blocks| + |more|)
    ensures |more| > 0 ==> At(bs, |blocks| + |more| - 1) < newSize
    ensures Tight(bs, |blocks|, size) ==> Tight(bs, |blocks + more|, newSize)
  {
    var n := |more|;
    AtSum(bs, |blocks|, n);
    if n > 0 { AtSum(bs, |blocks|, n - 1); }
    if Tight(bs, |blocks|, size) { NeededIsTight(bs, |blocks|, size, newSize); }
    ConcatAppend(blocks, more);
    ConcatLength(bs, blocks + more);
  }

  // ---------------------------------------------------------------- the flat file

  /** `s` after `d` was written at `p`: the end moves when `d` reaches beyond it. */
  function Written(s: Bytes, p: nat, d: Bytes): (r: Bytes)
    requires p <= |s|
    ensures |r| == if p + |d| < |s| then |s| else p + |d|
    ensures forall i :: 0 <= i < |r| ==> r[i] == if p <= i < p + |d| then d[i - p] else s[i]
  {
    s[..p] + d + (if p + |d| < |s| then s[p + |d|..] else [])
  }

  /** Where fs_seek ends up for a target position `t`. */
  function SeekTo(size: nat, t: int): nat {
    if 0 <= t <= size then t else size
  }

  function From(whence: Whence, pos: nat, size: nat): nat {
    match whence
    case Current => pos
    case Head => 0
    case Tail => size
  }

  lemma SeekWraps(size: nat, t: int)
    requires size < INT_RANGE && -0x8000_0000 <= t < UINT_RANGE
    ensures SeekTo(size, t) == if Wrap(t) > size then size else Wrap(t)
  {
    if t < 0 { assert Wrap(t) == t + 0x1_0000_0000; }
  }

  /** fs_seek means to stop at both ends of the file. It does exactly for targets that are not negative, and in
      an empty file: positions are unsigned, and a negative one counts as beyond the end. */
  lemma SeekClamps(size: nat, t: int)
    ensures SeekTo(size, t) == (if t < 0 then 0 else if t > size then size else t) <==> t >= 0 || size == 0
  {
  }

  /** The guard of fs_read lets a request through that runs over the end exactly when the sum wraps around. */
  lemma ReadGuard(pos: nat, len: nat, size: nat)
    requires pos <= size < UINT_RANGE && len < UINT_RANGE
    ensures Wrap(pos + len) <= size && pos + len > size <==> pos + len >= UINT_RANGE
  {
  }

  /** The cursor of an append open lands on the end of the file exactly when the file is not more than a block
      short of its last block's end. */
  lemma {:induction false} AppendCursor(bs: nat, n: nat, size: nat)
    requires n > 0 && 0 < bs < UINT_RANGE && size <= At(bs, n)
    ensures size == At(bs, n - 1) + Wrap(bs - Remain(bs, n, size)) <==> Tight(bs, n, size)
  {
  }

  /** Growing the file and then writing over it, seen flat: every byte behind the old end is new. */
  lemma {:induction false} WrittenIs(blocks: seq<Bytes>, size: nat, p: nat, d: Bytes, grown: seq<Bytes>,
                                     after: seq<Bytes>, size': nat)
    requires size <= |Concat(blocks)| && p <= size && Concat(blocks) <= Concat(grown) && size' <= |Concat(grown)|
    requires size' == (if p + |d| > size then p + |d| else size) && Concat(after) == Splice(Concat(grown), p, d)
    ensures size' <= |Concat(after)| && Concat(after)[..size'] == Written(Concat(blocks)[..size], p, d)
  {
    var s, g, a := Concat(blocks)[..size], Concat(grown), Concat(after);
    assert a[..p] == g[..p] == s[..p];
    assert forall i :: 0 <= i < size ==> g[i] == s[i];
  }

  /** The first `index` bytes of `data` are in place at `p`. */
  ghost predicate CopiedTo(bs: nat, all: Bytes, p: nat, data: Bytes, index: nat, blocks: seq<Bytes>) {
    && Shape(bs, blocks) && index <= |data| && p + |data| <= |all| && |Concat(blocks)| == |all|
    && Concat(blocks) == Splice(all, p, data[..index])
  }

  lemma {:induction false} CopyStep(bs: nat, all: Bytes, p: nat, data: Bytes, index: nat, blocks: seq<Bytes>,
                                    node: nat, o: nat, delta: nat)
    requires CopiedTo(bs, all, p, data, index, blocks) && node < |blocks| && o + delta <= bs && index + delta <= |data|
    requires At(bs, node) + o == p + index
    ensures var chunk := data[index..index + delta];
            |chunk| == delta && |blocks[node]| == bs
                && CopiedTo(bs, all, p, data, index + delta, blocks[node := Splice(blocks[node], o, chunk)])
  {
    var chunk := data[index..index + delta];
    ConcatSplice(bs, blocks, node, o, chunk);
    SpliceTwice(all, p, data[..index], chunk);
    assert data[..index] + chunk == data[..index + delta];
  }

  /** `done` bytes from position `p` on are in `buf`, and the walk is at offset `o` of block `node`. */
  ghost predicate ReadTo(bs: nat, blocks: seq<Bytes>, size: nat, p: nat, done: nat, node: nat, o: nat, buf: Bytes) {
    && Shape(bs, blocks) && size <= At(bs, |blocks|) == |Concat(blocks)| && p + done <= size
    && node < |blocks| && o <= bs && At(bs, node) + o == p + done && buf == Concat(blocks)[p..p + done]
  }

  /** The rest of a block is read, and there is a next one. */
  lemma {:induction false} ReadBlock(bs: nat, blocks: seq<Bytes>, size: nat, p: nat, done: nat, node: nat, o: nat,
                                     buf: Bytes)
    requires ReadTo(bs, blocks, size, p, done, node, o, buf) && p + done + (bs - o) < size
    ensures |blocks[node]| == bs && ReadTo(bs, blocks, size, p, done + (bs - o), node + 1, 0, buf + blocks[node][o..bs])
  {
    NextBlock(bs, |blocks|, node, size);
    ConcatSlice(bs, blocks, node, o, bs);
    SliceJoin(Concat(blocks), p, p + done, p + done + (bs - o));
  }

  /** The walk over the blocks never leaves the list. */
  lemma {:induction false} NextBlock(bs: nat, n: nat, node: nat, size: nat)
    requires node < n && At(bs, node) + bs < size <= At(bs, n)
    ensures node + 1 < n && At(bs, node + 1) == At(bs, node) + bs
  {
  }

  lemma SlicePrefix(s: Bytes, n: nat, a: nat, b: nat)
    requires a <= b <= n <= |s|
    ensures s[..n][a..b] == s[a..b]
  {
  }

  lemma SliceJoin(s: Bytes, a: nat, b: nat, c: nat)
    requires a <= b <= c <= |s|
    ensures s[a..b] + s[b..c] == s[a..c]
  {
  }

  /** The copying loop of fs_read: `len` bytes from position `p`, which is offset `o` of block `node`, on. */
  method CopyOut(bs: nat, blocks: seq<Bytes>, size: nat, p: nat, node: nat, o: nat, len: nat)
      returns (buf: Bytes, cur: nat, off: nat)
    requires ReadTo(bs, blocks, size, p, 0, node, o, []) && p + len <= size
    ensures ReadTo(bs, blocks, size, p, len, cur, off, buf)
  {
    var left := len;
    buf, cur, off := [], node, o;
    while off + left > bs
      invariant 0 <= left <= len && ReadTo(bs, blocks, size, p, len - left, cur, off, buf)
      decreases |blocks| - cur
    {
      ReadBlock(bs, blocks, size, p, len - left, cur, off, buf);
      buf := buf + blocks[cur][off..bs];
      left := left - (bs - off);
      cur, off := cur + 1, 0;
    }
    ReadEnd(bs, blocks, size, p, len - left, cur, off, buf, left);
    buf := buf + blocks[cur][off..off + left];
    off := off + left;
  }

  lemma {:induction false} ReadEnd(bs: nat, blocks: seq<Bytes>, size: nat, p: nat, done: nat, node: nat, o: nat,
                                   buf: Bytes, left: nat)
    requires ReadTo(bs, blocks, size, p, done, node, o, buf) && p + done + left <= size && o + left <= bs
    ensures |blocks[node]| == bs
    ensures ReadTo(bs, blocks, size, p, done + left, node, o + left, buf + blocks[node][o..o + left])
  {
    ConcatSlice(bs, blocks, node, o, o + left);
    SliceJoin(Concat(blocks), p, p + done, p + done + left);
  }

  /** The copying loop of fs_write: `data` goes to position `p`, which is offset `o` of block `node`. */
  method CopyIn(bs: nat, blocks: seq<Bytes>, size: nat, p: nat, node: nat, o: nat, data: Bytes)
      returns (r: seq<Bytes>, cur: nat, off: nat)
    requires ReadTo(bs, blocks, size, p, 0, node, o, []) && p + |data| <= size
    ensures |r| == |blocks| && Shape(bs, r) && cur < |r| && off <= bs && At(bs, cur) + off == p + |data|
    ensures Concat(r) == Splice(Concat(blocks), p, data)
  {
    ghost var all := Concat(blocks);
    var index: nat := 0;
    r, cur, off := blocks, node, o;
    while off + (|data| - index) > bs
      invariant cur < |r| == |blocks| && off <= bs && index <= |data| && At(bs, cur) + off == p + index
      invariant CopiedTo(bs, all, p, data, index, r)
      decreases |r| - cur
    {
      CopyStep(bs, all, p, data, index, r, cur, off, bs - off);
      NextBlock(bs, |r|, cur, size);
      r := r[cur := Splice(r[cur], off, data[index..index + (bs - off)])];
      index := index + (bs - off);
      cur, off := cur + 1, 0;
    }
    CopyStep(bs, all, p, data, index, r, cur, off, |data| - index);
    assert data[..|data|] == data;
    r := r[cur := Splice(r[cur], off, data[index..])];
    off := off + (|data| - index);
  }

  /** The loop of fs_seek over `n` blocks. */
  method FindBlock(bs: nat, n: nat, size: nat, p: nat) returns (node: nat, cnt: nat)
    requires n > 0 && p <= size <= At(bs, n)
    ensures node < n && cnt <= bs && At(bs, node) + cnt == p
  {
    node, cnt := 0, p;
    while node < n && cnt > bs
      invariant node < n && At(bs, node) + cnt == p
      decreases n - node
    {
      NextBlock(bs, n, node, p);
      cnt := cnt - bs;
      node := node + 1;
    }
  }

  // ---------------------------------------------------------------- the file

  class OpenFile {
    const bs: nat
    const readable: bool
    const writable: bool
    /** The pages behind i_data_map. */
    var blocks: seq<Bytes>
    var size: nat
    var pos: nat
    /** f_cur_map, as an index, and f_cur_off */
    var cur: nat
    var off: nat

    ghost predicate Valid()
      reads this
    {
      && Shape(bs, blocks) && Roomy(bs, |blocks|, size) && size <= |Concat(blocks)|
      && cur < |blocks| && off <= bs && pos == At(bs, cur) + off && pos <= size
    }

    /** The bytes of the file. */
    ghost function Contents(): (s: Bytes)
      requires Valid()
      reads this
      ensures |s| == size
    {
      Concat(blocks)[..size]
    }

    /** dentry_open_file: reading starts in front, appending behind the end, and writing alone empties the file.
        The cursor is right in every mode but append, and there exactly for a tight file. */
    constructor (bs: nat, data: seq<Bytes>, length: nat, read: bool, write: bool, append: bool)
      requires Shape(bs, data) && Roomy(bs, |data|, length)
      ensures Valid() <==> !append || Tight(bs, |data|, length)
      ensures this.bs == bs && readable == read && writable == write
      ensures Valid() && !append && !read ==> Contents() == [] && |blocks| == 1
      ensures Valid() && (append || read) ==> blocks == data && |Contents()| == length && Contents() <= Concat(data)
      ensures pos == if append then length else 0
    {
      ConcatLength(bs, data);
      AppendCursor(bs, |data|, length);
      this.bs, readable, writable := bs, read, write;
      blocks, size := data, length;
      pos, off, cur := 0, 0, 0;
      if append {
        pos := length;
        off := Wrap(bs - Remain(bs, |data|, length));
        cur := |data| - 1;
      } else if !read {
        blocks := data[..1];
        size := 0;
        assert At(bs, 1) == bs;
        ConcatLength(bs, data[..1]);
      }
    }

    /** fs_read */
    method Read(len: nat) returns (error: Error, buf: Bytes)
      requires Valid() && pos + len < UINT_RANGE
      modifies this`pos, this`cur, this`off
      ensures Valid() && Contents() == old(Contents())
      ensures error == (if !readable then AccessAuthority else if old(pos) + len > size then EndOfFile else NoError)
      ensures error != NoError ==> buf == [] && pos == old(pos)
      ensures error == NoError ==> buf == Contents()[old(pos)..old(pos) + len] && pos == old(pos) + len
    {
      buf := [];
      if !readable { return AccessAuthority, buf; }
      if Wrap(pos + len) > size { return EndOfFile, buf; }
      error := NoError;
      ConcatLength(bs, blocks);
      buf, cur, off := CopyOut(bs, blocks, size, pos, cur, off, len);
      pos := pos + len;
      SlicePrefix(Concat(blocks), size, old(pos), old(pos) + len);
    }

    /** file_expand_to. `spare` are the blocks the file system can still hand out, with whatever they hold. */
    method ExpandTo(newSize: nat, spare: seq<Bytes>) returns (error: Error)
      requires Valid() && Shape(bs, spare) && Askable(bs, |blocks|, size, newSize)
      modifies this`blocks, this`size
      ensures Valid() && size == if error == NoError && newSize > old(size) then newSize else old(size)
      ensures error == NoError || error == NoSpace
      ensures error == NoError <==> newSize <= old(size) || newSize <= At(bs, |old(blocks)| + |spare|)
      ensures newSize <= At(bs, |old(blocks)|) || error != NoError ==> blocks == old(blocks)
      ensures newSize > At(bs, |old(blocks)|) && error == NoError ==>
                && |old(blocks)| < |blocks| <= |old(blocks)| + |spare|
                && At(bs, |blocks| - 1) < newSize <= At(bs, |blocks|)
                && blocks == old(blocks) + spare[..|blocks| - |old(blocks)|]
      ensures Concat(old(blocks)) <= Concat(blocks)
      ensures Tight(bs, |old(blocks)|, old(size)) ==> Tight(bs, |blocks|, size)
    {
      if newSize <= size { return NoError; }
      var n := BlocksToAsk(bs, |blocks|, size, newSize);
      EnoughSpare(bs, |blocks|, newSize, |spare|);
      if n > |spare| { return NoSpace; }
      ExpandedOk(bs, blocks, size, newSize, spare[..n]);
      blocks := blocks + spare[..n];
      size := newSize;
      error := NoError;
    }

    /** fs_write: either nothing changes, or the data is in the file at the old position, the rest of the file is
        as before and the file ends no later than before or right behind the data. */
    method Write(data: Bytes, spare: seq<Bytes>) returns (error: Error)
      requires Valid() && Shape(bs, spare) && Askable(bs, |blocks|, size, pos + |data|)
      modifies this
      ensures Valid()
      ensures error == AccessAuthority <==> !writable
      ensures error == NoError <==>
                writable && (old(pos) + |data| <= old(size) || old(pos) + |data| <= At(bs, |old(blocks)| + |spare|))
      ensures error == NoError || error == NoSpace || error == AccessAuthority
      ensures error != NoError ==> Contents() == old(Contents()) && pos == old(pos)
      ensures error == NoError ==> Contents() == Written(old(Contents()), old(pos), data) && pos == old(pos) + |data|
    {
      if !writable { return AccessAuthority; }
      error := ExpandTo(pos + |data|, spare);
      if error != NoError { return; }
      ghost var grown := blocks;
      Overwrite(data);
      WrittenIs(old(blocks), old(size), old(pos), data, grown, blocks, size);
    }

    /** The part of fs_write behind file_expand_to. */
    method Overwrite(data: Bytes)
      requires Valid() && pos + |data| <= size
      modifies this`blocks, this`pos, this`cur, this`off
      ensures Valid() && pos == old(pos) + |data|
      ensures old(pos) + |data| <= |Concat(old(blocks))|
      ensures Concat(blocks) == Splice(Concat(old(blocks)), old(pos), data)
    {
      ConcatLength(bs, blocks);
      blocks, cur, off := CopyIn(bs, blocks, size, pos, cur, off, data);
      ConcatLength(bs, blocks);
      pos := pos + |data|;
    }

    /** fs_seek */
    method Seek(whence: Whence, offset: int)
      requires Valid() && -0x8000_0000 <= offset < 0x8000_0000
      modifies this`pos, this`cur, this`off
      ensures Valid() && Contents() == old(Contents())
      ensures pos == SeekTo(size, From(whence, old(pos), size) + offset)
      ensures offset == 0 ==> pos == match whence case Current => old(pos) case Head => 0 case Tail => |Contents()|
    {
      var p: nat := From(whence, pos, size);
      SeekWraps(size, p + offset);
      p := Wrap(p + offset);
      if p > size { p := size; }
      pos := p;
      cur, off := FindBlock(bs, |blocks|, size, p);
    }

    /** What was written is what is read back. */
    method WriteThenRead(data: Bytes, spare: seq<Bytes>) returns (error: Error, buf: Bytes)
      requires Valid() && readable && Shape(bs, spare) && Askable(bs, |blocks|, size, pos + |data|)
      modifies this
      ensures Valid() && (error == NoError ==> buf == data && pos == old(pos) + |data|)
    {
      var start := pos;
      error := Write(data, spare);
      if error != NoError { return error, []; }
      Seek(Head, start);
      error, buf := Read(|data|);
    }
  }
}
