/**
 The cluster allocator of kernel/fs/fat/fat.c: chains in the file allocation table and the hint where to
 look for the next free cluster. The disk is reliable.
 */
module FatVolumes {
  import opened Options
  import opened Sequences

  const FAT_ITEM_FREE: nat := 0
  const FAT_ITEM_END: nat := 0x0FFF_FFFF

  /** `c` is a chain of the table: distinct clusters, each pointing to the next, and the last to END. */
  ghost predicate IsChain(fat: seq<nat>, c: seq<nat>) {
    && c != [] && NoDup(c) && (forall i: nat :: i < |c| ==> LinkAt(fat, c, i))
  }

  predicate LinkAt(fat: seq<nat>, c: seq<nat>, i: nat)
    requires i < |c|
  {
    2 <= c[i] < |fat| && fat[c[i]] == (if i + 1 < |c| then c[i + 1] else FAT_ITEM_END)
  }

  ghost predicate Disjoint(c: seq<nat>, d: seq<nat>) {
    forall x: nat :: x in c ==> x !in d
  }

  /** Every live file, known by its first cluster, has a chain of its own. */
  ghost predicate Chains(fat: seq<nat>, chains: map<nat, seq<nat>>) {
    && 2 <= |fat| <= FAT_ITEM_END && fat[0] != FAT_ITEM_FREE && fat[1] != FAT_ITEM_FREE
    && (forall f: nat :: ChainOf(fat, chains, f))
    && (forall f: nat, g: nat :: MapsApart(chains, f, g))
  }

  ghost predicate ChainOf(fat: seq<nat>, chains: map<nat, seq<nat>>, f: nat) {
    f in chains ==> IsChain(fat, chains[f]) && chains[f][0] == f
  }

  /** The clusters in the i_data_map of inode `f` are in use; they include those of the chain. */
  ghost predicate MapOf(fat: seq<nat>, chains: map<nat, seq<nat>>, maps: map<nat, seq<nat>>, f: nat) {
    f in maps && f in chains ==>
      && maps[f] != [] && maps[f][0] == f
      && (forall x: nat :: x in maps[f] ==> 2 <= x < |fat| && fat[x] != FAT_ITEM_FREE)
      && (forall x: nat :: x in chains[f] ==> x in maps[f])
  }

  /** No cluster belongs to two inodes. */
  ghost predicate Maps(fat: seq<nat>, chains: map<nat, seq<nat>>, maps: map<nat, seq<nat>>) {
    && maps.Keys == chains.Keys && (forall f: nat :: MapOf(fat, chains, maps, f))
    && (forall f: nat, g: nat :: MapsApart(maps, f, g))
  }

  ghost predicate MapsApart(maps: map<nat, seq<nat>>, f: nat, g: nat) {
    f in maps && g in maps && f != g ==> Disjoint(maps[f], maps[g])
  }

  /** No cluster below the hint is free. */
  ghost predicate HintOk(fat: seq<nat>, hint: nat) {
    forall i: nat :: i < hint && i < |fat| ==> fat[i] != FAT_ITEM_FREE
  }

  /** `i` is the lowest free cluster from `start` on. */
  ghost predicate LowestFree(fat: seq<nat>, start: nat, i: nat) {
    start <= i < |fat| && fat[i] == FAT_ITEM_FREE && forall j: nat :: start <= j < i ==> fat[j] != FAT_ITEM_FREE
  }

  function FreeCount(fat: seq<nat>, start: nat): nat
    decreases |fat| - start
  {
    if start >= |fat| then 0 else (if fat[start] == FAT_ITEM_FREE then 1 else 0) + FreeCount(fat, start + 1)
  }

  /** It is the number of free clusters from `start` on. */
  lemma {:induction false} FreeCountIs(fat: seq<nat>, start: nat)
    ensures FreeCount(fat, start) == |set j: nat | start <= j < |fat| && fat[j] == FAT_ITEM_FREE|
    decreases |fat| - start
  {
    var a := set j: nat | start <= j < |fat| && fat[j] == FAT_ITEM_FREE;
    if start < |fat| {
      FreeCountIs(fat, start + 1);
      var b := set j: nat | start + 1 <= j < |fat| && fat[j] == FAT_ITEM_FREE;
      assert a == if fat[start] == FAT_ITEM_FREE then b + {start} else b;
    } else {
      assert a == {};
    }
  }

  /** A search from a sound hint finds the lowest free cluster of the whole table, when there is one. */
  lemma {:induction false} HintFindsLowest(fat: seq<nat>, hint: nat, i: nat)
    requires HintOk(fat, hint)
    ensures LowestFree(fat, hint, i) <==> LowestFree(fat, 0, i)
  {
  }

  // ---------------------------------------------------------------- reading

  /** find_free_clu: None when no cluster from `start` on is free; the code then reads on behind the table. */
  method FindFree(fat: seq<nat>, start: nat) returns (r: Option<nat>)
    ensures r.None? <==> forall j: nat :: start <= j < |fat| ==> fat[j] != FAT_ITEM_FREE
    ensures r.Some? ==> LowestFree(fat, start, r.value)
    ensures FreeCount(fat, start) == if r.None? then 0 else 1 + FreeCount(fat, r.value + 1)
  {
    var i := start;
    while i < |fat| && fat[i] != FAT_ITEM_FREE
      invariant start <= i && forall j: nat :: start <= j < i && j < |fat| ==> fat[j] != FAT_ITEM_FREE
      invariant FreeCount(fat, start) == FreeCount(fat, i)
      decreases |fat| - i
    {
      i := i + 1;
    }
    r := if i < |fat| then Some(i) else None;
  }

  lemma {:induction false} ChainNotFree(fat: seq<nat>, c: seq<nat>, x: nat)
    requires IsChain(fat, c) && x in c
    ensures 2 <= x < |fat| && fat[x] != FAT_ITEM_FREE
  {
    var i: nat :| i < |c| && c[i] == x;
    assert LinkAt(fat, c, i);
    if i + 1 < |c| { assert LinkAt(fat, c, i + 1); }
  }

  /** The table changed outside the chain only. */
  lemma {:induction false} ChainKept(fat: seq<nat>, c: seq<nat>, fat': seq<nat>)
    requires IsChain(fat, c) && |fat'| == |fat| && forall x: nat :: x in c && x < |fat| ==> fat'[x] == fat[x]
    ensures IsChain(fat', c)
  {
    forall i: nat | i < |c|
      ensures LinkAt(fat', c, i)
    {
      assert LinkAt(fat, c, i) && c[i] in c;
    }
  }

  // ---------------------------------------------------------------- expanding

  /** The clusters `c` linked one to the next; the entry of the last one is not written yet. */
  function Linked(fat: seq<nat>, c: seq<nat>): (r: seq<nat>)
    requires c != [] && forall i :: 0 <= i < |c| ==> c[i] < |fat|
    ensures |r| == |fat|
  {
    if |c| == 1 then fat else Linked(fat, c[..|c| - 1])[c[|c| - 2] := c[|c| - 1]]
  }

  lemma {:induction false} LinkedAt(fat: seq<nat>, c: seq<nat>, x: nat)
    requires c != [] && NoDup(c) && (forall i :: 0 <= i < |c| ==> c[i] < |fat|) && x < |fat|
    ensures forall i: nat :: i + 1 < |c| ==> Linked(fat, c)[c[i]] == c[i + 1]
    ensures (x !in c || x == c[|c| - 1]) ==> Linked(fat, c)[x] == fat[x]
    decreases |c|
  {
    if |c| > 1 {
      var t := c[..|c| - 1];
      assert NoDup(t);
      assert c[|c| - 1] !in t;
      LinkedAt(fat, t, x);
      forall i: nat | i + 1 < |c|
        ensures Linked(fat, c)[c[i]] == c[i + 1]
      {
        if i + 1 < |t| { assert Linked(fat, t)[t[i]] == t[i + 1]; }
      }
    }
  }

  /** The new clusters: increasing, free before, and all free clusters from `start` up to `next` were taken. */
  ghost predicate Taken(fat: seq<nat>, start: nat, news: seq<nat>, next: nat) {
    && start <= next
    && (forall i, j :: 0 <= i < j < |news| ==> news[i] < news[j])
    && (forall x: nat :: x in news <==> start <= x < next && x < |fat| && fat[x] == FAT_ITEM_FREE)
  }

  lemma {:induction false} TakeOne(fat: seq<nat>, start: nat, news: seq<nat>, next: nat, x: nat)
    requires Taken(fat, start, news, next) && LowestFree(fat, next, x)
    ensures Taken(fat, start, news + [x], x + 1)
  {
    var m := news + [x];
    forall y: nat
      ensures y in m <==> start <= y < x + 1 && y < |fat| && fat[y] == FAT_ITEM_FREE
    {
      assert y in m <==> y in news || y == x;
    }
    assert forall i :: 0 <= i < |news| ==> news[i] in news;
  }

  /** After the END mark the first cluster and the new ones are a chain. */
  lemma {:induction false} ExpandedChain(fat: seq<nat>, f: nat, start: nat, news: seq<nat>, next: nat)
    requires 2 <= f < |fat| && fat[f] != FAT_ITEM_FREE && Taken(fat, start, news, next) && 2 <= |fat| <= FAT_ITEM_END
    requires fat[0] != FAT_ITEM_FREE && fat[1] != FAT_ITEM_FREE
    ensures var c := [f] + news; (forall i :: 0 <= i < |c| ==> 2 <= c[i] < |fat|) && NoDup(c)
                                 && IsChain(Linked(fat, c)[c[|c| - 1] := FAT_ITEM_END], c)
  {
    var c := [f] + news;
    forall i | 0 <= i < |c|
      ensures 2 <= c[i] < |fat|
    {
      if i > 0 { assert c[i] == news[i - 1] && news[i - 1] in news; }
    }
    assert NoDup(c) by {
      forall i, j | 0 <= i < j < |c|
        ensures c[i] != c[j]
      {
        assert c[j] == news[j - 1] && news[j - 1] in news;
      }
    }
    var e := Linked(fat, c)[c[|c| - 1] := FAT_ITEM_END];
    LinkedAt(fat, c, 0);
    forall i: nat | i < |c|
      ensures LinkAt(e, c, i)
    {
      assert c[i] in c;
    }
  }

  // ---------------------------------------------------------------- what an operation does to the files

  ghost predicate Volume(fat: seq<nat>, chains: map<nat, seq<nat>>, maps: map<nat, seq<nat>>) {
    Chains(fat, chains) && Maps(fat, chains, maps)
  }

  /** The clusters `news`, free before, now belong to file `f`; every other cluster outside the chain of `f`
      keeps its entry. */
  ghost predicate Grown(fat: seq<nat>, mine: seq<nat>, news: seq<nat>, fat': seq<nat>) {
    && |fat'| == |fat|
    && (forall x: nat :: x in news ==> 2 <= x < |fat| && fat[x] == FAT_ITEM_FREE && fat'[x] != FAT_ITEM_FREE)
    && (forall x: nat :: x < |fat| && x !in news && x !in mine ==> fat'[x] == fat[x])
    && (forall x: nat :: x < |fat| && fat[x] != FAT_ITEM_FREE ==> fat'[x] != FAT_ITEM_FREE)
  }

  /** File `f` gets chain `c` and map `m`, made of its old clusters and new ones. */
  lemma {:induction false} GrownVolume(fat: seq<nat>, chains: map<nat, seq<nat>>, maps: map<nat, seq<nat>>,
                                       f: nat, mine: seq<nat>, news: seq<nat>, fat': seq<nat>, c: seq<nat>, m: seq<nat>)
    requires Volume(fat, chains, maps) && Grown(fat, mine, news, fat') && IsChain(fat', c) && c[0] == f && m != []
    requires m[0] == f
    requires if f in maps then mine == chains[f] && (forall x: nat :: x in m <==> x in maps[f] || x in news)
             else mine == [] && (forall x: nat :: x in m <==> x in news)
    requires forall x: nat :: x in c ==> x in m
    requires fat'[0] != FAT_ITEM_FREE && fat'[1] != FAT_ITEM_FREE
    ensures Volume(fat', chains[f := c], maps[f := m])
  {
    var chains', maps' := chains[f := c], maps[f := m];
    forall g: nat
      ensures ChainOf(fat', chains', g) && MapOf(fat', chains', maps', g)
    {
      assert ChainOf(fat, chains, g) && MapOf(fat, chains, maps, g) && MapOf(fat, chains, maps, f);
      if g != f && g in chains {
        assert MapsApart(chains, g, f);
        OtherChain(fat, chains, maps, g, mine, news, fat');
      }
    }
    forall g: nat, h: nat
      ensures MapsApart(chains', g, h) && MapsApart(maps', g, h)
    {
      GrownApart(fat, chains, maps, f, mine, news, fat', c, m, g, h);
    }
  }

  lemma {:induction false} OtherChain(fat: seq<nat>, chains: map<nat, seq<nat>>, maps: map<nat, seq<nat>>, g: nat,
                                      mine: seq<nat>,
                                      news: seq<nat>, fat': seq<nat>)
    requires g in chains && IsChain(fat, chains[g]) && Grown(fat, mine, news, fat') && Disjoint(chains[g], mine)
    ensures IsChain(fat', chains[g])
  {
    forall x: nat | x in chains[g] && x < |fat|
      ensures fat'[x] == fat[x]
    {
      ChainNotFree(fat, chains[g], x);
    }
    ChainKept(fat, chains[g], fat');
  }

  lemma {:induction false} GrownApart(fat: seq<nat>, chains: map<nat, seq<nat>>, maps: map<nat, seq<nat>>, f: nat,
                                      mine: seq<nat>,
                                      news: seq<nat>, fat': seq<nat>, c: seq<nat>, m: seq<nat>, g: nat, h: nat)
    requires Maps(fat, chains, maps) && Grown(fat, mine, news, fat')
    requires (forall f: nat, g: nat :: MapsApart(chains, f, g))
    requires if f in maps then (forall x: nat :: x in m <==> x in maps[f] || x in news)
             else (forall x: nat :: x in m <==> x in news)
    requires forall x: nat :: x in c ==> x in m
    ensures MapsApart(chains[f := c], g, h) && MapsApart(maps[f := m], g, h)
  {
    assert MapsApart(maps, g, h) && MapsApart(chains, g, h);
    assert MapOf(fat, chains, maps, g) && MapOf(fat, chains, maps, h);
  }

  /** Clusters of the chain `mine` were freed; entries outside it are as before. */
  ghost predicate Shrunk(fat: seq<nat>, mine: seq<nat>, freed: seq<nat>, fat': seq<nat>) {
    && |fat'| == |fat|
    && (forall x: nat :: x in freed ==> x in mine && x < |fat| && fat'[x] == FAT_ITEM_FREE)
    && (forall x: nat :: x < |fat| && x !in mine ==> fat'[x] == fat[x])
  }

  /** What clear and delete leave to the other files. */
  lemma {:induction false} OthersKept(fat: seq<nat>, chains: map<nat, seq<nat>>, maps: map<nat, seq<nat>>, f: nat,
                                      fat': seq<nat>, g: nat)
    requires Volume(fat, chains, maps) && f in chains && g != f
    requires |fat'| == |fat| && forall x: nat :: x < |fat| && x !in chains[f] ==> fat'[x] == fat[x]
    ensures ChainOf(fat', chains, g) && MapOf(fat', chains, maps, g)
  {
    assert ChainOf(fat, chains, g) && MapOf(fat, chains, maps, g) && MapOf(fat, chains, maps, f)
        && MapsApart(maps, g, f) && MapsApart(chains, g, f);
    if g in chains { ChainKept(fat, chains[g], fat'); }
  }

  lemma {:induction false} ClearVolume(fat: seq<nat>, chains: map<nat, seq<nat>>, maps: map<nat, seq<nat>>, f: nat,
                                       fat': seq<nat>)
    requires Volume(fat, chains, maps) && f in chains && f < |fat| && Shrunk(fat, chains[f], Tail(chains[f]), fat')
    requires fat'[f] == FAT_ITEM_END
    ensures Volume(fat', chains[f := [f]], maps[f := [f]])
  {
    var chains', maps' := chains[f := [f]], maps[f := [f]];
    assert ChainOf(fat, chains, f) && MapOf(fat, chains, maps, f) && LinkAt(fat, chains[f], 0);
    assert IsChain(fat', [f]);
    LowEntries(fat, chains, f, fat');
    forall g: nat
      ensures ChainOf(fat', chains', g) && MapOf(fat', chains', maps', g)
    {
      if g != f { OthersKept(fat, chains, maps, f, fat', g); }
    }
    forall g: nat, h: nat
      ensures MapsApart(chains', g, h) && MapsApart(maps', g, h)
    {
      assert MapsApart(chains, g, h) && MapsApart(maps, g, h);
    }
  }

  lemma {:induction false} DeleteVolume(fat: seq<nat>, chains: map<nat, seq<nat>>, maps: map<nat, seq<nat>>, f: nat,
                                        fat': seq<nat>)
    requires Volume(fat, chains, maps) && f in chains && Shrunk(fat, chains[f], chains[f], fat')
    ensures Volume(fat', chains - {f}, maps - {f})
  {
    var chains', maps' := chains - {f}, maps - {f};
    LowEntries(fat, chains, f, fat');
    forall g: nat
      ensures ChainOf(fat', chains', g) && MapOf(fat', chains', maps', g)
    {
      if g != f { OthersKept(fat, chains, maps, f, fat', g); }
    }
    forall g: nat, h: nat
      ensures MapsApart(chains', g, h) && MapsApart(maps', g, h)
    {
      assert MapsApart(chains, g, h) && MapsApart(maps, g, h);
    }
  }

  lemma {:induction false} LowEntries(fat: seq<nat>, chains: map<nat, seq<nat>>, f: nat, fat': seq<nat>)
    requires Chains(fat, chains) && f in chains && |fat'| == |fat|
    requires forall x: nat :: x < |fat| && x !in chains[f] ==> fat'[x] == fat[x]
    ensures fat'[0] != FAT_ITEM_FREE && fat'[1] != FAT_ITEM_FREE
  {
    assert ChainOf(fat, chains, f);
    if 0 in chains[f] { ChainNotFree(fat, chains[f], 0); }
    if 1 in chains[f] { ChainNotFree(fat, chains[f], 1); }
  }

  /** The hint after clusters were freed, the lowest of them `least`. */
  lemma {:induction false} HintAfterFree(fat: seq<nat>, hint: nat, fat': seq<nat>, least: nat)
    requires HintOk(fat, hint) && |fat'| == |fat|
    requires forall x: nat :: x < least && x < |fat| && fat[x] != FAT_ITEM_FREE ==> fat'[x] != FAT_ITEM_FREE
    ensures HintOk(fat', if least < hint then least else hint)
  {
  }

  // ---------------------------------------------------------------- the walk along a chain

  /** The table with the clusters of `t` free. */
  function Freed(fat: seq<nat>, t: seq<nat>): (r: seq<nat>)
    ensures |r| == |fat| && forall x: nat :: x < |fat| ==> r[x] == if x in t then FAT_ITEM_FREE else fat[x]
  {
    seq(|fat|, i requires 0 <= i < |fat| => if i in t then FAT_ITEM_FREE else fat[i])
  }

  function Tail(c: seq<nat>): seq<nat> {
    if c == [] then [] else c[1..]
  }

  function Least(t: seq<nat>): (m: nat)
    ensures forall x: nat :: x in t ==> m <= x
    ensures m == 0xFFFF_FFFF || m in t
  {
    if t == [] then 0xFFFF_FFFF
    else
      assert t == t[..|t| - 1] + [t[|t| - 1]];
      if t[|t| - 1] < Least(t[..|t| - 1]) then t[|t| - 1] else Least(t[..|t| - 1])
  }

  /** The loop of clear_fat32 and delete_fat32: the clusters of the chain from position `from` on are freed;
      `next` is the first of them. */
  method FreeChain(fat: seq<nat>, next: nat, ghost c: seq<nat>, ghost from: nat) returns (r: seq<nat>, least: nat)
    requires c != [] && NoDup(c) && from <= |c| && (forall i: nat :: from <= i < |c| ==> LinkAt(fat, c, i))
    requires |fat| <= FAT_ITEM_END
    requires next == if from < |c| then c[from] else FAT_ITEM_END
    ensures r == Freed(fat, c[from..]) && least == Least(c[from..])
    ensures from < |c| ==> least in c[from..] && forall x: nat :: x in c[from..] ==> least <= x
    ensures from == |c| ==> least == 0xFFFF_FFFF
  {
    var clu := next;
    r, least := fat, 0xFFFF_FFFF;
    ghost var i := from;
    assert i < |c| ==> LinkAt(fat, c, i);
    while clu != FAT_ITEM_END
      invariant from <= i <= |c| && r == Freed(fat, c[from..i]) && least == Least(c[from..i])
      invariant if i < |c| then clu == c[i] && LinkAt(fat, c, i) && clu < |fat| else clu == FAT_ITEM_END
      decreases |c| - i
    {
      FreedStep(fat, c, from, i);
      var after := r[clu];
      r := r[clu := FAT_ITEM_FREE];
      if clu < least { least := clu; }
      clu := after;
      i := i + 1;
      assert i < |c| ==> LinkAt(fat, c, i);
    }
    assert c[from..i] == c[from..];
    if from < |c| { assert LinkAt(fat, c, from) && c[from] in c[from..]; }
  }

  lemma {:induction false} FreedStep(fat: seq<nat>, c: seq<nat>, from: nat, i: nat)
    requires from <= i < |c| && c[i] < |fat| && NoDup(c)
    ensures Freed(fat, c[from..i + 1]) == Freed(fat, c[from..i])[c[i] := FAT_ITEM_FREE]
    ensures Freed(fat, c[from..i])[c[i]] == fat[c[i]]
    ensures Least(c[from..i + 1]) == if c[i] < Least(c[from..i]) then c[i] else Least(c[from..i])
  {
    var t := c[from..i + 1];
    assert t == c[from..i] + [c[i]];
    assert t[..|t| - 1] == c[from..i];
    assert c[i] !in c[from..i];
  }

  /** The loop of alloc_inode_fat32: the clusters of a file in the order of its chain. */
  method ReadChain(fat: seq<nat>, first: nat, ghost c: seq<nat>) returns (r: seq<nat>)
    requires IsChain(fat, c) && c[0] == first && |fat| <= FAT_ITEM_END
    ensures r == c
  {
    var clu := first;
    r := [];
    assert LinkAt(fat, c, 0);
    while clu != FAT_ITEM_END
      invariant |r| <= |c| && r == c[..|r|]
      invariant if |r| < |c| then clu == c[|r|] && LinkAt(fat, c, |r|) && clu < |fat| else clu == FAT_ITEM_END
      decreases |c| - |r|
    {
      if |r| + 1 < |c| { assert LinkAt(fat, c, |r| + 1); }
      r := r + [clu];
      clu := fat[clu];
    }
  }

  /** The loop of expand_fat32 with the END mark behind it: `num` free clusters from `start` on are linked
      behind cluster `f`. */
  method LinkNew(fat: seq<nat>, f: nat, start: nat, num: nat) returns (ok: bool, r: seq<nat>, news: seq<nat>, next: nat)
    requires 0 < |fat| && fat[0] != FAT_ITEM_FREE && f < |fat| && fat[f] != FAT_ITEM_FREE
    ensures ok <==> num <= FreeCount(fat, start)
    ensures ok ==> |news| == num && Taken(fat, start, news, next) && InTable(fat, [f] + news)
    ensures ok ==> r == Linked(fat, [f] + news)[([f] + news)[num] := FAT_ITEM_END]
    ensures ok ==> next == if num == 0 then start else news[num - 1] + 1
  {
    var last, i := f, 0;
    ok, r, news, next := true, fat, [], start;
    while i < num
      invariant i <= num && LinkState(fat, f, start, i, r, news, next) && last == ([f] + news)[i]
      invariant next == if i == 0 then start else news[i - 1] + 1
    {
      var x := FindFree(r, next);
      if x.None? { return false, r, news, next; }
      LinkOne(fat, f, start, i, r, news, next, x.value);
      r := r[last := x.value];
      news := news + [x.value];
      last := x.value;
      next := x.value + 1;
      i := i + 1;
    }
    r := r[last := FAT_ITEM_END];
  }

  /** After `i` rounds: `news` are linked behind `f`, the last one not marked yet. */
  ghost predicate LinkState(fat: seq<nat>, f: nat, start: nat, i: nat, r: seq<nat>, news: seq<nat>, next: nat) {
    && |news| == i && Taken(fat, start, news, next) && InTable(fat, [f] + news) && r == Linked(fat, [f] + news)
    && FreeCount(fat, start) == i + FreeCount(r, next)
  }

  lemma {:induction false} LinkOne(fat: seq<nat>, f: nat, start: nat, i: nat, r: seq<nat>, news: seq<nat>, next: nat,
                                   x: nat)
    requires 0 < |fat| && fat[0] != FAT_ITEM_FREE && f < |fat| && fat[f] != FAT_ITEM_FREE
    requires LinkState(fat, f, start, i, r, news, next) && LowestFree(r, next, x)
    ensures LinkState(fat, f, start, i + 1, r[([f] + news)[i] := x], news + [x], x + 1)
  {
    var t := r[([f] + news)[i] := x];
    SameFree(fat, f, news, start, next);
    TakeOne(fat, start, news, next, x);
    assert ([f] + (news + [x]))[..i + 1] == [f] + news;
    assert t == Linked(fat, [f] + (news + [x]));
    SkipUsed(r, next, x);
    SameFree(fat, f, news + [x], start, x + 1);
    SameFreeCount(fat, r, x + 1);
  }

  lemma {:induction false} SkipUsed(fat: seq<nat>, start: nat, x: nat)
    requires LowestFree(fat, start, x)
    ensures FreeCount(fat, start) == 1 + FreeCount(fat, x + 1)
    decreases x - start
  {
    if start < x { SkipUsed(fat, start + 1, x); }
  }

  // ---------------------------------------------------------------- the volume

  class FatVolume {
    var fat: seq<nat>
    /** info_next_clu */
    var hint: nat
    /** The i_data_map of every inode, by first cluster. */
    var maps: map<nat, seq<nat>>
    ghost var chains: map<nat, seq<nat>>

    ghost predicate Valid()
      reads this
    {
      Volume(fat, chains, maps) && hint <= 0xFFFF_FFFF
    }

    /** A mounted volume; `files` holds the chains of its files. */
    constructor (fat: seq<nat>, hint: nat, files: map<nat, seq<nat>>)
      requires Chains(fat, files) && hint <= 0xFFFF_FFFF
      ensures Valid() && this.fat == fat && this.hint == hint && maps == files && chains == files
    {
      this.fat, this.hint, maps, chains := fat, hint, files, files;
      new;
      MountedMaps(fat, files);
    }

    /** create_dentry_fat32: the lowest free cluster from the hint on becomes a file of its own; None when there
        is none. */
    method Create() returns (f: Option<nat>)
      requires Valid()
      modifies this
      ensures f.None? <==> FreeCount(old(fat), old(hint)) == 0
      ensures f.None? ==> fat == old(fat) && maps == old(maps) && chains == old(chains)
      ensures f.Some? ==> LowestFree(old(fat), old(hint), f.value) && f.value !in old(chains)
                          && chains == old(chains)[f.value := [f.value]] && maps == old(maps)[f.value := [f.value]]
                          && fat == old(fat)[f.value := FAT_ITEM_END]
      ensures Valid() && hint == old(hint) && (HintOk(old(fat), hint) ==> HintOk(fat, hint))
    {
      f := FindFree(fat, hint);
      if f.None? { return; }
      var x := f.value;
      NotAChain(fat, chains, maps, x);
      fat := fat[x := FAT_ITEM_END];
      assert IsChain(fat, [x]);
      GrownVolume(old(fat), chains, maps, x, [], [x], fat, [x], [x]);
      maps := maps[x := [x]];
      chains := chains[x := [x]];
    }

    /** expand_fat32. Not ok when the table has too few free clusters; the code then runs off its end. */
    method Expand(f: nat, num: nat) returns (ok: bool, ghost news: seq<nat>)
      requires Valid() && f in maps
      modifies this
      ensures ok <==> num <= FreeCount(old(fat), old(hint))
      ensures ok ==> |news| == num && Taken(old(fat), old(hint), news, hint)
      ensures ok ==> hint == if num == 0 then old(hint) else news[num - 1] + 1
      ensures ok ==> |fat| == |old(fat)| && forall x: nat :: x < |fat| && x != f && x !in news ==> fat[x] == old(fat)[x]
      ensures ok ==> Valid() && chains == old(chains)[f := [f] + news] && maps == old(maps)[f := old(maps)[f] + news]
      ensures ok ==> (chains[f] == maps[f] <==> |old(maps)[f]| == 1)
      ensures ok ==> Grown(old(fat), old(chains)[f], news, fat) && (HintOk(old(fat), old(hint)) ==> HintOk(fat, hint))
    {
      assert MapOf(fat, chains, maps, f) && ChainOf(fat, chains, f) && LinkAt(fat, chains[f], 0);
      var table, added, next;
      ok, table, added, next := LinkNew(fat, f, hint, num);
      news := added;
      if !ok { return; }
      ExpandedChain(fat, f, hint, news, next);
      ExpandedGrown(fat, chains, f, hint, news, next);
      AppendedMap(maps[f], f, news);
      GrownVolume(fat, chains, maps, f, chains[f], news, table, [f] + news, maps[f] + news);
      fat := table;
      maps := maps[f := maps[f] + added];
      chains := chains[f := [f] + news];
      hint := next;
    }

    /** The table part of clear_fat32: everything but the first cluster is freed. */
    method Clear(f: nat)
      requires Valid() && f in maps
      modifies this
      ensures Valid() && chains == old(chains)[f := [f]] && maps == old(maps)[f := [f]]
      ensures Shrunk(old(fat), old(chains)[f], Tail(old(chains)[f]), fat)
      ensures |fat| == |old(fat)| && forall x: nat :: x < |fat| ==>
                fat[x] == if x == f then FAT_ITEM_END else if x in old(chains)[f] then FAT_ITEM_FREE else old(fat)[x]
      ensures HintOk(old(fat), old(hint)) ==> HintOk(fat, hint)
      ensures hint <= old(hint) && (forall x: nat :: x in old(chains)[f] && x != f ==> hint <= x)
      ensures hint == old(hint) || (hint in old(chains)[f] && hint != f)
    {
      ghost var c := chains[f];
      FirstLink(fat, chains, f);
      var least := CutTail(f);
      ClearVolume(old(fat), chains, maps, f, fat);
      if HintOk(old(fat), hint) { HintAfterFree(old(fat), hint, fat, least); }
      if least < hint { hint := least; }
      maps := maps[f := [f]];
      chains := chains[f := [f]];
    }

    /** The writes to the table; `least` is the lowest cluster freed, if any. */
    method CutTail(f: nat) returns (least: nat)
      requires Valid() && f in maps
      modifies this`fat
      ensures Shrunk(old(fat), chains[f], Tail(chains[f]), fat)
      ensures f < |fat| == |old(fat)| && forall x: nat :: x < |fat| ==>
                fat[x] == if x == f then FAT_ITEM_END else if x in chains[f] then FAT_ITEM_FREE else old(fat)[x]
      ensures forall x: nat :: x < least && x < |fat| && old(fat)[x] != FAT_ITEM_FREE ==> fat[x] != FAT_ITEM_FREE
      ensures forall x: nat :: x in chains[f] && x != f ==> least <= x
      ensures least == 0xFFFF_FFFF || (least in chains[f] && least != f)
    {
      ghost var c := chains[f];
      FirstLink(fat, chains, f);
      var next := fat[f];
      if next != FAT_ITEM_END { fat := fat[f := FAT_ITEM_END]; }
      forall i: nat | 1 <= i < |c|
        ensures LinkAt(fat, c, i)
      {
        assert LinkAt(old(fat), c, i);
      }
      fat, least := FreeChain(fat, next, c, 1);
      ClearedTable(old(fat), c, fat);
    }

    /** The table part of delete_fat32: exactly the chain is freed. */
    method Delete(f: nat)
      requires Valid() && f in maps
      modifies this
      ensures Valid() && chains == old(chains) - {f} && maps == old(maps) - {f}
      ensures fat == Freed(old(fat), old(chains)[f])
      ensures HintOk(old(fat), old(hint)) ==> HintOk(fat, hint)
      ensures hint <= old(hint) && (forall x: nat :: x in old(chains)[f] ==> hint <= x)
      ensures hint == old(hint) || hint in old(chains)[f]
    {
      ghost var c := chains[f];
      assert ChainOf(fat, chains, f);
      assert LinkAt(fat, c, 0);
      var least;
      fat, least := FreeChain(fat, f, c, 0);
      assert c[0..] == c;
      forall x: nat | x in c
        ensures x < |fat|
      {
        ChainNotFree(old(fat), c, x);
      }
      DeleteVolume(old(fat), chains, maps, f, fat);
      if HintOk(old(fat), hint) { HintAfterFree(old(fat), hint, fat, least); }
      if least < hint { hint := least; }
      maps := maps - {f};
      chains := chains - {f};
    }

    /** alloc_inode_fat32 for a file that is not cached: its map is read from the table. */
    method Load(f: nat)
      requires Valid() && f in maps
      modifies this`maps
      ensures Valid() && maps == old(maps)[f := chains[f]]
    {
      assert ChainOf(fat, chains, f);
      var r := ReadChain(fat, f, chains[f]);
      LoadedMaps(fat, chains, maps, f);
      maps := maps[f := r];
    }
  }

  lemma {:induction false} MountedMaps(fat: seq<nat>, files: map<nat, seq<nat>>)
    requires Chains(fat, files)
    ensures Maps(fat, files, files)
  {
    forall f: nat
      ensures MapOf(fat, files, files, f)
    {
      assert ChainOf(fat, files, f);
      forall x: nat | f in files && x in files[f]
        ensures 2 <= x < |fat| && fat[x] != FAT_ITEM_FREE
      {
        ChainNotFree(fat, files[f], x);
      }
    }
  }

  /** What clear_fat32 finds behind the first cluster. */
  lemma {:induction false} FirstLink(fat: seq<nat>, chains: map<nat, seq<nat>>, f: nat)
    requires Chains(fat, chains) && f in chains
    ensures var c := chains[f]; c != [] && c[0] == f && NoDup(c) && 2 <= f < |fat| && IsChain(fat, c)
                                && fat[f] == (if 1 < |c| then c[1] else FAT_ITEM_END)
                                && (fat[f] == FAT_ITEM_END <==> |c| == 1)
  {
    var c := chains[f];
    assert ChainOf(fat, chains, f) && LinkAt(fat, c, 0);
    if 1 < |c| { assert LinkAt(fat, c, 1); }
  }

  lemma {:induction false} ClearedTable(fat: seq<nat>, c: seq<nat>, fat': seq<nat>)
    requires IsChain(fat, c) && c[0] < |fat|
    requires (fat' == Freed(fat[c[0] := FAT_ITEM_END], c[1..]) || (fat' == Freed(fat,
        c[1..]) && fat[c[0]] == FAT_ITEM_END))
    ensures Shrunk(fat, c, Tail(c), fat') && fat'[c[0]] == FAT_ITEM_END
    ensures forall x: nat :: x < |fat| ==>
              fat'[x] == if x == c[0] then FAT_ITEM_END else if x in c then FAT_ITEM_FREE else fat[x]
    ensures forall x: nat :: x in c[1..] <==> x in c && x != c[0]
    ensures forall x: nat :: x < Least(c[1..]) && x < |fat| && fat[x] != FAT_ITEM_FREE ==> fat'[x] != FAT_ITEM_FREE
  {
    assert c == [c[0]] + c[1..];
    assert c[0] !in c[1..] && forall x: nat :: x in c[1..] ==> x in c;
    forall x: nat | x in c
      ensures x < |fat|
    {
      ChainNotFree(fat, c, x);
    }
  }

  /** Linking from the first cluster gives the clusters of the map exactly when the map had no other. */
  lemma AppendedMap(m: seq<nat>, f: nat, news: seq<nat>)
    requires m != [] && m[0] == f
    ensures [f] + news == m + news <==> |m| == 1
    ensures forall x: nat :: x in m + news <==> x in m || x in news
    ensures forall x: nat :: x in [f] + news ==> x in m + news
  {
    assert |[f] + news| == 1 + |news| && |m + news| == |m| + |news|;
    if |m| == 1 { assert m == [f]; }
  }

  /** A file of two clusters that is expanded by one: its chain no longer has the second cluster. */
  method ExpandLosesTail() returns (v: FatVolume)
    ensures fresh(v) && v.Valid() && 2 in v.chains && 2 in v.maps
    ensures v.maps[2] == [2, 3, 4] && v.chains[2] == [2, 4]
  {
    var fat := [1, 1, 3, FAT_ITEM_END, FAT_ITEM_FREE];
    var files: map<nat, seq<nat>> := map[2 := [2, 3]];
    assert Chains(fat, files) by {
      assert LinkAt(fat, [2, 3], 0) && LinkAt(fat, [2, 3], 1);
    }
    v := new FatVolume(fat, 4, files);
    var ok;
    ghost var news;
    assert FreeCount(fat, 4) == 1;
    ok, news := v.Expand(2, 1);
    assert news == [4] by { assert news[0] in news; }
  }

  ghost predicate InTable(fat: seq<nat>, c: seq<nat>) {
    forall i :: 0 <= i < |c| ==> c[i] < |fat|
  }

  lemma {:induction false} NotAChain(fat: seq<nat>, chains: map<nat, seq<nat>>, maps: map<nat, seq<nat>>, x: nat)
    requires Volume(fat, chains, maps) && x < |fat| && fat[x] == FAT_ITEM_FREE
    ensures x !in chains && x !in maps && 2 <= x
  {
    assert ChainOf(fat, chains, x);
    if x in chains {
      ChainNotFree(fat, chains[x], x);
      assert false;
    }
  }

  lemma {:induction false} SameFreeCount(fat: seq<nat>, fat': seq<nat>, start: nat)
    requires |fat| == |fat'|
    requires forall j: nat :: start <= j < |fat| ==> (fat'[j] == FAT_ITEM_FREE <==> fat[j] == FAT_ITEM_FREE)
    ensures FreeCount(fat', start) == FreeCount(fat, start)
    decreases |fat| - start
  {
    if start < |fat| { SameFreeCount(fat, fat', start + 1); }
  }

  /** Linking the new clusters takes nothing but them: entry by entry. */
  lemma {:induction false} LinkedEntry(fat: seq<nat>, f: nat, news: seq<nat>, hint: nat, next: nat, x: nat)
    requires Taken(fat, hint, news, next) && InTable(fat, [f] + news) && f < |fat| && fat[f] != FAT_ITEM_FREE
    requires x < |fat| && 0 < |fat| && fat[0] != FAT_ITEM_FREE
    ensures NoDup([f] + news)
    ensures x != f && x !in news ==> Linked(fat, [f] + news)[x] == fat[x]
    ensures (x == f || x in news) && x != ([f] + news)[|news|] ==> Linked(fat, [f] + news)[x] != FAT_ITEM_FREE
    ensures x == ([f] + news)[|news|] ==> Linked(fat, [f] + news)[x] == fat[x]
  {
    var c := [f] + news;
    assert NoDup(c) by {
      forall i, j | 0 <= i < j < |c|
        ensures c[i] != c[j]
      {
        assert c[j] == news[j - 1] && news[j - 1] in news;
      }
    }
    LinkedAt(fat, c, x);
    if (x == f || x in news) && x != c[|news|] {
      assert x in c;
      var i: nat :| i < |c| && c[i] == x;
      assert c[i + 1] == news[i] && news[i] in news;
    }
  }

  /** Linking clusters below `next` does not change which clusters from `next` on are free. */
  lemma {:induction false} SameFree(fat: seq<nat>, f: nat, news: seq<nat>, hint: nat, next: nat)
    requires Taken(fat, hint, news, next) && InTable(fat, [f] + news) && f < |fat| && fat[f] != FAT_ITEM_FREE
    requires fat[0] != FAT_ITEM_FREE
    ensures var t := Linked(fat, [f] + news);
            forall j: nat :: next <= j < |fat| ==> (t[j] == FAT_ITEM_FREE <==> fat[j] == FAT_ITEM_FREE)
    ensures FreeCount(Linked(fat, [f] + news), next) == FreeCount(fat, next)
  {
    var t := Linked(fat, [f] + news);
    forall j: nat | next <= j < |fat|
      ensures t[j] == FAT_ITEM_FREE <==> fat[j] == FAT_ITEM_FREE
    {
      LinkedEntry(fat, f, news, hint, next, j);
    }
    SameFreeCount(fat, t, next);
  }

  lemma {:induction false} ExpandedGrown(fat: seq<nat>, chains: map<nat, seq<nat>>, f: nat, hint: nat,
                                         news: seq<nat>, next: nat)
    requires Chains(fat, chains) && f in chains && Taken(fat, hint, news, next) && InTable(fat, [f] + news)
    ensures var c := [f] + news; var e := Linked(fat, c)[c[|c| - 1] := FAT_ITEM_END];
            && Grown(fat, chains[f], news, e) && e[0] != FAT_ITEM_FREE && e[1] != FAT_ITEM_FREE
            && (HintOk(fat, hint) ==> HintOk(e, next))
            && forall x: nat :: x < |fat| && x != f && x !in news ==> e[x] == fat[x]
  {
    var c := [f] + news;
    var e := Linked(fat, c)[c[|c| - 1] := FAT_ITEM_END];
    assert ChainOf(fat, chains, f);
    ChainNotFree(fat, chains[f], f) by { assert chains[f][0] in chains[f]; }
    forall x: nat | x < |fat|
      ensures x in news ==> e[x] != FAT_ITEM_FREE
      ensures x !in news && x != f ==> e[x] == fat[x]
      ensures fat[x] != FAT_ITEM_FREE ==> e[x] != FAT_ITEM_FREE
    {
      LinkedEntry(fat, f, news, hint, next, x);
    }
  }

  lemma {:induction false} LoadedMaps(fat: seq<nat>, chains: map<nat, seq<nat>>, maps: map<nat, seq<nat>>, f: nat)
    requires Volume(fat, chains, maps) && f in maps
    ensures Volume(fat, chains, maps[f := chains[f]])
  {
    var maps' := maps[f := chains[f]];
    forall g: nat
      ensures MapOf(fat, chains, maps', g)
    {
      assert MapOf(fat, chains, maps, g) && ChainOf(fat, chains, g);
    }
    forall g: nat, h: nat
      ensures MapsApart(maps', g, h)
    {
      assert MapsApart(maps, g, h) && MapOf(fat, chains, maps, g) && MapOf(fat, chains, maps, h);
    }
  }
}
