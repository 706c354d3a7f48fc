/**
 The propagate callback of RB_DECLARE_CALLBACKS (include/linux/rbtree_augmented.h): recompute stored
 values from a node upwards, stopping early at the first node whose value does not change.
 */
module RbPropagate {
  import opened Options
  import opened RbTreeModel
  import opened RbMemory
  import opened RbRoots

  /** The context after propagate: values change from the hole upwards until one stays the same. */
  function Settle(cb: Callbacks, k: Ctx, v: Option<Aug>): Ctx {
    if cb.Dummy? || k.Top? then k
    else
      var a := Compute(cb.compute, k.s, k.x, v, Val(k.sib));
      if a == k.a then k else Crumb(Settle(cb, k.up, Some(a)), k.s, k.x, k.c, a, k.sib)
  }

  /** Equal but for the stored values. */
  predicate SameButAug(k: Ctx, k': Ctx) {
    if k.Top? then k'.Top?
    else k'.Crumb? && k'.s == k.s && k'.x == k.x && k'.c == k.c && k'.sib == k.sib && SameButAug(k.up, k'.up)
  }

  /** The early exit is harmless: when every node above the first one was right, they all are in the end. */
  lemma {:induction false} SettleRight(f: Rule, k: Ctx, v: Option<Aug>)
    requires k.Crumb? ==> AugOk(f, k.sib) && AugOkC(f, k.up, Some(k.a))
    ensures AugOkC(f, Settle(Augmented(f), k, v), v)
  {
    if k.Crumb? {
      var a := Compute(f, k.s, k.x, v, Val(k.sib));
      if a != k.a { SettleRight(f, k.up, Some(a)); }
    }
  }

  lemma {:induction false} SettleShape(cb: Callbacks, k: Ctx, v: Option<Aug>)
    ensures SameButAug(k, Settle(cb, k, v))
  {
    if k.Crumb? {
      SettleShape(cb, k.up, if cb.Dummy? then None else Some(Compute(cb.compute, k.s, k.x, v, Val(k.sib))));
      SameRefl(k);
    }
  }

  lemma {:induction false} SameRefl(k: Ctx)
    ensures SameButAug(k, k)
  {
    if k.Crumb? { SameRefl(k.up); }
  }

  lemma {:induction false} SameFacts(k: Ctx, k': Ctx, hole: Ptr, b: Ptr)
    requires SameButAug(k, k')
    ensures PtrsC(k') == PtrsC(k) && (UniqC(k') <==> UniqC(k)) && Before(k') == Before(k) && After(k') == After(k)
    ensures TopPtr(k', hole) == TopPtr(k, hole) && ParentPtr(k', b) == ParentPtr(k, b)
    ensures NoRedRedC(k') <==> NoRedRedC(k)
    ensures forall n: nat :: BalC(k', n) <==> BalC(k, n)
    ensures AcceptsRed(k') <==> AcceptsRed(k)
  {
    if k.Crumb? { SameFacts(k.up, k'.up, k.x, b); }
  }

  lemma {:induction false} ComposeRep(h: Heap, k: Ctx, base: Ctx, b: Ptr, hole: Ptr)
    ensures RepC(h, Compose(k, base), b, hole) <==>
            RepC(h, k, ParentPtr(base, b), hole) && RepC(h, base, b, TopPtr(k, hole))
  {
    if k.Crumb? {
      ComposeRep(h, k.up, base, b, k.x);
      ComposeShape(k.up, base, hole, b);
    }
  }

  lemma {:induction false} ComposeAssoc(k: Ctx, k1: Ctx, k2: Ctx)
    ensures Compose(Compose(k, k1), k2) == Compose(k, Compose(k1, k2))
  {
    if k.Crumb? { ComposeAssoc(k.up, k1, k2); }
  }

  /** The addresses of the crumbs themselves, without the siblings. */
  function Spine(k: Ctx): set<Ptr> {
    if k.Top? then {} else {k.x} + Spine(k.up)
  }

  lemma {:induction false} SpineInside(k: Ctx)
    ensures Spine(k) <= PtrsC(k)
  {
    if k.Crumb? { SpineInside(k.up); }
  }

  /** Only stored values of the nodes in `xs` were written. */
  ghost predicate AugWrites(h: Heap, h': Heap, xs: set<Ptr>) {
    h'.Keys == h.Keys && forall x :: x in h ==> h'[x] == if x in xs then h[x].(aug := h'[x].aug) else h[x]
  }

  /** Writing the new value of the node above the hole. */
  lemma {:induction false} SettleOne(h: Heap, k: Ctx, base: Ptr, hole: Ptr, a: Aug)
    requires RepC(h, k, base, hole) && UniqC(k) && k.Crumb?
    ensures RepC(SetAug(h, k.x, a), Crumb(k.up, k.s, k.x, k.c, a, k.sib), base, hole)
  {
    var h' := SetAug(h, k.x, a);
    FrameT(h, h', k.sib, k.x);
    FrameC(h, h', k.up, base, k.x);
  }

  /** How far the loop has come: the crumbs of `low` have their new values, `rest` is still as it was, and
      `here`, of value `w`, hangs between the two. */
  datatype Progress = Progress(low: Ctx, rest: Ctx, w: Option<Aug>, here: Ptr)

  ghost predicate InProgress(cb: Callbacks, h: Heap, k: Ctx, stop: Ptr, hole: Ptr, v: Option<Aug>, p: Progress) {
    && p.here == TopPtr(p.low, hole) && PtrIn(h, p.here) && ValAt(h, p.here) == p.w
    && Compose(p.low, Settle(cb, p.rest, p.w)) == Settle(cb, k, v)
    && RepC(h, p.low, ParentPtr(p.rest, stop), hole) && RepC(h, p.rest, stop, p.here)
    && UniqC(p.rest) && PtrsC(p.low) !! PtrsC(p.rest) && p.here !in PtrsC(p.rest) && stop !in PtrsC(p.rest)
  }

  function Advance(p: Progress, a: Aug): Progress
    requires p.rest.Crumb?
  {
    Progress(Compose(p.low, Crumb(Top, p.rest.s, p.rest.x, p.rest.c, a, p.rest.sib)), p.rest.up, Some(a), p.rest.x)
  }

  lemma {:induction false} AdvanceInv(cb: Callbacks, h: Heap, k: Ctx, stop: Ptr, hole: Ptr, v: Option<Aug>,
                                      p: Progress, a: Aug)
    requires InProgress(cb, h, k, stop, hole, v, p) && p.rest.Crumb? && cb.Augmented?
    requires a == Compute(cb.compute, p.rest.s, p.rest.x, p.w, Val(p.rest.sib)) && a != p.rest.a
    ensures InProgress(cb, SetAug(h, p.rest.x, a), k, stop, hole, v, Advance(p, a))
  {
    var rest, h' := p.rest, SetAug(h, p.rest.x, a);
    var top := Crumb(Top, rest.s, rest.x, rest.c, a, rest.sib);
    SettleOne(h, rest, stop, p.here, a);
    FrameC(h, h', p.low, rest.x, hole);
    ComposeRep(h', p.low, top, ParentPtr(rest.up, stop), hole);
    ComposeAssoc(p.low, top, Settle(cb, rest.up, Some(a)));
    ComposeShape(p.low, top, hole, stop);
  }

  lemma {:induction false} Finished(cb: Callbacks, h: Heap, k: Ctx, stop: Ptr, hole: Ptr, v: Option<Aug>, p: Progress)
    requires InProgress(cb, h, k, stop, hole, v, p) && Settle(cb, p.rest, p.w) == p.rest
    ensures RepC(h, Settle(cb, k, v), stop, hole)
  {
    ComposeRep(h, p.low, p.rest, stop, hole);
  }

  /** propagate(rb, stop) along the context `k` from the hole up to `stop`. */
  method PropagateLoop(r: RbRoot, compute: Rule, rb0: Ptr, stop: Ptr, ghost k: Ctx, ghost hole: Ptr,
                       ghost v: Option<Aug>)
      returns (ghost p: Progress)
    requires InProgress(Augmented(compute), r.h, k, stop, hole, v, Progress(Top, k, v, hole))
    requires rb0 == ParentPtr(k, stop)
    requires stop == NULL || Aligned(stop)
    modifies r`h
    ensures InProgress(Augmented(compute), r.h, k, stop, hole, v, p)
    ensures Settle(Augmented(compute), p.rest, p.w) == p.rest
    ensures AugWrites(old(r.h), r.h, Spine(k))
  {
    ghost var cb := Augmented(compute);
    var rb := rb0;
    p := Progress(Top, k, v, hole);
    while rb != stop
      invariant InProgress(cb, r.h, k, stop, hole, v, p) && rb == ParentPtr(p.rest, stop)
      invariant AugWrites(old(r.h), r.h, Spine(k)) && Spine(p.rest) <= Spine(k)
      decreases Length(p.rest)
    {
      ghost var h1, p1 := r.h, p;
      var done;
      done, rb, p := PropagateStep(r, compute, rb, stop, k, hole, v, p);
      if done { break; }
      MoreWrites(old(r.h), h1, r.h, k, p1.rest);
    }
  }

  /** One round of the loop: done when the stored value is already the recomputed one. */
  method PropagateStep(r: RbRoot, compute: Rule, rb: Ptr, stop: Ptr, ghost k: Ctx, ghost hole: Ptr,
                       ghost v: Option<Aug>,
                       ghost p: Progress) returns (done: bool, rb': Ptr, ghost p': Progress)
    requires InProgress(Augmented(compute), r.h, k, stop, hole, v, p) && p.rest.Crumb? && rb == p.rest.x
    requires stop == NULL || Aligned(stop)
    modifies r`h
    ensures done ==> r.h == old(r.h) && p' == p && Settle(Augmented(compute), p.rest, p.w) == p.rest
    ensures !done ==> InProgress(Augmented(compute), r.h, k, stop, hole, v, p') && p'.rest == p.rest.up
    ensures !done ==> rb' == ParentPtr(p'.rest, stop) && AugWrites(old(r.h), r.h, {rb})
  {
    ReadChildren(r.h, p.rest, stop, p.here);
    done, rb', p' := true, rb, p;
    var augmented := compute(rb, ValAt(r.h, r.h[rb].left), ValAt(r.h, r.h[rb].right));
    if r.h[rb].aug != augmented {
      AdvanceInv(Augmented(compute), r.h, k, stop, hole, v, p, augmented);
      r.h := SetAug(r.h, rb, augmented);
      done, rb', p' := false, ParentOf(r.h[rb].pc), Advance(p, augmented);
    }
  }

  lemma {:induction false} MoreWrites(h: Heap, h1: Heap, h2: Heap, k: Ctx, rest: Ctx)
    requires AugWrites(h, h1, Spine(k)) && rest.Crumb? && Spine(rest) <= Spine(k) && AugWrites(h1, h2, {rest.x})
    ensures AugWrites(h, h2, Spine(k)) && Spine(rest.up) <= Spine(k)
  {
    assert rest.x in Spine(rest);
  }

  method Propagate(r: RbRoot, cb: Callbacks, rb: Ptr, stop: Ptr, ghost k: Ctx, ghost hole: Ptr, ghost v: Option<Aug>)
    requires RepC(r.h, k, stop, hole) && UniqC(k) && rb == ParentPtr(k, stop) && stop !in PtrsC(k)
    requires stop == NULL || Aligned(stop)
    requires PtrIn(r.h, hole) && ValAt(r.h, hole) == v && hole !in PtrsC(k)
    modifies r`h
    ensures RepC(r.h, Settle(cb, k, v), stop, hole)
    ensures AugWrites(old(r.h), r.h, Spine(k))
  {
    match cb
    case Dummy =>
    case Augmented(compute) =>
      ghost var p := PropagateLoop(r, compute, rb, stop, k, hole, v);
      Finished(cb, r.h, k, stop, hole, v, p);
  }

  /** rbcompute reads the values of both children. */
  lemma {:induction false} ReadChildren(h: Heap, k: Ctx, stop: Ptr, hole: Ptr)
    requires RepC(h, k, stop, hole) && k.Crumb? && PtrIn(h, hole) && (stop == NULL || Aligned(stop))
    ensures k.x in h && PtrIn(h, h[k.x].left) && PtrIn(h, h[k.x].right)
    ensures forall f: Rule :: f(k.x, ValAt(h, h[k.x].left), ValAt(h, h[k.x].right)) == Compute(f, k.s, k.x,
        ValAt(h, hole), Val(k.sib))
    ensures ParentOf(h[k.x].pc) == ParentPtr(k.up, stop) && h[k.x].aug == k.a
  {
    RepRoot(h, k.sib, k.x);
    assert RepC(h, k.up, stop, k.x);
    PackUnpack(ParentPtr(k.up, stop), k.c);
  }
}
