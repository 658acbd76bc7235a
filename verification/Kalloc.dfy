/** The free list of page frames: kalloc.c. A frame is named by its address; the link of a
    free frame is its first word. */
module Kalloc {
  import opened Basics

  const KERNBASE := 0x8000_0000
  const PHYSTOP := 0xE00_0000

  /** kfree takes a page-aligned address between `end` and PHYSTOP. */
  predicate Freeable(v: nat, end: nat) {
    v % PGSIZE == 0 && end <= v && v - KERNBASE < PHYSTOP
  }

  /** The k-th free frame links to the one before it. */
  predicate LinkedAt(next: map<nat, nat>, free: seq<nat>, k: nat)
    requires k < |free|
  {
    free[k] != 0 && free[k] in next && next[free[k]] == if k == 0 then 0 else free[k - 1]
  }

  /** The links lead from the head, the last element, through the free frames to 0, and no
      frame is free twice. */
  ghost predicate Links(head: nat, next: map<nat, nat>, free: seq<nat>) {
    && head == (if free == [] then 0 else free[|free| - 1])
    && (forall k :: 0 <= k < |free| ==> LinkedAt(next, free, k))
    && (forall j, k :: 0 <= j < k < |free| ==> free[j] != free[k])
  }

  lemma LinksPush(head: nat, next: map<nat, nat>, free: seq<nat>, v: nat)
    requires Links(head, next, free) && v !in free && v != 0
    ensures Links(v, next[v := head], free + [v])
  {
    var next', free' := next[v := head], free + [v];
    forall k | 0 <= k < |free'| ensures LinkedAt(next', free', k) {
      assert k < |free| ==> LinkedAt(next, free, k) && free[k] in free;
    }
    assert forall k :: 0 <= k < |free| ==> free[k] in free;
  }

  lemma LinksPop(head: nat, next: map<nat, nat>, free: seq<nat>)
    requires Links(head, next, free) && free != []
    ensures head in next && head !in free[..|free| - 1] && Links(next[head], next, free[..|free| - 1])
  {
    var free' := free[..|free| - 1];
    assert LinkedAt(next, free, |free| - 1);
    forall k | 0 <= k < |free'| ensures LinkedAt(next, free', k) {
      assert LinkedAt(next, free, k);
    }
  }

  /** The whole pages from p on that end at or before vend. */
  function Pages(p: nat, vend: nat): seq<nat>
    decreases if p <= vend then vend - p else 0
  {
    if p + PGSIZE <= vend then [p] + Pages(p + PGSIZE, vend) else []
  }

  function RoundUp(v: nat): (r: nat)
    ensures r % PGSIZE == 0 && v <= r < v + PGSIZE
  {
    (v + PGSIZE - 1) / PGSIZE * PGSIZE
  }

  /** Each whole page of the range appears, once. */
  lemma {:induction false} PagesAre(p: nat, vend: nat)
    requires p % PGSIZE == 0
    ensures forall q :: q in Pages(p, vend) <==> p <= q && q + PGSIZE <= vend && q % PGSIZE == 0
    ensures forall j, k :: 0 <= j < k < |Pages(p, vend)| ==> Pages(p, vend)[j] < Pages(p, vend)[k]
    decreases if p <= vend then vend - p else 0
  {
    if p + PGSIZE <= vend {
      PagesAre(p + PGSIZE, vend);
      var rest := Pages(p + PGSIZE, vend);
      assert forall k :: 0 <= k < |rest| ==> rest[k] in rest;
      assert Pages(p, vend) == [p] + rest;
    }
  }

  /** The next page of a range goes to the free list. */
  lemma PageMoves(free: seq<nat>, p: nat, vend: nat)
    requires p % PGSIZE == 0 && p + PGSIZE <= vend
    ensures (p + PGSIZE) % PGSIZE == 0 && (free + [p]) + Pages(p + PGSIZE, vend) == free + Pages(p, vend)
  {
    assert free + ([p] + Pages(p + PGSIZE, vend)) == (free + [p]) + Pages(p + PGSIZE, vend);
  }

  class Kmem {
    /** The first address behind the kernel. */
    const end: nat
    var freelist: nat
    var next: map<nat, nat>
    ghost var free: seq<nat>

    ghost predicate Valid()
      reads this
    {
      && end > 0 && Links(freelist, next, free)
      && forall k :: 0 <= k < |free| ==> Freeable(free[k], end)
    }

    /** An empty list. */
    constructor (end: nat)
      requires end > 0
      ensures Valid() && free == [] && this.end == end
    {
      this.end := end;
      freelist, next, free := 0, map[], [];
    }

    /** kfree: not ok is panic("kfree"). */
    method KFree(v: nat) returns (ok: bool)
      requires Valid() && v !in free
      modifies this
      ensures Valid() && ok == Freeable(v, end)
      ensures free == if ok then old(free) + [v] else old(free)
    {
      if v % PGSIZE != 0 || v < end || v - KERNBASE >= PHYSTOP { return false; }
      LinksPush(freelist, next, free, v);
      next := next[v := freelist];
      freelist := v;
      free := free + [v];
      return true;
    }

    /** kalloc: a frame that is then not free any more, or 0 if there is none. */
    method KAlloc() returns (r: nat)
      requires Valid()
      modifies this
      ensures Valid() && (r == 0 <==> old(free) == [])
      ensures r == 0 ==> free == old(free)
      ensures r != 0 ==> old(free) == free + [r] && r !in free && Freeable(r, end)
    {
      r := freelist;
      if r != 0 {
        LinksPop(freelist, next, free);
        freelist := next[r];
        free := free[..|free| - 1];
      }
    }

    /** freerange: every whole page between the two addresses is free, in order. */
    method FreeRange(vstart: nat, vend: nat) returns (ok: bool)
      requires Valid() && forall q :: q in free ==> !(vstart <= q < vend)
      requires end <= vstart && vend <= KERNBASE + PHYSTOP
      modifies this
      ensures Valid() && ok && free == old(free) + Pages(RoundUp(vstart), vend)
    {
      ok := true;
      ghost var free0 := free;
      var p := RoundUp(vstart);
      while p + PGSIZE <= vend
        invariant Valid() && p % PGSIZE == 0 && vstart <= p && ok
        invariant forall q :: q in free ==> q < p || q >= vend
        invariant free + Pages(p, vend) == free0 + Pages(RoundUp(vstart), vend)
        decreases if p <= vend then vend - p else 0
      {
        PageMoves(free, p, vend);
        ok := KFree(p);
        p := p + PGSIZE;
      }
      assert free + [] == free;
    }
  }
}
