/** What deallocuvm does, page by page. */
module VmDealloc {
  import opened Basics
  import opened Vm

  /** One page: if it is there, its frame goes to the free list. */
  function Visit(m: Mem, d: nat, v: nat): (n: Mem)
    requires Shaped(m) && d in m.dirs && v < NPAGES
    ensures Shaped(n) && n.dirs == m.dirs && n.data == m.data
  {
    if Look(m, d, v).Pte? then Push(SetPte(m, d, v, NoPte), Look(m, d, v).frame) else m
  }

  /** Every page from v up to `end`. */
  function VisitAll(m: Mem, d: nat, v: nat, end: nat): Mem
    requires Shaped(m) && d in m.dirs && end <= NPAGES
    decreases if v < end then end - v else 0
  {
    if v >= end then m else VisitAll(Visit(m, d, v), d, v + 1, end)
  }

  /** PGROUNDUP, in pages. */
  function Up(sz: nat): (n: nat)
    ensures (n - 1) * PGSIZE < sz <= n * PGSIZE
  {
    (sz + PGSIZE - 1) / PGSIZE
  }

  /** The first page of the next directory entry. */
  function NextEntry(v: nat): nat {
    (v / NPD + 1) * NPD
  }

  /** Without a page table there is nothing to visit before the next directory entry. */
  lemma {:induction false} SkipIsVisit(m: Mem, d: nat, v: nat, w: nat, end: nat)
    requires Shaped(m) && d in m.dirs && end <= NPAGES && v <= w <= NextEntry(v) && (v < NPAGES ==> m.dirs[d][v / NPD] == 0)
    ensures VisitAll(m, d, v, end) == VisitAll(m, d, w, end)
    decreases w - v
  {
    if v < w && v < end {
      assert Look(m, d, v) == NoPte;
      if v + 1 < w {
        assert (v + 1) / NPD == v / NPD;
        SkipIsVisit(m, d, v + 1, w, end);
      }
    }
  }

  /** From m to n, the pages of d from v up to `end` are gone and nothing else has changed. */
  ghost predicate Gone(m: Mem, n: Mem, d: nat, v: nat, end: nat) {
    match m
    case Mem(dirs, _, data, _) =>
      && Shaped(m) && Shaped(n) && n.dirs == dirs && n.data == data
      && forall d', v' {:trigger Look(n, d', v')} :: d' in dirs && 0 <= v' < NPAGES ==> Look(n, d', v') == if d' == d && v <= v' < end then NoPte else Look(m, d', v')
  }

  /** Exactly the frames of these pages have become free. */
  ghost predicate Freed(before: map<nat, Use>, after: map<nat, Use>, d: nat, v: nat, end: nat) {
    && (forall p {:trigger p in after} :: p in after <==> p in before)
    && forall p {:trigger after[p]} :: p in before ==> if before[p].User? && before[p].d == d && v <= before[p].v < end then after[p].Free? else after[p] == before[p]
  }

  lemma FreedKeys(before: map<nat, Use>, after: map<nat, Use>, d: nat, v: nat, end: nat)
    requires Freed(before, after, d, v, end)
    ensures after.Keys == before.Keys
  {
  }

  lemma VisitKeepsInv(m: Mem, owner: map<nat, Use>, lo: nat, hi: nat, d: nat, v: nat) returns (owner': map<nat, Use>)
    requires Inv(m, owner, lo, hi) && d in m.dirs && v < UPAGES
    ensures Inv(Visit(m, d, v), owner', lo, hi) && Gone(m, Visit(m, d, v), d, v, v + 1) && Freed(owner, owner', d, v, v + 1)
    ensures Look(m, d, v).Pte? ==> lo <= Look(m, d, v).frame < hi
  {
    owner' := owner;
    if Look(m, d, v).Pte? {
      var p := Look(m, d, v).frame;
      UnmapKeepsInv(m, owner, lo, hi, d, v);
      var n := SetPte(m, d, v, NoPte);
      PushKeepsInv(n, owner - {p}, lo, hi, p);
      owner' := (owner - {p})[p := Free(|n.free|)];
      OnlyOne(m, owner, lo, hi, d, v, p);
    } else {
      NoneThere(m, owner, lo, hi, d, v);
    }
  }

  lemma OnlyOne(m: Mem, owner: map<nat, Use>, lo: nat, hi: nat, d: nat, v: nat, p: nat)
    requires Inv(m, owner, lo, hi) && d in m.dirs && v < UPAGES && Look(m, d, v).Pte? && p == Look(m, d, v).frame
    ensures forall q :: q in owner && owner[q] == User(d, v) ==> q == p
  {
    forall q | q in owner && owner[q] == User(d, v) ensures q == p {
      assert InUse(m, owner[q], q);
    }
  }

  lemma NoneThere(m: Mem, owner: map<nat, Use>, lo: nat, hi: nat, d: nat, v: nat)
    requires Inv(m, owner, lo, hi) && d in m.dirs && v < UPAGES && !Look(m, d, v).Pte?
    ensures forall q :: q in owner ==> owner[q] != User(d, v)
  {
    forall q | q in owner ensures owner[q] != User(d, v) {
      assert InUse(m, owner[q], q);
    }
  }

  /** The invariant still holds, and exactly the pages of d from v up to `end` are gone. */
  ghost predicate Deallocated(m: Mem, owner: map<nat, Use>, n: Mem, owner': map<nat, Use>, lo: nat, hi: nat, d: nat, v: nat, end: nat) {
    match m
    case Mem(_, _, _, _) => Inv(n, owner', lo, hi) && Gone(m, n, d, v, end) && Freed(owner, owner', d, v, end)
  }

  ghost predicate Visited(m: Mem, n: Mem, d: nat, v: nat, end: nat) {
    match m
    case Mem(dirs, _, _, _) => Shaped(m) && d in dirs && end <= NPAGES && n == VisitAll(m, d, v, end)
  }

  lemma DeallocatedNone(m: Mem, owner: map<nat, Use>, lo: nat, hi: nat, d: nat, v: nat, end: nat)
    requires Inv(m, owner, lo, hi) && d in m.dirs && end <= v && end <= NPAGES
    ensures Deallocated(m, owner, m, owner, lo, hi, d, v, end) && Visited(m, m, d, v, end)
  {
  }

  lemma DeallocatedMore(m: Mem, owner: map<nat, Use>, n: Mem, owner1: map<nat, Use>, o: Mem, owner2: map<nat, Use>,
                        lo: nat, hi: nat, d: nat, v: nat, end: nat)
    requires Deallocated(m, owner, n, owner1, lo, hi, d, v, v + 1) && Deallocated(n, owner1, o, owner2, lo, hi, d, v + 1, end) && v < end
    ensures Deallocated(m, owner, o, owner2, lo, hi, d, v, end)
  {
  }

  lemma VisitedMore(m: Mem, n: Mem, o: Mem, d: nat, v: nat, end: nat)
    requires Shaped(m) && d in m.dirs && v < end <= NPAGES && n == Visit(m, d, v) && Visited(n, o, d, v + 1, end)
    ensures Visited(m, o, d, v, end)
  {
  }

  lemma VisitOne(m: Mem, owner: map<nat, Use>, lo: nat, hi: nat, d: nat, v: nat) returns (n: Mem, owner': map<nat, Use>)
    requires Inv(m, owner, lo, hi) && d in m.dirs && v < UPAGES
    ensures n == Visit(m, d, v) && d in n.dirs && Inv(n, owner', lo, hi) && Deallocated(m, owner, n, owner', lo, hi, d, v, v + 1)
  {
    n := Visit(m, d, v);
    owner' := VisitKeepsInv(m, owner, lo, hi, d, v);
  }

  /** Visiting every page frees exactly the frames of these pages. */
  lemma {:induction false} VisitAllKeepsInv(m: Mem, owner: map<nat, Use>, lo: nat, hi: nat, d: nat, v: nat, end: nat)
      returns (n: Mem, owner': map<nat, Use>)
    requires Inv(m, owner, lo, hi) && d in m.dirs && end <= UPAGES
    ensures Visited(m, n, d, v, end) && Deallocated(m, owner, n, owner', lo, hi, d, v, end)
    decreases if v < end then end - v else 0
  {
    if v >= end {
      n, owner' := m, owner;
      DeallocatedNone(m, owner, lo, hi, d, v, end);
    } else {
      var mid, owner1 := VisitOne(m, owner, lo, hi, d, v);
      n, owner' := VisitAllKeepsInv(mid, owner1, lo, hi, d, v + 1, end);
      VisitedMore(m, mid, n, d, v, end);
      DeallocatedMore(m, owner, mid, owner1, n, owner', lo, hi, d, v, end);
    }
  }
}
