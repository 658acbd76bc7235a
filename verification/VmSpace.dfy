/** walkpgdir, mappages, allocuvm, deallocuvm, freevm and copyuvm of vm.c, in place on the
    page tables and the free list. */
module VmSpace {
  import opened Basics
  import opened Vm
  import opened VmCount
  import opened VmDealloc
  import opened VmAlloc
  import opened VmFree
  import opened VmCopy

  /** How mappages ends: with the entry, with -1, or with panic("remap"). */
  datatype Outcome = Mapped | NoMemory | Remap

  class Machine {
    /** Frames that kfree takes, from `end` to PHYSTOP. */
    const lo: nat
    const hi: nat
    var m: Mem
    ghost var owner: map<nat, Use>

    ghost predicate Valid()
      reads this
    {
      Inv(m, owner, lo, hi)
    }

    constructor (memory: Mem, ghost uses: map<nat, Use>, first: nat, end: nat)
      requires Inv(memory, uses, first, end)
      ensures m == memory && owner == uses && lo == first && hi == end && Valid()
    {
      m := memory;
      owner := uses;
      lo := first;
      hi := end;
    }

    /** kalloc: 0 if there is no free frame. */
    method KAlloc() returns (p: nat)
      requires Valid()
      modifies this`m, this`owner
      ensures Valid() && SameViews(old(m), m)
      ensures p == 0 <==> old(m).free == []
      ensures if p == 0 then m == old(m) && owner == old(owner) else m == Pop(old(m)) && p in old(owner) && lo <= p < hi && owner == old(owner) - {p}
    {
      if |m.free| == 0 {
        SameViewsItself(m);
        return 0;
      }
      PopKeepsInv(m, owner, lo, hi);
      p := m.free[|m.free| - 1];
      m := Pop(m);
      owner := owner - {p};
    }

    /** kfree. */
    method KFree(p: nat)
      requires Valid() && p !in owner && lo <= p < hi
      modifies this`m, this`owner
      ensures Valid() && SameViews(old(m), m) && m == Push(old(m), p) && owner == old(owner)[p := Free(|old(m).free|)]
    {
      PushKeepsInv(m, owner, lo, hi, p);
      owner := owner[p := Free(|m.free|)];
      m := Push(m, p);
    }

    /** walkpgdir: is there an entry for page v, after making a page table for it if asked? */
    method WalkPgdir(d: nat, v: nat, alloc: bool) returns (found: bool)
      requires Valid() && d in m.dirs && v < NPAGES
      modifies this`m, this`owner
      ensures Valid() && SameViews(old(m), m) && m.data == old(m).data && owner.Keys == old(owner).Keys
      ensures !found <==> old(m).dirs[d][v / NPD] == 0 && (!alloc || old(m).free == [])
      ensures if found then Paid(old(m), m, d, v / NPD) else m == old(m) && owner == old(owner)
      ensures old(m).dirs[d][v / NPD] != 0 ==> m == old(m) && owner == old(owner)
    {
      ghost var m0 := m;
      if m.dirs[d][v / NPD] != 0 {
        SameViewsItself(m);
        return true;
      }
      if !alloc {
        SameViewsItself(m);
        return false;
      }
      var p := KAlloc();
      if p == 0 { return false; }
      ghost var m1 := m;
      AddTabKeepsInv(m, owner, lo, hi, d, v / NPD, p);
      m := AddTab(m, d, v / NPD, p);
      owner := owner[p := Tab(d, v / NPD)];
      SameViewsTwice(m0, m1, m);
      return true;
    }

    /** mappages for one page: a user page gets the frame p, which nothing else uses yet. */
    method MapPage(d: nat, v: nat, p: nat, flags: nat) returns (r: Outcome)
      requires Valid() && d in m.dirs && v < NPAGES
      requires v < UPAGES ==> p !in owner && lo <= p < hi && p in m.data && |m.data[p]| == PGSIZE
      modifies this`m, this`owner
      ensures Valid() && m.data == old(m).data
      ensures r == Mapped ==> OneView(old(m), m, d, v, Pte(p, flags)) && Look(old(m), d, v) == NoPte && Paid(old(m), m, d, v / NPD)
      ensures r == Mapped ==> owner.Keys == if v < UPAGES then old(owner).Keys + {p} else old(owner).Keys
      ensures r != Mapped ==> m == old(m) && owner == old(owner)
      ensures r == Remap <==> Look(old(m), d, v).Pte?
      ensures r == NoMemory <==> old(m).dirs[d][v / NPD] == 0 && old(m).free == []
    {
      ghost var m0 := m;
      var found := WalkPgdir(d, v, true);
      if !found { return NoMemory; }
      if Look(m, d, v).Pte? { return Remap; }
      ghost var m1 := m;
      if v < UPAGES {
        MapKeepsInv(m, owner, lo, hi, d, v, p, flags);
        owner := owner[p := User(d, v)];
      } else {
        MapKernelKeepsInv(m, owner, lo, hi, d, v, Pte(p, flags));
      }
      m := SetPte(m, d, v, Pte(p, flags));
      OneViewAfter(m0, m1, m, d, v, Pte(p, flags));
      return Mapped;
    }

    /** One turn of deallocuvm's loop; a page table that is not there is skipped as a whole. */
    method DeallocTurn(d: nat, v: nat, ghost end: nat) returns (next: nat)
      requires Valid() && d in m.dirs && v < end <= UPAGES
      modifies this`m, this`owner
      ensures Valid() && d in m.dirs && v < next
      ensures VisitAll(m, d, next, end) == VisitAll(old(m), d, v, end)
    {
      if m.dirs[d][v / NPD] == 0 {
        SkipIsVisit(m, d, v, NextEntry(v), end);
        return NextEntry(v);
      }
      ghost var m0 := m;
      owner := VisitKeepsInv(m, owner, lo, hi, d, v);
      if Look(m, d, v).Pte? {
        var pa := Look(m, d, v).frame;
        assert lo <= pa < hi;
        m := Push(m, pa);
        m := SetPte(m, d, v, NoPte);
      }
      assert m == Visit(m0, d, v);
      next := v + 1;
    }

    /** deallocuvm's loop. */
    method DeallocLoop(d: nat, from: nat, oldsz: nat)
      requires Valid() && d in m.dirs && oldsz <= UPAGES * PGSIZE
      modifies this`m, this`owner
      ensures m == VisitAll(old(m), d, from, Up(oldsz)) && Deallocated(old(m), old(owner), m, owner, lo, hi, d, from, Up(oldsz))
      ensures owner.Keys == old(owner).Keys
    {
      ghost var end := Up(oldsz);
      ghost var n, own := VisitAllKeepsInv(m, owner, lo, hi, d, from, end);
      var v := from;
      while v * PGSIZE < oldsz
        invariant Valid() && d in m.dirs && VisitAll(m, d, v, end) == n
        decreases if v < end then end - v else 0
      {
        v := DeallocTurn(d, v, end);
      }
      owner := own;
      FreedKeys(old(owner), owner, d, from, end);
    }

    /** deallocuvm: the pages between the new size and the old one go, exactly as if every one
        of them had been visited. */
    method Deallocuvm(d: nat, oldsz: nat, newsz: nat) returns (r: nat)
      requires Valid() && d in m.dirs && oldsz <= UPAGES * PGSIZE
      modifies this`m, this`owner
      ensures newsz >= oldsz ==> r == oldsz && m == old(m) && owner == old(owner)
      ensures newsz < oldsz ==> r == newsz && m == VisitAll(old(m), d, Up(newsz), Up(oldsz))
      ensures newsz < oldsz ==> Deallocated(old(m), old(owner), m, owner, lo, hi, d, Up(newsz), Up(oldsz))
      ensures owner.Keys == old(owner).Keys
    {
      if newsz >= oldsz { return oldsz; }
      DeallocLoop(d, Up(newsz), oldsz);
      return newsz;
    }

    /** kalloc and memset: a frame of zeros that no page uses yet, or 0. */
    method TakeZeroed(ghost m0: Mem, ghost d: nat, ghost from: nat, ghost v: nat) returns (mem: nat)
      requires Valid() && Grown(m0, m, d, from, v) && v <= UPAGES
      modifies this`m, this`owner
      ensures Valid() && Grown(m0, m, d, from, v)
      ensures mem == 0 ==> owner == old(owner) && m == old(m) && m.free == []
      ensures mem != 0 ==> mem in old(owner) && mem !in owner && owner.Keys == old(owner).Keys - {mem} && lo <= mem < hi
      ensures mem != 0 ==> mem in m.data && m.data[mem] == ZeroPage() && |m.free| + 1 == |old(m).free| && m.dirs == old(m).dirs
    {
      ghost var m1 := m;
      mem := KAlloc();
      SameKeepsGrown(m0, m1, m, d, from, v);
      if mem != 0 {
        ZeroKeepsGrown(m0, m, owner, lo, hi, d, from, v, mem);
        SetDataKeepsInv(m, owner, lo, hi, mem, ZeroPage());
        m := SetData(m, mem, ZeroPage());
      }
    }

    /** Page v gets the zeroed frame. */
    method MapZeroed(ghost m0: Mem, d: nat, ghost from: nat, v: nat, mem: nat) returns (r: Outcome)
      requires Valid() && Grown(m0, m, d, from, v) && from <= v < UPAGES
      requires mem !in owner && lo <= mem < hi && mem in m.data && m.data[mem] == ZeroPage()
      modifies this`m, this`owner
      ensures Valid() && Grown(m0, m, d, from, if r == Mapped then v + 1 else v)
      ensures owner.Keys == if r == Mapped then old(owner).Keys + {mem} else old(owner).Keys
      ensures r == Remap ==> Look(m0, d, v).Pte?
      ensures r == Mapped ==> Paid(old(m), m, d, v / NPD)
      ensures r == NoMemory ==> old(m).dirs[d][v / NPD] == 0 && old(m).free == []
    {
      ghost var m1 := m;
      r := MapPage(d, v, mem, WRITE_USER);
      if r == Mapped {
        MapKeepsGrown(m0, m1, m, d, from, v, mem);
      }
    }

    /** One turn of allocuvm's loop. A frame that cannot be mapped is left in `mem`. */
    method AllocTurn(ghost m0: Mem, d: nat, ghost from: nat, v: nat) returns (g: Growth, mem: nat)
      requires Valid() && Grown(m0, m, d, from, v) && from <= v < UPAGES
      modifies this`m, this`owner
      ensures Valid() && Grown(m0, m, d, from, if g == Grew then v + 1 else v)
      ensures g == Grew ==> owner.Keys == old(owner).Keys
      ensures g == Failed && mem == 0 ==> owner.Keys == old(owner).Keys
      ensures g == Failed && mem != 0 ==> mem in old(owner) && lo <= mem < hi && owner.Keys == old(owner).Keys - {mem}
      ensures g == Panicked ==> Look(m0, d, v).Pte? && old(m).free != []
      ensures g == Grew ==> PaidPage(old(m), m, d, v / NPD)
      ensures g == Failed ==> Broke(old(m), d, v / NPD)
    {
      ghost var m1 := m;
      mem := TakeZeroed(m0, d, from, v);
      if mem == 0 { return Failed, mem; }
      BackAgain(old(owner).Keys, mem);
      ghost var m2 := m;
      var r := MapZeroed(m0, d, from, v, mem);
      if r == Mapped {
        PaidOne(m1, m2, m, d, v / NPD);
      }
      g := match r case Mapped => Grew case Remap => Panicked case NoMemory => Failed;
    }

    /** The same, with the frames counted. */
    method AllocNext(ghost m0: Mem, d: nat, ghost from: nat, v: nat, ghost next: nat, ghost stop: nat, ghost end: nat) returns (g: Growth, mem: nat)
      requires Valid() && Grown(m0, m, d, from, v) && PaidPages(m0, m, d, from, v, stop) && from <= v <= stop && v < end && next == v + 1
      requires FirstMapped(m0, d, from, end, stop)
      modifies this`m, this`owner
      ensures Valid() && Grown(m0, m, d, from, if g == Grew then next else v)
      ensures g == Grew ==> owner.Keys == old(owner).Keys && next <= stop && PaidPages(m0, m, d, from, next, stop)
      ensures g != Grew ==> g == Fate(m0, d, from, stop, end)
      ensures g == Failed && mem == 0 ==> owner.Keys == old(owner).Keys
      ensures g == Failed && mem != 0 ==> mem in old(owner) && lo <= mem < hi && owner.Keys == old(owner).Keys - {mem}
    {
      ghost var m1 := m;
      g, mem := AllocTurn(m0, d, from, v);
      if g == Grew {
        assert Look(m0, d, v) == NoPte;
        PageCounts(m0, m1, m, d, from, v, stop);
      } else {
        EndsAsFated(m0, m1, d, from, v, stop, end, g);
      }
    }

    /** allocuvm's loop. */
    method AllocLoop(d: nat, from: nat, newsz: nat, ghost stop: nat) returns (g: Growth, mem: nat, ghost v: nat)
      requires Valid() && newsz < UPAGES * PGSIZE && from <= Up(newsz) && FirstMapped(m, d, from, Up(newsz), stop)
      modifies this`m, this`owner
      ensures Valid() && from <= v <= Up(newsz) && Grown(old(m), m, d, from, v)
      ensures g == Grew ==> v == Up(newsz) && owner.Keys == old(owner).Keys
      ensures g == Fate(old(m), d, from, stop, Up(newsz))
      ensures g == Failed ==> v < Up(newsz)
      ensures g == Failed && mem == 0 ==> owner.Keys == old(owner).Keys
      ensures g == Failed && mem != 0 ==> mem in old(owner) && lo <= mem < hi && owner.Keys == old(owner).Keys - {mem}
    {
      ghost var m0 := m;
      GrownNone(m, owner, lo, hi, d, from);
      NoPageYet(m, d, from, stop);
      var a := from;
      while a * PGSIZE < newsz
        invariant Valid() && from <= a <= stop && Grown(m0, m, d, from, a) && owner.Keys == old(owner).Keys
        invariant PaidPages(m0, m, d, from, a, stop)
      {
        var next := a + 1;
        g, mem := AllocNext(m0, d, from, a, next, stop, Up(newsz));
        if g != Grew { return g, mem, a; }
        a := next;
      }
      assert a == Up(newsz) == stop;
      EnoughPages(m0, m, d, from, a, stop);
      return Grew, 0, a;
    }

    /** What allocuvm does when memory runs out. */
    method AllocUndo(ghost m0: Mem, d: nat, ghost v: nat, newsz: nat, oldsz: nat, mem: nat)
      requires Valid() && d in m.dirs && newsz < UPAGES * PGSIZE && Up(oldsz) <= v < Up(newsz) && Grown(m0, m, d, Up(oldsz), v)
      requires mem != 0 ==> mem !in owner && lo <= mem < hi
      modifies this`m, this`owner
      ensures Valid() && Emptied(m0, m, d, Up(oldsz), Up(newsz))
      ensures owner.Keys == if mem == 0 then old(owner).Keys else old(owner).Keys + {mem}
    {
      ghost var m1 := m;
      var r := Deallocuvm(d, newsz, oldsz);
      GrownThenGone(m0, m1, m, d, Up(oldsz), v, Up(newsz));
      if mem != 0 {
        ghost var m2 := m;
        KFree(mem);
        SameKeepsEmptied(m0, m2, m, d, Up(oldsz), Up(newsz));
      }
    }

    /** allocuvm: fresh pages up to the new size; or 0, which happens in an empty range exactly
        when there are not as many free frames as new pages and missing page tables; or a panic
        at the first page of the range that is there, exactly when the frames last until then.
        No frame is lost. A failure leaves the mapping as it was exactly if the range was empty. */
    method Allocuvm(d: nat, oldsz: nat, newsz: nat) returns (g: Growth, r: nat)
      requires Valid() && d in m.dirs && oldsz <= UPAGES * PGSIZE
      modifies this`m, this`owner
      ensures g != Panicked ==> Valid() && owner.Keys == old(owner).Keys
      ensures newsz >= UPAGES * PGSIZE ==> g == Failed && r == 0 && m == old(m)
      ensures newsz < UPAGES * PGSIZE && newsz < oldsz ==> g == Grew && r == oldsz && m == old(m)
      ensures oldsz <= newsz < UPAGES * PGSIZE && g == Grew ==> r == newsz && Grown(old(m), m, d, Up(oldsz), Up(newsz))
      ensures oldsz <= newsz < UPAGES * PGSIZE && g == Failed ==> r == 0 && Emptied(old(m), m, d, Up(oldsz), Up(newsz))
      ensures oldsz <= newsz < UPAGES * PGSIZE && g == Failed ==> (SameViews(old(m), m) <==> Unmapped(old(m), d, Up(oldsz), Up(newsz)))
      ensures oldsz <= newsz < UPAGES * PGSIZE ==> forall stop: nat :: FirstMapped(old(m), d, Up(oldsz), Up(newsz), stop) ==>
        g == Fate(old(m), d, Up(oldsz), stop, Up(newsz))
      ensures oldsz <= newsz < UPAGES * PGSIZE && Unmapped(old(m), d, Up(oldsz), Up(newsz)) ==>
        g != Panicked && (g == Failed <==> TooFew(old(m), d, Up(oldsz), Up(newsz)))
    {
      if newsz >= UPAGES * PGSIZE { return Failed, 0; }
      if newsz < oldsz { return Grew, oldsz; }
      ghost var m0 := m;
      var mem;
      ghost var v;
      ghost var stop := FindMapped(m, d, Up(oldsz), Up(newsz));
      g, mem, v := AllocLoop(d, Up(oldsz), newsz, stop);
      OneFate(m0, d, Up(oldsz), Up(newsz), stop);
      if g == Grew { return g, newsz; }
      if g == Failed {
        BackAgainIf(old(owner).Keys, mem);
        AllocUndo(m0, d, v, newsz, oldsz, mem);
        FailureIff(m0, m, d, Up(oldsz), Up(newsz));
      }
      r := 0;
    }

    /** One turn of freevm's loop. */
    method FreeTable(d: nat, i: nat, ghost g: Mem, ghost own0: map<nat, Use>) returns (ghost g': Mem)
      requires Inv(g, owner, lo, hi) && Freeing(m, g, d, i) && i < NPD && TabsFreed(own0, owner, d, i)
      modifies this`m, this`owner
      ensures Inv(g', owner, lo, hi) && Freeing(m, g', d, i + 1) && OthersSame(g, g', d) && TabsFreed(own0, owner, d, i + 1)
    {
      if m.dirs[d][i] != 0 {
        FreeingNext(m, g, d, i);
        DropTabKeepsInv(g, owner, lo, hi, d, i);
        TabsFreedNext(g, owner, lo, hi, own0, d, i, |g.free|);
        assert lo <= m.dirs[d][i] < hi;
        owner := owner[m.dirs[d][i] := Free(|g.free|)];
        m := Push(m, m.dirs[d][i]);
        g' := DropTab(g, d, i);
      } else {
        FreeingSkip(m, g, d, i);
        TabsFreedSkip(g, owner, lo, hi, own0, d, i);
        g' := g;
        GoneNothing(g, d);
      }
    }

    /** freevm's loop. */
    method FreeTables(d: nat) returns (ghost g: Mem)
      requires Valid() && NoPages(m, d)
      modifies this`m, this`owner
      ensures Inv(g, owner, lo, hi) && Freeing(m, g, d, NPD) && OthersSame(old(m), g, d) && TabsFreed(old(owner), owner, d, NPD)
    {
      ghost var m0, own0 := m, owner;
      g := m;
      FreeingStart(m, d);
      var i := 0;
      while i < NPD
        invariant i <= NPD && Inv(g, owner, lo, hi) && Freeing(m, g, d, i) && OthersSame(m0, g, d) && TabsFreed(own0, owner, d, i)
      {
        ghost var g1 := g;
        g := FreeTable(d, i, g, own0);
        OthersSameTwice(m0, g1, g, d);
        i := i + 1;
      }
    }

    /** freevm: every frame of the space, its user pages, page tables and directory, goes to the
        free list, and no other. */
    method Freevm(d: nat)
      requires Valid() && d in m.dirs
      modifies this`m, this`owner
      ensures Valid() && d !in m.dirs && OthersSame(old(m), m, d) && SpaceFreed(old(owner), owner, d)
    {
      ghost var m0, own0 := m, owner;
      var r := Deallocuvm(d, UPAGES * PGSIZE, 0);
      GoneIsEmpty(m0, m, d);
      ghost var m1, own1 := m, owner;
      ghost var g := FreeTables(d);
      ghost var own2 := owner;
      FreeingEnd(m, g, d);
      DropDirKeepsInv(g, owner, lo, hi, d);
      owner := owner[d := Free(|g.free|)];
      m := DropDir(m, d);
      OthersSameTwice(m0, m1, g, d);
      OthersSameTwice(m0, g, m, d);
      AllFreed(m0, own0, lo, hi, own1, own2, owner, d);
    }

    /** One page of a kernel region of a new space. */
    method MapKernelPage(ghost m0: Mem, c: nat, ghost before: seq<Region>, ghost after: seq<Region>, v: nat, p: nat, flags: nat)
      returns (r: Outcome)
      requires Valid() && NewSpace(m0, m, c) && UPAGES <= v < NPAGES && KernelIs(m, c, before) && OneMore(before, after, v, Pte(p, flags))
      modifies this`m, this`owner
      ensures Valid() && NewSpace(m0, m, c) && owner.Keys == old(owner).Keys && r != Remap
      ensures r == Mapped ==> KernelIs(m, c, after) && Paid(old(m), m, c, v / NPD)
      ensures r == NoMemory ==> m == old(m) && m.free == [] && m.dirs[c][v / NPD] == 0
    {
      ghost var m1 := m;
      r := MapPage(c, v, p, flags);
      if r == Mapped {
        NewSpaceKernel(m0, m1, m, c, v, Pte(p, flags));
        KernelNext(m1, m, c, before, after, v, Pte(p, flags));
      }
    }

    /** The next page of a region; `done` are the regions before it. */
    method MapInRegion(ghost m0: Mem, c: nat, ghost done: seq<Region>, k: Region, i: nat, ghost next: nat) returns (r: Outcome)
      requires Valid() && NewSpace(m0, m, c) && UPAGES <= k.v && k.v + k.n <= NPAGES && i < k.n && next == i + 1
      requires KernelPart(m, c, done, k, i) && Apart(done, k)
      modifies this`m, this`owner
      ensures Valid() && NewSpace(m0, m, c) && owner.Keys == old(owner).Keys && r != Remap
      ensures r == Mapped ==> KernelPart(m, c, done, k, next) && Paid(old(m), m, c, (k.v + i) / NPD)
      ensures r == NoMemory ==> m == old(m) && m.free == [] && m.dirs[c][(k.v + i) / NPD] == 0
    {
      RegionNext(done, k, i);
      KernelPartIs(m, c, done, k, i);
      r := MapKernelPage(m0, c, done + [k.(n := i)], done + [k.(n := i + 1)], k.v + i, k.p + i, k.flags);
      if r == Mapped {
        PartIsKernel(m, c, done, k, next);
      }
    }

    /** The same, with the page tables counted; m1 is the memory when the directory was new. */
    method MapNext(ghost m0: Mem, c: nat, ghost done: seq<Region>, k: Region, i: nat, ghost next: nat, ghost m1: Mem) returns (r: Outcome)
      requires Valid() && NewSpace(m0, m, c) && UPAGES <= k.v && k.v + k.n <= NPAGES && i < k.n && next == i + 1
      requires KernelPart(m, c, done, k, i) && Apart(done, k) && PaidTables(m1, m, c) && TablesPart(m, c, done, k, i)
      modifies this`m, this`owner
      ensures Valid() && NewSpace(m0, m, c) && owner.Keys == old(owner).Keys && r != Remap
      ensures r == Mapped ==> KernelPart(m, c, done, k, next) && PaidTables(m1, m, c) && TablesPart(m, c, done, k, next)
      ensures r == NoMemory ==> m == old(m) && m.free == [] && m.dirs[c][(k.v + i) / NPD] == 0
    {
      ghost var m2 := m;
      r := MapInRegion(m0, c, done, k, i, next);
      if r == Mapped {
        TablePaid(m1, m2, m, c, (k.v + i) / NPD);
        TablesNext(m2, m, c, done, k, i);
      }
    }

    /** The loop of mappages over a kernel region; it stops at page i if there is no frame. */
    method MapPages(ghost m0: Mem, c: nat, ghost done: seq<Region>, k: Region, ghost m1: Mem) returns (r: Outcome, ghost at: nat)
      requires Valid() && NewSpace(m0, m, c) && UPAGES <= k.v && k.v + k.n <= NPAGES && Apart(done, k)
      requires KernelPart(m, c, done, k, 0) && PaidTables(m1, m, c) && TablesPart(m, c, done, k, 0)
      modifies this`m, this`owner
      ensures Valid() && NewSpace(m0, m, c) && owner.Keys == old(owner).Keys && r != Remap && PaidTables(m1, m, c)
      ensures r == Mapped ==> KernelPart(m, c, done, k, k.n) && TablesPart(m, c, done, k, k.n)
      ensures r == NoMemory ==> at < k.n && TablesPart(m, c, done, k, at) && m.free == [] && m.dirs[c][(k.v + at) / NPD] == 0
    {
      var i := 0;
      while i < k.n
        invariant i <= k.n && Valid() && NewSpace(m0, m, c) && owner.Keys == old(owner).Keys
        invariant KernelPart(m, c, done, k, i) && PaidTables(m1, m, c) && TablesPart(m, c, done, k, i)
      {
        var next := i + 1;
        r := MapNext(m0, c, done, k, i, next, m1);
        if r == NoMemory { return r, i; }
        i := next;
      }
      return Mapped, i;
    }

    /** mappages for region number `at` of kmap. */
    method MapRegion(ghost m0: Mem, c: nat, kmap: seq<Region>, at: nat, ghost m1: Mem) returns (r: Outcome)
      requires Valid() && NewSpace(m0, m, c) && KmapOk(kmap) && at < |kmap| && KernelIs(m, c, kmap[..at])
      requires c in m1.dirs && m1.dirs[c] == NoTabs() && PaidTables(m1, m, c) && TablesAre(m, c, kmap[..at])
      modifies this`m, this`owner
      ensures Valid() && NewSpace(m0, m, c) && owner.Keys == old(owner).Keys && r != Remap
      ensures r == Mapped ==> KernelIs(m, c, kmap[..at + 1]) && PaidTables(m1, m, c) && TablesAre(m, c, kmap[..at + 1])
      ensures r == NoMemory ==> |m1.free| < KernelTables(kmap)
    {
      RegionStarts(m, c, kmap, at);
      ghost var i;
      r, i := MapPages(m0, c, kmap[..at], kmap[at], m1);
      if r == NoMemory {
        KernelStuck(m1, m, c, kmap, at, i);
      } else {
        RegionEnds(m, c, kmap, at);
      }
    }

    /** kalloc and memset of a page directory. */
    method TakeDir(ghost m0: Mem) returns (c: nat)
      requires Valid() && Kept(m0, m)
      modifies this`m, this`owner
      ensures Valid() && owner.Keys == old(owner).Keys
      ensures c == 0 ==> Kept(m0, m) && old(m).free == []
      ensures c != 0 ==> NewSpace(m0, m, c) && KernelIs(m, c, []) && |m.free| + 1 == |old(m).free| && m.dirs[c] == NoTabs()
    {
      ghost var m1 := m;
      c := KAlloc();
      KeptSame(m0, m1, m);
      if c != 0 {
        NewDirKeepsInv(m, owner, lo, hi, c);
        NewSpaceStart(m0, m, c);
        BackAgain(old(owner).Keys, c);
        m := NewDir(m, c);
        owner := owner[c := Dir];
      }
    }

    /** setupkvm's loop over kmap. */
    method MapKernel(ghost m0: Mem, c: nat, kmap: seq<Region>) returns (ok: bool)
      requires Valid() && NewSpace(m0, m, c) && KernelIs(m, c, []) && KmapOk(kmap) && m.dirs[c] == NoTabs()
      modifies this`m, this`owner
      ensures Valid() && NewSpace(m0, m, c) && owner.Keys == old(owner).Keys
      ensures ok ==> KernelIs(m, c, kmap) && PaidTables(old(m), m, c) && TablesAre(m, c, kmap)
      ensures !ok ==> |old(m).free| < KernelTables(kmap)
    {
      ghost var m1 := m;
      TablesStart(m, c);
      assert kmap[..0] == [];
      var k := 0;
      while k < |kmap|
        invariant k <= |kmap| && Valid() && NewSpace(m0, m, c) && owner.Keys == old(owner).Keys
        invariant KernelIs(m, c, kmap[..k]) && PaidTables(m1, m, c) && TablesAre(m, c, kmap[..k])
      {
        var r := MapRegion(m0, c, kmap, k, m1);
        if r == NoMemory { return false; }
        k := k + 1;
      }
      assert kmap[..k] == kmap;
      ok := true;
    }

    /** setupkvm: a new space with exactly the kernel's pages, or 0 and everything as before,
        which happens exactly when there are fewer free frames than the directory and its page
        tables take. */
    method Setupkvm(kmap: seq<Region>) returns (c: nat)
      requires Valid() && KmapOk(kmap)
      modifies this`m, this`owner
      ensures Valid() && owner.Keys == old(owner).Keys
      ensures c == 0 <==> |old(m).free| < 1 + KernelTables(kmap)
      ensures c == 0 ==> Kept(old(m), m)
      ensures c != 0 ==> NewSpace(old(m), m, c) && KernelIs(m, c, kmap) && TablesAre(m, c, kmap)
      ensures c != 0 ==> |m.free| + 1 + KernelTables(kmap) == |old(m).free|
    {
      ghost var m0 := m;
      KeptItself(m, owner, lo, hi);
      c := TakeDir(m0);
      if c == 0 { return; }
      ghost var m2 := m;
      var ok := MapKernel(m0, c, kmap);
      if !ok {
        ghost var m1 := m;
        Freevm(c);
        GivenUp(m0, m1, m, c);
        return 0;
      }
      KernelPaid(m2, m, c, kmap);
    }

    /** One turn of copyuvm's loop. A frame that cannot be mapped is left in `mem`. */
    method CopyTurn(ghost m0: Mem, d: nat, c: nat, v: nat, ghost end: nat, ghost kmap: seq<Region>) returns (r: Outcome, mem: nat)
      requires Valid() && Copied(m0, d, m, c, v) && AllThere(m0, d, end) && v < end && KernelIs(m, c, kmap)
      modifies this`m, this`owner
      ensures Valid() && Copied(m0, d, m, c, if r == Mapped then v + 1 else v) && KernelIs(m, c, kmap)
      ensures r != Remap && (r == Mapped ==> owner.Keys == old(owner).Keys && PaidPage(old(m), m, c, v / NPD))
      ensures r == NoMemory && mem == 0 ==> owner.Keys == old(owner).Keys && old(m).free == []
      ensures r == NoMemory && mem != 0 ==> mem in old(owner) && owner.Keys == old(owner).Keys - {mem}
      ensures r == NoMemory && mem != 0 <==> |old(m).free| == 1 && old(m).dirs[c][v / NPD] == 0
    {
      ghost var m1 := m;
      var e := Look(m, d, v);
      mem := KAlloc();
      CopiedSame(m0, d, m1, m, c, v);
      KernelSame(m1, m, c, kmap);
      if mem == 0 { return NoMemory, mem; }
      BackAgain(old(owner).Keys, mem);
      assert UserPage(m, owner, d, v, e.frame) && SameFrame(m0, m, e.frame);
      ghost var m2 := m;
      r := MapCopy(m0, d, c, v, e, mem, kmap);
      if r == Mapped {
        PaidOne(m1, m2, m, c, v / NPD);
      }
    }

    /** memmove and mappages for the copy of page v. */
    method MapCopy(ghost m0: Mem, d: nat, c: nat, v: nat, e: Pte, mem: nat, ghost kmap: seq<Region>) returns (r: Outcome)
      requires Valid() && Copied(m0, d, m, c, v) && v < UPAGES && KernelIs(m, c, kmap)
      requires e.Pte? && e == Look(m0, d, v) && SameFrame(m0, m, e.frame) && |m.data[e.frame]| == PGSIZE && mem !in owner && lo <= mem < hi
      modifies this`m, this`owner
      ensures Valid() && Copied(m0, d, m, c, if r == Mapped then v + 1 else v) && KernelIs(m, c, kmap)
      ensures r != Remap && owner.Keys == (if r == Mapped then old(owner).Keys + {mem} else old(owner).Keys)
      ensures r == Mapped ==> Paid(old(m), m, c, v / NPD)
      ensures r == NoMemory <==> old(m).dirs[c][v / NPD] == 0 && old(m).free == []
    {
      CopiedData(m0, d, m, owner, lo, hi, c, v, mem, m.data[e.frame]);
      SetDataKeepsInv(m, owner, lo, hi, mem, m.data[e.frame]);
      KernelSame(m, SetData(m, mem, m.data[e.frame]), c, kmap);
      m := SetData(m, mem, m.data[e.frame]);
      ghost var m2 := m;
      r := MapPage(c, v, mem, e.flags);
      if r == Mapped {
        CopiedNext(m0, d, m2, m, c, v, mem, e.flags);
        KernelUser(m2, m, c, v, Pte(mem, e.flags), kmap);
      }
    }

    /** copyuvm's loop. */
    method CopyLoop(ghost m0: Mem, d: nat, c: nat, sz: nat, ghost kmap: seq<Region>) returns (ok: bool, ghost lost: set<nat>)
      requires Valid() && Copied(m0, d, m, c, 0) && KernelIs(m, c, kmap)
      requires sz <= UPAGES * PGSIZE && AllThere(m0, d, Up(sz)) && UserTables(m, c, 0)
      modifies this`m, this`owner
      ensures Valid() && |lost| <= 1 && lost <= old(owner).Keys && owner.Keys == old(owner).Keys - lost
      ensures ok ==> Copied(m0, d, m, c, Up(sz)) && KernelIs(m, c, kmap)
      ensures !ok ==> Kept(m0, m) && c in m.dirs
      ensures ok <==> |old(m).free| >= Up(sz) + Tables(Up(sz))
      ensures lost != {} <==> LosesFrame(|old(m).free|, Up(sz))
    {
      lost := {};
      var v := 0;
      while v * PGSIZE < sz
        invariant v <= Up(sz) && Valid() && Copied(m0, d, m, c, v) && KernelIs(m, c, kmap) && owner.Keys == old(owner).Keys
        invariant UserTables(m, c, v) && |old(m).free| == |m.free| + v + Tables(v)
      {
        ghost var m1 := m;
        var r, mem := CopyTurn(m0, d, c, v, Up(sz), kmap);
        LosesFrameIff(|old(m).free|, |m1.free|, v, Up(sz));
        if r != Mapped {
          lost := if mem == 0 then {} else {mem};
          return false, lost;
        }
        UserNext(m1, m, c, v);
        UserCounts(m1, m, c, v);
        v := v + 1;
      }
      LosesFrameIff(|old(m).free|, |m.free|, v, Up(sz));
      ok := true;
    }

    /** copyuvm: a new space with the kernel's pages and a copy of every page below sz, or 0 and
        every space as before, which happens exactly when there are fewer free frames than the
        directory, its page tables and the pages take. A frame is lost exactly when the frames
        end between a page and its page table. */
    method Copyuvm(d: nat, sz: nat, kmap: seq<Region>) returns (c: nat, ghost lost: set<nat>)
      requires Valid() && KmapOk(kmap)
      requires sz <= UPAGES * PGSIZE && AllThere(m, d, Up(sz))
      modifies this`m, this`owner
      ensures Valid() && |lost| <= 1 && lost <= old(owner).Keys && owner.Keys == old(owner).Keys - lost
      ensures c == 0 <==> |old(m).free| < 1 + KernelTables(kmap) + Up(sz) + Tables(Up(sz))
      ensures lost != {} <==> |old(m).free| > KernelTables(kmap) && LosesFrame(|old(m).free| - 1 - KernelTables(kmap), Up(sz))
      ensures c == 0 ==> Kept(old(m), m)
      ensures c != 0 ==> lost == {} && Copied(old(m), d, m, c, Up(sz)) && KernelIs(m, c, kmap)
    {
      ghost var m0 := m;
      lost := {};
      c := Setupkvm(kmap);
      if c == 0 { return; }
      CopiedStart(m0, d, m, c);
      KernelIsHigh(m, c, kmap);
      var ok;
      ok, lost := CopyLoop(m0, d, c, sz, kmap);
      if !ok {
        ghost var m1 := m;
        Freevm(c);
        GivenUp(m0, m1, m, c);
        c := 0;
      }
    }
  }

  lemma BackAgainIf(s: set<nat>, p: nat)
    requires p != 0 ==> p in s
    ensures p != 0 ==> (s - {p}) + {p} == s
  {
  }

  lemma BackAgain(s: set<nat>, p: nat)
    requires p in s
    ensures (s - {p}) + {p} == s
  {
  }

  lemma GoneNothing(m: Mem, d: nat)
    requires Shaped(m)
    ensures OthersSame(m, m, d)
  {
  }

  lemma SameViewsItself(m: Mem)
    requires Shaped(m)
    ensures SameViews(m, m)
  {
  }

  lemma SameViewsTwice(m: Mem, n: Mem, o: Mem)
    requires SameViews(m, n) && SameViews(n, o)
    ensures SameViews(m, o)
  {
  }

  lemma OneViewAfter(m: Mem, n: Mem, o: Mem, d: nat, v: nat, e: Pte)
    requires SameViews(m, n) && OneView(n, o, d, v, e)
    ensures OneView(m, o, d, v, e)
  {
  }
}
