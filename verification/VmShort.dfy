/** What happens when memory runs short in allocuvm and copyuvm, at two small states. */
module VmShort {
  import opened Basics
  import opened Vm
  import opened VmCount
  import opened VmDealloc
  import opened VmAlloc
  import opened VmCopy
  import opened VmSpace

  /** One space, with directory 1 and page table 2, whose one page v is frame 3; the n frames from
      4 on are free. */
  function OneSpace(v: nat, n: nat): Mem
    requires v < NPD
  {
    Mem(map[1 := NoTabs()[0 := 2]], map[2 := NoPtes()[v := Pte(3, WRITE_USER)]], map[3 := ZeroPage()], seq(n, i requires 0 <= i < n => 4 + i))
  }

  function UseOf(v: nat, f: nat): Use
    requires f >= 1
  {
    if f == 1 then Dir else if f == 2 then Tab(1, 0) else if f == 3 then User(1, v) else Free(f - 4)
  }

  function Uses(v: nat, n: nat): map<nat, Use> {
    map f: nat | 1 <= f < 4 + n :: UseOf(v, f)
  }

  lemma OneSpaceLook(v: nat, n: nat, w: nat)
    requires v < NPD && w < NPAGES
    ensures Shaped(OneSpace(v, n)) && Look(OneSpace(v, n), 1, w) == if w == v then Pte(3, WRITE_USER) else NoPte
  {
  }

  lemma OneSpaceInv(v: nat, n: nat)
    requires v < NPD
    ensures Inv(OneSpace(v, n), Uses(v, n), 1, 4 + n)
  {
    var m, owner := OneSpace(v, n), Uses(v, n);
    assert Shaped(m);
    forall w | 0 <= w < UPAGES && Look(m, 1, w).Pte? ensures UserPage(m, owner, 1, w, Look(m, 1, w).frame) {
      OneSpaceLook(v, n, w);
    }
    OneSpaceLook(v, n, v);
  }

  lemma PageOneIsFirst()
    ensures FirstMapped(OneSpace(1, 0), 1, 0, 2, 1) && Fate(OneSpace(1, 0), 1, 0, 1, 2) == Failed
  {
    OneSpaceLook(1, 0, 0);
    OneSpaceLook(1, 0, 1);
  }

  /** allocuvm from 0 to two pages without a free frame, where page 1 is there: it fails, and
      page 1 is gone. */
  method FailedGrowthUnmaps() returns (before: Mem, k: Machine, g: Growth, r: nat)
    ensures Shaped(before) && 1 in before.dirs && Look(before, 1, 1).Pte?
    ensures g == Failed && r == 0 && Shaped(k.m) && 1 in k.m.dirs && Look(k.m, 1, 1) == NoPte
  {
    OneSpaceInv(1, 0);
    OneSpaceLook(1, 0, 1);
    PageOneIsFirst();
    before := OneSpace(1, 0);
    k := new Machine(before, Uses(1, 0), 1, 4);
    g, r := k.Allocuvm(1, 0, 2 * PGSIZE);
  }

  lemma OneIsTooFew()
    ensures Up(PGSIZE) == 1 && Tables(1) == 1 && LosesFrame(1, 1)
  {
  }

  /** With the kernel's regions, 66 frames are one for the directory, 64 for the kernel's page
      tables, and one. */
  lemma PageZeroIsThere(m: Mem, kmap: seq<Region>, data: nat)
    requires m == OneSpace(0, 66) && 0x100 < data < 0xE000 && kmap == Kmap(data)
    ensures AllThere(m, 1, 1) && KmapOk(kmap) && |m.free| == 2 + KernelTables(kmap)
  {
    OneSpaceLook(0, 66, 0);
    KmapTables(data);
  }

  /** copyuvm of one page where one frame is left after setupkvm. */
  method CopyOne(m: Mem, before: map<nat, Use>, hi: nat, kmap: seq<Region>) returns (k: Machine, c: nat, ghost lost: set<nat>)
    requires Inv(m, before, 1, hi) && KmapOk(kmap) && AllThere(m, 1, 1) && |m.free| == 2 + KernelTables(kmap)
    ensures c == 0 && lost != {} && lost <= before.Keys && k.owner.Keys == before.Keys - lost
  {
    k := new Machine(m, before, 1, hi);
    OneIsTooFew();
    ghost var left := |m.free| - 1 - KernelTables(kmap);
    assert left == 1;
    c, lost := k.Copyuvm(1, PGSIZE, kmap);
  }

  /** copyuvm of one page with 66 free frames, wherever the kernel's data begins: the last one
      becomes the page, none is left for its page table, and it is lost. */
  method CopyLosesAFrame(data: nat) returns (before: map<nat, Use>, k: Machine, c: nat, ghost lost: set<nat>)
    requires 0x100 < data < 0xE000
    ensures c == 0 && lost != {} && lost <= before.Keys && k.owner.Keys == before.Keys - lost
  {
    var m, kmap := OneSpace(0, 66), Kmap(data);
    OneSpaceInv(0, 66);
    PageZeroIsThere(m, kmap, data);
    before := Uses(0, 66);
    k, c, lost := CopyOne(m, before, 70, kmap);
  }
}
