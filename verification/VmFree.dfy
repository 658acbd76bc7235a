/** Giving back a whole address space: freevm. */
module VmFree {
  import opened Vm
  import opened VmDealloc

  /** Other spaces look the same and their frames hold the same. */
  ghost predicate OthersSame(m: Mem, n: Mem, d: nat) {
    match m
    case Mem(dirs, _, data, _) =>
      && Shaped(m) && Shaped(n) && n.data == data
      && (forall d' :: d' != d ==> (d' in n.dirs <==> d' in dirs))
      && forall d', v :: d' in dirs && d' != d && 0 <= v < NPAGES ==> Look(n, d', v) == Look(m, d', v)
  }

  /** Space d has no user page. */
  ghost predicate NoPages(m: Mem, d: nat) {
    match m
    case Mem(dirs, _, _, _) => Shaped(m) && d in dirs && forall v :: 0 <= v < UPAGES ==> Look(m, d, v) == NoPte
  }

  /** The page table of entry i goes to the free list. */
  function DropTab(m: Mem, d: nat, i: nat): Mem
    requires Shaped(m) && d in m.dirs && i < NPD
  {
    var dir: seq<nat> := m.dirs[d][i := 0];
    m.(dirs := m.dirs[d := dir], free := m.free + [m.dirs[d][i]])
  }

  /** The directory, which names no page table any more, goes to the free list. */
  function DropDir(m: Mem, d: nat): Mem {
    m.(dirs := m.dirs - {d}, free := m.free + [d])
  }

  lemma DropTabView(m: Mem, d: nat, i: nat)
    requires NoPages(m, d) && i < NPD
    ensures NoPages(DropTab(m, d, i), d) && OthersSame(m, DropTab(m, d, i), d)
  {
    var n := DropTab(m, d, i);
    assert Shaped(n);
    assert forall d', v :: d' in m.dirs && d' != d && 0 <= v < NPAGES ==> Look(n, d', v) == Look(m, d', v);
    forall v | 0 <= v < UPAGES ensures Look(n, d, v) == NoPte {
      assert Look(m, d, v) == NoPte;
    }
  }

  lemma DropTabKeepsInv(m: Mem, owner: map<nat, Use>, lo: nat, hi: nat, d: nat, i: nat)
    requires Inv(m, owner, lo, hi) && NoPages(m, d) && i < NPD && m.dirs[d][i] != 0
    ensures lo <= m.dirs[d][i] < hi && m.dirs[d][i] in owner && owner[m.dirs[d][i]] == Tab(d, i)
    ensures Inv(DropTab(m, d, i), owner[m.dirs[d][i] := Free(|m.free|)], lo, hi)
    ensures NoPages(DropTab(m, d, i), d) && OthersSame(m, DropTab(m, d, i), d)
  {
    DropTabView(m, d, i);
  }

  lemma DropDirKeepsInv(m: Mem, owner: map<nat, Use>, lo: nat, hi: nat, d: nat)
    requires Inv(m, owner, lo, hi) && NoPages(m, d) && forall i :: 0 <= i < NPD ==> m.dirs[d][i] == 0
    ensures lo <= d < hi && d in owner && owner[d] == Dir
    ensures Inv(DropDir(m, d), owner[d := Free(|m.free|)], lo, hi) && OthersSame(m, DropDir(m, d), d)
  {
    var n := DropDir(m, d);
    assert Shaped(n);
    assert forall d', v :: d' in m.dirs && d' != d && 0 <= v < NPAGES ==> Look(n, d', v) == Look(m, d', v);
  }

  /** Exactly the page tables of d in entries below i have become free. */
  ghost predicate TabsFreed(before: map<nat, Use>, after: map<nat, Use>, d: nat, i: nat) {
    && after.Keys == before.Keys
    && forall p :: p in before ==> if before[p].Tab? && before[p].d == d && before[p].i < i then after[p].Free? else after[p] == before[p]
  }

  /** Frame p with use u belongs to space d. */
  predicate BelongsTo(u: Use, p: nat, d: nat) {
    match u
    case Free(_) => false
    case Dir => p == d
    case Tab(d', _) => d' == d
    case User(d', _) => d' == d
  }

  /** Exactly the frames of space d have become free. */
  ghost predicate SpaceFreed(before: map<nat, Use>, after: map<nat, Use>, d: nat) {
    && after.Keys == before.Keys
    && forall p :: p in before ==> if BelongsTo(before[p], p, d) then after[p].Free? else after[p] == before[p]
  }

  lemma AllFreed(m: Mem, a: map<nat, Use>, lo: nat, hi: nat, b: map<nat, Use>, c: map<nat, Use>, e: map<nat, Use>, d: nat)
    requires Inv(m, a, lo, hi) && d in m.dirs
    requires Freed(a, b, d, 0, UPAGES) && TabsFreed(b, c, d, NPD) && e.Keys == c.Keys && d in c && c[d] == Dir
    requires forall p :: p in c ==> if p == d then e[p].Free? else e[p] == c[p]
    ensures SpaceFreed(a, e, d)
  {
    forall p | p in a ensures if BelongsTo(a[p], p, d) then e[p].Free? else e[p] == a[p] {
      assert InUse(m, a[p], p);
    }
  }

  /** The view of the page tables while freevm frees those of d: entries below i count as
      gone, although the directory still names them. */
  ghost predicate Freeing(m: Mem, g: Mem, d: nat, i: nat) {
    match m
    case Mem(dirs, tabs, data, free) =>
      && Shaped(m) && g.tabs == tabs && g.data == data && g.free == free && NoPages(g, d) && d in dirs
      && g.dirs == dirs[d := g.dirs[d]]
      && forall k :: 0 <= k < NPD ==> g.dirs[d][k] == if k < i then 0 else dirs[d][k]
  }

  lemma FreeingSkip(m: Mem, g: Mem, d: nat, i: nat)
    requires Freeing(m, g, d, i) && i < NPD && m.dirs[d][i] == 0
    ensures Freeing(m, g, d, i + 1)
  {
  }

  lemma FreeingNext(m: Mem, g: Mem, d: nat, i: nat)
    requires Freeing(m, g, d, i) && i < NPD && m.dirs[d][i] != 0
    ensures g.dirs[d][i] == m.dirs[d][i] && Freeing(Push(m, m.dirs[d][i]), DropTab(g, d, i), d, i + 1)
  {
    DropTabView(g, d, i);
    assert Shaped(Push(m, m.dirs[d][i]));
  }

  lemma TabsFreedSkip(m: Mem, own: map<nat, Use>, lo: nat, hi: nat, before: map<nat, Use>, d: nat, i: nat)
    requires Inv(m, own, lo, hi) && d in m.dirs && TabsFreed(before, own, d, i) && i < NPD && m.dirs[d][i] == 0
    ensures TabsFreed(before, own, d, i + 1)
  {
    forall p | p in before && before[p] == Tab(d, i) ensures own[p].Free? {
      assert InUse(m, own[p], p);
    }
  }

  lemma TabsFreedNext(m: Mem, own: map<nat, Use>, lo: nat, hi: nat, before: map<nat, Use>, d: nat, i: nat, k: nat)
    requires Inv(m, own, lo, hi) && d in m.dirs && TabsFreed(before, own, d, i) && i < NPD && m.dirs[d][i] != 0
    ensures m.dirs[d][i] in own && TabsFreed(before, own[m.dirs[d][i] := Free(k)], d, i + 1)
  {
    forall p | p in before && before[p] == Tab(d, i) ensures p == m.dirs[d][i] {
      assert InUse(m, own[p], p);
    }
  }

  lemma FreeingStart(m: Mem, d: nat)
    requires NoPages(m, d)
    ensures Freeing(m, m, d, 0) && OthersSame(m, m, d)
  {
    assert m.dirs == m.dirs[d := m.dirs[d]];
  }

  lemma OthersSameTwice(m: Mem, n: Mem, o: Mem, d: nat)
    requires OthersSame(m, n, d) && OthersSame(n, o, d)
    ensures OthersSame(m, o, d)
  {
  }

  /** deallocuvm(pgdir, KERNBASE, 0) leaves no user page. */
  lemma GoneIsEmpty(m: Mem, n: Mem, d: nat)
    requires Gone(m, n, d, 0, UPAGES) && d in m.dirs
    ensures NoPages(n, d) && OthersSame(m, n, d)
  {
  }

  lemma FreeingEnd(m: Mem, g: Mem, d: nat)
    requires Freeing(m, g, d, NPD)
    ensures DropDir(g, d) == DropDir(m, d) && forall i :: 0 <= i < NPD ==> g.dirs[d][i] == 0
  {
    assert g.dirs - {d} == m.dirs - {d};
  }
}
