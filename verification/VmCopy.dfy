/** What setupkvm and copyuvm build. */
module VmCopy {
  import opened Vm
  import opened VmCount
  import opened VmAlloc
  import opened VmFree

  /** A range of kernel pages and the frames they map to, one element of kmap. */
  datatype Region = Region(v: nat, n: nat, p: nat, flags: nat)

  function NoTabs(): (r: seq<nat>)
    ensures |r| == NPD && forall i :: 0 <= i < NPD ==> r[i] == 0
  {
    seq(NPD, _ => 0)
  }

  /** A zeroed frame becomes a page directory. */
  function NewDir(m: Mem, p: nat): Mem {
    m.(dirs := m.dirs[p := NoTabs()])
  }

  /** Every space of m looks the same in n and its pages hold the same. */
  ghost predicate Kept(m: Mem, n: Mem) {
    match m
    case Mem(dirs, _, _, _) =>
      && Shaped(m) && Shaped(n) && SameBytes(m, n) && (forall d :: d in dirs ==> d in n.dirs)
      && forall d, v :: d in dirs && 0 <= v < NPAGES ==> Look(n, d, v) == Look(m, d, v)
  }

  /** Page v of the child c is a copy of page v of d: the same flags, the same bytes. */
  predicate CopyOf(m: Mem, d: nat, n: Mem, c: nat, v: nat)
    requires Shaped(m) && d in m.dirs && Shaped(n) && c in n.dirs && v < UPAGES
  {
    var e, f := Look(m, d, v), Look(n, c, v);
    e.Pte? && f.Pte? && f.flags == e.flags && e.frame in m.data && f.frame in n.data && n.data[f.frame] == m.data[e.frame]
  }

  /** Every page of d below `end` is there. */
  ghost predicate AllThere(m: Mem, d: nat, end: nat) {
    match m
    case Mem(dirs, _, _, _) => Shaped(m) && d in dirs && end <= UPAGES && forall v :: 0 <= v < end ==> Look(m, d, v).Pte?
  }

  /** c is a new space with copies of the pages of d below `end` and no other user page. */
  ghost predicate Copied(m: Mem, d: nat, n: Mem, c: nat, end: nat) {
    match m
    case Mem(dirs, _, _, _) =>
      && Kept(m, n) && d in dirs && c !in dirs && c in n.dirs
      && (forall v :: 0 <= v < end && v < UPAGES ==> CopyOf(m, d, n, c, v))
      && (forall v :: end <= v < UPAGES ==> Look(n, c, v) == NoPte)
  }

  lemma KeptItself(m: Mem, owner: map<nat, Use>, lo: nat, hi: nat)
    requires Inv(m, owner, lo, hi)
    ensures Kept(m, m)
  {
    GrownBytes(m, owner, lo, hi);
  }

  lemma GrownBytes(m: Mem, owner: map<nat, Use>, lo: nat, hi: nat)
    requires Inv(m, owner, lo, hi)
    ensures SameBytes(m, m)
  {
    forall d, v | d in m.dirs && 0 <= v < UPAGES && Look(m, d, v).Pte? ensures SameFrame(m, m, Look(m, d, v).frame) {
      assert UserPage(m, owner, d, v, Look(m, d, v).frame);
    }
  }

  lemma KeptSame(m: Mem, n: Mem, o: Mem)
    requires Kept(m, n) && SameViews(n, o) && o.data == n.data
    ensures Kept(m, o)
  {
  }

  lemma NewDirView(m: Mem, p: nat)
    requires Shaped(m) && p !in m.dirs
    ensures Shaped(NewDir(m, p)) && NewDir(m, p).dirs.Keys == m.dirs.Keys + {p}
    ensures forall d, v :: d in m.dirs && 0 <= v < NPAGES ==> Look(NewDir(m, p), d, v) == Look(m, d, v)
    ensures forall v :: 0 <= v < NPAGES ==> Look(NewDir(m, p), p, v) == NoPte
  {
  }

  lemma NewDirKeepsInv(m: Mem, owner: map<nat, Use>, lo: nat, hi: nat, p: nat)
    requires Inv(m, owner, lo, hi) && p !in owner && lo <= p < hi
    ensures p !in m.dirs && Inv(NewDir(m, p), owner[p := Dir], lo, hi)
  {
    NewDirView(m, p);
  }

  /** c is a new space without user pages. */
  ghost predicate NewSpace(m: Mem, n: Mem, c: nat) {
    match m
    case Mem(dirs, _, _, _) => Kept(m, n) && c !in dirs && c in n.dirs && forall v :: 0 <= v < UPAGES ==> Look(n, c, v) == NoPte
  }

  lemma NewSpaceStart(m: Mem, n: Mem, c: nat)
    requires Kept(m, n) && c !in n.dirs
    ensures NewSpace(m, NewDir(n, c), c) && KernelIs(NewDir(n, c), c, [])
  {
    NewDirView(n, c);
  }

  lemma NewSpaceSame(m: Mem, n: Mem, o: Mem, c: nat)
    requires NewSpace(m, n, c) && SameViews(n, o) && o.data == n.data
    ensures NewSpace(m, o, c)
  {
  }

  lemma NewSpaceKernel(m: Mem, n: Mem, o: Mem, c: nat, v: nat, e: Pte)
    requires NewSpace(m, n, c) && UPAGES <= v < NPAGES && OneView(n, o, c, v, e) && o.data == n.data
    ensures NewSpace(m, o, c)
  {
  }

  /** A new space that is given up again. */
  lemma GivenUp(m: Mem, n: Mem, o: Mem, c: nat)
    requires Kept(m, n) && c !in m.dirs && OthersSame(n, o, c)
    ensures Kept(m, o)
  {
  }

  /** The copy of nothing. */
  lemma CopiedStart(m: Mem, d: nat, n: Mem, c: nat)
    requires NewSpace(m, n, c) && d in m.dirs
    ensures Copied(m, d, n, c, 0)
  {
  }

  lemma CopiedSame(m: Mem, d: nat, n: Mem, o: Mem, c: nat, end: nat)
    requires Copied(m, d, n, c, end) && SameViews(n, o) && o.data == n.data
    ensures Copied(m, d, o, c, end)
  {
    forall v | 0 <= v < end && v < UPAGES ensures CopyOf(m, d, o, c, v) {
      assert CopyOf(m, d, n, c, v);
    }
  }

  /** memmove into a frame that no page uses. */
  lemma CopiedData(m: Mem, d: nat, n: Mem, owner: map<nat, Use>, lo: nat, hi: nat, c: nat, end: nat, p: nat, page: Page)
    requires Copied(m, d, n, c, end) && Inv(n, owner, lo, hi) && p !in owner
    ensures Copied(m, d, SetData(n, p, page), c, end)
  {
    var o := SetData(n, p, page);
    assert Shaped(o);
    assert forall d', v :: d' in n.dirs && 0 <= v < NPAGES ==> Look(o, d', v) == Look(n, d', v);
    forall v | 0 <= v < end && v < UPAGES ensures CopyOf(m, d, o, c, v) {
      assert CopyOf(m, d, n, c, v);
    }
  }

  lemma CopiedNext(m: Mem, d: nat, n: Mem, o: Mem, c: nat, end: nat, p: nat, flags: nat)
    requires Copied(m, d, n, c, end) && end < UPAGES && o.data == n.data && OneView(n, o, c, end, Pte(p, flags))
    requires Look(m, d, end).Pte? && flags == Look(m, d, end).flags && Look(m, d, end).frame in m.data
    requires p in n.data && n.data[p] == m.data[Look(m, d, end).frame]
    ensures Copied(m, d, o, c, end + 1)
  {
    forall v | 0 <= v < end + 1 && v < UPAGES ensures CopyOf(m, d, o, c, v) {
      assert v < end ==> CopyOf(m, d, n, c, v);
    }
  }

  /** Different spaces share no user page. */
  lemma PagesAreDisjoint(m: Mem, owner: map<nat, Use>, lo: nat, hi: nat, c: nat, v: nat, d: nat, w: nat)
    requires Inv(m, owner, lo, hi) && c in m.dirs && d in m.dirs && v < UPAGES && w < UPAGES && (c, v) != (d, w)
    requires Look(m, c, v).Pte? && Look(m, d, w).Pte?
    ensures Look(m, c, v).frame != Look(m, d, w).frame
  {
    assert UserPage(m, owner, c, v, Look(m, c, v).frame);
  }

  // ---------------------------------------------------------------- the kernel's pages

  /** The entry of page w when the regions have been mapped. */
  function KernelPte(kmap: seq<Region>, w: nat): Pte {
    if kmap == [] then NoPte
    else
      var k := kmap[|kmap| - 1];
      if k.v <= w < k.v + k.n then Pte(k.p + (w - k.v), k.flags) else KernelPte(kmap[..|kmap| - 1], w)
  }

  /** The kernel's pages of space c are exactly those of the regions. */
  ghost predicate KernelIs(m: Mem, c: nat, kmap: seq<Region>) {
    match m
    case Mem(dirs, _, _, _) => Shaped(m) && c in dirs && forall w :: UPAGES <= w < NPAGES ==> Look(m, c, w) == KernelPte(kmap, w)
  }

  /** Region k overlaps none of the others. */
  predicate Apart(done: seq<Region>, k: Region) {
    forall j :: 0 <= j < |done| ==> done[j].v + done[j].n <= k.v || k.v + k.n <= done[j].v
  }

  /** The regions lie above KERNBASE and do not overlap. */
  predicate KmapOk(kmap: seq<Region>) {
    forall k :: 0 <= k < |kmap| ==> UPAGES <= kmap[k].v && kmap[k].v + kmap[k].n <= NPAGES && Apart(kmap[..k], kmap[k])
  }

  // ---------------------------------------------------------------- the kernel's page tables

  /** Mapping region k takes the page table of directory entry i. */
  predicate Touches(k: Region, i: nat) {
    k.n > 0 && k.v / NPD <= i < Tables(k.v + k.n)
  }

  predicate Touched(kmap: seq<Region>, i: nat) {
    exists j :: 0 <= j < |kmap| && Touches(kmap[j], i)
  }

  /** How many directory entries from lo up to hi the regions touch. */
  function Touching(kmap: seq<Region>, lo: nat, hi: nat): nat
    decreases hi - lo, kmap
  {
    if lo >= hi then 0 else (if Touched(kmap, lo) then 1 else 0) + Touching(kmap, lo + 1, hi)
  }

  /** The page tables that the regions take. */
  function KernelTables(kmap: seq<Region>): nat {
    Touching(kmap, 0, NPD)
  }

  /** Space c has exactly the page tables of the regions. */
  ghost predicate TablesAre(m: Mem, c: nat, kmap: seq<Region>) {
    match m
    case Mem(dirs, _, _, _) => c in dirs && |dirs[c]| == NPD && forall i :: 0 <= i < NPD ==> (dirs[c][i] != 0 <==> Touched(kmap, i))
  }

  /** The regions before k, and i pages of k. */
  ghost predicate TablesPart(m: Mem, c: nat, done: seq<Region>, k: Region, i: nat) {
    match k
    case Region(v, _, p, flags) => TablesAre(m, c, done + [Region(v, i, p, flags)])
  }

  lemma TouchedMore(done: seq<Region>, k: Region, i: nat)
    ensures Touched(done + [k], i) <==> Touched(done, i) || Touches(k, i)
  {
    var all := done + [k];
    assert all[|done|] == k;
    if j :| 0 <= j < |done| && Touches(done[j], i) {
      assert Touches(all[j], i);
    }
    if j :| 0 <= j < |all| && Touches(all[j], i) {
      assert j < |done| ==> Touches(done[j], i);
    }
  }

  lemma TablesStart(m: Mem, c: nat)
    requires c in m.dirs && m.dirs[c] == NoTabs()
    ensures TablesAre(m, c, []) && PaidTables(m, m, c)
  {
  }

  lemma TablesNone(m: Mem, c: nat, done: seq<Region>, k: Region)
    requires TablesAre(m, c, done)
    ensures TablesPart(m, c, done, k, 0)
  {
    forall i | 0 <= i < NPD ensures m.dirs[c][i] != 0 <==> Touched(done + [k.(n := 0)], i) {
      TouchedMore(done, k.(n := 0), i);
    }
  }

  lemma TablesAll(m: Mem, c: nat, done: seq<Region>, k: Region)
    requires TablesPart(m, c, done, k, k.n)
    ensures TablesAre(m, c, done + [k])
  {
  }

  lemma TablesNext(m: Mem, n: Mem, c: nat, done: seq<Region>, k: Region, i: nat)
    requires TablesPart(m, c, done, k, i) && Paid(m, n, c, (k.v + i) / NPD)
    ensures TablesPart(n, c, done, k, i + 1)
  {
    forall j | 0 <= j < NPD ensures n.dirs[c][j] != 0 <==> Touched(done + [k.(n := i + 1)], j) {
      TouchedMore(done, k.(n := i), j);
      TouchedMore(done, k.(n := i + 1), j);
      assert Tables(k.v + i + 1) == (k.v + i) / NPD + 1;
    }
  }

  lemma {:induction false} TouchingIsHaving(kmap: seq<Region>, dir: seq<nat>, lo: nat, hi: nat)
    requires hi <= |dir| && lo <= hi && forall j :: lo <= j < hi ==> (dir[j] != 0 <==> Touched(kmap, j))
    ensures Touching(kmap, lo, hi) + Lacks(dir, lo, hi) == hi - lo
    decreases hi - lo
  {
    if lo < hi {
      TouchingIsHaving(kmap, dir, lo + 1, hi);
    }
  }

  /** If some touched entry is still missing, and no other is there, there are fewer. */
  lemma {:induction false} HavingLess(kmap: seq<Region>, dir: seq<nat>, i: nat, lo: nat, hi: nat)
    requires hi <= |dir| && lo <= hi && forall j :: lo <= j < hi && dir[j] != 0 ==> Touched(kmap, j)
    requires i < hi && dir[i] == 0 && Touched(kmap, i)
    ensures Touching(kmap, lo, hi) + Lacks(dir, lo, hi) >= hi - lo + if lo <= i then 1 else 0
    decreases hi - lo
  {
    if lo < hi {
      HavingLess(kmap, dir, i, lo + 1, hi);
    }
  }

  lemma {:induction false} LacksEverything(dir: seq<nat>, lo: nat, hi: nat)
    requires lo <= hi <= |dir| && forall j :: lo <= j < hi ==> dir[j] == 0
    ensures Lacks(dir, lo, hi) == hi - lo
    decreases hi - lo
  {
    if lo < hi {
      LacksEverything(dir, lo + 1, hi);
    }
  }

  /** All regions mapped in a new space. */
  lemma KernelPaid(m: Mem, n: Mem, c: nat, kmap: seq<Region>)
    requires c in m.dirs && m.dirs[c] == NoTabs() && PaidTables(m, n, c) && TablesAre(n, c, kmap)
    ensures |m.free| == |n.free| + KernelTables(kmap)
  {
    LacksEverything(m.dirs[c], 0, NPD);
    TouchingIsHaving(kmap, n.dirs[c], 0, NPD);
  }

  /** No frame is left for the page table of page i of region k. */
  lemma KernelStuck(m: Mem, n: Mem, c: nat, kmap: seq<Region>, at: nat, i: nat)
    requires c in m.dirs && m.dirs[c] == NoTabs() && PaidTables(m, n, c) && at < |kmap| && i < kmap[at].n && kmap[at].v + i < NPAGES
    requires TablesPart(n, c, kmap[..at], kmap[at], i) && n.free == [] && n.dirs[c][(kmap[at].v + i) / NPD] == 0
    ensures |m.free| < KernelTables(kmap)
  {
    var k, e := kmap[at], (kmap[at].v + i) / NPD;
    LacksEverything(m.dirs[c], 0, NPD);
    forall j | 0 <= j < NPD && n.dirs[c][j] != 0 ensures Touched(kmap, j) {
      PartTouches(kmap, at, i, j);
    }
    assert Touches(k, e) by { assert Tables(k.v + i + 1) == e + 1 <= Tables(k.v + k.n); }
    HavingLess(kmap, n.dirs[c], e, 0, NPD);
  }

  lemma PartTouches(kmap: seq<Region>, at: nat, i: nat, j: nat)
    requires at < |kmap| && i < kmap[at].n && Touched(kmap[..at] + [kmap[at].(n := i)], j)
    ensures Touched(kmap, j)
  {
    var k := kmap[at];
    TouchedMore(kmap[..at], k.(n := i), j);
    if Touches(k.(n := i), j) {
      assert Tables(k.v + i) <= Tables(k.v + k.n);
      assert Touches(kmap[at], j);
    } else {
      var x :| 0 <= x < |kmap[..at]| && Touches(kmap[..at][x], j);
      assert Touches(kmap[x], j);
    }
  }

  lemma {:induction false} TouchingSplit(kmap: seq<Region>, lo: nat, mid: nat, hi: nat)
    requires lo <= mid <= hi
    ensures Touching(kmap, lo, hi) == Touching(kmap, lo, mid) + Touching(kmap, mid, hi)
    decreases mid - lo
  {
    if lo < mid {
      TouchingSplit(kmap, lo + 1, mid, hi);
    }
  }

  lemma {:induction false} TouchingAllOrNone(kmap: seq<Region>, lo: nat, hi: nat, all: bool)
    requires lo <= hi && forall i: nat :: lo <= i < hi ==> (Touched(kmap, i) <==> all)
    ensures Touching(kmap, lo, hi) == if all then hi - lo else 0
    decreases hi - lo
  {
    if lo < hi {
      TouchingAllOrNone(kmap, lo + 1, hi, all);
    }
  }

  /** The regions of vm.c, whose kernel data starts at page `data`: I/O space, text, data and
      memory up to PHYSTOP, devices. */
  function Kmap(data: nat): seq<Region>
    requires 0x100 < data < 0xE000
  {
    [Region(UPAGES, 0x100, 0, 2), Region(UPAGES + 0x100, data - 0x100, 0x100, 0), Region(UPAGES + data, 0xE000 - data, data, 2),
     Region(0xFE000, 0x2000, 0xFE000, 2)]
  }

  lemma KmapIsOk(data: nat)
    requires 0x100 < data < 0xE000
    ensures KmapOk(Kmap(data))
  {
    var kmap := Kmap(data);
    forall k | 0 <= k < 4 ensures UPAGES <= kmap[k].v && kmap[k].v + kmap[k].n <= NPAGES && Apart(kmap[..k], kmap[k]) {
      forall j | 0 <= j < |kmap[..k]| ensures kmap[..k][j].v + kmap[..k][j].n <= kmap[k].v {
        assert kmap[..k][j] == kmap[j];
      }
    }
  }

  /** They do not overlap, and take 56 page tables below PHYSTOP and 8 for the devices. */
  lemma KmapTables(data: nat)
    requires 0x100 < data < 0xE000
    ensures KmapOk(Kmap(data)) && KernelTables(Kmap(data)) == 64
  {
    var kmap := Kmap(data);
    KmapIsOk(data);
    forall i: nat | i < NPD ensures Touched(kmap, i) <==> 512 <= i < 568 || 1016 <= i {
      assert Touched(kmap, i) <==> Touches(kmap[0], i) || Touches(kmap[1], i) || Touches(kmap[2], i) || Touches(kmap[3], i);
    }
    TouchingSplit(kmap, 0, 512, NPD);
    TouchingSplit(kmap, 512, 568, NPD);
    TouchingSplit(kmap, 568, 1016, NPD);
    TouchingAllOrNone(kmap, 0, 512, false);
    TouchingAllOrNone(kmap, 512, 568, true);
    TouchingAllOrNone(kmap, 568, 1016, false);
    TouchingAllOrNone(kmap, 1016, NPD, true);
  }

  /** The kernel's page tables lie above KERNBASE. */
  lemma KernelIsHigh(m: Mem, c: nat, kmap: seq<Region>)
    requires TablesAre(m, c, kmap) && KmapOk(kmap)
    ensures UserTables(m, c, 0)
  {
    forall i: nat | i < UPAGES / NPD ensures m.dirs[c][i] == 0 {
      assert forall j :: 0 <= j < |kmap| ==> !Touches(kmap[j], i);
    }
  }

  lemma {:induction false} OutsideAll(done: seq<Region>, k: Region, w: nat)
    requires Apart(done, k) && k.v <= w < k.v + k.n
    ensures KernelPte(done, w) == NoPte
  {
    if done != [] {
      OutsideAll(done[..|done| - 1], k, w);
    }
  }

  /** One more page: v is e, where it was nothing. */
  ghost predicate OneMore(before: seq<Region>, after: seq<Region>, v: nat, e: Pte) {
    match e
    case Pte(_, _) => KernelPte(before, v) == NoPte && forall w :: KernelPte(after, w) == if w == v then e else KernelPte(before, w)
    case NoPte => false
  }

  lemma RegionNext(done: seq<Region>, k: Region, i: nat)
    requires Apart(done, k) && i < k.n
    ensures OneMore(done + [k.(n := i)], done + [k.(n := i + 1)], k.v + i, Pte(k.p + i, k.flags))
  {
    var before, after := done + [k.(n := i)], done + [k.(n := i + 1)];
    assert before[..|before| - 1] == done && after[..|after| - 1] == done;
    OutsideAll(done, k, k.v + i);
  }

  /** The regions before k, and i pages of k. */
  ghost predicate KernelPart(m: Mem, c: nat, done: seq<Region>, k: Region, i: nat) {
    match k
    case Region(v, _, p, flags) => KernelIs(m, c, done + [Region(v, i, p, flags)])
  }

  lemma KernelPartIs(m: Mem, c: nat, done: seq<Region>, k: Region, i: nat)
    requires KernelPart(m, c, done, k, i)
    ensures KernelIs(m, c, done + [k.(n := i)])
  {
  }

  lemma PartIsKernel(m: Mem, c: nat, done: seq<Region>, k: Region, i: nat)
    requires KernelIs(m, c, done + [k.(n := i)])
    ensures KernelPart(m, c, done, k, i)
  {
  }

  /** Before the loop over region k. */
  lemma RegionStarts(m: Mem, c: nat, kmap: seq<Region>, k: nat)
    requires KmapOk(kmap) && k < |kmap| && KernelIs(m, c, kmap[..k]) && TablesAre(m, c, kmap[..k])
    ensures UPAGES <= kmap[k].v && kmap[k].v + kmap[k].n <= NPAGES && Apart(kmap[..k], kmap[k])
    ensures KernelPart(m, c, kmap[..k], kmap[k], 0) && TablesPart(m, c, kmap[..k], kmap[k], 0)
  {
    KernelNone(m, c, kmap[..k], kmap[k]);
    TablesNone(m, c, kmap[..k], kmap[k]);
  }

  /** And after it. */
  lemma RegionEnds(m: Mem, c: nat, kmap: seq<Region>, k: nat)
    requires k < |kmap| && KernelPart(m, c, kmap[..k], kmap[k], kmap[k].n) && TablesPart(m, c, kmap[..k], kmap[k], kmap[k].n)
    ensures KernelIs(m, c, kmap[..k + 1]) && TablesAre(m, c, kmap[..k + 1])
  {
    KernelAll(m, c, kmap[..k], kmap[k]);
    TablesAll(m, c, kmap[..k], kmap[k]);
    assert kmap[..k + 1] == kmap[..k] + [kmap[k]];
  }

  lemma KernelAll(m: Mem, c: nat, done: seq<Region>, k: Region)
    requires KernelPart(m, c, done, k, k.n)
    ensures KernelIs(m, c, done + [k])
  {
  }

  lemma KernelNone(m: Mem, c: nat, done: seq<Region>, k: Region)
    requires KernelIs(m, c, done)
    ensures KernelPart(m, c, done, k, 0)
  {
    var regions := done + [k.(n := 0)];
    assert regions[..|regions| - 1] == done;
  }

  lemma KernelNext(m: Mem, n: Mem, c: nat, before: seq<Region>, after: seq<Region>, v: nat, e: Pte)
    requires KernelIs(m, c, before) && OneMore(before, after, v, e) && OneView(m, n, c, v, e)
    ensures KernelIs(n, c, after)
  {
  }

  lemma KernelSame(m: Mem, n: Mem, c: nat, kmap: seq<Region>)
    requires KernelIs(m, c, kmap) && SameViews(m, n)
    ensures KernelIs(n, c, kmap)
  {
  }

  lemma KernelUser(m: Mem, n: Mem, c: nat, v: nat, e: Pte, kmap: seq<Region>)
    requires KernelIs(m, c, kmap) && v < UPAGES && OneView(m, n, c, v, e)
    ensures KernelIs(n, c, kmap)
  {
  }
}
