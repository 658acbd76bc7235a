/** How many frames mapping takes: one for every page, and one for every page table that is
    missing. */
module VmCount {
  import opened Vm

  /** How many of the directory entries from lo up to hi have no page table. */
  function Lacks(dir: seq<nat>, lo: nat, hi: nat): (n: nat)
    requires hi <= |dir|
    ensures n <= if lo < hi then hi - lo else 0
    decreases hi - lo, dir
  {
    if lo >= hi then 0 else (if dir[lo] == 0 then 1 else 0) + Lacks(dir, lo + 1, hi)
  }

  /** Page tables for the first n pages. */
  function Tables(n: nat): nat {
    (n + NPD - 1) / NPD
  }

  /** The frames that mapping the pages from v up to `end` takes: the pages, and the page tables
      that are not there. */
  function Need(dir: seq<nat>, v: nat, end: nat): nat
    requires |dir| == NPD && end <= NPAGES
  {
    if v >= end then 0 else end - v + Lacks(dir, v / NPD, Tables(end))
  }

  /** From m to n, space d has the page table of entry i, for a frame if it was missing. */
  ghost predicate Paid(m: Mem, n: Mem, d: nat, i: nat) {
    match m
    case Mem(dirs, _, _, free) =>
      && d in dirs && d in n.dirs && |n.dirs[d]| == |dirs[d]| && i < |dirs[d]| && n.dirs[d][i] != 0
      && (forall j :: 0 <= j < |dirs[d]| && j != i ==> n.dirs[d][j] == dirs[d][j])
      && |n.free| + (if dirs[d][i] == 0 then 1 else 0) == |free|
  }

  /** From m to n, also for a page. */
  ghost predicate PaidPage(m: Mem, n: Mem, d: nat, i: nat) {
    match m
    case Mem(dirs, _, _, free) =>
      && d in dirs && d in n.dirs && |n.dirs[d]| == |dirs[d]| && i < |dirs[d]| && n.dirs[d][i] != 0
      && (forall j :: 0 <= j < |dirs[d]| && j != i ==> n.dirs[d][j] == dirs[d][j])
      && |n.free| + 1 + (if dirs[d][i] == 0 then 1 else 0) == |free|
  }

  lemma PaidOne(m: Mem, n: Mem, o: Mem, d: nat, i: nat)
    requires d in m.dirs && d in n.dirs && n.dirs[d] == m.dirs[d] && |n.free| + 1 == |m.free| && Paid(n, o, d, i)
    ensures PaidPage(m, o, d, i)
  {
  }

  /** There is no frame for the page, or none for its page table. */
  ghost predicate Broke(m: Mem, d: nat, i: nat) {
    match m
    case Mem(dirs, _, _, free) => d in dirs && i < |dirs[d]| && (free == [] || (|free| == 1 && dirs[d][i] == 0))
  }

  /** There are fewer free frames than the pages and missing page tables. */
  ghost predicate TooFew(m: Mem, d: nat, v: nat, end: nat) {
    match m
    case Mem(dirs, _, _, free) => d in dirs && |dirs[d]| == NPD && end <= NPAGES && |free| < Need(dirs[d], v, end)
  }

  /** From m to n, the pages from v up to a have been paid for, on the way to `end`. */
  ghost predicate PaidPages(m: Mem, n: Mem, d: nat, v: nat, a: nat, end: nat) {
    match m
    case Mem(dirs, _, _, free) =>
      && d in dirs && d in n.dirs && |dirs[d]| == |n.dirs[d]| == NPD && end <= NPAGES
      && |n.free| + Need(dirs[d], v, end) == |free| + Need(n.dirs[d], a, end)
  }

  lemma {:induction false} SameLacks(dir: seq<nat>, dir': seq<nat>, lo: nat, hi: nat)
    requires hi <= |dir| == |dir'| && forall j :: lo <= j < hi ==> (dir'[j] == 0 <==> dir[j] == 0)
    ensures Lacks(dir', lo, hi) == Lacks(dir, lo, hi)
    decreases hi - lo
  {
    if lo < hi {
      SameLacks(dir, dir', lo + 1, hi);
    }
  }

  /** One page less. */
  lemma NeedNext(dir: seq<nat>, dir': seq<nat>, v: nat, end: nat)
    requires |dir| == |dir'| == NPD && v < end <= NPAGES && dir'[v / NPD] != 0
    requires forall j :: 0 <= j < NPD && j != v / NPD ==> dir'[j] == dir[j]
    ensures Need(dir, v, end) == 1 + (if dir[v / NPD] == 0 then 1 else 0) + Need(dir', v + 1, end)
  {
    var i := v / NPD;
    assert i < Tables(end);
    SameLacks(dir, dir', i + 1, Tables(end));
    if v + 1 < end {
      assert (v + 1) / NPD == i || (v + 1) / NPD == i + 1;
    } else {
      assert Tables(end) == i + 1;
    }
  }

  lemma PageCounts(m: Mem, n: Mem, o: Mem, d: nat, v: nat, a: nat, end: nat)
    requires v <= a < end && PaidPages(m, n, d, v, a, end)
    ensures PaidPage(n, o, d, a / NPD) ==> PaidPages(m, o, d, v, a + 1, end)
    ensures Broke(n, d, a / NPD) ==> TooFew(m, d, v, end)
  {
    if PaidPage(n, o, d, a / NPD) {
      NeedNext(n.dirs[d], o.dirs[d], a, end);
    }
    NeedNext(n.dirs[d], n.dirs[d][a / NPD := 1], a, end);
  }

  lemma NoPageYet(m: Mem, d: nat, v: nat, end: nat)
    requires d in m.dirs && |m.dirs[d]| == NPD && end <= NPAGES
    ensures PaidPages(m, m, d, v, v, end)
  {
  }

  lemma EnoughPages(m: Mem, n: Mem, d: nat, v: nat, a: nat, end: nat)
    requires PaidPages(m, n, d, v, a, end) && a >= end
    ensures !TooFew(m, d, v, end)
  {
  }

  // ---------------------------------------------------------------- page tables alone

  /** From m to n, every new page table of d has cost a frame. */
  ghost predicate PaidTables(m: Mem, n: Mem, d: nat) {
    match m
    case Mem(dirs, _, _, free) =>
      && d in dirs && d in n.dirs && |dirs[d]| == |n.dirs[d]| == NPD
      && |n.free| + Lacks(dirs[d], 0, NPD) == |free| + Lacks(n.dirs[d], 0, NPD)
  }

  lemma {:induction false} LacksLess(dir: seq<nat>, dir': seq<nat>, i: nat, lo: nat, hi: nat)
    requires lo <= i < hi <= |dir| == |dir'| && dir[i] == 0 && dir'[i] != 0 && forall j :: lo <= j < hi && dir[j] != 0 ==> dir'[j] != 0
    ensures Lacks(dir', lo, hi) < Lacks(dir, lo, hi)
    decreases hi - lo
  {
    if lo == i {
      LacksAtMost(dir, dir', lo + 1, hi);
    } else {
      LacksLess(dir, dir', i, lo + 1, hi);
    }
  }

  lemma {:induction false} LacksAtMost(dir: seq<nat>, dir': seq<nat>, lo: nat, hi: nat)
    requires hi <= |dir| == |dir'| && forall j :: lo <= j < hi && dir[j] != 0 ==> dir'[j] != 0
    ensures Lacks(dir', lo, hi) <= Lacks(dir, lo, hi)
    decreases hi - lo
  {
    if lo < hi {
      LacksAtMost(dir, dir', lo + 1, hi);
    }
  }

  lemma {:induction false} LacksOneLess(dir: seq<nat>, dir': seq<nat>, i: nat, lo: nat, hi: nat)
    requires lo <= i < hi <= |dir| == |dir'| && dir'[i] != 0 && forall j :: lo <= j < hi && j != i ==> dir'[j] == dir[j]
    ensures Lacks(dir, lo, hi) == Lacks(dir', lo, hi) + if dir[i] == 0 then 1 else 0
    decreases hi - lo
  {
    if lo == i {
      SameLacks(dir, dir', lo + 1, hi);
    } else {
      LacksOneLess(dir, dir', i, lo + 1, hi);
    }
  }

  lemma TablePaid(m: Mem, n: Mem, o: Mem, d: nat, i: nat)
    requires PaidTables(m, n, d) && Paid(n, o, d, i)
    ensures PaidTables(m, o, d)
  {
    LacksOneLess(n.dirs[d], o.dirs[d], i, 0, NPD);
  }

  // ---------------------------------------------------------------- from an empty directory

  /** Below KERNBASE, d has the page tables of the first v pages. */
  ghost predicate UserTables(m: Mem, d: nat, v: nat) {
    match m
    case Mem(dirs, _, _, _) => d in dirs && |dirs[d]| == NPD && forall i :: 0 <= i < UPAGES / NPD ==> (dirs[d][i] == 0 <==> i >= Tables(v))
  }

  lemma UserNext(m: Mem, n: Mem, d: nat, v: nat)
    requires UserTables(m, d, v) && v < UPAGES && PaidPage(m, n, d, v / NPD)
    ensures UserTables(n, d, v + 1)
  {
    forall i | 0 <= i < UPAGES / NPD ensures n.dirs[d][i] == 0 <==> i >= Tables(v + 1) {
      assert Tables(v + 1) == v / NPD + 1 && (Tables(v) == v / NPD || Tables(v) == v / NPD + 1);
    }
  }

  lemma UserCounts(m: Mem, n: Mem, d: nat, v: nat)
    requires UserTables(m, d, v) && v < UPAGES && PaidPage(m, n, d, v / NPD)
    ensures |m.free| == |n.free| + 1 + Tables(v + 1) - Tables(v)
  {
    assert Tables(v + 1) == v / NPD + 1 && (Tables(v) == v / NPD || Tables(v) == v / NPD + 1);
  }

  /** copyuvm has its last frame left for a page that is the first of a page table: with `free`
      frames for `pages` pages of a space without user page tables. */
  predicate LosesFrame(free: nat, pages: nat) {
    free % (NPD + 1) == 1 && free / (NPD + 1) * NPD < pages
  }

  /** The frames end when the pages below v have been copied and `left` are left. */
  lemma LosesFrameIff(free: nat, left: nat, v: nat, pages: nat)
    requires v <= pages && free == left + v + Tables(v)
    ensures v < pages && left == 0 ==> !LosesFrame(free, pages)
    ensures v < pages && left == 1 ==> (LosesFrame(free, pages) <==> v % NPD == 0)
    ensures v == pages ==> !LosesFrame(free, pages)
  {
    var q, r := v / NPD, v % NPD;
    assert v == q * NPD + r;
    assert Tables(v) == if r == 0 then q else q + 1;
    FramesSplit(free, q, left + if r == 0 then 0 else r + 1);
  }

  lemma FramesSplit(free: nat, q: nat, rest: nat)
    requires free == q * (NPD + 1) + rest
    ensures rest < NPD + 1 ==> free / (NPD + 1) == q && free % (NPD + 1) == rest
    ensures rest == NPD + 1 ==> free / (NPD + 1) == q + 1 && free % (NPD + 1) == 0
    ensures free / (NPD + 1) >= q && (rest > 1 && free / (NPD + 1) == q ==> free % (NPD + 1) > 1)
  {
    var k, w := free / (NPD + 1), free % (NPD + 1);
    assert free == k * (NPD + 1) + w;
  }
}
