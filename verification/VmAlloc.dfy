/** What allocuvm does to an address space. */
module VmAlloc {
  import opened Basics
  import opened Vm
  import opened VmCount
  import opened VmDealloc

  /** How allocuvm ends: with the new size, with 0, or in mappages with panic("remap"). */
  datatype Growth = Grew | Failed | Panicked

  /** PTE_W | PTE_U. */
  const WRITE_USER := 6

  function ZeroPage(): (c: Page)
    ensures |c| == PGSIZE
  {
    seq(PGSIZE, _ => 0)
  }

  /** Frames of user pages hold what they held. */
  ghost predicate SameBytes(m: Mem, n: Mem) {
    match m
    case Mem(dirs, _, data, _) =>
      && Shaped(m)
      && forall d, v :: d in dirs && 0 <= v < UPAGES && Look(m, d, v).Pte? ==> SameFrame(m, n, Look(m, d, v).frame)
  }

  predicate SameFrame(m: Mem, n: Mem, p: nat) {
    p in m.data && p in n.data && n.data[p] == m.data[p]
  }

  /** A fresh page of zeros for the user. */
  predicate FreshPage(m: Mem, e: Pte) {
    && e.Pte? && e.flags == WRITE_USER && e.frame in m.data && |m.data[e.frame]| == PGSIZE
    && forall k :: 0 <= k < PGSIZE ==> m.data[e.frame][k] == 0
  }

  /** From m to n, space d has got fresh pages from v up to `end`, where it had none, and
      nothing else can be seen to have changed. */
  ghost predicate Grown(m: Mem, n: Mem, d: nat, v: nat, end: nat) {
    match m
    case Mem(dirs, _, _, _) =>
      && Shaped(m) && Shaped(n) && d in dirs && n.dirs.Keys == dirs.Keys && SameBytes(m, n)
      && (forall d', v' :: d' in dirs && 0 <= v' < NPAGES && !(d' == d && v <= v' < end) ==> Look(n, d', v') == Look(m, d', v'))
      && (forall v' :: v <= v' < end && v' < NPAGES ==> Look(m, d, v') == NoPte && FreshPage(n, Look(n, d, v')))
  }

  /** From m to n, space d has no page from v up to `end`, and nothing else can be seen to
      have changed. */
  ghost predicate Emptied(m: Mem, n: Mem, d: nat, v: nat, end: nat) {
    match m
    case Mem(dirs, _, _, _) =>
      && Shaped(m) && Shaped(n) && d in dirs && n.dirs.Keys == dirs.Keys && SameBytes(m, n)
      && forall d', v' :: d' in dirs && 0 <= v' < NPAGES ==> Look(n, d', v') == if d' == d && v <= v' < end then NoPte else Look(m, d', v')
  }

  /** No page is there from v up to `end`. */
  ghost predicate Unmapped(m: Mem, d: nat, v: nat, end: nat)
    requires Shaped(m) && d in m.dirs
  {
    forall v' :: v <= v' < end && v' < NPAGES ==> Look(m, d, v') == NoPte
  }

  /** `stop` is the first page from v up to `end` that is there, or `end`. */
  ghost predicate FirstMapped(m: Mem, d: nat, v: nat, end: nat, stop: nat) {
    match m
    case Mem(dirs, _, _, _) =>
      Shaped(m) && d in dirs && v <= stop <= end <= UPAGES && Unmapped(m, d, v, stop) && (stop < end ==> Look(m, d, stop).Pte?)
  }

  lemma {:induction false} FindMapped(m: Mem, d: nat, v: nat, end: nat) returns (stop: nat)
    requires Shaped(m) && d in m.dirs && v <= end <= UPAGES
    ensures FirstMapped(m, d, v, end, stop)
    decreases end - v
  {
    if v == end || Look(m, d, v).Pte? {
      stop := v;
    } else {
      stop := FindMapped(m, d, v + 1, end);
    }
  }

  lemma FirstIsUnique(m: Mem, d: nat, v: nat, end: nat, stop: nat, stop': nat)
    requires FirstMapped(m, d, v, end, stop) && FirstMapped(m, d, v, end, stop')
    ensures stop == stop' && (stop == end <==> Unmapped(m, d, v, end))
  {
  }

  /** How it ends, by the free frames: those up to `stop` must be there, and one more to reach
      the panic. */
  ghost function Fate(m: Mem, d: nat, v: nat, stop: nat, end: nat): Growth
    requires d in m.dirs && |m.dirs[d]| == NPD && stop <= NPAGES
  {
    if |m.free| < Need(m.dirs[d], v, stop) then Failed
    else if stop == end then Grew
    else if |m.free| == Need(m.dirs[d], v, stop) then Failed
    else Panicked
  }

  lemma OneFate(m: Mem, d: nat, v: nat, end: nat, stop: nat)
    requires FirstMapped(m, d, v, end, stop)
    ensures forall other: nat :: FirstMapped(m, d, v, end, other) ==> other == stop
    ensures Unmapped(m, d, v, end) ==> Fate(m, d, v, stop, end) == if TooFew(m, d, v, end) then Failed else Grew
  {
    forall other: nat | FirstMapped(m, d, v, end, other) ensures other == stop {
      FirstIsUnique(m, d, v, end, stop, other);
    }
    FirstIsUnique(m, d, v, end, stop, stop);
  }

  /** A turn that does not grow the space. */
  lemma EndsAsFated(m: Mem, n: Mem, d: nat, from: nat, v: nat, stop: nat, end: nat, g: Growth)
    requires FirstMapped(m, d, from, end, stop) && Grown(m, n, d, from, v) && PaidPages(m, n, d, from, v, stop) && from <= v <= stop && v < end
    requires (g == Failed && Broke(n, d, v / NPD)) || (g == Panicked && Look(m, d, v).Pte? && n.free != [])
    ensures g == Fate(m, d, from, stop, end)
  {
    if v < stop {
      PageCounts(m, n, n, d, from, v, stop);
    } else {
      assert Look(n, d, v) == Look(m, d, v);
    }
  }

  /** A failed allocuvm leaves the mapping as it was exactly if the new range was empty. */
  lemma FailureIff(m: Mem, n: Mem, d: nat, v: nat, end: nat)
    requires Emptied(m, n, d, v, end)
    ensures SameViews(m, n) <==> Unmapped(m, d, v, end)
  {
    if !Unmapped(m, d, v, end) {
      var w :| v <= w < end && w < NPAGES && Look(m, d, w) != NoPte;
      assert Look(n, d, w) == NoPte;
    }
  }

  lemma GrownNone(m: Mem, owner: map<nat, Use>, lo: nat, hi: nat, d: nat, v: nat)
    requires Inv(m, owner, lo, hi) && d in m.dirs
    ensures Grown(m, m, d, v, v)
  {
    forall d', v' | d' in m.dirs && 0 <= v' < UPAGES && Look(m, d', v').Pte? ensures SameFrame(m, m, Look(m, d', v').frame) {
      assert UserPage(m, owner, d', v', Look(m, d', v').frame);
    }
  }

  /** Zeroing a frame that no page uses. */
  lemma ZeroKeepsGrown(m: Mem, n: Mem, owner: map<nat, Use>, lo: nat, hi: nat, d: nat, v: nat, end: nat, p: nat)
    requires Grown(m, n, d, v, end) && end <= UPAGES && Inv(n, owner, lo, hi) && p !in owner
    ensures Grown(m, SetData(n, p, ZeroPage()), d, v, end) && SameViews(n, SetData(n, p, ZeroPage()))
  {
    var o := SetData(n, p, ZeroPage());
    assert Shaped(o);
    assert forall d', v' :: d' in m.dirs && 0 <= v' < NPAGES ==> Look(o, d', v') == Look(n, d', v');
  }

  /** The same views and the same data. */
  lemma SameKeepsGrown(m: Mem, n: Mem, o: Mem, d: nat, v: nat, end: nat)
    requires Grown(m, n, d, v, end) && SameViews(n, o) && o.data == n.data
    ensures Grown(m, o, d, v, end)
  {
  }

  lemma MapKeepsGrown(m: Mem, n: Mem, o: Mem, d: nat, v: nat, end: nat, p: nat)
    requires Grown(m, n, d, v, end) && v <= end < NPAGES && o.data == n.data && OneView(n, o, d, end, Pte(p, WRITE_USER))
    requires p in n.data && n.data[p] == ZeroPage() && Look(n, d, end) == NoPte
    ensures Grown(m, o, d, v, end + 1)
  {
  }

  /** The pages that came go again, and the rest of the range with them. */
  lemma GrownThenGone(m: Mem, n: Mem, o: Mem, d: nat, v: nat, mid: nat, end: nat)
    requires Grown(m, n, d, v, mid) && mid <= end && Gone(n, o, d, v, end)
    ensures Emptied(m, o, d, v, end)
  {
  }

  lemma SameKeepsEmptied(m: Mem, n: Mem, o: Mem, d: nat, v: nat, end: nat)
    requires Emptied(m, n, d, v, end) && SameViews(n, o) && o.data == n.data
    ensures Emptied(m, o, d, v, end)
  {
  }
}
