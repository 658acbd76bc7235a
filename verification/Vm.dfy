/** Two-level page tables over physical page frames: the data side of vm.c. Frames and pages
    are counted in units of PGSIZE; 0 is no frame. */
module Vm {
  import opened Basics

  const NPD := 1024
  const NPAGES := 0x10_0000
  /** KERNBASE / PGSIZE: pages below are the user's. */
  const UPAGES := 0x8_0000

  type Page = seq<byte>

  /** A page table entry: not present, or a frame and the other flags. */
  datatype Pte = NoPte | Pte(frame: nat, flags: nat)

  /** Page directories by their frame, page tables by theirs, the contents of other frames,
      and the free list with its head at the end. */
  datatype Mem = Mem(dirs: map<nat, seq<nat>>, tabs: map<nat, seq<Pte>>, data: map<nat, Page>, free: seq<nat>)

  /** What a frame is used for. */
  datatype Use = Free(k: nat) | Dir | Tab(d: nat, i: nat) | User(d: nat, v: nat)

  predicate Shaped(m: Mem) {
    match m
    case Mem(dirs, tabs, _, _) =>
      && (forall d :: d in dirs ==> |dirs[d]| == NPD)
      && (forall t :: t in tabs ==> |tabs[t]| == NPD)
      && (forall d, i :: d in dirs && 0 <= i < NPD && dirs[d][i] != 0 ==> dirs[d][i] in tabs)
  }

  /** The entry of page v in address space d. */
  function Look(m: Mem, d: nat, v: nat): Pte
    requires Shaped(m) && d in m.dirs && v < NPAGES
  {
    var t := m.dirs[d][v / NPD];
    if t == 0 then NoPte else m.tabs[t][v % NPD]
  }

  /** Frame p is used as u says. */
  predicate InUse(m: Mem, u: Use, p: nat)
    requires Shaped(m)
  {
    match u
    case Free(k) => k < |m.free| && m.free[k] == p
    case Dir => p in m.dirs
    case Tab(d, i) => d in m.dirs && i < NPD && m.dirs[d][i] == p
    case User(d, v) => d in m.dirs && v < UPAGES && Look(m, d, v).Pte? && Look(m, d, v).frame == p
  }

  /** Every free frame, page directory, page table and user page is a frame of its own, from
      lo up to hi, and `owner` knows what it is. */
  ghost predicate Inv(m: Mem, owner: map<nat, Use>, lo: nat, hi: nat) {
    match m
    case Mem(dirs, tabs, data, free) =>
      && Shaped(m) && 0 < lo
      && (forall d :: d in dirs ==> d in owner && owner[d] == Dir)
      && (forall d, i :: d in dirs && 0 <= i < NPD && dirs[d][i] != 0 ==> dirs[d][i] in owner && owner[dirs[d][i]] == Tab(d, i))
      && (forall d, v :: d in dirs && 0 <= v < UPAGES && Look(m, d, v).Pte? ==> UserPage(m, owner, d, v, Look(m, d, v).frame))
      && (forall k :: 0 <= k < |free| ==> free[k] in owner && owner[free[k]] == Free(k))
      && (forall p :: p in owner ==> lo <= p < hi && InUse(m, owner[p], p))
  }

  predicate UserPage(m: Mem, owner: map<nat, Use>, d: nat, v: nat, p: nat) {
    p in owner && owner[p] == User(d, v) && p in m.data && |m.data[p]| == PGSIZE
  }

  // ---------------------------------------------------------------- steps

  /** kalloc takes the head of the free list. */
  function Pop(m: Mem): Mem
    requires |m.free| > 0
  {
    m.(free := m.free[..|m.free| - 1])
  }

  /** kfree puts p at the head. */
  function Push(m: Mem, p: nat): Mem {
    m.(free := m.free + [p])
  }

  function NoPtes(): (r: seq<Pte>)
    ensures |r| == NPD && forall i :: 0 <= i < NPD ==> r[i] == NoPte
  {
    seq(NPD, _ => NoPte)
  }

  /** A zeroed frame p becomes the page table of entry i. */
  function AddTab(m: Mem, d: nat, i: nat, p: nat): Mem
    requires Shaped(m) && d in m.dirs && i < NPD
  {
    var dir: seq<nat> := m.dirs[d][i := p];
    m.(dirs := m.dirs[d := dir], tabs := m.tabs[p := NoPtes()])
  }

  /** Store an entry for page v. */
  function SetPte(m: Mem, d: nat, v: nat, e: Pte): Mem
    requires Shaped(m) && d in m.dirs && v < NPAGES && m.dirs[d][v / NPD] != 0
  {
    var t := m.dirs[d][v / NPD];
    m.(tabs := m.tabs[t := m.tabs[t][v % NPD := e]])
  }

  function SetData(m: Mem, p: nat, c: Page): Mem {
    m.(data := m.data[p := c])
  }

  /** Nobody's view of any address space differs. */
  ghost predicate SameViews(m: Mem, n: Mem) {
    match m
    case Mem(dirs, _, _, _) =>
      && Shaped(m) && Shaped(n) && n.dirs.Keys == dirs.Keys
      && forall d, v :: d in dirs && 0 <= v < NPAGES ==> Look(n, d, v) == Look(m, d, v)
  }

  /** Only page v of space d differs, and it is e. */
  ghost predicate OneView(m: Mem, n: Mem, d: nat, v: nat, e: Pte) {
    match m
    case Mem(dirs, _, _, _) =>
      && Shaped(m) && Shaped(n) && n.dirs.Keys == dirs.Keys
      && forall d', v' :: d' in dirs && 0 <= v' < NPAGES ==> Look(n, d', v') == if d' == d && v' == v then e else Look(m, d', v')
  }

  lemma PopView(m: Mem)
    requires Shaped(m) && |m.free| > 0
    ensures SameViews(m, Pop(m))
  {
    var n := Pop(m);
    assert forall d, v :: d in m.dirs && 0 <= v < NPAGES ==> Look(n, d, v) == Look(m, d, v);
  }

  lemma PopKeepsInv(m: Mem, owner: map<nat, Use>, lo: nat, hi: nat)
    requires Inv(m, owner, lo, hi) && |m.free| > 0
    ensures var p := m.free[|m.free| - 1];
      p in owner && lo <= p < hi && Inv(Pop(m), owner - {p}, lo, hi) && SameViews(m, Pop(m))
  {
    PopView(m);
  }

  lemma PushKeepsInv(m: Mem, owner: map<nat, Use>, lo: nat, hi: nat, p: nat)
    requires Inv(m, owner, lo, hi) && p !in owner && lo <= p < hi
    ensures Inv(Push(m, p), owner[p := Free(|m.free|)], lo, hi) && SameViews(m, Push(m, p))
  {
    var n := Push(m, p);
    assert forall d, v :: d in m.dirs && 0 <= v < NPAGES ==> Look(n, d, v) == Look(m, d, v);
  }

  lemma AddTabView(m: Mem, owner: map<nat, Use>, lo: nat, hi: nat, d: nat, i: nat, p: nat)
    requires Inv(m, owner, lo, hi) && p !in owner && lo <= p < hi && d in m.dirs && i < NPD && m.dirs[d][i] == 0
    ensures SameViews(m, AddTab(m, d, i, p))
  {
    var n := AddTab(m, d, i, p);
    assert Shaped(n);
    forall d', v | d' in m.dirs && 0 <= v < NPAGES ensures Look(n, d', v) == Look(m, d', v) {
      assert m.dirs[d'][v / NPD] != p;
    }
  }

  lemma AddTabKeepsInv(m: Mem, owner: map<nat, Use>, lo: nat, hi: nat, d: nat, i: nat, p: nat)
    requires Inv(m, owner, lo, hi) && p !in owner && lo <= p < hi && d in m.dirs && i < NPD && m.dirs[d][i] == 0
    ensures Inv(AddTab(m, d, i, p), owner[p := Tab(d, i)], lo, hi) && SameViews(m, AddTab(m, d, i, p))
  {
    AddTabView(m, owner, lo, hi, d, i, p);
  }

  lemma SetPteView(m: Mem, owner: map<nat, Use>, lo: nat, hi: nat, d: nat, v: nat, e: Pte)
    requires Inv(m, owner, lo, hi) && d in m.dirs && v < NPAGES && m.dirs[d][v / NPD] != 0
    ensures OneView(m, SetPte(m, d, v, e), d, v, e)
  {
    var n := SetPte(m, d, v, e);
    assert Shaped(n);
    var t := m.dirs[d][v / NPD];
    forall d', v' | d' in m.dirs && 0 <= v' < NPAGES ensures Look(n, d', v') == if d' == d && v' == v then e else Look(m, d', v') {
      var t' := m.dirs[d'][v' / NPD];
      if t' == t {
        assert owner[t] == Tab(d, v / NPD) && owner[t'] == Tab(d', v' / NPD);
      }
    }
  }

  /** A user page gets a frame. */
  lemma MapKeepsInv(m: Mem, owner: map<nat, Use>, lo: nat, hi: nat, d: nat, v: nat, p: nat, flags: nat)
    requires Inv(m, owner, lo, hi) && d in m.dirs && v < UPAGES && m.dirs[d][v / NPD] != 0 && Look(m, d, v) == NoPte
    requires p !in owner && lo <= p < hi && p in m.data && |m.data[p]| == PGSIZE
    ensures Inv(SetPte(m, d, v, Pte(p, flags)), owner[p := User(d, v)], lo, hi) && OneView(m, SetPte(m, d, v, Pte(p, flags)), d, v, Pte(p, flags))
  {
    SetPteView(m, owner, lo, hi, d, v, Pte(p, flags));
  }

  /** A kernel page gets a frame that nobody owns. */
  lemma MapKernelKeepsInv(m: Mem, owner: map<nat, Use>, lo: nat, hi: nat, d: nat, v: nat, e: Pte)
    requires Inv(m, owner, lo, hi) && d in m.dirs && UPAGES <= v < NPAGES && m.dirs[d][v / NPD] != 0
    ensures Inv(SetPte(m, d, v, e), owner, lo, hi) && OneView(m, SetPte(m, d, v, e), d, v, e)
  {
    SetPteView(m, owner, lo, hi, d, v, e);
  }

  lemma UnmapKeepsInv(m: Mem, owner: map<nat, Use>, lo: nat, hi: nat, d: nat, v: nat)
    requires Inv(m, owner, lo, hi) && d in m.dirs && v < UPAGES && Look(m, d, v).Pte?
    ensures m.dirs[d][v / NPD] != 0 && Look(m, d, v).frame in owner && owner[Look(m, d, v).frame] == User(d, v)
    ensures Inv(SetPte(m, d, v, NoPte), owner - {Look(m, d, v).frame}, lo, hi) && OneView(m, SetPte(m, d, v, NoPte), d, v, NoPte)
  {
    SetPteView(m, owner, lo, hi, d, v, NoPte);
  }

  lemma SetDataKeepsInv(m: Mem, owner: map<nat, Use>, lo: nat, hi: nat, p: nat, c: Page)
    requires Inv(m, owner, lo, hi) && |c| == PGSIZE
    ensures Inv(SetData(m, p, c), owner, lo, hi) && SameViews(m, SetData(m, p, c))
  {
    var n := SetData(m, p, c);
    assert forall d, v :: d in m.dirs && 0 <= v < NPAGES ==> Look(n, d, v) == Look(m, d, v);
  }
}
