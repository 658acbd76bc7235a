/** References to inodes: ialloc, iget, idup, ilock, iunlock and iput of fs.c as a protocol of
    any number of processes. A step is one critical section of icache.lock or one use of the
    fields that an inode's sleep lock protects. */
module InodeRefs {
  import opened Basics

  /** An inode on disk: is its type nonzero, its nlink, and the directory entries that name it
      and that nlink counts; "." is not counted, nor is the ".." of an unlinked directory. */
  datatype Dinode = Dinode(alloc: bool, nlink: nat, entries: nat)

  /** An entry of the inode cache; `holder` is the process with its sleep lock, or -1. */
  datatype Slot = Slot(inum: nat, ref: nat, valid: bool, nlink: nat, holder: int)

  /** Where a process is: elsewhere; in ialloc, with inode x marked but not yet looked up; in
      iput of slot i, with the lock, with the lock and set on freeing it, with the lock and the
      inode freed, and without the lock but still counted. `valid` is read only under the lock,
      so clearing it is one step with the write that frees the inode. */
  datatype Stage = Idle | Marked(x: nat) | Putting(i: nat) | Doomed(i: nat) | Freed(i: nat) | Leaving(i: nat)

  /** How many pointers to each slot the process has. */
  datatype Proc = Proc(ptrs: seq<nat>, stage: Stage)

  datatype State = State(disk: seq<Dinode>, slots: seq<Slot>, procs: seq<Proc>)

  datatype Step =
    | Lookup(p: nat, x: nat)
    | Mark(p: nat, x: nat)
    | Get(p: nat)
    | Dup(p: nat, q: nat, i: nat)
    | Lock(p: nat, i: nat)
    | Unlock(p: nat, i: nat)
    | Link(p: nat, i: nat)
    | Enter(p: nat, i: nat)
    | Erase(p: nat, i: nat)
    | Lower(p: nat, i: nat)
    | PutLock(p: nat, i: nat)
    | PutJudge(p: nat)
    | PutFree(p: nat)
    | PutUnlock(p: nat)
    | PutDrop(p: nat)

  // ---------------------------------------------------------------- iget

  /** The slot iget takes: the one of inode x if it is in use, else the first that is not. */
  function Find(slots: seq<Slot>, x: nat, empty: Option<nat>, i: nat): (r: Option<nat>)
    requires i <= |slots| && (empty.Some? ==> empty.value < |slots|)
    ensures r.Some? ==> r.value < |slots|
    decreases |slots| - i
  {
    if i == |slots| then empty
    else if slots[i].ref > 0 && slots[i].inum == x then Some(i)
    else Find(slots, x, if empty.None? && slots[i].ref == 0 then Some(i) else empty, i + 1)
  }

  lemma {:induction false} FindIsRight(slots: seq<Slot>, x: nat, empty: Option<nat>, i: nat)
    requires i <= |slots| && (empty.Some? ==> empty.value < |slots| && slots[empty.value].ref == 0)
    requires empty.None? ==> forall j :: 0 <= j < i ==> slots[j].ref > 0
    requires forall j :: 0 <= j < i ==> !(slots[j].ref > 0 && slots[j].inum == x)
    ensures match Find(slots, x, empty, i)
            case None => forall j :: 0 <= j < |slots| ==> slots[j].ref > 0 && slots[j].inum != x
            case Some(k) =>
              || (slots[k].ref > 0 && slots[k].inum == x)
              || (slots[k].ref == 0 && forall j :: 0 <= j < |slots| ==> !(slots[j].ref > 0 && slots[j].inum == x))
    decreases |slots| - i
  {
    if i < |slots| && !(slots[i].ref > 0 && slots[i].inum == x) {
      FindIsRight(slots, x, if empty.None? && slots[i].ref == 0 then Some(i) else empty, i + 1);
    }
  }

  /** iget's loop. */
  method FindSlot(slots: seq<Slot>, x: nat) returns (r: Option<nat>)
    ensures r == Find(slots, x, None, 0)
  {
    var empty: Option<nat> := None;
    var i := 0;
    while i < |slots|
      invariant i <= |slots| && (empty.Some? ==> empty.value < |slots|) && Find(slots, x, empty, i) == Find(slots, x, None, 0)
    {
      if slots[i].ref > 0 && slots[i].inum == x { return Some(i); }
      if empty == None && slots[i].ref == 0 { empty := Some(i); }
      i := i + 1;
    }
    return empty;
  }

  /** One more pointer of process p to slot i. */
  function Point(procs: seq<Proc>, p: nat, i: nat): seq<Proc>
    requires p < |procs| && i < |procs[p].ptrs|
  {
    procs[p := procs[p].(ptrs := procs[p].ptrs[i := procs[p].ptrs[i] + 1])]
  }

  /** iget(x) by p, which takes slot i. */
  function Iget(s: State, p: nat, x: nat, i: nat): State
    requires i < |s.slots| && p < |s.procs| && i < |s.procs[p].ptrs|
  {
    var sl := s.slots[i];
    var sl' := if sl.ref > 0 && sl.inum == x then sl.(ref := sl.ref + 1) else Slot(x, 1, false, sl.nlink, sl.holder);
    s.(slots := s.slots[i := sl'], procs := Point(s.procs, p, i))
  }

  // ---------------------------------------------------------------- steps

  predicate Shaped(s: State) {
    && (forall p :: 0 <= p < |s.procs| ==> |s.procs[p].ptrs| == |s.slots|)
    && (forall i :: 0 <= i < |s.slots| ==> s.slots[i].inum < |s.disk|)
  }

  predicate IdleWith(s: State, p: nat, i: nat) {
    p < |s.procs| && i < |s.slots| && i < |s.procs[p].ptrs| && s.procs[p].stage == Idle && s.procs[p].ptrs[i] > 0
  }

  predicate Holds(s: State, p: nat, i: nat) {
    p < |s.procs| && i < |s.slots| && s.procs[p].stage == Idle && s.slots[i].holder == p && s.slots[i].inum < |s.disk|
  }

  predicate InSlot(s: State, p: nat, i: nat) {
    p < |s.procs| && i < |s.slots| && |s.procs[p].ptrs| == |s.slots| && s.slots[i].inum < |s.disk|
  }

  /** A mark needs a free inode; what a process does to a slot needs a pointer to it, and a
      change to the inode its lock. sys_link is Link, then Enter or Lower; sys_unlink is Erase,
      then Lower. Running out of slots is a panic, not a step. */
  predicate Enabled(s: State, step: Step) {
    match step
    case Lookup(p, x) => p < |s.procs| && s.procs[p].stage == Idle && x < |s.disk| && Find(s.slots, x, None, 0).Some?
    case Mark(p, x) => p < |s.procs| && s.procs[p].stage == Idle && x < |s.disk| && !s.disk[x].alloc
    case Get(p) => p < |s.procs| && s.procs[p].stage.Marked? && s.procs[p].stage.x < |s.disk| && Find(s.slots, s.procs[p].stage.x, None, 0).Some?
    case Dup(p, q, i) => IdleWith(s, p, i) && q < |s.procs| && i < |s.procs[q].ptrs|
    case Lock(p, i) => IdleWith(s, p, i) && s.slots[i].holder == -1 && s.slots[i].inum < |s.disk|
    case Unlock(p, i) => Holds(s, p, i)
    case Link(p, i) => Holds(s, p, i)
    case Enter(p, i) => IdleWith(s, p, i) && s.slots[i].inum < |s.disk| && s.disk[s.slots[i].inum].entries < s.disk[s.slots[i].inum].nlink
    case Erase(p, i) => Holds(s, p, i) && s.disk[s.slots[i].inum].entries > 0
    case Lower(p, i) => Holds(s, p, i) && s.disk[s.slots[i].inum].entries < s.slots[i].nlink
    case PutLock(p, i) => IdleWith(s, p, i) && s.slots[i].holder == -1
    case PutJudge(p) => p < |s.procs| && s.procs[p].stage.Putting? && s.procs[p].stage.i < |s.slots|
    case PutFree(p) => p < |s.procs| && s.procs[p].stage.Doomed? && InSlot(s, p, s.procs[p].stage.i)
    case PutUnlock(p) => p < |s.procs| && s.procs[p].stage.Freed? && s.procs[p].stage.i < |s.slots|
    case PutDrop(p) => p < |s.procs| && s.procs[p].stage.Leaving? && InSlot(s, p, s.procs[p].stage.i) && s.procs[p].ptrs[s.procs[p].stage.i] > 0 && s.slots[s.procs[p].stage.i].ref > 0
  }

  function SetStage(s: State, p: nat, st: Stage): State
    requires p < |s.procs|
  {
    s.(procs := s.procs[p := s.procs[p].(stage := st)])
  }

  function SetSlot(s: State, i: nat, sl: Slot): State
    requires i < |s.slots|
  {
    s.(slots := s.slots[i := sl])
  }

  /** nlink in memory and, by iupdate, on disk; and the number of entries. */
  function SetLinks(s: State, i: nat, nlink: nat, entries: nat): State
    requires i < |s.slots| && s.slots[i].inum < |s.disk|
  {
    var x := s.slots[i].inum;
    s.(slots := s.slots[i := s.slots[i].(nlink := nlink)], disk := s.disk[x := Dinode(s.disk[x].alloc, nlink, entries)])
  }

  function Apply(s: State, step: Step): State
    requires Shaped(s) && Enabled(s, step)
  {
    match step
    case Lookup(p, x) => Iget(s, p, x, Find(s.slots, x, None, 0).value)
    case Mark(p, x) => SetStage(s.(disk := s.disk[x := Dinode(true, 0, 0)]), p, Marked(x))
    case Get(p) => SetStage(Iget(s, p, s.procs[p].stage.x, Find(s.slots, s.procs[p].stage.x, None, 0).value), p, Idle)
    case Dup(p, q, i) => SetSlot(s, i, s.slots[i].(ref := s.slots[i].ref + 1)).(procs := Point(s.procs, q, i))
    case Lock(p, i) =>
      var sl := s.slots[i];
      SetSlot(s, i, if sl.valid then sl.(holder := p) else sl.(holder := p, valid := true, nlink := s.disk[sl.inum].nlink))
    case Unlock(p, i) => SetSlot(s, i, s.slots[i].(holder := -1))
    case Link(p, i) => SetLinks(s, i, s.slots[i].nlink + 1, s.disk[s.slots[i].inum].entries)
    case Enter(p, i) => var x := s.slots[i].inum; s.(disk := s.disk[x := s.disk[x].(entries := s.disk[x].entries + 1)])
    case Erase(p, i) => var x := s.slots[i].inum; s.(disk := s.disk[x := s.disk[x].(entries := s.disk[x].entries - 1)])
    case Lower(p, i) => SetLinks(s, i, s.slots[i].nlink - 1, s.disk[s.slots[i].inum].entries)
    case PutLock(p, i) => SetStage(SetSlot(s, i, s.slots[i].(holder := p)), p, Putting(i))
    case PutJudge(p) =>
      var i := s.procs[p].stage.i;
      if s.slots[i].valid && s.slots[i].nlink == 0 && s.slots[i].ref == 1 then SetStage(s, p, Doomed(i))
      else SetStage(SetSlot(s, i, s.slots[i].(holder := -1)), p, Leaving(i))
    case PutFree(p) =>
      var i := s.procs[p].stage.i;
      SetStage(SetSlot(s, i, s.slots[i].(valid := false)).(disk := s.disk[s.slots[i].inum := Dinode(false, 0, 0)]), p, Freed(i))
    case PutUnlock(p) =>
      var i := s.procs[p].stage.i;
      SetStage(SetSlot(s, i, s.slots[i].(holder := -1)), p, Leaving(i))
    case PutDrop(p) =>
      var i := s.procs[p].stage.i;
      var q := s.procs[p];
      SetSlot(s, i, s.slots[i].(ref := s.slots[i].ref - 1)).(procs := s.procs[p := Proc(q.ptrs[i := q.ptrs[i] - 1], Idle)])
  }

  // ---------------------------------------------------------------- counting pointers

  function Total(procs: seq<Proc>, i: nat): nat
    requires forall p :: 0 <= p < |procs| ==> i < |procs[p].ptrs|
  {
    if procs == [] then 0 else procs[0].ptrs[i] + Total(procs[1..], i)
  }

  lemma {:induction false} TotalSet(procs: seq<Proc>, p: nat, q: Proc, i: nat)
    requires p < |procs| && (forall k :: 0 <= k < |procs| ==> i < |procs[k].ptrs|) && i < |q.ptrs|
    ensures Total(procs[p := q], i) == Total(procs, i) - procs[p].ptrs[i] + q.ptrs[i]
    decreases |procs|
  {
    if p == 0 {
      assert procs[p := q][1..] == procs[1..];
    } else {
      TotalSet(procs[1..], p - 1, q, i);
      assert procs[p := q][1..] == procs[1..][p - 1 := q];
    }
  }

  lemma {:induction false} TotalOne(procs: seq<Proc>, p: nat, i: nat)
    requires p < |procs| && forall k :: 0 <= k < |procs| ==> i < |procs[k].ptrs|
    ensures Total(procs, i) >= procs[p].ptrs[i]
    decreases |procs|
  {
    if p > 0 {
      TotalOne(procs[1..], p - 1, i);
    }
  }

  lemma {:induction false} TotalTwo(procs: seq<Proc>, p: nat, q: nat, i: nat)
    requires p < q < |procs| && forall k :: 0 <= k < |procs| ==> i < |procs[k].ptrs|
    ensures Total(procs, i) >= procs[p].ptrs[i] + procs[q].ptrs[i]
    decreases |procs|
  {
    if p > 0 {
      TotalTwo(procs[1..], p - 1, q - 1, i);
    } else {
      TotalOne(procs[1..], q - 1, i);
    }
  }

  // ---------------------------------------------------------------- invariant

  /** A pointer that will be used for more than the last ref-- of an iput. */
  predicate Live(p: Proc, i: nat)
    requires i < |p.ptrs|
  {
    p.ptrs[i] > if p.stage == Freed(i) || p.stage == Leaving(i) then 1 else 0
  }

  /** No process has a live pointer to inode x. */
  predicate Dead(s: State, x: nat)
    requires Shaped(s)
  {
    forall q, i :: 0 <= q < |s.procs| && 0 <= i < |s.slots| && Live(s.procs[q], i) ==> s.slots[i].inum != x
  }

  predicate DinodeOk(d: Dinode) {
    d.entries <= d.nlink && (!d.alloc ==> d.nlink == 0)
  }

  predicate SlotOk(s: State, i: nat)
    requires Shaped(s) && i < |s.slots|
  {
    var sl := s.slots[i];
    && sl.ref == Total(s.procs, i)
    && (sl.ref > 0 && sl.valid ==> s.disk[sl.inum].alloc && sl.nlink == s.disk[sl.inum].nlink)
    && (sl.holder != -1 ==>
          && 0 <= sl.holder < |s.procs| && s.procs[sl.holder].ptrs[i] > 0 && s.procs[sl.holder].stage != Leaving(i)
          && (sl.valid || s.procs[sl.holder].stage == Putting(i) || s.procs[sl.holder].stage == Freed(i)))
  }

  predicate StageOk(s: State, p: nat)
    requires Shaped(s) && p < |s.procs|
  {
    match s.procs[p].stage
    case Idle => true
    case Marked(x) =>
      && x < |s.disk| && s.disk[x] == Dinode(true, 0, 0)
      && (forall q :: 0 <= q < |s.procs| && q != p ==> s.procs[q].stage != Marked(x))
      && Dead(s, x)
    case Putting(i) => i < |s.slots| && s.slots[i].holder == p && s.procs[p].ptrs[i] > 0
    case Doomed(i) =>
      && i < |s.slots| && s.slots[i].holder == p && s.procs[p].ptrs[i] > 0
      && s.slots[i].ref == 1 && s.slots[i].valid && s.slots[i].nlink == 0
    case Freed(i) => i < |s.slots| && s.slots[i].holder == p && s.procs[p].ptrs[i] > 0
    case Leaving(i) => i < |s.slots| && s.procs[p].ptrs[i] > 0
  }

  /** One slot per inode in use. */
  predicate Unique(slots: seq<Slot>) {
    forall i, j :: 0 <= i < j < |slots| && slots[i].ref > 0 && slots[j].ref > 0 ==> slots[i].inum != slots[j].inum
  }

  predicate Inv(s: State) {
    match s
    case State(disk, slots, procs) =>
      && Shaped(s) && Unique(slots)
      && (forall x :: 0 <= x < |disk| ==> DinodeOk(disk[x]))
      && (forall i :: 0 <= i < |slots| ==> SlotOk(s, i))
      && (forall p :: 0 <= p < |procs| ==> StageOk(s, p))
      && (forall p, i :: 0 <= p < |procs| && 0 <= i < |slots| && Live(procs[p], i) ==> disk[slots[i].inum].alloc)
  }

  /** Whoever has a pointer shares the count with everybody else who has one. */
  lemma Shared(s: State, p: nat, q: nat, i: nat)
    requires Inv(s) && p < |s.procs| && q < |s.procs| && p != q && i < |s.slots| && s.procs[p].ptrs[i] > 0 && s.procs[q].ptrs[i] > 0
    ensures s.slots[i].ref >= 2
  {
    assert SlotOk(s, i);
    if p < q {
      TotalTwo(s.procs, p, q, i);
    } else {
      TotalTwo(s.procs, q, p, i);
    }
  }

  lemma Counted(s: State, p: nat, i: nat)
    requires Inv(s) && p < |s.procs| && i < |s.slots| && s.procs[p].ptrs[i] > 0
    ensures s.slots[i].ref >= 1
  {
    assert SlotOk(s, i);
    TotalOne(s.procs, p, i);
  }

  /** No other slot in use shows the inode of this one. */
  lemma OnlySlot(s: State, p: nat, i: nat, j: nat)
    requires Inv(s) && p < |s.procs| && i < |s.slots| && j < |s.slots| && s.procs[p].ptrs[i] > 0 && s.slots[j].ref > 0
    requires s.slots[j].inum == s.slots[i].inum
    ensures i == j
  {
    Counted(s, p, i);
  }

  // ---------------------------------------------------------------- steps keep it

  lemma StaysDead(s: State, t: State, x: nat)
    requires Shaped(s) && Shaped(t) && Dead(s, x) && |s.procs| == |t.procs| && |s.slots| == |t.slots|
    requires forall q, i :: 0 <= q < |t.procs| && 0 <= i < |t.slots| && Live(t.procs[q], i) ==> (Live(s.procs[q], i) && s.slots[i].inum == t.slots[i].inum) || t.slots[i].inum != x
    ensures Dead(t, x)
  {
  }

  lemma StageTotal(s: State, p: nat, st: Stage)
    requires Shaped(s) && p < |s.procs|
    ensures Shaped(SetStage(s, p, st)) && forall i :: 0 <= i < |s.slots| ==> Total(SetStage(s, p, st).procs, i) == Total(s.procs, i)
  {
    forall i | 0 <= i < |s.slots| ensures Total(SetStage(s, p, st).procs, i) == Total(s.procs, i) {
      TotalSet(s.procs, p, s.procs[p].(stage := st), i);
    }
  }

  /** ilock and iunlock: only the lock changes, and what ilock reads is the inode on disk. */
  lemma LockKeepsInv(s: State, p: nat, i: nat, sl: Slot)
    requires Inv(s) && IdleWith(s, p, i) && (s.slots[i].holder == -1 || s.slots[i].holder == p)
    requires sl == s.slots[i].(holder := sl.holder, valid := sl.valid, nlink := sl.nlink)
    requires sl.valid && sl.nlink == s.disk[sl.inum].nlink && (sl.holder == p || sl.holder == -1)
    ensures Inv(SetSlot(s, i, sl))
  {
    var t := SetSlot(s, i, sl);
    assert Live(s.procs[p], i);
    forall j | 0 <= j < |t.slots| ensures SlotOk(t, j) {
      assert SlotOk(s, j);
    }
    forall q | 0 <= q < |t.procs| ensures StageOk(t, q) {
      assert StageOk(s, q);
      if s.procs[q].stage.Marked? {
        StaysDead(s, t, s.procs[q].stage.x);
      }
    }
    forall q, j | 0 <= q < |t.procs| && 0 <= j < |t.slots| && Live(t.procs[q], j) ensures t.disk[t.slots[j].inum].alloc {
      assert Live(s.procs[q], j);
    }
  }

  /** nlink and entries change under the lock, or entries alone. */
  lemma LinksKeepInv(s: State, p: nat, i: nat, nlink: nat, entries: nat)
    requires Inv(s) && IdleWith(s, p, i) && entries <= nlink
    requires s.slots[i].holder == p || (nlink == s.disk[s.slots[i].inum].nlink && nlink > 0)
    ensures s.disk[s.slots[i].inum].alloc
    ensures Inv(s.(slots := s.slots[i := s.slots[i].(nlink := if s.slots[i].holder == p then nlink else s.slots[i].nlink)],
                   disk := s.disk[s.slots[i].inum := Dinode(true, nlink, entries)]))
  {
    var x := s.slots[i].inum;
    var sl := s.slots[i].(nlink := if s.slots[i].holder == p then nlink else s.slots[i].nlink);
    var t := s.(slots := s.slots[i := sl], disk := s.disk[x := Dinode(true, nlink, entries)]);
    assert Live(s.procs[p], i);
    forall j | 0 <= j < |t.slots| ensures SlotOk(t, j) {
      assert SlotOk(s, j);
      if s.slots[j].ref > 0 && s.slots[j].inum == x {
        OnlySlot(s, p, i, j);
      }
    }
    forall q | 0 <= q < |t.procs| ensures StageOk(t, q) {
      assert StageOk(s, q);
      if s.procs[q].stage.Marked? {
        StaysDead(s, t, s.procs[q].stage.x);
      }
      if s.procs[q].stage.Doomed? {
        var j := s.procs[q].stage.i;
        assert SlotOk(s, j) && SlotOk(s, i);
      }
    }
    forall q, j | 0 <= q < |t.procs| && 0 <= j < |t.slots| && Live(t.procs[q], j) ensures t.disk[t.slots[j].inum].alloc {
      assert Live(s.procs[q], j);
    }
  }

  /** The steps of iput up to its decision, and its unlock. */
  predicate PutStep(s: State, p: nat, i: nat, holder: int, st: Stage)
    requires Shaped(s)
  {
    && p < |s.procs| && i < |s.slots| && s.procs[p].ptrs[i] > 0
    && match s.procs[p].stage
       case Idle => s.slots[i].holder == -1 && st == Putting(i) && holder == p
       case Putting(j) => i == j && s.slots[i].holder == p &&
         ((st == Leaving(i) && holder == -1) || (st == Doomed(i) && holder == p && s.slots[i].ref == 1 && s.slots[i].valid && s.slots[i].nlink == 0))
       case Freed(j) => i == j && s.slots[i].holder == p && st == Leaving(i) && holder == -1
       case _ => false
  }

  lemma PutKeepsSlots(s: State, p: nat, i: nat, holder: int, st: Stage)
    requires Inv(s) && PutStep(s, p, i, holder, st)
    ensures var t := SetStage(SetSlot(s, i, s.slots[i].(holder := holder)), p, st); Shaped(t) && forall j :: 0 <= j < |t.slots| ==> SlotOk(t, j)
  {
    var m := SetSlot(s, i, s.slots[i].(holder := holder));
    var t := SetStage(m, p, st);
    StageTotal(m, p, st);
    forall j | 0 <= j < |t.slots| ensures SlotOk(t, j) {
      assert SlotOk(s, j);
    }
  }

  lemma PutKeepsInv(s: State, p: nat, i: nat, holder: int, st: Stage)
    requires Inv(s) && PutStep(s, p, i, holder, st)
    ensures Inv(SetStage(SetSlot(s, i, s.slots[i].(holder := holder)), p, st))
  {
    var t := SetStage(SetSlot(s, i, s.slots[i].(holder := holder)), p, st);
    PutKeepsSlots(s, p, i, holder, st);
    forall q, j | 0 <= q < |t.procs| && 0 <= j < |t.slots| && Live(t.procs[q], j) ensures Live(s.procs[q], j) && t.disk[t.slots[j].inum].alloc {
      assert Live(s.procs[q], j);
    }
    forall q | 0 <= q < |t.procs| ensures StageOk(t, q) {
      assert StageOk(s, q);
      if s.procs[q].stage.Marked? {
        StaysDead(s, t, s.procs[q].stage.x);
      }
    }
  }

  lemma MarkKeepsInv(s: State, p: nat, x: nat)
    requires Inv(s) && Enabled(s, Mark(p, x))
    ensures Inv(Apply(s, Mark(p, x)))
  {
    var m := s.(disk := s.disk[x := Dinode(true, 0, 0)]);
    var t := SetStage(m, p, Marked(x));
    StageTotal(m, p, Marked(x));
    forall q | 0 <= q < |s.procs| ensures s.procs[q].stage != Marked(x) {
      assert StageOk(s, q);
    }
    forall j | 0 <= j < |t.slots| ensures SlotOk(t, j) {
      assert SlotOk(s, j);
    }
    forall q, j | 0 <= q < |t.procs| && 0 <= j < |t.slots| && Live(t.procs[q], j) ensures Live(s.procs[q], j) && t.slots[j].inum != x && t.disk[t.slots[j].inum].alloc {
      assert Live(s.procs[q], j);
    }
    forall q | 0 <= q < |t.procs| ensures StageOk(t, q) {
      assert StageOk(s, q);
      if s.procs[q].stage.Marked? {
        StaysDead(s, t, s.procs[q].stage.x);
      }
    }
  }

  // ---------------------------------------------------------------- iget and idup

  /** What iget needs of inode x: it is allocated, nobody else is about to iget it from ialloc,
      and nobody is about to free it. */
  predicate Gettable(s: State, p: nat, x: nat) {
    && p < |s.procs| && x < |s.disk| && s.disk[x].alloc && (s.procs[p].stage == Idle || s.procs[p].stage == Marked(x))
    && (forall q :: 0 <= q < |s.procs| && q != p ==> s.procs[q].stage != Marked(x))
    && (forall q :: 0 <= q < |s.procs| && s.procs[q].stage.Doomed? && s.procs[q].stage.i < |s.slots| ==> s.slots[s.procs[q].stage.i].inum != x)
  }

  function Got(s: State, p: nat, x: nat): State
    requires Shaped(s) && p < |s.procs| && Find(s.slots, x, None, 0).Some?
  {
    SetStage(Iget(s, p, x, Find(s.slots, x, None, 0).value), p, Idle)
  }

  lemma PointTotal(s: State, p: nat, i: nat, st: Stage, n: nat)
    requires Shaped(s) && p < |s.procs| && i < |s.slots|
    ensures var procs := s.procs[p := Proc(s.procs[p].ptrs[i := n], st)];
      && (forall q :: 0 <= q < |procs| ==> |procs[q].ptrs| == |s.slots|)
      && (forall j :: 0 <= j < |s.slots| ==> Total(procs, j) == Total(s.procs, j) + if i == j then n - s.procs[p].ptrs[i] else 0)
  {
    var pr := Proc(s.procs[p].ptrs[i := n], st);
    forall j | 0 <= j < |s.slots| ensures Total(s.procs[p := pr], j) == Total(s.procs, j) + if i == j then n - s.procs[p].ptrs[i] else 0 {
      TotalSet(s.procs, p, pr, j);
    }
  }

  /** A slot with ref 0 is nobody's. */
  lemma Unused(s: State, i: nat)
    requires Inv(s) && i < |s.slots| && s.slots[i].ref == 0
    ensures s.slots[i].holder == -1 && forall q :: 0 <= q < |s.procs| ==> s.procs[q].ptrs[i] == 0
  {
    assert SlotOk(s, i);
    forall q | 0 <= q < |s.procs| ensures s.procs[q].ptrs[i] == 0 {
      TotalOne(s.procs, q, i);
    }
  }

  lemma GotKeepsSlots(s: State, p: nat, x: nat)
    requires Inv(s) && Gettable(s, p, x) && Find(s.slots, x, None, 0).Some?
    ensures var t := Got(s, p, x); Shaped(t) && Unique(t.slots) && forall j :: 0 <= j < |t.slots| ==> SlotOk(t, j)
  {
    var i := Find(s.slots, x, None, 0).value;
    var t := Got(s, p, x);
    FindIsRight(s.slots, x, None, 0);
    PointTotal(s, p, i, Idle, s.procs[p].ptrs[i] + 1);
    assert t.procs == s.procs[p := Proc(s.procs[p].ptrs[i := s.procs[p].ptrs[i] + 1], Idle)];
    if s.slots[i].ref == 0 {
      Unused(s, i);
    }
    forall j | 0 <= j < |t.slots| ensures SlotOk(t, j) {
      assert SlotOk(s, j);
    }
  }

  lemma GotKeepsInv(s: State, p: nat, x: nat)
    requires Inv(s) && Gettable(s, p, x) && Find(s.slots, x, None, 0).Some?
    ensures Inv(Got(s, p, x))
  {
    var i := Find(s.slots, x, None, 0).value;
    var t := Got(s, p, x);
    FindIsRight(s.slots, x, None, 0);
    GotKeepsSlots(s, p, x);
    if s.slots[i].ref == 0 {
      Unused(s, i);
    }
    forall q, j | 0 <= q < |t.procs| && 0 <= j < |t.slots| && Live(t.procs[q], j) && j != i ensures Live(s.procs[q], j) && t.disk[t.slots[j].inum].alloc {
      assert Live(s.procs[q], j);
    }
    forall q | 0 <= q < |t.procs| ensures StageOk(t, q) {
      assert StageOk(s, q);
      if q != p && s.procs[q].stage.Marked? {
        StaysDead(s, t, s.procs[q].stage.x);
      }
    }
  }

  lemma DupKeepsSlots(s: State, p: nat, q: nat, i: nat)
    requires Inv(s) && Enabled(s, Dup(p, q, i))
    ensures var t := Apply(s, Dup(p, q, i)); Shaped(t) && Unique(t.slots) && forall j :: 0 <= j < |t.slots| ==> SlotOk(t, j)
  {
    var t := Apply(s, Dup(p, q, i));
    PointTotal(s, q, i, s.procs[q].stage, s.procs[q].ptrs[i] + 1);
    assert t.procs == s.procs[q := Proc(s.procs[q].ptrs[i := s.procs[q].ptrs[i] + 1], s.procs[q].stage)];
    Counted(s, p, i);
    forall j | 0 <= j < |t.slots| ensures SlotOk(t, j) {
      assert SlotOk(s, j);
    }
  }

  lemma DupKeepsInv(s: State, p: nat, q: nat, i: nat)
    requires Inv(s) && Enabled(s, Dup(p, q, i))
    ensures Inv(Apply(s, Dup(p, q, i)))
  {
    var t := Apply(s, Dup(p, q, i));
    assert Live(s.procs[p], i);
    DupKeepsSlots(s, p, q, i);
    forall r, j | 0 <= r < |t.procs| && 0 <= j < |t.slots| && Live(t.procs[r], j) && j != i ensures Live(s.procs[r], j) && t.disk[t.slots[j].inum].alloc {
      assert Live(s.procs[r], j);
    }
    forall r | 0 <= r < |t.procs| ensures StageOk(t, r) {
      assert StageOk(s, r);
      if s.procs[r].stage.Marked? {
        StaysDead(s, t, s.procs[r].stage.x);
      }
      if s.procs[r].stage == Doomed(i) {
        Shared(s, p, r, i);
      }
    }
  }

  // ---------------------------------------------------------------- iput

  lemma FreeKeepsSlots(s: State, p: nat)
    requires Inv(s) && Enabled(s, PutFree(p))
    ensures var t := Apply(s, PutFree(p)); Shaped(t) && forall j :: 0 <= j < |t.slots| ==> SlotOk(t, j)
  {
    var i := s.procs[p].stage.i;
    var m := SetSlot(s, i, s.slots[i].(valid := false)).(disk := s.disk[s.slots[i].inum := Dinode(false, 0, 0)]);
    var t := SetStage(m, p, Freed(i));
    StageTotal(m, p, Freed(i));
    assert StageOk(s, p);
    forall j | 0 <= j < |t.slots| ensures SlotOk(t, j) {
      assert SlotOk(s, j);
    }
  }

  /** Who is about to free an inode has the only pointer to it, and the inode has no other slot
      and no entry. */
  lemma DoomedIsAlone(s: State, p: nat, q: nat, j: nat)
    requires Inv(s) && p < |s.procs| && s.procs[p].stage.Doomed? && q < |s.procs| && j < |s.slots| && s.procs[q].ptrs[j] > 0
    ensures s.procs[p].stage.i < |s.slots|
    ensures s.slots[j].inum == s.slots[s.procs[p].stage.i].inum ==> q == p && j == s.procs[p].stage.i && s.procs[p].ptrs[j] == 1
  {
    var i := s.procs[p].stage.i;
    assert StageOk(s, p) && SlotOk(s, i);
    Counted(s, q, j);
    if i == j {
      TotalOne(s.procs, p, i);
      if p != q {
        Shared(s, p, q, i);
      }
    }
  }

  lemma FreeKeepsInv(s: State, p: nat)
    requires Inv(s) && Enabled(s, PutFree(p))
    ensures Inv(Apply(s, PutFree(p)))
  {
    var i := s.procs[p].stage.i;
    var t := Apply(s, PutFree(p));
    assert StageOk(s, p) && Live(s.procs[p], i);
    FreeKeepsSlots(s, p);
    forall q, j | 0 <= q < |t.procs| && 0 <= j < |t.slots| && Live(t.procs[q], j) ensures Live(s.procs[q], j) && t.disk[t.slots[j].inum].alloc {
      assert Live(s.procs[q], j);
      DoomedIsAlone(s, p, q, j);
    }
    forall q | 0 <= q < |t.procs| ensures StageOk(t, q) {
      assert StageOk(s, q);
      if s.procs[q].stage.Marked? {
        StaysDead(s, t, s.procs[q].stage.x);
      }
    }
  }

  lemma DropKeepsSlots(s: State, p: nat)
    requires Inv(s) && Enabled(s, PutDrop(p))
    ensures var t := Apply(s, PutDrop(p)); Shaped(t) && Unique(t.slots) && forall j :: 0 <= j < |t.slots| ==> SlotOk(t, j)
  {
    var i := s.procs[p].stage.i;
    var t := Apply(s, PutDrop(p));
    PointTotal(s, p, i, Idle, s.procs[p].ptrs[i] - 1);
    forall j | 0 <= j < |t.slots| ensures SlotOk(t, j) {
      assert SlotOk(s, j);
    }
  }

  lemma DropKeepsInv(s: State, p: nat)
    requires Inv(s) && Enabled(s, PutDrop(p))
    ensures Inv(Apply(s, PutDrop(p)))
  {
    var i := s.procs[p].stage.i;
    var t := Apply(s, PutDrop(p));
    DropKeepsSlots(s, p);
    forall q, j | 0 <= q < |t.procs| && 0 <= j < |t.slots| && Live(t.procs[q], j) ensures Live(s.procs[q], j) && t.disk[t.slots[j].inum].alloc {
      assert Live(s.procs[q], j);
    }
    forall q | 0 <= q < |t.procs| ensures StageOk(t, q) {
      assert StageOk(s, q);
      if s.procs[q].stage.Marked? {
        StaysDead(s, t, s.procs[q].stage.x);
      }
      if s.procs[q].stage == Doomed(i) {
        Shared(s, p, q, i);
      }
    }
  }

  // ---------------------------------------------------------------- whole runs

  /** A lookup finds an inode that it may find; by LookupIsSafeIff nothing less will do. */
  predicate Safe(s: State, step: Step) {
    match step
    case Lookup(p, x) => Gettable(s, p, x)
    case _ => true
  }

  /** An entry that nlink counts is enough for that. */
  lemma NamedIsGettable(s: State, p: nat, x: nat)
    requires Inv(s) && Enabled(s, Lookup(p, x)) && s.disk[x].entries > 0
    ensures Gettable(s, p, x)
  {
    assert DinodeOk(s.disk[x]);
    forall q | 0 <= q < |s.procs| ensures s.procs[q].stage != Marked(x) {
      assert StageOk(s, q);
    }
    forall q | 0 <= q < |s.procs| && s.procs[q].stage.Doomed? && s.procs[q].stage.i < |s.slots| ensures s.slots[s.procs[q].stage.i].inum != x {
      assert StageOk(s, q) && SlotOk(s, s.procs[q].stage.i);
    }
  }

  /** So is a pointer that the process has already, as for "." of its current directory. */
  lemma HeldIsGettable(s: State, p: nat, x: nat, i: nat)
    requires Inv(s) && Enabled(s, Lookup(p, x)) && IdleWith(s, p, i) && s.slots[i].inum == x
    ensures Gettable(s, p, x)
  {
    assert Live(s.procs[p], i);
    Counted(s, p, i);
    forall q | 0 <= q < |s.procs| ensures s.procs[q].stage != Marked(x) {
      assert StageOk(s, q);
    }
    forall q | 0 <= q < |s.procs| && s.procs[q].stage.Doomed? && s.procs[q].stage.i < |s.slots| ensures s.slots[s.procs[q].stage.i].inum != x {
      DoomedIsAlone(s, q, p, i);
    }
  }

  lemma MarkedIsGettable(s: State, p: nat)
    requires Inv(s) && Enabled(s, Get(p))
    ensures Gettable(s, p, s.procs[p].stage.x)
  {
    var x := s.procs[p].stage.x;
    assert StageOk(s, p);
    forall q | 0 <= q < |s.procs| && s.procs[q].stage.Doomed? && s.procs[q].stage.i < |s.slots| ensures s.slots[s.procs[q].stage.i].inum != x {
      assert StageOk(s, q) && Live(s.procs[q], s.procs[q].stage.i);
    }
  }

  lemma HolderHasPointer(s: State, p: nat, i: nat)
    requires Inv(s) && Holds(s, p, i)
    ensures IdleWith(s, p, i) && s.slots[i].valid && s.slots[i].nlink == s.disk[s.slots[i].inum].nlink && s.disk[s.slots[i].inum].alloc
  {
    assert SlotOk(s, i);
    Counted(s, p, i);
  }

  lemma ChangeKeepsInv(s: State, step: Step)
    requires Inv(s) && Enabled(s, step) && (step.Link? || step.Enter? || step.Erase? || step.Lower?)
    ensures Inv(Apply(s, step))
  {
    var i := step.i;
    if s.slots[i].holder == step.p {
      HolderHasPointer(s, step.p, i);
    }
    var d := s.disk[s.slots[i].inum];
    assert DinodeOk(d) && Live(s.procs[step.p], i);
    var t := Apply(s, step);
    LinksKeepInv(s, step.p, i, t.disk[s.slots[i].inum].nlink, t.disk[s.slots[i].inum].entries);
    assert t.slots == s.slots[i := s.slots[i].(nlink := if s.slots[i].holder == step.p then t.disk[s.slots[i].inum].nlink else s.slots[i].nlink)];
  }

  lemma LocksKeepInv(s: State, step: Step)
    requires Inv(s) && Enabled(s, step) && (step.Lock? || step.Unlock?)
    ensures Inv(Apply(s, step))
  {
    var i := step.i;
    if step.Unlock? {
      HolderHasPointer(s, step.p, i);
    } else {
      Counted(s, step.p, i);
      assert SlotOk(s, i) && Live(s.procs[step.p], i);
    }
    LockKeepsInv(s, step.p, i, Apply(s, step).slots[i]);
  }

  lemma PutsKeepInv(s: State, step: Step)
    requires Inv(s) && Enabled(s, step) && (step.PutLock? || step.PutJudge? || step.PutUnlock?)
    ensures Inv(Apply(s, step))
  {
    var p := step.p;
    assert StageOk(s, p);
    match step
    case PutLock(_, i) => PutKeepsInv(s, p, i, p, Putting(i));
    case PutJudge(_) =>
      var i := s.procs[p].stage.i;
      var free := s.slots[i].valid && s.slots[i].nlink == 0 && s.slots[i].ref == 1;
      PutKeepsInv(s, p, i, if free then p else -1, if free then Doomed(i) else Leaving(i));
      assert free ==> SetSlot(s, i, s.slots[i].(holder := p)) == s;
    case PutUnlock(_) => PutKeepsInv(s, p, s.procs[p].stage.i, -1, Leaving(s.procs[p].stage.i));
  }

  /** Every step keeps the invariant, as long as lookups are safe. */
  lemma StepKeepsInv(s: State, step: Step)
    requires Inv(s) && Enabled(s, step) && Safe(s, step)
    ensures Inv(Apply(s, step))
  {
    match step
    case Lookup(p, x) =>
      GotKeepsInv(s, p, x);
      assert Apply(s, step) == Got(s, p, x);
    case Mark(p, x) => MarkKeepsInv(s, p, x);
    case Get(p) =>
      MarkedIsGettable(s, p);
      GotKeepsInv(s, p, s.procs[p].stage.x);
    case Dup(p, q, i) => DupKeepsInv(s, p, q, i);
    case Lock(_, _) => LocksKeepInv(s, step);
    case Unlock(_, _) => LocksKeepInv(s, step);
    case PutLock(_, _) => PutsKeepInv(s, step);
    case PutJudge(_) => PutsKeepInv(s, step);
    case PutUnlock(_) => PutsKeepInv(s, step);
    case PutFree(p) => FreeKeepsInv(s, p);
    case PutDrop(p) => DropKeepsInv(s, p);
    case _ => ChangeKeepsInv(s, step);
  }

  /** The inode cache at boot: no slot in use, and every inode either free or linked. */
  predicate Boot(s: State) {
    && Shaped(s)
    && (forall x :: 0 <= x < |s.disk| ==> DinodeOk(s.disk[x]) && (s.disk[x].alloc ==> s.disk[x].nlink > 0))
    && (forall i :: 0 <= i < |s.slots| ==> s.slots[i].ref == 0 && s.slots[i].holder == -1)
    && (forall p :: 0 <= p < |s.procs| ==> s.procs[p].stage == Idle)
    && (forall p, i :: 0 <= p < |s.procs| && 0 <= i < |s.slots| ==> s.procs[p].ptrs[i] == 0)
  }

  lemma {:induction false} TotalZero(procs: seq<Proc>, i: nat)
    requires forall p :: 0 <= p < |procs| ==> i < |procs[p].ptrs| && procs[p].ptrs[i] == 0
    ensures Total(procs, i) == 0
  {
    if procs != [] {
      TotalZero(procs[1..], i);
    }
  }

  lemma BootInv(s: State)
    requires Boot(s)
    ensures Inv(s)
  {
    forall i | 0 <= i < |s.slots| ensures SlotOk(s, i) {
      TotalZero(s.procs, i);
    }
  }

  /** t follows from s by the steps of a run, each enabled where it is taken. */
  predicate Run(s: State, steps: seq<Step>, t: State)
    requires Shaped(s)
    decreases |steps|
  {
    if steps == [] then s == t
    else Enabled(s, steps[0]) && Safe(s, steps[0]) && Shaped(Apply(s, steps[0])) && Run(Apply(s, steps[0]), steps[1..], t)
  }

  lemma {:induction false} RunKeepsInv(s: State, steps: seq<Step>, t: State)
    requires Inv(s) && Run(s, steps, t)
    ensures Inv(t)
    decreases |steps|
  {
    if steps != [] {
      StepKeepsInv(s, steps[0]);
      RunKeepsInv(Apply(s, steps[0]), steps[1..], t);
    }
  }

  /** In every state that any number of processes reach from boot, ref counts the pointers, an
      inode has at most one slot in use, and whoever has a pointer and may lock it finds a slot
      in use and an allocated inode, so neither panic of ilock can happen. */
  lemma PointersAreSafe(s: State, steps: seq<Step>, t: State)
    requires Boot(s) && Run(s, steps, t)
    ensures Shaped(t) && Unique(t.slots) && forall i :: 0 <= i < |t.slots| ==> t.slots[i].ref == Total(t.procs, i)
    ensures forall p: nat, i: nat :: IdleWith(t, p, i) ==> t.slots[i].ref > 0 && t.disk[t.slots[i].inum].alloc
  {
    BootInv(s);
    RunKeepsInv(s, steps, t);
    forall i | 0 <= i < |t.slots| ensures t.slots[i].ref == Total(t.procs, i) {
      assert SlotOk(t, i);
    }
    forall p: nat, i: nat | IdleWith(t, p, i) ensures t.slots[i].ref > 0 && t.disk[t.slots[i].inum].alloc {
      Counted(t, p, i);
      assert Live(t.procs[p], i);
    }
  }

  /** The inode that p is set on freeing has no link and no entry, and p's one pointer is the
      only one to it, in this slot or any other. */
  predicate FreesAlone(s: State, p: nat)
    requires Shaped(s) && p < |s.procs| && s.procs[p].stage.Doomed?
  {
    var i := s.procs[p].stage.i;
    && i < |s.slots| && s.disk[s.slots[i].inum] == Dinode(true, 0, 0)
    && forall q, j :: 0 <= q < |s.procs| && 0 <= j < |s.slots| && s.procs[q].ptrs[j] > 0 && s.slots[j].inum == s.slots[i].inum ==>
         q == p && j == i && s.procs[q].ptrs[j] == 1
  }

  lemma FreeingIsSafe(s: State, steps: seq<Step>, t: State, p: nat)
    requires Boot(s) && Run(s, steps, t) && p < |t.procs| && t.procs[p].stage.Doomed?
    ensures Shaped(t) && FreesAlone(t, p)
  {
    BootInv(s);
    RunKeepsInv(s, steps, t);
    var i := t.procs[p].stage.i;
    assert StageOk(t, p) && SlotOk(t, i) && DinodeOk(t.disk[t.slots[i].inum]);
    forall q, j | 0 <= q < |t.procs| && 0 <= j < |t.slots| && t.procs[q].ptrs[j] > 0 && t.slots[j].inum == t.slots[i].inum
      ensures q == p && j == i && t.procs[q].ptrs[j] == 1
    {
      DoomedIsAlone(t, p, q, j);
    }
  }

  /** The last step of an iput is never stuck: there is a pointer and a count to take away. */
  lemma DropIsEnabled(s: State, steps: seq<Step>, t: State, p: nat)
    requires Boot(s) && Run(s, steps, t) && p < |t.procs| && t.procs[p].stage.Leaving?
    ensures Enabled(t, PutDrop(p))
  {
    BootInv(s);
    RunKeepsInv(s, steps, t);
    assert StageOk(t, p);
    Counted(t, p, t.procs[p].stage.i);
  }

  // ---------------------------------------------------------------- stale names

  /** A lookup, by whatever entry, is safe exactly when the inode is allocated, not between the
      two halves of ialloc and not about to be freed. */
  lemma LookupIsSafeIff(s: State, p: nat, x: nat)
    requires Inv(s) && Enabled(s, Lookup(p, x))
    ensures Inv(Apply(s, Lookup(p, x))) <==> Gettable(s, p, x)
  {
    var i := Find(s.slots, x, None, 0).value;
    var t := Apply(s, Lookup(p, x));
    FindIsRight(s.slots, x, None, 0);
    assert t == Got(s, p, x);
    if Gettable(s, p, x) {
      GotKeepsInv(s, p, x);
    } else if Inv(t) {
      assert Live(t.procs[p], i) && t.slots[i].inum == x;
      forall q | 0 <= q < |s.procs| ensures s.procs[q].stage != Marked(x) {
        assert StageOk(t, q);
      }
      forall q | 0 <= q < |s.procs| && s.procs[q].stage.Doomed? && s.procs[q].stage.i < |s.slots| ensures s.slots[s.procs[q].stage.i].inum != x {
        assert StageOk(s, q) && StageOk(t, q);
      }
    }
  }
}
