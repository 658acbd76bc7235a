/** What the steps of InodeRefs do for their callers: how many pointers to an inode a process has,
    how many links and names an inode has, and who may lock it, after every run. */
module InodeCounts {
  import opened Basics
  import opened InodeRefs

  // ---------------------------------------------------------------- pointers

  function Part(sl: Slot, n: nat, x: nat): int {
    if sl.inum == x then n else 0
  }

  /** How many of a process's pointers are to inode x, in whatever slot. */
  function Of(slots: seq<Slot>, ptrs: seq<nat>, x: nat): int
    requires |slots| == |ptrs|
  {
    if slots == [] then 0 else Part(slots[0], ptrs[0], x) + Of(slots[1..], ptrs[1..], x)
  }

  lemma {:induction false} OfSet(slots: seq<Slot>, ptrs: seq<nat>, i: nat, sl: Slot, n: nat, x: nat)
    requires i < |slots| == |ptrs|
    ensures Of(slots[i := sl], ptrs[i := n], x) == Of(slots, ptrs, x) - Part(slots[i], ptrs[i], x) + Part(sl, n, x)
    decreases |slots|
  {
    if i == 0 {
      assert slots[i := sl][1..] == slots[1..] && ptrs[i := n][1..] == ptrs[1..];
    } else {
      OfSet(slots[1..], ptrs[1..], i - 1, sl, n, x);
      assert slots[i := sl][1..] == slots[1..][i - 1 := sl] && ptrs[i := n][1..] == ptrs[1..][i - 1 := n];
    }
  }

  /** iget and idup give a process one pointer to the inode asked for, iput takes one away, and no
      other step changes how many it has. */
  function Gain(s: State, step: Step, r: nat, x: nat): int
    requires Shaped(s) && Enabled(s, step)
  {
    match step
    case Lookup(p, y) => if p == r && y == x then 1 else 0
    case Get(p) => if p == r && s.procs[p].stage.x == x then 1 else 0
    case Dup(_, q, i) => if q == r && s.slots[i].inum == x then 1 else 0
    case PutDrop(p) => if p == r && s.slots[s.procs[p].stage.i].inum == x then -1 else 0
    case _ => 0
  }

  /** A step that changes slot i at most, and r's pointers at most there. */
  lemma SlotCounts(s: State, t: State, r: nat, i: nat, x: nat)
    requires Shaped(s) && r < |s.procs| == |t.procs| && i < |s.slots| == |t.slots| == |t.procs[r].ptrs|
    requires t.slots == s.slots[i := t.slots[i]] && t.procs[r].ptrs == s.procs[r].ptrs[i := t.procs[r].ptrs[i]]
    ensures Of(t.slots, t.procs[r].ptrs, x)
         == Of(s.slots, s.procs[r].ptrs, x) - Part(s.slots[i], s.procs[r].ptrs[i], x) + Part(t.slots[i], t.procs[r].ptrs[i], x)
  {
    OfSet(s.slots, s.procs[r].ptrs, i, t.slots[i], t.procs[r].ptrs[i], x);
  }

  /** Between s and t process r gains n pointers to inode x. */
  predicate Counts(s: State, t: State, r: nat, x: nat, n: int) {
    && r < |s.procs| == |t.procs| && |s.procs[r].ptrs| == |s.slots| && |t.procs[r].ptrs| == |t.slots|
    && Of(t.slots, t.procs[r].ptrs, x) == Of(s.slots, s.procs[r].ptrs, x) + n
  }

  lemma IgetCounts(s: State, p: nat, y: nat, r: nat, x: nat)
    requires Inv(s) && p < |s.procs| && r < |s.procs| && Find(s.slots, y, None, 0).Some?
    ensures Counts(s, Got(s, p, y), r, x, if p == r && y == x then 1 else 0)
  {
    var i := Find(s.slots, y, None, 0).value;
    FindIsRight(s.slots, y, None, 0);
    if s.slots[i].ref == 0 {
      Unused(s, i);
    }
    SlotCounts(s, Got(s, p, y), r, i, x);
  }

  /** The slots keep their inodes and the processes their pointers. */
  lemma {:induction false} QuietCounts(s: State, t: State, r: nat, x: nat)
    requires Shaped(s) && r < |s.procs| == |t.procs| && |s.slots| == |t.slots| && t.procs[r].ptrs == s.procs[r].ptrs
    requires forall i :: 0 <= i < |s.slots| ==> t.slots[i].inum == s.slots[i].inum
    ensures Counts(s, t, r, x, 0)
  {
    SameOf(s.slots, t.slots, s.procs[r].ptrs, x);
  }

  lemma {:induction false} SameOf(before: seq<Slot>, after: seq<Slot>, ptrs: seq<nat>, x: nat)
    requires |before| == |after| == |ptrs| && forall i :: 0 <= i < |ptrs| ==> before[i].inum == after[i].inum
    ensures Of(before, ptrs, x) == Of(after, ptrs, x)
    decreases |ptrs|
  {
    if ptrs != [] {
      SameOf(before[1..], after[1..], ptrs[1..], x);
    }
  }

  lemma QuietStep(s: State, step: Step, r: nat, x: nat)
    requires Shaped(s) && Enabled(s, step) && r < |s.procs| && !step.Lookup? && !step.Get? && !step.Dup? && !step.PutDrop?
    ensures Counts(s, Apply(s, step), r, x, 0)
  {
    QuietCounts(s, Apply(s, step), r, x);
  }

  /** idup and the end of iput, at slot i. */
  lemma PointStep(s: State, step: Step, r: nat, x: nat)
    requires Shaped(s) && Enabled(s, step) && r < |s.procs| && (step.Dup? || step.PutDrop?)
    ensures Counts(s, Apply(s, step), r, x, Gain(s, step, r, x))
  {
    SlotCounts(s, Apply(s, step), r, if step.Dup? then step.i else s.procs[step.p].stage.i, x);
  }

  lemma StepCounts(s: State, step: Step, r: nat, x: nat)
    requires Inv(s) && Enabled(s, step) && r < |s.procs|
    ensures Counts(s, Apply(s, step), r, x, Gain(s, step, r, x))
  {
    match step
    case Lookup(p, y) =>
      IgetCounts(s, p, y, r, x);
      assert Apply(s, step) == Got(s, p, y);
    case Get(p) => IgetCounts(s, p, s.procs[p].stage.x, r, x);
    case Dup(_, _, _) => PointStep(s, step, r, x);
    case PutDrop(_) => PointStep(s, step, r, x);
    case _ => QuietStep(s, step, r, x);
  }

  /** igets and idups for r of inode x less its iputs, over a run. */
  function Gains(s: State, steps: seq<Step>, t: State, r: nat, x: nat): int
    requires Shaped(s) && Run(s, steps, t)
    decreases |steps|
  {
    if steps == [] then 0 else Gain(s, steps[0], r, x) + Gains(Apply(s, steps[0]), steps[1..], t, r, x)
  }

  lemma {:induction false} RunCounts(s: State, steps: seq<Step>, t: State, r: nat, x: nat)
    requires Inv(s) && Run(s, steps, t) && r < |s.procs|
    ensures Counts(s, t, r, x, Gains(s, steps, t, r, x))
    decreases |steps|
  {
    if steps != [] {
      StepKeepsInv(s, steps[0]);
      StepCounts(s, steps[0], r, x);
      RunCounts(Apply(s, steps[0]), steps[1..], t, r, x);
    }
  }

  lemma {:induction false} NoneAtFirst(slots: seq<Slot>, ptrs: seq<nat>, x: nat)
    requires |slots| == |ptrs| && forall i :: 0 <= i < |ptrs| ==> ptrs[i] == 0
    ensures Of(slots, ptrs, x) == 0
    decreases |slots|
  {
    if slots != [] {
      NoneAtFirst(slots[1..], ptrs[1..], x);
    }
  }

  /** From boot on, a process has exactly the pointers to an inode that it was given and has not
      put, whatever the others did and whichever slots the inode was in meanwhile. */
  lemma PointersAreCounted(s: State, steps: seq<Step>, t: State, r: nat, x: nat)
    requires Boot(s) && Run(s, steps, t) && r < |s.procs|
    ensures |t.procs| == |s.procs| && |t.procs[r].ptrs| == |t.slots| && Of(t.slots, t.procs[r].ptrs, x) == Gains(s, steps, t, r, x)
  {
    BootInv(s);
    NoneAtFirst(s.slots, s.procs[r].ptrs, x);
    RunCounts(s, steps, t, r, x);
  }

  // ---------------------------------------------------------------- links and names

  /** The step makes inode x another one: ialloc marks it, or iput frees it. */
  predicate Renews(s: State, step: Step, x: nat)
    requires Shaped(s) && Enabled(s, step)
  {
    match step
    case Mark(_, y) => x == y
    case PutFree(p) => s.slots[s.procs[p].stage.i].inum == x
    case _ => false
  }

  /** What the step adds to the links of inode x, and to its names. */
  function Linked(s: State, step: Step, x: nat): int
    requires Shaped(s) && Enabled(s, step)
  {
    match step
    case Link(_, i) => Part(s.slots[i], 1, x)
    case Lower(_, i) => -Part(s.slots[i], 1, x)
    case _ => 0
  }

  function Named(s: State, step: Step, x: nat): int
    requires Shaped(s) && Enabled(s, step)
  {
    match step
    case Enter(_, i) => Part(s.slots[i], 1, x)
    case Erase(_, i) => -Part(s.slots[i], 1, x)
    case _ => 0
  }

  /** The links are written from the copy in memory, and yet count up and down from what is on
      disk. */
  lemma StepLinks(s: State, step: Step, x: nat)
    requires Inv(s) && Enabled(s, step) && x < |s.disk|
    ensures |Apply(s, step).disk| == |s.disk|
    ensures var d, e := s.disk[x], Apply(s, step).disk[x];
      if Renews(s, step, x) then e == Dinode(step.Mark?, 0, 0) && d.alloc != step.Mark?
      else e.alloc == d.alloc && e.nlink == d.nlink + Linked(s, step, x) && e.entries == d.entries + Named(s, step, x)
  {
    match step
    case Link(p, i) => HolderHasPointer(s, p, i);
    case Lower(p, i) => HolderHasPointer(s, p, i);
    case PutFree(p) => assert StageOk(s, p) && SlotOk(s, s.procs[p].stage.i);
    case _ =>
  }

  /** Inode x stays the same inode over the run. */
  predicate Lasts(s: State, steps: seq<Step>, t: State, x: nat)
    requires Shaped(s) && Run(s, steps, t)
    decreases |steps|
  {
    steps != [] ==> !Renews(s, steps[0], x) && Lasts(Apply(s, steps[0]), steps[1..], t, x)
  }

  function Links(s: State, steps: seq<Step>, t: State, x: nat): int
    requires Shaped(s) && Run(s, steps, t)
    decreases |steps|
  {
    if steps == [] then 0 else Linked(s, steps[0], x) + Links(Apply(s, steps[0]), steps[1..], t, x)
  }

  function Names(s: State, steps: seq<Step>, t: State, x: nat): int
    requires Shaped(s) && Run(s, steps, t)
    decreases |steps|
  {
    if steps == [] then 0 else Named(s, steps[0], x) + Names(Apply(s, steps[0]), steps[1..], t, x)
  }

  /** While inode x lasts, nlink on disk is what it was, plus the links made and less the links
      taken away by all processes; likewise its names. */
  lemma {:induction false} LinksAreCounted(s: State, steps: seq<Step>, t: State, x: nat)
    requires Inv(s) && Run(s, steps, t) && x < |s.disk| && Lasts(s, steps, t, x)
    ensures |t.disk| == |s.disk| && t.disk[x].alloc == s.disk[x].alloc
    ensures t.disk[x].nlink == s.disk[x].nlink + Links(s, steps, t, x) && t.disk[x].entries == s.disk[x].entries + Names(s, steps, t, x)
    decreases |steps|
  {
    if steps != [] {
      StepKeepsInv(s, steps[0]);
      StepLinks(s, steps[0], x);
      LinksAreCounted(Apply(s, steps[0]), steps[1..], t, x);
    }
  }

  // ---------------------------------------------------------------- locks

  /** After ilock its caller may change the inode, of which it has a true copy, and nobody may lock
      it; after iunlock everybody else with a pointer may. */
  lemma LockExcludes(s: State, p: nat, i: nat, q: nat)
    requires Inv(s) && Enabled(s, Lock(p, i))
    ensures var t := Apply(s, Lock(p, i));
      && Holds(t, p, i) && t.slots[i].valid && t.slots[i].nlink == t.disk[t.slots[i].inum].nlink
      && !Enabled(t, Lock(q, i)) && !Enabled(t, PutLock(q, i)) && (p != q ==> !Holds(t, q, i))
  {
    Counted(s, p, i);
    assert SlotOk(s, i);
  }

  lemma UnlockAdmits(s: State, p: nat, i: nat, q: nat)
    requires Inv(s) && Enabled(s, Unlock(p, i)) && IdleWith(s, q, i)
    ensures var t := Apply(s, Unlock(p, i)); Enabled(t, Lock(q, i)) && Enabled(t, PutLock(q, i)) && !Holds(t, p, i)
  {
  }
}
