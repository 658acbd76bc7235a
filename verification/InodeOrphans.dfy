/** Does iput free every inode without links? Over the protocol of InodeRefs: exactly which steps
    leave one that is never freed, and two runs of two processes that show what goes wrong. */
module InodeOrphans {
  import opened Basics
  import opened InodeRefs

  // ---------------------------------------------------------------- inodes that are never freed

  /** Allocated, with no link, and with nobody left who could free it. */
  predicate Orphan(s: State, x: nat)
    requires Shaped(s) && x < |s.disk|
  {
    s.disk[x].alloc && s.disk[x].nlink == 0 && Dead(s, x) && forall q :: 0 <= q < |s.procs| ==> s.procs[q].stage != Marked(x)
  }

  /** Process p's one pointer is the last live one to slot i. */
  predicate LastLive(s: State, p: nat, i: nat)
    requires Shaped(s) && p < |s.procs| && i < |s.slots|
  {
    s.procs[p].ptrs[i] == 1 && forall q :: 0 <= q < |s.procs| && q != p ==> !Live(s.procs[q], i)
  }

  /** iput lets go of the last live pointer to inode x, which has no link, without freeing it:
      it saw ref above 1, the rest being iputs that have also decided, or an inode never read. */
  predicate Discards(s: State, step: Step, x: nat)
    requires Shaped(s) && x < |s.disk| && Enabled(s, step)
  {
    step.PutJudge? && var i := s.procs[step.p].stage.i;
    && s.slots[i].inum == x && s.disk[x].nlink == 0 && LastLive(s, step.p, i)
    && (s.slots[i].ref > 1 || !s.slots[i].valid)
  }

  /** What decides whether x is an orphan: the inode itself, who marked it, and live pointers. */
  lemma SameOrphan(s: State, t: State, x: nat)
    requires Shaped(s) && Shaped(t) && x < |s.disk| == |t.disk| && |s.procs| == |t.procs| && |s.slots| == |t.slots|
    requires s.disk[x].alloc == t.disk[x].alloc && s.disk[x].nlink == t.disk[x].nlink
    requires forall q :: 0 <= q < |s.procs| ==> (s.procs[q].stage == Marked(x) <==> t.procs[q].stage == Marked(x))
    requires forall q, j :: 0 <= q < |s.procs| && 0 <= j < |s.slots| ==>
      ((Live(s.procs[q], j) && s.slots[j].inum == x) <==> (Live(t.procs[q], j) && t.slots[j].inum == x))
    ensures Orphan(s, x) <==> Orphan(t, x)
  {
    assert Dead(s, x) ==> Dead(t, x);
    assert Dead(t, x) ==> Dead(s, x);
  }

  /** A live pointer to x, in this state and the next. */
  lemma NoOrphan(s: State, x: nat, q: nat, j: nat)
    requires Shaped(s) && x < |s.disk| && q < |s.procs| && j < |s.slots| && Live(s.procs[q], j) && s.slots[j].inum == x
    ensures !Orphan(s, x)
  {
  }

  lemma GotOrphan(s: State, p: nat, x: nat, y: nat)
    requires Inv(s) && Gettable(s, p, x) && Find(s.slots, x, None, 0).Some? && y < |s.disk|
    ensures Orphan(Got(s, p, x), y) <==> Orphan(s, y) && x != y
  {
    var i := Find(s.slots, x, None, 0).value;
    var t := Got(s, p, x);
    FindIsRight(s.slots, x, None, 0);
    if s.slots[i].ref == 0 {
      Unused(s, i);
    }
    if x == y {
      NoOrphan(t, x, p, i);
    } else {
      SameOrphan(s, t, y);
    }
  }

  lemma DiskOrphan(s: State, step: Step, y: nat)
    requires Inv(s) && Enabled(s, step) && (step.Link? || step.Enter? || step.Erase? || step.Lower? || step.Lock? || step.Unlock?) && y < |s.disk|
    ensures Orphan(Apply(s, step), y) <==> Orphan(s, y)
  {
    var t := Apply(s, step);
    if !step.Enter? && !step.Lock? {
      HolderHasPointer(s, step.p, step.i);
    }
    if s.slots[step.i].inum == y {
      NoOrphan(s, y, step.p, step.i);
      NoOrphan(t, y, step.p, step.i);
    } else {
      SameOrphan(s, t, y);
    }
  }

  lemma MarkOrphan(s: State, p: nat, x: nat, y: nat)
    requires Inv(s) && Enabled(s, Mark(p, x)) && y < |s.disk|
    ensures Orphan(Apply(s, Mark(p, x)), y) <==> Orphan(s, y)
  {
    var t := Apply(s, Mark(p, x));
    if x == y {
      assert t.procs[p].stage == Marked(x);
    } else {
      SameOrphan(s, t, y);
    }
  }

  lemma DupOrphan(s: State, p: nat, q: nat, i: nat, y: nat)
    requires Inv(s) && Enabled(s, Dup(p, q, i)) && y < |s.disk|
    ensures Orphan(Apply(s, Dup(p, q, i)), y) <==> Orphan(s, y)
  {
    var t := Apply(s, Dup(p, q, i));
    if s.slots[i].inum == y {
      NoOrphan(s, y, p, i);
      NoOrphan(t, y, p, i);
    } else {
      SameOrphan(s, t, y);
    }
  }

  lemma PutOrphan(s: State, step: Step, y: nat)
    requires Inv(s) && Enabled(s, step) && (step.PutLock? || step.PutUnlock? || step.PutDrop?) && y < |s.disk|
    ensures Orphan(Apply(s, step), y) <==> Orphan(s, y)
  {
    var t := Apply(s, step);
    SameOrphan(s, t, y);
  }

  lemma FreeOrphan(s: State, p: nat, y: nat)
    requires Inv(s) && Enabled(s, PutFree(p)) && y < |s.disk|
    ensures Orphan(Apply(s, PutFree(p)), y) <==> Orphan(s, y)
  {
    var t := Apply(s, PutFree(p));
    var i := s.procs[p].stage.i;
    assert StageOk(s, p);
    if s.slots[i].inum == y {
      NoOrphan(s, y, p, i);
    } else {
      SameOrphan(s, t, y);
    }
  }

  lemma JudgeOrphan(s: State, p: nat, y: nat)
    requires Inv(s) && Enabled(s, PutJudge(p)) && y < |s.disk|
    ensures Orphan(Apply(s, PutJudge(p)), y) <==> Orphan(s, y) || Discards(s, PutJudge(p), y)
  {
    var t := Apply(s, PutJudge(p));
    var i := s.procs[p].stage.i;
    assert StageOk(s, p) && SlotOk(s, i);
    assert Live(s.procs[p], i);
    Counted(s, p, i);
    if s.slots[i].inum != y || t.procs[p].stage == Doomed(i) {
      SameOrphan(s, t, y);
    } else {
      NoOrphan(s, y, p, i);
      LeaveOrphan(s, p, y);
    }
  }

  lemma LeaveOrphan(s: State, p: nat, y: nat)
    requires Inv(s) && Enabled(s, PutJudge(p)) && s.slots[s.procs[p].stage.i].inum == y
    requires Apply(s, PutJudge(p)).procs[p].stage.Leaving?
    ensures y < |s.disk| && (Orphan(Apply(s, PutJudge(p)), y) <==> Discards(s, PutJudge(p), y))
  {
    var t := Apply(s, PutJudge(p));
    var i := s.procs[p].stage.i;
    assert StageOk(s, p) && SlotOk(s, i) && Live(s.procs[p], i);
    Counted(s, p, i);
    forall q | 0 <= q < |s.procs| ensures s.procs[q].stage != Marked(y) {
      assert StageOk(s, q);
    }
    if LastLive(s, p, i) {
      forall q, j | 0 <= q < |t.procs| && 0 <= j < |t.slots| && Live(t.procs[q], j) ensures t.slots[j].inum != y {
        Counted(s, q, j);
        assert q != p ==> Live(s.procs[q], j);
      }
    } else if s.procs[p].ptrs[i] > 1 {
      NoOrphan(t, y, p, i);
    } else {
      var q :| 0 <= q < |s.procs| && q != p && Live(s.procs[q], i);
      assert t.procs[q] == s.procs[q];
      NoOrphan(t, y, q, i);
    }
  }

  /** Through every step an orphan stays one, unless a name that nlink does not count leads to
      it, and the only steps that make one are those iputs: so the comment above iput holds
      exactly when no iput discards the inode. */
  lemma OrphanIff(s: State, step: Step, y: nat)
    requires Inv(s) && Enabled(s, step) && Safe(s, step) && y < |s.disk|
    ensures Orphan(Apply(s, step), y) <==> (Orphan(s, y) && !Finds(step, y)) || Discards(s, step, y)
  {
    match step
    case Lookup(p, x) =>
      assert Apply(s, step) == Got(s, p, x);
      GotOrphan(s, p, x, y);
    case Mark(p, x) => MarkOrphan(s, p, x, y);
    case Get(p) =>
      MarkedIsGettable(s, p);
      GotOrphan(s, p, s.procs[p].stage.x, y);
    case Dup(p, q, i) => DupOrphan(s, p, q, i, y);
    case PutLock(_, _) => PutOrphan(s, step, y);
    case PutJudge(p) => JudgeOrphan(s, p, y);
    case PutFree(p) => FreeOrphan(s, p, y);
    case PutUnlock(_) => PutOrphan(s, step, y);
    case PutDrop(_) => PutOrphan(s, step, y);
    case _ => DiskOrphan(s, step, y);
  }

  /** A lookup of y. */
  predicate Finds(step: Step, y: nat) {
    step.Lookup? && step.x == y
  }

  /** Some step of the run discards x, and no later one looks it up; `lost` is so at the start. */
  predicate Lost(s: State, steps: seq<Step>, t: State, x: nat, lost: bool)
    requires Shaped(s) && Run(s, steps, t) && x < |s.disk|
    decreases |steps|
  {
    if steps == [] then lost
    else Lost(Apply(s, steps[0]), steps[1..], t, x, (lost && !Finds(steps[0], x)) || Discards(s, steps[0], x))
  }

  lemma {:induction false} RunOrphanIff(s: State, steps: seq<Step>, t: State, x: nat)
    requires Inv(s) && Run(s, steps, t) && x < |s.disk|
    ensures Shaped(t) && x < |t.disk| && (Orphan(t, x) <==> Lost(s, steps, t, x, Orphan(s, x)))
    decreases |steps|
  {
    if steps != [] {
      OrphanIff(s, steps[0], x);
      StepKeepsInv(s, steps[0]);
      RunOrphanIff(Apply(s, steps[0]), steps[1..], t, x);
    }
  }

  /** From boot, an allocated inode without links is without anybody to free it exactly when
      some iput of the run discarded it and nobody has looked it up since. */
  lemma NeverFreedIff(s: State, steps: seq<Step>, t: State, x: nat)
    requires Boot(s) && Run(s, steps, t) && x < |s.disk|
    ensures Shaped(t) && x < |t.disk| && (Orphan(t, x) <==> Lost(s, steps, t, x, false))
  {
    BootInv(s);
    RunOrphanIff(s, steps, t, x);
  }

  // ---------------------------------------------------------------- two runs

  lemma {:induction false} RunOneMore(s: State, steps: seq<Step>, t: State, step: Step)
    requires Inv(s) && Run(s, steps, t) && Shaped(t) && Enabled(t, step) && Safe(t, step)
    ensures Run(s, steps + [step], Apply(t, step))
    decreases |steps|
  {
    if steps == [] {
      StepKeepsInv(s, step);
      assert Run(Apply(s, step), [], Apply(t, step));
      assert (steps + [step])[1..] == [];
    } else {
      StepKeepsInv(s, steps[0]);
      RunOneMore(Apply(s, steps[0]), steps[1..], t, step);
      assert (steps + [step])[1..] == steps[1..] + [step];
    }
  }

  ghost predicate Reachable(t: State) {
    exists s, steps :: Boot(s) && Run(s, steps, t)
  }

  /** A reachable state with one inode, one slot and two processes, with n0 and n1 pointers. */
  ghost predicate Comes(t: State, d: Dinode, sl: Slot, n0: nat, st0: Stage, n1: nat, st1: Stage) {
    match t
    case State(disk, slots, procs) =>
      && Reachable(t)
      && |disk| == 1 && disk[0] == d && |slots| == 1 && slots[0] == sl && |procs| == 2
      && |procs[0].ptrs| == 1 && procs[0].ptrs[0] == n0 && procs[0].stage == st0
      && |procs[1].ptrs| == 1 && procs[1].ptrs[0] == n1 && procs[1].stage == st1
  }

  lemma Take(t: State, step: Step)
    requires Reachable(t) && Shaped(t) && Enabled(t, step) && Safe(t, step)
    ensures Reachable(Apply(t, step))
  {
    var s, steps :| Boot(s) && Run(s, steps, t);
    BootInv(s);
    RunOneMore(s, steps, t, step);
  }

  lemma Found() returns (t: State)
    ensures Comes(t, Dinode(true, 1, 1), Slot(0, 1, false, 0, -1), 1, Idle, 0, Idle)
  {
    t := State([Dinode(true, 1, 1)], [Slot(0, 0, false, 0, -1)], [Proc([0], Idle), Proc([0], Idle)]);
    assert Boot(t) && Run(t, [], t);
    Take(t, Lookup(0, 0));
    t := Apply(t, Lookup(0, 0));
  }

  lemma FoundTwice() returns (t: State)
    ensures Comes(t, Dinode(true, 1, 1), Slot(0, 2, false, 0, -1), 1, Idle, 1, Idle)
  {
    t := Found();
    Take(t, Lookup(1, 0));
    t := Apply(t, Lookup(1, 0));
  }

  lemma Emptied() returns (t: State)
    ensures Comes(t, Dinode(true, 1, 0), Slot(0, 2, true, 1, 0), 1, Idle, 1, Idle)
  {
    t := FoundTwice();
    Take(t, Lock(0, 0));
    t := Apply(t, Lock(0, 0));
    Take(t, Erase(0, 0));
    t := Apply(t, Erase(0, 0));
  }

  /** Two processes have looked up a file with one link, and the first has unlinked it. */
  lemma Unlinked() returns (t: State)
    ensures Comes(t, Dinode(true, 0, 0), Slot(0, 2, true, 0, -1), 1, Idle, 1, Idle)
  {
    t := Emptied();
    Take(t, Lower(0, 0));
    t := Apply(t, Lower(0, 0));
    Take(t, Unlock(0, 0));
    t := Apply(t, Unlock(0, 0));
  }

  lemma FirstDecided() returns (t: State)
    ensures Comes(t, Dinode(true, 0, 0), Slot(0, 2, true, 0, -1), 1, Leaving(0), 1, Idle)
  {
    t := Unlinked();
    Take(t, PutLock(0, 0));
    t := Apply(t, PutLock(0, 0));
    Take(t, PutJudge(0));
    t := Apply(t, PutJudge(0));
  }

  lemma BothDecided() returns (t: State)
    ensures Comes(t, Dinode(true, 0, 0), Slot(0, 2, true, 0, -1), 1, Leaving(0), 1, Leaving(0))
  {
    t := FirstDecided();
    Take(t, PutLock(1, 0));
    t := Apply(t, PutLock(1, 0));
    Take(t, PutJudge(1));
    t := Apply(t, PutJudge(1));
  }

  lemma OneGone() returns (t: State)
    ensures Comes(t, Dinode(true, 0, 0), Slot(0, 1, true, 0, -1), 0, Idle, 1, Leaving(0))
  {
    t := BothDecided();
    Take(t, PutDrop(0));
    t := Apply(t, PutDrop(0));
  }

  lemma BothGone() returns (t: State)
    ensures Comes(t, Dinode(true, 0, 0), Slot(0, 0, true, 0, -1), 0, Idle, 0, Idle)
  {
    t := OneGone();
    Take(t, PutDrop(1));
    t := Apply(t, PutDrop(1));
  }

  /** Two iputs that both read ref before either lowers it: neither frees the inode. */
  lemma TwoPutsFreeNothing() returns (t: State)
    ensures Reachable(t) && Shaped(t) && |t.disk| == |t.slots| == 1 && t.slots[0].ref == 0 && Orphan(t, 0)
  {
    t := BothGone();
  }

  lemma SecondAlone() returns (t: State)
    ensures Comes(t, Dinode(true, 0, 0), Slot(0, 1, true, 0, 1), 0, Idle, 1, Putting(0))
  {
    t := FirstDecided();
    Take(t, PutDrop(0));
    t := Apply(t, PutDrop(0));
    Take(t, PutLock(1, 0));
    t := Apply(t, PutLock(1, 0));
  }

  /** One iput after the other frees it. */
  lemma OneByOneFrees() returns (t: State)
    ensures Comes(t, Dinode(false, 0, 0), Slot(0, 1, false, 0, 1), 0, Idle, 1, Freed(0))
  {
    t := SecondAlone();
    Take(t, PutJudge(1));
    t := Apply(t, PutJudge(1));
    Take(t, PutFree(1));
    t := Apply(t, PutFree(1));
  }

  /** What follows when an entry names a freed inode, as ".." does at the end of
      LinkStale.StaleDotDot: a lookup of that number is enabled, and leads to locking an inode
      that is not allocated. */
  lemma StaleNameReachesFreeInode() returns (t: State)
    ensures Reachable(t) && Shaped(t) && Enabled(t, Lookup(0, 0)) && !Safe(t, Lookup(0, 0))
    ensures var u := Apply(t, Lookup(0, 0)); Shaped(u) && Enabled(u, Lock(0, 0)) && !u.slots[0].valid && !u.disk[u.slots[0].inum].alloc
  {
    t := OneByOneFrees();
    Take(t, PutUnlock(1));
    t := Apply(t, PutUnlock(1));
  }
}
