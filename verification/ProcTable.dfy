/** The table scans of proc.c, in place on ptable.proc, and the fairness of roundrobin. */
module ProcTable {
  import opened Basics
  import opened Proc

  // ---------------------------------------------------------------- bounded waiting

  /** The turn of roundrobin's loop that looks at slot k. */
  function Turn(n: nat, rr: nat, k: nat): nat
    requires k < n && rr < n
  {
    if k > rr then k - rr - 1 else k + n - rr - 1
  }

  lemma TurnLooksAt(n: nat, rr: nat, k: nat, i: nat)
    requires k < n && rr < n && i < n
    ensures (i + rr + 1) % n == k <==> i == Turn(n, rr, k)
  {
    var x := i + rr + 1;
    if x < n {
      assert x % n == x;
    } else {
      assert x % n == x - n by { ModOnce(x, n); }
    }
  }

  lemma ModOnce(x: nat, n: nat)
    requires 0 < n <= x < 2 * n
    ensures x % n == x - n
  {
    assert x == n * 1 + (x - n);
    assert x / n == 1;
  }

  /** A call that skips a runnable process k leaves it a strictly smaller distance ahead. */
  lemma {:induction false} SkippedGetsCloser(procs: seq<Entry>, rr: nat, k: nat, i: nat)
    requires rr < |procs| && k < |procs| && procs[k].state == Runnable && i <= Turn(|procs|, rr, k)
    ensures PickFrom(procs, rr, i).Some?
    ensures var p := PickFrom(procs, rr, i).value; p != k ==> Turn(|procs|, p, k) < Turn(|procs|, rr, k)
    decreases |procs| - i
  {
    var n := |procs|;
    var p := (i + rr + 1) % n;
    TurnLooksAt(n, rr, k, i);
    if procs[p].state == Runnable {
      TurnLooksAt(n, rr, p, i);
    } else {
      SkippedGetsCloser(procs, rr, k, i + 1);
    }
  }

  /** rrindex after the first j calls, one on each table. */
  function IndexAfter(tables: seq<seq<Entry>>, rr: nat, j: nat): nat
    requires j <= |tables|
  {
    if j == 0 then rr
    else
      var before := IndexAfter(tables, rr, j - 1);
      match RoundRobin(tables[j - 1], before) case Some(p) => p case None => before
  }

  lemma {:induction false} ChosenWithin(n: nat, tables: seq<seq<Entry>>, rr: nat, k: nat, j: nat) returns (m: nat)
    requires rr < n && k < n && j < |tables| && forall i :: 0 <= i < |tables| ==> |tables[i]| == n && tables[i][k].state == Runnable
    requires IndexAfter(tables, rr, j) < n && j + Turn(n, IndexAfter(tables, rr, j), k) < |tables|
    ensures j <= m < |tables| && RoundRobin(tables[m], IndexAfter(tables, rr, m)) == Some(k)
    decreases |tables| - j
  {
    var at := IndexAfter(tables, rr, j);
    SkippedGetsCloser(tables[j], at, k, 0);
    if RoundRobin(tables[j], at) == Some(k) {
      return j;
    }
    m := ChosenWithin(n, tables, rr, k, j + 1);
  }

  /** A process that is runnable at each of NPROC calls of roundrobin is returned by one of
      them, whatever else happens to the table between the calls. */
  lemma BoundedWaiting(tables: seq<seq<Entry>>, rr: nat, k: nat)
    requires |tables| > 0 && rr < |tables| && k < |tables|
    requires forall i :: 0 <= i < |tables| ==> |tables[i]| == |tables| && tables[i][k].state == Runnable
    ensures exists m :: 0 <= m < |tables| && RoundRobin(tables[m], IndexAfter(tables, rr, m)) == Some(k)
  {
    var m := ChosenWithin(|tables|, tables, rr, k, 0);
  }

  // ---------------------------------------------------------------- scans in place

  class PTable {
    const procs: array<Entry>
    var nextpid: int
    var rrindex: nat

    constructor (n: nat)
      ensures fresh(procs) && procs.Length == n && nextpid == 1 && rrindex == 0
    {
      procs := new Entry[n](_ => Entry(Unused, 0, -1, NoChan, false));
      nextpid, rrindex := 1, 0;
    }

    /** roundrobin. */
    method PickNext() returns (r: Option<nat>)
      modifies this`rrindex
      ensures r == RoundRobin(procs[..], old(rrindex))
      ensures rrindex == match r case Some(p) => p case None => old(rrindex)
    {
      var i := 0;
      while i < procs.Length
        invariant 0 <= i <= procs.Length && rrindex == old(rrindex)
        invariant RoundRobin(procs[..], rrindex) == PickFrom(procs[..], rrindex, i)
      {
        var p := (i + rrindex + 1) % procs.Length;
        if procs[p].state == Runnable {
          rrindex := p;
          return Some(p);
        }
        i := i + 1;
      }
      return None;
    }

    /** wakeup1. */
    method Wakeup1(chan: Chan)
      modifies procs
      ensures procs[..] == Wakeup(old(procs[..]), chan)
    {
      for p := 0 to procs.Length
        invariant forall k :: 0 <= k < p ==> procs[k] == Woken(old(procs[k]), chan)
        invariant forall k :: p <= k < procs.Length ==> procs[k] == old(procs[k])
      {
        if procs[p].state == Sleeping && procs[p].chan == chan {
          procs[p] := procs[p].(state := Runnable);
        }
      }
    }

    /** The locked part of allocproc. */
    method AllocProc() returns (r: Option<nat>)
      modifies this`nextpid, procs
      ensures r == FirstUnused(old(procs[..]), 0)
      ensures r.None? ==> procs[..] == old(procs[..]) && nextpid == old(nextpid)
      ensures r.Some? ==> nextpid == old(nextpid) + 1
      ensures r.Some? ==> procs[..] == old(procs[..])[r.value := old(procs[..])[r.value].(state := Embryo, pid := old(nextpid))]
    {
      var p := 0;
      while p < procs.Length
        invariant 0 <= p <= procs.Length && procs[..] == old(procs[..])
        invariant FirstUnused(procs[..], 0) == FirstUnused(procs[..], p)
      {
        if procs[p].state == Unused {
          procs[p] := procs[p].(state := Embryo, pid := nextpid);
          nextpid := nextpid + 1;
          return Some(p);
        }
        p := p + 1;
      }
      return None;
    }

    /** exit's loop: hand the children of i to init. */
    method AbandonChildren(i: int, init: nat)
      requires i != init && 0 <= i < procs.Length
      modifies procs
      ensures procs[..] == Abandon(old(procs[..]), i, init)
    {
      ghost var before := procs[..];
      ghost var woke := false;
      for p := 0 to procs.Length
        invariant woke <==> exists k :: 0 <= k < p && before[k].parent == i && before[k].state == Zombie
        invariant forall k :: 0 <= k < procs.Length ==>
          procs[k] == (var e := if k < p then Adopted(before[k], i, init) else before[k]; if woke then Woken(e, OnProc(init)) else e)
      {
        if procs[p].parent == i {
          procs[p] := procs[p].(parent := init);
          if procs[p].state == Zombie {
            Wakeup1(OnProc(init));
            woke := true;
          }
        }
      }
    }

    /** The scan of wait: the exited child, if any, and whether there are children at all. */
    method ScanChildren(i: int) returns (zombie: Option<nat>, havekids: bool)
      ensures zombie == FirstZombieChild(procs[..], i, 0)
      ensures zombie.None? ==> havekids == HasChild(procs[..], i)
    {
      havekids := false;
      var p := 0;
      while p < procs.Length
        invariant 0 <= p <= procs.Length
        invariant FirstZombieChild(procs[..], i, 0) == FirstZombieChild(procs[..], i, p)
        invariant havekids <==> exists k :: 0 <= k < p && procs[k].parent == i
      {
        if procs[p].parent == i {
          havekids := true;
          if procs[p].state == Zombie {
            return Some(p), true;
          }
        }
        p := p + 1;
      }
      return None, havekids;
    }

    /** kill. */
    method Kill(pid: int) returns (r: int)
      modifies procs
      ensures var k := FirstPid(old(procs[..]), pid, 0);
        if k.None? then r == -1 && procs[..] == old(procs[..])
        else
          var e := old(procs[..])[k.value].(killed := true);
          r == 0 && procs[..] == old(procs[..])[k.value := if e.state == Sleeping then e.(state := Runnable) else e]
    {
      var p := 0;
      while p < procs.Length
        invariant 0 <= p <= procs.Length && procs[..] == old(procs[..])
        invariant FirstPid(procs[..], pid, 0) == FirstPid(procs[..], pid, p)
      {
        if procs[p].pid == pid {
          procs[p] := procs[p].(killed := true);
          if procs[p].state == Sleeping {
            procs[p] := procs[p].(state := Runnable);
          }
          return 0;
        }
        p := p + 1;
      }
      return -1;
    }
  }
}
