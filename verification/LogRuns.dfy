/** Between two commits: any number of operations and readers run bread, modify, log_write and
    brelse in any order. The state they leave is one that commit can start from, and what
    commit then logs and installs is the last bytes each block was given. */
module LogRuns {
  import opened Basics
  import opened BufferCache
  import opened CrashLog
  import opened LogRoom
  import opened LogOthers
  import opened Log

  predicate ByOthers(s: Step) {
    !Ours(s.h)
  }

  /** A step of an operation or a reader: nobody but the log calls bwrite, and only blocks
      outside the log are passed to log_write. */
  predicate IsOp(r: Region, c: Cache, s: Step) {
    ByOthers(s) && !s.WriteStep? && (s.PinStep? && s.i < |c.bufs| ==> !InLog(r, c.bufs[s.i].blockno))
  }

  /** log.lh after the step. */
  function ListAfter(c: Cache, lh: seq<int>, s: Step): seq<int> {
    if s.PinStep? && s.i < |c.bufs| then Absorb(lh, c.bufs[s.i].blockno) else lh
  }

  /** The list names exactly the pinned blocks, each once and none in the log, and commit has
      no buffer. */
  ghost predicate Listed(r: Region, c: Cache, lh: seq<int>) {
    match c
    case Cache(disk, _, _) =>
      && PinnedIn(c, Blocks(lh)) && Unused(c, 0) && Unused(c, 1)
      && (forall k :: 0 <= k < |lh| ==> DirtyFor(c, lh[k]) && 0 <= lh[k] < |disk| && !InLog(r, lh[k]))
      && (forall j, k :: 0 <= j < k < |lh| ==> lh[j] != lh[k])
  }

  lemma StepPins(c: Cache, s: Step, k: nat)
    requires Inv(c) && Enabled(c, s) && ByOthers(s) && !s.WriteStep? && k < |c.bufs|
    ensures |Apply(c, s).bufs| == |c.bufs| && Apply(c, s).disk == c.disk
    ensures var b, n := c.bufs[k], Apply(c, s).bufs[k];
      && n.dirty == (b.dirty || (s.PinStep? && s.i == k)) && (n.dirty ==> n.blockno == b.blockno)
      && (0 in n.refs <==> 0 in b.refs) && (1 in n.refs <==> 1 in b.refs)
  {
    if s.GetStep? {
      ChooseIsRight(c, s.dev, s.bno);
      assert BufOk(c.bufs[Choose(c, s.dev, s.bno).value], c.disk);
    }
  }

  lemma StepKeepsListed(r: Region, c: Cache, lh: seq<int>, s: Step)
    requires Inv(c) && Listed(r, c, lh) && Enabled(c, s) && IsOp(r, c, s)
    ensures Listed(r, Apply(c, s), ListAfter(c, lh, s))
  {
    var n, lh' := Apply(c, s), ListAfter(c, lh, s);
    forall k | 0 <= k < |n.bufs| ensures (n.bufs[k].dirty ==> n.bufs[k].blockno in Blocks(lh')) && 0 !in n.bufs[k].refs && 1 !in n.bufs[k].refs {
      StepPins(c, s, k);
    }
    forall k | 0 <= k < |lh'| ensures DirtyFor(n, lh'[k]) && 0 <= lh'[k] < |c.disk| && !InLog(r, lh'[k]) {
      if k < |lh| {
        var i :| 0 <= i < |c.bufs| && c.bufs[i].dirty && c.bufs[i].blockno == lh[k];
        StepPins(c, s, i);
        assert n.bufs[i].dirty && n.bufs[i].blockno == lh'[k];
      } else {
        StepPins(c, s, s.i);
        assert BufOk(c.bufs[s.i], c.disk) && n.bufs[s.i].dirty && n.bufs[s.i].blockno == lh'[k];
      }
    }
    if |c.bufs| > 0 {
      StepPins(c, s, 0);
    }
  }

  /** c', lh' and flat' follow from c, lh and flat by the steps. */
  ghost predicate OpRun(r: Region, c: Cache, lh: seq<int>, flat: Disk, steps: seq<Step>, c': Cache, lh': seq<int>, flat': Disk)
    requires Inv(c)
    decreases |steps|
  {
    if steps == [] then c' == c && lh' == lh && flat' == flat
    else
      var s := steps[0];
      && Enabled(c, s) && IsOp(r, c, s) && Inv(Apply(c, s))
      && OpRun(r, Apply(c, s), ListAfter(c, lh, s), ApplyFlat(c, flat, s), steps[1..], c', lh', flat')
  }

  lemma {:induction false} RunKeepsListed(r: Region, c: Cache, lh: seq<int>, flat: Disk, steps: seq<Step>, c': Cache, lh': seq<int>, flat': Disk)
    requires Inv(c) && Represents(c, flat) && Listed(r, c, lh) && OpRun(r, c, lh, flat, steps, c', lh', flat')
    ensures Inv(c') && Represents(c', flat') && Listed(r, c', lh') && c'.disk == c.disk
    decreases |steps|
  {
    if steps != [] {
      var s := steps[0];
      StepKeepsListed(r, c, lh, s);
      StepRefines(c, flat, s);
      assert Apply(c, s).disk == c.disk;
      RunKeepsListed(r, Apply(c, s), ListAfter(c, lh, s), ApplyFlat(c, flat, s), steps[1..], c', lh', flat');
    }
  }

  /** From the end of one commit (or of recovery, or boot) any run of operations and readers
      leads to a state from which commit can start as soon as nobody is in the middle of a
      change and the list fits the log; `flat'` is what the operations wrote. */
  lemma RunsLeadToCommit(r: Region, c: Cache, flat: Disk, steps: seq<Step>, c': Cache, lh': seq<int>, flat': Disk)
    requires Sound(r, c, flat) && Calm(c) && PinnedIn(c, {}) && Clean(r, c.disk)
    requires OpRun(r, c, [], flat, steps, c', lh', flat')
    requires (forall k :: 0 <= k < |c'.bufs| ==> !c'.bufs[k].touched) && |lh'| <= LOGSIZE && |lh'| < r.size
    ensures Sound(r, c', flat') && Calm(c') && PinnedIn(c', Blocks(lh')) && GoodList(r, lh', |c'.disk|) && Clean(r, c'.disk)
    ensures forall k :: 0 <= k < |lh'| ==> DirtyFor(c', lh'[k])
    ensures forall b :: 0 <= b < |flat'| && !InLog(r, b) && b !in lh' ==> flat'[b] == c'.disk[b]
  {
    assert Blocks([]) == {};
    RunKeepsListed(r, c, [], flat, steps, c', lh', flat');
    forall b | 0 <= b < |flat'| && b !in lh' ensures flat'[b] == c'.disk[b] {
      UnpinnedIsOnDisk(c', flat', Blocks(lh'), b);
    }
  }

  /** A run by these handles leaves buffers only to them: what commit needs never to find the
      cache full. */
  lemma {:induction false} RunKeepsCrowd(r: Region, c: Cache, lh: seq<int>, flat: Disk, steps: seq<Step>, c': Cache, lh': seq<int>, flat': Disk, handles: set<Handle>)
    requires Inv(c) && OpRun(r, c, lh, flat, steps, c', lh', flat')
    requires Crowd(c, handles) && forall k :: 0 <= k < |steps| ==> steps[k].h in handles
    ensures Crowd(c', handles)
    decreases |steps|
  {
    if steps != [] {
      var s := steps[0];
      StepKeepsCrowd(c, s, handles);
      assert handles + {s.h} == handles;
      RunKeepsCrowd(r, Apply(c, s), ListAfter(c, lh, s), ApplyFlat(c, flat, s), steps[1..], c', lh', flat', handles);
    }
  }

  /** Commit by itself, on what a run of operations has left, finds its buffers if and only if
      there are more buffers than listed blocks (Store.Commit). In this kernel NBUF is LOGSIZE: then it
      fails if and only if the list is full. */
  lemma RoomIff(r: Region, c: Cache, flat: Disk, steps: seq<Step>, c': Cache, lh': seq<int>, flat': Disk)
    requires Sound(r, c, flat) && Calm(c) && PinnedIn(c, {}) && OpRun(r, c, [], flat, steps, c', lh', flat')
    ensures AllPinned(c', lh') && (OneFree(c') <==> |lh'| < |c'.bufs|)
    ensures |c'.bufs| == LOGSIZE && |lh'| <= LOGSIZE ==> (OneFree(c') <==> |lh'| != LOGSIZE)
  {
    assert Blocks([]) == {};
    RunKeepsListed(r, c, [], flat, steps, c', lh', flat');
    FreeIff(c', lh');
  }

  /** With more buffers than listed blocks, all that commit asks for besides is there. */
  lemma RunsLeaveRoom(r: Region, c: Cache, flat: Disk, steps: seq<Step>, c': Cache, lh': seq<int>, flat': Disk)
    requires Sound(r, c, flat) && Calm(c) && PinnedIn(c, {}) && OpRun(r, c, [], flat, steps, c', lh', flat') && |lh'| < |c'.bufs|
    ensures Ready(c', lh')
  {
    assert Blocks([]) == {};
    RunKeepsListed(r, c, [], flat, steps, c', lh', flat');
    RoomToCommit(c', lh');
  }
}
