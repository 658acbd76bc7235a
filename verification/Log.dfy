/** log.c's commit and recovery running on the block cache: every block goes through
    bread, bwrite and brelse. Each method that writes several blocks also returns `steps`,
    the disk after each of its block writes, so a contract about `steps` is one about
    every crash point. `sched` is what the other processes do in between, any reads at all: one
    element for every point where they can run. A panic in bget is a crash too: ok is false and
    the steps stop; and so they do when `sched` ends while a block is locked. */
module Log {
  import opened Basics
  import opened BufferCache
  import opened CrashLog
  import opened LogRoom
  import opened LogOthers

  /** Nobody uses any buffer. */
  ghost predicate Quiet(c: Cache) {
    match c
    case Cache(_, bufs, _) => forall i :: 0 <= i < |bufs| ==> bufs[i].refs == {}
  }

  /** Only these blocks are pinned. */
  ghost predicate PinnedIn(c: Cache, blocks: set<int>) {
    match c
    case Cache(_, bufs, _) => forall i :: 0 <= i < |bufs| && bufs[i].dirty ==> bufs[i].blockno in blocks
  }

  function Blocks(lh: seq<int>): set<int> {
    set b | b in lh
  }

  /** A cache of the newest contents `flat`, on a disk with a log. */
  ghost predicate Sound(r: Region, c: Cache, flat: Disk) {
    match r
    case Region(start, size) => Inv(c) && Represents(c, flat) && start + size <= |c.disk| && 0 < size
  }

  /** write_log has done `tail` turns since disk d0 and newest contents f0. */
  ghost predicate Logging(r: Region, c: Cache, flat: Disk, lh: seq<int>, d0: Disk, f0: Disk, tail: nat, steps: seq<Disk>)
    requires |d0| == |f0| && GoodList(r, lh, |d0|)
  {
    match r
    case Region(_, _) =>
      && tail == |steps| <= |lh| && Sound(r, c, flat) && Calm(c) && PinnedIn(c, Blocks(lh))
      && IsLogged(r, d0, Newest(f0, lh), tail, c.disk) && IsLogged(r, f0, Newest(f0, lh), tail, flat)
      && LogSteps(r, d0, Newest(f0, lh), steps)
  }

  /** install_trans has done `tail` turns since disk d0 and newest contents f0, and has
      unpinned the blocks of those turns. */
  ghost predicate Installing(r: Region, c: Cache, flat: Disk, lh: seq<int>, d0: Disk, f0: Disk, tail: nat, steps: seq<Disk>)
    requires |d0| == |f0| && GoodList(r, lh, |d0|)
  {
    match r
    case Region(_, _) =>
      && tail == |steps| <= |lh| && Sound(r, c, flat) && Calm(c) && PinnedIn(c, Rest(lh, tail))
      && IsInstalled(r, d0, lh, tail, c.disk) && IsInstalled(r, f0, lh, tail, flat)
      && InstallSteps(r, d0, lh, steps)
  }

  /** What is not pinned is on the disk. */
  lemma UnpinnedIsOnDisk(c: Cache, flat: Disk, pinned: set<int>, b: int)
    requires Inv(c) && Represents(c, flat) && Calm(c) && PinnedIn(c, pinned)
    requires 0 <= b < |flat| && b !in pinned
    ensures flat[b] == c.disk[b]
  {
    if Cached(c, b) {
      var i :| 0 <= i < |c.bufs| && c.bufs[i].valid && c.bufs[i].blockno == b;
      assert BufOk(c.bufs[i], c.disk);
    }
  }

  /** Every listed block is pinned. */
  ghost predicate AllPinned(c: Cache, lh: seq<int>) {
    match c
    case Cache(_, _, _) => forall k :: 0 <= k < |lh| ==> DirtyFor(c, lh[k])
  }

  /** There is no buffer for a block of the log if every buffer is pinned. */
  lemma NoRoomToLog(r: Region, c: Cache, lh: seq<int>, n: nat, b: int)
    requires Inv(c) && PinnedIn(c, Blocks(lh)) && GoodList(r, lh, n) && InLog(r, b)
    ensures !OneFree(c) ==> !Found(c, b)
  {
    if !OneFree(c) {
      AllPinnedIsStuck(c, b);
    }
  }

  lemma NextLogged(r: Region, c: Cache, flat: Disk, lh: seq<int>, d0: Disk, f0: Disk, tail: nat, steps: seq<Disk>, b: int, n: Cache, flat': Disk)
    requires |d0| == |f0| && GoodList(r, lh, |d0|) && tail < |lh| && Logging(r, c, flat, lh, d0, f0, tail, steps)
    requires Sound(r, n, flat') && Calm(n) && PinnedIn(n, Blocks(lh) - {b}) && b == r.start + tail + 1
    requires |flat| == |c.disk| == |d0| && n.disk == c.disk[b := flat[lh[tail]]] && flat' == flat[b := flat[lh[tail]]]
    ensures Logging(r, n, flat', lh, d0, f0, tail + 1, steps + [n.disk])
  {
    var data := Newest(f0, lh);
    assert flat[lh[tail]] == data[tail];
    LogOne(r, d0, data, tail, c.disk);
    LogOne(r, f0, data, tail, flat);
  }

  class Store {
    const r: Region
    var c: Cache
    var lh: seq<int>
    var sched: seq<seq<Step>>
    /** The handles of the other processes. */
    ghost const readers: Foreign
    ghost var flat: Disk
    /** bget has found no buffer. */
    ghost var panicked: bool

    ghost predicate Valid()
      reads this
    {
      Sound(r, c, flat)
    }

    /** Nobody else runs, and nobody has a buffer. */
    ghost predicate Alone()
      reads this
    {
      sched == [] && Quiet(c)
    }

    /** The others keep to their handles, and only they and `ours` have buffers. */
    ghost predicate Bounded(ours: set<Handle>)
      reads this
    {
      Bound(c, sched, readers, ours)
    }

    /** There are more buffers than pinned blocks and handles. */
    ghost predicate Spare(pinned: seq<int>, ours: set<Handle>)
      reads this
    {
      Bounded(ours) && Roomy(c, readers, pinned, ours)
    }

    // -------------------------------------------------------------- bread, bwrite, brelse

    /** The others run. */
    method Others(ghost ours: set<Handle>)
      requires Valid()
      modifies this`c, this`sched
      ensures Valid() && Bystood(old(c), c) && (old(Bounded(ours)) ==> Bounded(ours))
      ensures |sched| <= |old(sched)| && (old(sched) != [] ==> |sched| < |old(sched)|)
      ensures old(sched) == [] ==> c == old(c)
    {
      if sched != [] {
        var turn := sched[0];
        sched := sched[1..];
        var k := 0;
        while k < |turn|
          invariant Valid() && Bystood(old(c), c) && sched == old(sched)[1..] && (old(Bounded(ours)) ==> Crowd(c, readers + ours))
        {
          if IsRead(turn[k]) && Enabled(c, turn[k]) {
            ReadKeepsCrowd(c, turn[k], old(sched), k, readers, ours);
            ReadBystands(c, turn[k]);
            BystoodTransitive(old(c), c, Apply(c, turn[k]));
            StepRefines(c, flat, turn[k]);
            c := Apply(c, turn[k]);
          }
          k := k + 1;
        }
      }
    }

    /** bget's critical section. */
    method Take(h: Handle, bno: int, ghost pinned: seq<int>, ghost ours: set<Handle>) returns (i: nat, ok: bool)
      requires Valid() && Ours(h) && Unused(c, h)
      modifies this`c, this`sched, this`panicked
      ensures Valid() && |sched| <= |old(sched)| && c.disk == old(c.disk)
      ensures old(Bounded(ours)) && ok ==> Bounded(ours + {h})
      ensures old(Spare(pinned, ours)) || DirtyFor(old(c), bno) ==> ok
      ensures panicked == (old(panicked) || !ok)
      ensures ok ==> Used(old(c), c, h, i) && h in c.bufs[i].refs && Keyed(c.bufs[i], DISK_DEV, bno)
      ensures old(sched) == [] ==> (ok <==> Found(old(c), bno)) && (ok ==> i == Choose(old(c), DISK_DEV, bno).value && c == Get(old(c), h, DISK_DEV, bno, i))
    {
      Others(ours);
      ghost var m := c;
      StillRoom(old(c), m, pinned, readers + ours, bno);
      var chosen := Choose(c, DISK_DEV, bno);
      if chosen.None? {
        panicked := true;
        return 0, false;
      }
      i := chosen.value;
      StillUnused(old(c), m, h);
      ChooseIsRight(c, DISK_DEV, bno);
      GetKeepsInv(c, flat, h, DISK_DEV, bno);
      assert BufOk(c.bufs[i], c.disk);
      OursKeepCrowd(c, GetStep(h, DISK_DEV, bno), readers, ours);
      c := Get(c, h, DISK_DEV, bno, i);
      GetIsUse(m, h, bno, i);
      BystoodIsUsed(old(c), m, h, i);
      UsedTransitive(old(c), m, c, h, i);
      ok := true;
    }

    /** acquiresleep: others run until the lock is free. */
    method Acquire(h: Handle, i: nat, ghost ours: set<Handle>) returns (ok: bool)
      requires Valid() && Ours(h) && i < |c.bufs| && h in c.bufs[i].refs
      modifies this`c, this`sched
      ensures Valid() && |sched| <= |old(sched)| && c.disk == old(c.disk) && (old(Bounded(ours)) ==> Bounded(ours))
      ensures ok ==> Used(old(c), c, h, i) && h in c.bufs[i].refs && Holds(c, h, i) && !c.bufs[i].touched
      ensures ok ==> Keyed(c.bufs[i], old(c.bufs[i].dev), old(c.bufs[i].blockno))
      ensures old(sched) == [] ==> (ok <==> old(c.bufs[i].holder.None?)) && (ok ==> c == Lock(old(c), h, i))
    {
      Others(ours);
      while c.bufs[i].holder.Some? && sched != []
        invariant Valid() && Bystood(old(c), c) && i < |c.bufs| && |sched| <= |old(sched)| && (old(sched) == [] ==> c == old(c))
        invariant old(Bounded(ours)) ==> Bounded(ours)
        decreases |sched|
      {
        ghost var m := c;
        Others(ours);
        BystoodTransitive(old(c), m, c);
      }
      ok := c.bufs[i].holder.None?;
      if ok {
        ghost var m := c;
        assert Stays(old(c).bufs[i], c.bufs[i]) && BufOk(c.bufs[i], c.disk);
        MarkKeepsInv(c, flat, LockStep(h, i), i);
        OursKeepCrowd(c, LockStep(h, i), readers, ours);
        c := Lock(c, h, i);
        BystoodIsUsed(old(c), m, h, i);
        LockIsUse(m, h, i);
        UsedTransitive(old(c), m, c, h, i);
      }
    }

    /** The iderw of bread. */
    method Load(h: Handle, i: nat, ghost ours: set<Handle>)
      requires Valid() && Ours(h) && Holds(c, h, i) && h in c.bufs[i].refs && !c.bufs[i].touched && Keyed(c.bufs[i], DISK_DEV, c.bufs[i].blockno)
      requires 0 <= c.bufs[i].blockno < |c.disk|
      modifies this`c, this`sched
      ensures Valid() && |sched| <= |old(sched)| && (old(Bounded(ours)) ==> Bounded(ours))
      ensures Used(old(c), c, h, i) && Held(c, flat, h, i, old(c.bufs[i].blockno))
      ensures old(sched) == [] ==> c == Fill(old(c), i)
    {
      Others(ours);
      ghost var m := c;
      assert Stays(old(c).bufs[i], c.bufs[i]);
      FillKeepsInv(c, flat, h, i);
      OursKeepCrowd(c, FillStep(h, i), readers, ours);
      c := Fill(c, i);
      FillIsUse(m, h, i);
      BystoodIsUsed(old(c), m, h, i);
      UsedTransitive(old(c), m, c, h, i);
    }

    /** The rest of bread after bget's critical section. */
    method LockAndLoad(h: Handle, i: nat, ghost ours: set<Handle>) returns (ok: bool)
      requires Valid() && Ours(h) && i < |c.bufs| && h in c.bufs[i].refs && Keyed(c.bufs[i], DISK_DEV, c.bufs[i].blockno)
      requires 0 <= c.bufs[i].blockno < |c.disk|
      modifies this`c, this`sched
      ensures Valid() && |sched| <= |old(sched)| && c.disk == old(c.disk) && (old(Bounded(ours)) ==> Bounded(ours))
      ensures ok ==> Used(old(c), c, h, i) && Held(c, flat, h, i, old(c.bufs[i].blockno))
      ensures old(sched) == [] ==> (ok <==> old(c.bufs[i].holder.None?)) && (ok ==> c == Fill(Lock(old(c), h, i), i))
    {
      ok := Acquire(h, i, ours);
      if ok {
        ghost var m := c;
        Load(h, i, ours);
        UsedTransitive(old(c), m, c, h, i);
      }
    }

    /** bread. */
    method BRead(h: Handle, bno: int, ghost pinned: seq<int>, ghost ours: set<Handle>) returns (i: nat, ok: bool)
      requires Valid() && Ours(h) && Unused(c, h) && 0 <= bno < |c.disk|
      modifies this`c, this`sched, this`panicked
      ensures old(Bounded(ours)) && ok ==> Bounded(ours + {h})
      ensures old(Spare(pinned, ours)) || DirtyFor(old(c), bno) ==> panicked == old(panicked)
      ensures Valid() && |sched| <= |old(sched)| && c.disk == old(c.disk)
      ensures ok ==> Used(old(c), c, h, i) && Held(c, flat, h, i, bno)
      ensures old(sched) == [] && ok ==> ReadAlone(old(c), c, h, i)
      ensures old(sched) == [] && Unlocked(old(c), bno) ==> (ok <==> Found(old(c), bno))
      ensures old(sched) == [] && !Found(old(c), bno) ==> !ok
    {
      ghost var c0 := c;
      i, ok := Take(h, bno, pinned, ours);
      if ok {
        ghost var m := c;
        ok := LockAndLoad(h, i, ours + {h});
        if ok {
          UsedTransitive(c0, m, c, h, i);
        }
        ReadIsAlone(c0, m, c, h, i, bno);
      }
    }

    /** bwrite of new contents. */
    method BWrite(h: Handle, i: nat, data: Block, ghost ours: set<Handle>)
      requires Valid() && Ours(h) && i < |c.bufs| && Held(c, flat, h, i, c.bufs[i].blockno) && 1 - h !in c.bufs[i].refs
      modifies this`c, this`flat, this`sched
      ensures Valid() && |sched| <= |old(sched)| && (old(Bounded(ours)) ==> Bounded(ours))
      ensures |old(flat)| == |old(c.disk)| && Wrote(old(c), c, h, i, data)
      ensures flat == old(flat)[old(c.bufs[i].blockno) := data]
      ensures old(sched) == [] ==> WroteAlone(old(c), c, i)
    {
      assert BufOk(c.bufs[i], c.disk);
      ModifyKeepsInv(c, flat, h, i, data);
      flat := ApplyFlat(c, flat, ModifyStep(h, i, data));
      OursKeepCrowd(c, ModifyStep(h, i, data), readers, ours);
      c := Modify(c, i, data);
      ghost var c1 := c;
      Others(ours);
      assert Stays(c1.bufs[i], c.bufs[i]) && BufOk(c.bufs[i], c.disk);
      ghost var c2 := c;
      WriteKeepsInv(c, flat, h, i);
      OursKeepCrowd(c, WriteStep(h, i), readers, ours);
      c := Write(c, i);
      WriteIsRight(old(c), c1, c2, h, i, data);
    }

    method BRelse(h: Handle, i: nat, ghost ours: set<Handle>)
      requires Valid() && Ours(h) && Holds(c, h, i) && !c.bufs[i].touched
      modifies this`c, this`sched
      ensures Valid() && |sched| <= |old(sched)| && (old(Bounded(ours)) ==> Bounded(ours - {h}))
      ensures Used(old(c), c, h, i) && h !in c.bufs[i].refs
      ensures old(sched) == [] ==> ReleasedAlone(old(c), c, h, i)
    {
      ghost var c0 := c;
      assert BufOk(c.bufs[i], c.disk);
      MarkKeepsInv(c, flat, UnlockStep(h, i), i);
      OursKeepCrowd(c, UnlockStep(h, i), readers, ours);
      c := Unlock(c, i);
      ghost var c1 := c;
      Others(ours);
      ghost var c2 := c;
      assert Stays(c1.bufs[i], c.bufs[i]) && BufOk(c.bufs[i], c.disk);
      assert c.bufs[i].refs != {};
      PutKeepsInv(c, flat, h, i);
      OursKeepCrowd(c, PutStep(h, i), readers, ours);
      c := Put(c, h, i);
      ReleaseIsUse(c0, c1, c2, h, i);
    }

    // -------------------------------------------------------------- blocks to and from the log

    /** The first bread, when commit has no buffer. */
    method ReadFirst(bno: int, ghost pinned: seq<int>) returns (i: nat, ok: bool)
      requires Valid() && Calm(c) && 0 <= bno < |c.disk|
      modifies this`c, this`sched, this`panicked
      ensures Valid() && |sched| <= |old(sched)| && c.disk == old(c.disk) && (old(Bounded({})) && ok ==> Bounded({0}))
      ensures old(Spare(pinned, {})) ==> panicked == old(panicked)
      ensures ok ==> Used(old(c), c, 0, i) && Held(c, flat, 0, i, bno)
      ensures old(sched) == [] && ok ==> ReadAlone(old(c), c, 0, i)
      ensures old(Alone()) && (OneFree(old(c)) || TwoFree(old(c))) ==> ok
      ensures old(sched) == [] && !Found(old(c), bno) ==> !ok
    {
      FreeIsFound(c, bno);
      i, ok := BRead(0, bno, pinned, {});
      assert {} + {0} == {0};
    }

    /** The second of two breads. */
    method ReadSecond(ghost c0: Cache, ghost i: nat, ghost a: int, b: int, ghost pinned: seq<int>, ghost alone: bool) returns (j: nat, ok: bool)
      requires Valid() && Inv(c0) && Calm(c0) && a != b && 0 <= b < |c.disk| && Used(c0, c, 0, i) && Held(c, flat, 0, i, a)
      requires alone ==> sched == [] && ReadAlone(c0, c, 0, i)
      modifies this`c, this`sched, this`panicked
      ensures |sched| <= |old(sched)| && c.disk == old(c.disk) && (old(Bounded({0})) && ok ==> Bounded({0, 1}))
      ensures DirtyFor(c0, b) || (old(Bounded({0})) && Roomy(c0, readers, pinned, {}) && |pinned| + |readers| + 1 < |c0.bufs|) ==> panicked == old(panicked)
      ensures ok ==> Valid() && PairRead(c, flat, i, j, a, b) && SamePins(c0, c)
      ensures ok && alone && Quiet(c0) ==> PairAlone(c, i, j)
      ensures alone && Quiet(c0) && (TwoFree(c0) || DirtyFor(c0, b)) ==> ok
    {
      ghost var c1 := c;
      BeforeSecond(c0, c1, flat, i, a, b, pinned, readers, alone);
      j, ok := BRead(1, b, pinned, {0});
      if ok {
        AfterSecond(c0, c1, c, flat, i, j, a, b);
      }
    }

    /** Two breads of different blocks. */
    method ReadPair(a: int, b: int, ghost pinned: seq<int>) returns (i: nat, j: nat, ok: bool)
      requires Valid() && Calm(c) && 0 <= a < |c.disk| && 0 <= b < |c.disk| && a != b
      modifies this`c, this`sched, this`panicked
      ensures |sched| <= |old(sched)| && c.disk == old(c.disk) && (old(Bounded({})) && ok ==> Bounded({0, 1}))
      ensures old(Spare(pinned, {})) && (DirtyFor(old(c), b) || |pinned| + |readers| + 1 < |old(c.bufs)|) ==> panicked == old(panicked)
      ensures ok ==> Valid() && PairRead(c, flat, i, j, a, b) && SamePins(old(c), c)
      ensures ok && old(Alone()) ==> PairAlone(c, i, j)
      ensures old(Alone()) && (TwoFree(old(c)) || (OneFree(old(c)) && DirtyFor(old(c), b))) ==> ok
      ensures old(sched) == [] && !Found(old(c), a) ==> !ok
    {
      j := 0;
      ghost var c0 := c;
      i, ok := ReadFirst(a, pinned);
      if ok {
        j, ok := ReadSecond(c0, i, a, b, pinned, old(sched) == []);
      }
    }

    /** Copy the held block src over the held block dst, write it and release both. */
    method Transfer(h: Handle, i: nat, dst: int, g: Handle, j: nat, src: int)
      requires Valid() && Ours(h) && g == 1 - h && src != dst
      requires if h == 0 then PairRead(c, flat, i, j, dst, src) else PairRead(c, flat, j, i, src, dst)
      modifies this`c, this`flat, this`sched
      ensures Valid() && |sched| <= |old(sched)| && Calm(c) && |old(flat)| == |old(c.disk)| && (old(Bounded({0, 1})) ==> Bounded({}))
      ensures c.disk == old(c.disk)[dst := old(flat)[src]]
      ensures flat == old(flat)[dst := old(flat)[src]]
      ensures Washed(old(c), c, dst)
      ensures old(sched) == [] && PairAlone(old(c), if h == 0 then i else j, if h == 0 then j else i) ==> Quiet(c)
    {
      ghost var c0, f0 := c, flat;
      BWrite(h, i, c.bufs[j].data, {0, 1});
      ghost var c1 := c;
      SourceStays(c0, c1, f0, flat, h, i, dst, j, src);
      BRelse(g, j, {0, 1});
      ghost var c2 := c;
      TargetStays(c1, c2, h, i, j);
      BRelse(h, i, {0, 1} - {g});
      assert {0, 1} - {g} - {h} == {};
      OnlyOneKeyed(c0, i, dst);
      TransferIsRight(c0, c1, c2, c, h, i, dst, j);
    }

    /** The body of the loops of write_log and install_trans: read the log block, read
        the home block, copy one to the other and write that one. */
    method Copy(logBlock: int, home: int, toLog: bool, ghost pinned: set<int>, ghost list: seq<int>) returns (ok: bool)
      requires Valid() && Calm(c) && PinnedIn(c, pinned)
      requires 0 <= logBlock < |c.disk| && 0 <= home < |c.disk| && logBlock != home
      modifies this`c, this`flat, this`sched, this`panicked
      ensures !ok ==> c.disk == old(c.disk)
      ensures |old(flat)| == |old(c.disk)| && (old(Bounded({})) && ok ==> Bounded({}))
      ensures old(Spare(list, {})) && (DirtyFor(old(c), home) || |list| + |readers| + 1 < |old(c.bufs)|) ==> panicked == old(panicked)
      ensures var src, dst := if toLog then home else logBlock, if toLog then logBlock else home;
        ok ==>
        && Valid() && Calm(c)
        && c.disk == old(c.disk)[dst := old(flat)[src]]
        && flat == old(flat)[dst := old(flat)[src]]
        && PinnedIn(c, pinned - {dst}) && Washed(old(c), c, dst)
      ensures ok && old(Alone()) ==> Alone()
      ensures old(Alone()) && (TwoFree(old(c)) || (OneFree(old(c)) && DirtyFor(old(c), home))) ==> ok
      ensures old(sched) == [] && !Found(old(c), logBlock) ==> !ok
    {
      var i, j;
      ghost var c0 := c;
      i, j, ok := ReadPair(logBlock, home, list);
      if ok {
        ghost var c1 := c;
        if toLog {
          Transfer(0, i, logBlock, 1, j, home);
        } else {
          Transfer(1, j, home, 0, i, logBlock);
        }
        PairThenWashed(c0, c1, c, if toLog then logBlock else home);
        WashedPins(c0, c, pinned, if toLog then logBlock else home);
      }
    }

    /** bwrite and brelse of new contents for a block that was read in c0. */
    method Rewrite(ghost c0: Cache, i: nat, ghost bno: int, data: Block, ghost pinned: set<int>)
      requires Valid() && Calm(c0) && Used(c0, c, 0, i) && Held(c, flat, 0, i, bno) && PinnedIn(c0, pinned) && bno !in pinned
      modifies this`c, this`flat, this`sched
      ensures Valid() && Calm(c) && Washed(c0, c, bno) && PinnedIn(c, pinned) && (old(Bounded({0})) ==> Bounded({}))
      ensures |sched| <= |old(sched)| && |old(flat)| == |old(c.disk)| && c.disk == old(c.disk)[bno := data] && flat == old(flat)[bno := data]
      ensures old(sched) == [] && Quiet(c0) && ReadAlone(c0, old(c), 0, i) ==> Quiet(c)
    {
      assert {0} - {0} == {};
      ghost var c1 := c;
      StillUnusedOne(c0, c1, i);
      OnlyOneKeyed(c1, i, bno);
      BWrite(0, i, data, {0});
      ghost var c2 := c;
      BRelse(0, i, {0});
      WrittenOnce(c0, c1, c2, c, i, bno, data);
      WashedPins(c0, c, pinned, bno);
      assert pinned - {bno} == pinned;
    }

    /** write_head: the header block takes the in-memory list. */
    method WriteHead() returns (ok: bool)
      requires Valid() && Calm(c) && |lh| <= LOGSIZE && PinnedIn(c, Blocks(lh))
      requires r.start !in lh
      modifies this`c, this`flat, this`sched, this`panicked
      ensures !ok ==> c.disk == old(c.disk)
      ensures |old(flat)| == |old(c.disk)| && r.start < |old(c.disk)| && (old(Bounded({})) && ok ==> Bounded({}))
      ensures old(Spare(lh, {})) ==> panicked == old(panicked)
      ensures ok ==> Valid() && Calm(c) && PinnedIn(c, Blocks(lh))
      ensures ok ==> IsHeaded(r, old(c.disk), lh, c.disk) && IsHeaded(r, old(flat), lh, flat)
      ensures ok ==> Washed(old(c), c, r.start)
      ensures ok && old(Alone()) ==> Alone()
      ensures old(Alone()) && OneFree(old(c)) ==> ok
    {
      ghost var c0, f0 := c, flat;
      UnpinnedIsOnDisk(c, flat, Blocks(lh), r.start);
      var i;
      i, ok := ReadFirst(r.start, lh);
      if ok {
        var head := FillHead(c.bufs[i].data, lh);
        Rewrite(c0, i, r.start, head, Blocks(lh));
      }
    }

    /** read_head. */
    method ReadHead() returns (ok: bool)
      requires Valid() && Calm(c) && PinnedIn(c, {}) && HeadOk(c.disk[r.start])
      modifies this`c, this`lh, this`sched, this`panicked
      ensures c.disk == old(c.disk) && (old(Bounded({})) && ok ==> Bounded({}))
      ensures old(Spare([], {})) ==> panicked == old(panicked)
      ensures ok ==> |c.bufs| == |old(c.bufs)|
      ensures ok ==> Valid() && Calm(c) && PinnedIn(c, {}) && lh == HeadList(c.disk[r.start])
      ensures ok && old(Alone()) ==> Alone()
      ensures old(Alone()) && OneFree(old(c)) ==> ok
      ensures ok ==> (TwoFree(old(c)) ==> TwoFree(c))
    {
      ghost var c0 := c;
      UnpinnedIsOnDisk(c, flat, {}, r.start);
      var i;
      i, ok := ReadFirst(r.start, []);
      if ok {
        assert {0} - {0} == {};
        ghost var c1 := c;
        lh := DrainHead(c.bufs[i].data);
        BRelse(0, i, {0});
        ReadOnce(c0, c1, c, i);
      }
    }

    method LogNext(tail: nat, ghost next: nat, ghost d0: Disk, ghost f0: Disk, ghost steps: seq<Disk>) returns (ok: bool, ghost more: seq<Disk>)
      requires |d0| == |f0| && GoodList(r, lh, |d0|) && tail < |lh| && next == tail + 1 && Logging(r, c, flat, lh, d0, f0, tail, steps)
      modifies this`c, this`flat, this`sched, this`panicked
      ensures old(Bounded({})) && ok ==> Bounded({})
      ensures old(Spare(lh, {})) && Ready(old(c), lh) ==> panicked == old(panicked)
      ensures ok ==> Logging(r, c, flat, lh, d0, f0, next, more) && |c.bufs| == |old(c.bufs)|
      ensures ok && Ready(old(c), lh) ==> Ready(c, lh)
      ensures ok && old(Alone()) ==> Alone()
      ensures old(Alone()) && AllPinned(old(c), lh) ==> (ok <==> OneFree(old(c)))
    {
      ghost var c0, flat0 := c, flat;
      var b := r.start + tail + 1;
      NoRoomToLog(r, c, lh, |d0|, b);
      assert AllPinned(c, lh) ==> DirtyFor(c, lh[tail]);
      ok := Copy(b, lh[tail], true, Blocks(lh), lh);
      more := steps + [c.disk];
      if ok {
        NextLogged(r, c0, flat0, lh, d0, f0, tail, steps, b, c, flat);
        StillReady(r, |d0|, c0, c, lh, b);
      }
    }

    /** write_log: what it logs is the newest contents of the listed blocks. */
    method WriteLog() returns (ok: bool, ghost steps: seq<Disk>)
      requires Valid() && Calm(c) && PinnedIn(c, Blocks(lh)) && GoodList(r, lh, |c.disk|)
      modifies this`c, this`flat, this`sched, this`panicked
      ensures |old(flat)| == |old(c.disk)| && LogSteps(r, old(c.disk), Newest(old(flat), lh), steps)
      ensures ok ==> Logging(r, c, flat, lh, old(c.disk), old(flat), |lh|, steps) && |c.bufs| == |old(c.bufs)|
      ensures ok && Ready(old(c), lh) ==> Ready(c, lh)
      ensures old(Bounded({})) && ok ==> Bounded({})
      ensures old(Spare(lh, {})) && Ready(old(c), lh) ==> panicked == old(panicked)
      ensures old(Alone()) && Ready(old(c), lh) ==> ok && Alone()
      ensures old(Alone()) && AllPinned(old(c), lh) ==> (ok <==> lh == [] || OneFree(old(c)))
    {
      ghost var d0, f0 := c.disk, flat;
      ghost var ready, safe, alone := Ready(c, lh), Spare(lh, {}) && Ready(c, lh), Alone();
      ghost var stuck := Alone() && AllPinned(c, lh) && !OneFree(c);
      steps := [];
      var tail := 0;
      while tail < |lh|
        invariant 0 <= tail <= |lh| && Logging(r, c, flat, lh, d0, f0, tail, steps)
        invariant (ready ==> Ready(c, lh)) && (alone ==> Alone()) && |c.bufs| == |old(c.bufs)|
        invariant old(Bounded({})) ==> Bounded({})
        invariant safe ==> panicked == old(panicked)
        invariant stuck ==> tail == 0 && c == old(c)
      {
        var next := tail + 1;
        ghost var more;
        ok, more := LogNext(tail, next, d0, f0, steps);
        if !ok { return; }
        tail, steps := next, more;
      }
      ok := true;
    }

    /** Copy log block tail + 1 home. */
    method CopyHome(tail: nat, ghost next: nat, ghost list: seq<int>) returns (ok: bool)
      requires Valid() && Calm(c) && GoodList(r, lh, |c.disk|) && tail < |lh| && next == tail + 1
      requires PinnedIn(c, Rest(lh, tail)) && PinnedIn(c, Blocks(list))
      modifies this`c, this`flat, this`sched, this`panicked
      ensures |old(flat)| == |old(c.disk)|
      ensures ok ==> Valid() && Calm(c) && PinnedIn(c, Rest(lh, tail) - {lh[tail]}) && |c.bufs| == |old(c.bufs)| && PinnedIn(c, Blocks(list))
      ensures ok ==> c.disk == old(c.disk)[lh[tail] := old(flat)[r.start + 1 + tail]] && flat == old(flat)[lh[tail] := old(flat)[r.start + 1 + tail]]
      ensures old(Bounded({})) && ok ==> Bounded({})
      ensures old(Spare(list, {})) && (Ready(old(c), lh[tail..]) || |list| + |readers| + 1 < |old(c.bufs)|) ==> panicked == old(panicked)
      ensures ok && old(Alone()) ==> Alone()
      ensures old(Alone()) && (TwoFree(old(c)) || Ready(old(c), lh[tail..])) ==> ok
      ensures ok ==> (Ready(old(c), lh[tail..]) ==> Ready(c, lh[next..])) && (TwoFree(old(c)) ==> TwoFree(c))
    {
      ghost var c0 := c;
      FirstIsDirty(c, lh, tail);
      ok := Copy(r.start + 1 + tail, lh[tail], false, Rest(lh, tail), list);
      if ok {
        RoomStays(c0, c, lh, tail);
        WashedPins(c0, c, Blocks(list), lh[tail]);
      }
    }

    method InstallNext(tail: nat, ghost next: nat, ghost d0: Disk, ghost f0: Disk, ghost steps: seq<Disk>, ghost list: seq<int>)
      returns (ok: bool, ghost more: seq<Disk>)
      requires |d0| == |f0| && GoodList(r, lh, |d0|) && tail < |lh| && next == tail + 1 && PinnedIn(c, Blocks(list))
      requires Installing(r, c, flat, lh, d0, f0, tail, steps)
      modifies this`c, this`flat, this`sched, this`panicked
      ensures ok ==> Installing(r, c, flat, lh, d0, f0, next, more) && |c.bufs| == |old(c.bufs)| && PinnedIn(c, Blocks(list))
      ensures old(Bounded({})) && ok ==> Bounded({})
      ensures old(Spare(list, {})) && (Ready(old(c), lh[tail..]) || |list| + |readers| + 1 < |old(c.bufs)|) ==> panicked == old(panicked)
      ensures ok && old(Alone()) ==> Alone()
      ensures old(Alone()) && (TwoFree(old(c)) || Ready(old(c), lh[tail..])) ==> ok
      ensures ok ==> (Ready(old(c), lh[tail..]) ==> Ready(c, lh[next..])) && (TwoFree(old(c)) ==> TwoFree(c))
    {
      ghost var c0, flat0 := c, flat;
      ok := CopyHome(tail, next, list);
      more := steps + [c.disk];
      if ok {
        NextInstalled(r, c0, flat0, lh, d0, f0, tail, steps, c, flat);
      }
    }

    /** install_trans: copy the logged blocks home. */
    method InstallTrans(ghost list: seq<int>) returns (ok: bool, ghost steps: seq<Disk>)
      requires Valid() && Calm(c) && PinnedIn(c, Blocks(lh)) && PinnedIn(c, Blocks(list)) && GoodList(r, lh, |c.disk|)
      modifies this`c, this`flat, this`sched, this`panicked
      ensures |old(flat)| == |old(c.disk)| && InstallSteps(r, old(c.disk), lh, steps)
      ensures ok ==> Installing(r, c, flat, lh, old(c.disk), old(flat), |lh|, steps) && |c.bufs| == |old(c.bufs)|
      ensures old(Bounded({})) && ok ==> Bounded({})
      ensures old(Spare(list, {})) && (Ready(old(c), lh) || |list| + |readers| + 1 < |old(c.bufs)|) ==> panicked == old(panicked)
      ensures old(Alone()) && (TwoFree(old(c)) || Ready(old(c), lh)) ==> ok && Alone() && OneFree(c)
    {
      ghost var d0, f0 := c.disk, flat;
      steps := [];
      assert Blocks(lh) == Rest(lh, 0) && lh[0..] == lh;
      ghost var safe := Spare(list, {}) && (Ready(c, lh) || |list| + |readers| + 1 < |c.bufs|);
      var tail := 0;
      while tail < |lh|
        invariant 0 <= tail <= |lh| && Installing(r, c, flat, lh, d0, f0, tail, steps)
        invariant (old(Alone()) ==> Alone()) && (Ready(old(c), lh) ==> Ready(c, lh[tail..])) && (TwoFree(old(c)) ==> TwoFree(c))
        invariant |c.bufs| == |old(c.bufs)| && PinnedIn(c, Blocks(list)) && (old(Bounded({})) ==> Bounded({}))
        invariant safe ==> panicked == old(panicked)
      {
        var next := tail + 1;
        ghost var more;
        ok, more := InstallNext(tail, next, d0, f0, steps, list);
        if !ok { return; }
        tail, steps := next, more;
      }
      ok := true;
    }

    /** The second half of commit, and of recover_from_log: install, then empty the header. */
    method InstallAndClear(ghost list: seq<int>) returns (ok: bool, ghost steps: seq<Disk>)
      requires Valid() && Calm(c) && PinnedIn(c, Blocks(lh)) && PinnedIn(c, Blocks(list)) && |flat| == |c.disk|
      requires Recoverable(r, c.disk) && lh == HeadList(c.disk[r.start])
      requires flat[r.start] == c.disk[r.start]
      modifies this
      ensures forall k :: 0 <= k < |steps| ==> RecoverPoint(r, old(c.disk), steps[k])
      ensures ok ==> Valid() && Calm(c) && lh == [] && PinnedIn(c, {}) && |steps| == |old(lh)| + 1
      ensures ok ==> IsRecovered(r, old(c.disk), c.disk) && Recoverable(r, old(flat)) && IsRecovered(r, old(flat), flat)
      ensures old(Spare(list, {})) && (Ready(old(c), old(lh)) || |list| + |readers| + 1 < |old(c.bufs)|) ==> panicked == old(panicked)
      ensures old(Bounded({})) && ok ==> Bounded({})
      ensures old(Alone()) && (TwoFree(old(c)) || Ready(old(c), old(lh))) ==> ok
    {
      ghost var d0, f0 := c.disk, flat;
      ok, steps := InstallTrans(list);
      if !ok { return; }
      ghost var m, fm := c.disk, flat;
      assert IsInstalled(r, d0, lh, |lh|, m) && IsInstalled(r, f0, lh, |lh|, fm);
      assert Rest(lh, |lh|) == {} && Blocks([]) == {};
      lh := [];
      ok := WriteHead();
      if !ok { return; }
      assert IsRecovered(r, d0, c.disk) && IsRecovered(r, f0, flat);
      steps := steps + [c.disk];
    }

    /** The first half of commit: log the blocks, then the header. */
    method LogAndHead() returns (ok: bool, ghost steps: seq<Disk>)
      requires Valid() && Calm(c) && PinnedIn(c, Blocks(lh)) && GoodList(r, lh, |c.disk|)
      modifies this`c, this`flat, this`sched, this`panicked
      ensures |old(flat)| == |old(c.disk)| && LogSteps(r, old(c.disk), Newest(old(flat), lh), steps)
      ensures ok ==> Valid() && Calm(c) && PinnedIn(c, Blocks(lh)) && |steps| == |lh| && |c.bufs| == |old(c.bufs)|
      ensures ok && Ready(old(c), lh) ==> Ready(c, lh)
      ensures old(Bounded({})) && ok ==> Bounded({})
      ensures old(Spare(lh, {})) && Ready(old(c), lh) ==> panicked == old(panicked)
      ensures ok ==> Committed(r, old(c.disk), lh, Newest(old(flat), lh), c.disk)
      ensures ok ==> Committed(r, old(flat), lh, Newest(old(flat), lh), flat)
      ensures old(Alone()) && Ready(old(c), lh) ==> ok && Alone()
      ensures old(Alone()) && AllPinned(old(c), lh) && ok ==> lh == [] || OneFree(old(c))
    {
      ok, steps := WriteLog();
      if ok {
        ghost var c1 := c;
        ok := WriteHead();
        if ok && Ready(old(c), lh) {
          WashedReady(c1, c, r.start, lh, lh);
        }
      }
    }

    /** commit: whatever happens every disk on the way is a commit point, and at the end
        the home blocks on disk are the newest contents and nothing is pinned. */
    method Commit() returns (ok: bool, ghost steps: seq<Disk>)
      requires Valid() && Calm(c) && PinnedIn(c, Blocks(lh)) && GoodList(r, lh, |c.disk|) && Clean(r, c.disk)
      modifies this
      ensures |old(flat)| == |old(c.disk)|
      ensures CommitSteps(r, old(c.disk), old(lh), Newest(old(flat), old(lh)), steps)
      ensures ok ==> Valid() && Calm(c) && lh == [] && PinnedIn(c, {}) && Clean(r, c.disk)
      ensures ok ==> SameHome(r, old(flat), c.disk) && SameHome(r, old(flat), flat)
      ensures ok && old(lh) != [] ==> |steps| == 2 * |old(lh)| + 2
      ensures old(Bounded({})) && ok ==> Bounded({})
      ensures old(Bounded({})) && Ready(old(c), old(lh)) && |old(lh)| + |readers| < |old(c.bufs)| ==> panicked == old(panicked)
      ensures old(Alone()) && Ready(old(c), old(lh)) ==> ok
      ensures old(Alone()) && AllPinned(old(c), old(lh)) ==> (ok <==> old(lh) == [] || OneFree(old(c)))
    {
      ghost var c0, f0, lh0 := c, flat, lh;
      steps := [];
      ok := true;
      if |lh| == 0 {
        CleanIsNewest(r, c0, f0);
        return;
      }
      ok, steps := LogAndHead();
      LogStepsAreCommitSteps(r, c0.disk, lh0, Newest(f0, lh0), steps);
      if !ok { return; }
      ghost var h, fh := c.disk, flat;
      CommittedRecovers(r, c0.disk, lh0, Newest(f0, lh0), h, h);
      UnpinnedIsOnDisk(c, flat, Blocks(lh0), r.start);
      ghost var more;
      ok, more := InstallAndClear(lh0);
      CommitStepsJoin(r, c0.disk, lh0, Newest(f0, lh0), steps, h, more);
      steps := steps + [h] + more;
      if ok {
        CommitIsNewest(r, c0, f0, lh0, h, c.disk, fh, flat);
      }
    }

    /** recover_from_log. */
    method RecoverFromLog() returns (ok: bool, ghost steps: seq<Disk>)
      requires Valid() && Calm(c) && PinnedIn(c, {}) && Recoverable(r, c.disk)
      modifies this
      ensures old(Bounded({})) && ok ==> Bounded({})
      ensures old(Bounded({})) && |readers| + 1 < |old(c.bufs)| ==> panicked == old(panicked)
      ensures forall k :: 0 <= k < |steps| ==> RecoverPoint(r, old(c.disk), steps[k])
      ensures ok ==> Valid() && Calm(c) && lh == [] && PinnedIn(c, {})
      ensures ok ==> IsRecovered(r, old(c.disk), c.disk) && Clean(r, c.disk) && SameHome(r, flat, c.disk)
      ensures old(Alone()) && TwoFree(old(c)) ==> ok
    {
      ghost var d0 := c.disk;
      steps := [];
      assert Blocks([]) == {} && readers + {} == readers;
      ok := ReadHead();
      if !ok { return; }
      UnpinnedIsOnDisk(c, flat, {}, r.start);
      ok, steps := InstallAndClear([]);
      if ok {
        RecoveredIsClean(r, d0, c.disk);
        CleanIsNewest(r, c, flat);
      }
    }

    /** A machine that starts on this disk image. */
    constructor (region: Region, image: Disk, nbuf: nat, others: seq<seq<Step>>, ghost handles: Foreign)
      requires region.start + region.size <= |image| && 0 < region.size
      ensures !panicked && readers == handles && (Readers(others, handles) ==> Bounded({}))
      ensures r == region && c == Boot(image, nbuf) && flat == image && lh == [] && sched == others
      ensures Valid() && Calm(c) && Quiet(c) && PinnedIn(c, {}) && (nbuf >= 2 ==> TwoFree(c))
    {
      r := region;
      c := Boot(image, nbuf);
      flat := image;
      lh := [];
      sched := others;
      readers := handles;
      panicked := false;
      BootRefines(image, nbuf);
      new;
      assert nbuf >= 2 ==> !c.bufs[0].dirty && !c.bufs[1].dirty;
    }

    /** log_write after its capacity checks: absorb or append the block, and pin it. */
    method LogWrite(h: Handle, i: nat)
      requires Valid() && Holds(c, h, i) && c.bufs[i].valid && PinnedIn(c, Blocks(lh))
      modifies this`c, this`lh
      ensures Valid() && c == Pin(old(c), i) && PinnedIn(c, Blocks(lh))
      ensures lh == Absorb(old(lh), old(c.bufs)[i].blockno)
      ensures (forall k :: 0 <= k < |old(lh)| ==> DirtyFor(old(c), old(lh)[k])) ==> forall k :: 0 <= k < |lh| ==> DirtyFor(c, lh[k])
    {
      ghost var c0, lh0 := c, lh;
      var b := c.bufs[i].blockno;
      var k := 0;
      while k < |lh|
        invariant 0 <= k <= |lh| && forall j :: 0 <= j < k ==> lh[j] != b
      {
        if lh[k] == b { break; }
        k := k + 1;
      }
      if k == |lh| {
        lh := lh + [b];
      } else {
        assert b in lh;
      }
      MarkKeepsInv(c, flat, PinStep(h, i), i);
      c := Pin(c, i);
      if forall k :: 0 <= k < |lh0| ==> DirtyFor(c0, lh0[k]) {
        forall j | 0 <= j < |lh| ensures DirtyFor(c, lh[j]) {
          PinKeepsDirty(c0, i, lh[j]);
        }
      }
    }
  }

  // ---------------------------------------------------------------- room

  ghost predicate Bound(c: Cache, sched: seq<seq<Step>>, readers: Foreign, ours: set<Handle>) {
    match c
    case Cache(_, _, _) => Readers(sched, readers) && Crowd(c, readers + ours)
  }

  ghost predicate Roomy(c: Cache, readers: Foreign, pinned: seq<int>, ours: set<Handle>) {
    match c
    case Cache(_, bufs, _) => PinnedIn(c, Blocks(pinned)) && |pinned| + |readers + ours| < |bufs|
  }

  /** What others do leaves the room there is. */
  lemma StillRoom(c: Cache, n: Cache, pinned: seq<int>, handles: set<Handle>, bno: int)
    requires Inv(n) && Bystood(c, n)
    ensures Crowd(n, handles) && PinnedIn(c, Blocks(pinned)) && |pinned| + |handles| < |c.bufs| ==> Found(n, bno)
    ensures DirtyFor(c, bno) ==> Found(n, bno)
  {
    forall k | 0 <= k < |n.bufs| ensures SamePin(c.bufs[k], n.bufs[k]) {
      assert Stays(c.bufs[k], n.bufs[k]);
    }
    if Crowd(n, handles) && PinnedIn(c, Blocks(pinned)) && |pinned| + |handles| < |c.bufs| {
      RoomIsThere(n, pinned, handles, bno);
    }
    if DirtyFor(c, bno) {
      var k :| 0 <= k < |c.bufs| && c.bufs[k].dirty && c.bufs[k].blockno == bno;
      assert n.bufs[k].dirty && n.bufs[k].blockno == bno;
      PinnedIsFound(n, bno);
    }
  }

  lemma RoomForSecond(c: Cache, n: Cache, i: nat, pinned: seq<int>, readers: Foreign, b: int)
    requires Used(c, n, 0, i)
    ensures DirtyFor(c, b) ==> DirtyFor(n, b)
    ensures PinnedIn(c, Blocks(pinned)) ==> PinnedIn(n, Blocks(pinned))
    ensures |readers + {0}| == |readers| + 1 && {} + {0} == {0}
  {
    forall k | 0 <= k < |n.bufs| ensures SamePin(c.bufs[k], n.bufs[k]) {
      assert k != i ==> Stays(c.bufs[k], n.bufs[k]);
    }
    if DirtyFor(c, b) {
      var k :| 0 <= k < |c.bufs| && c.bufs[k].dirty && c.bufs[k].blockno == b;
      assert n.bufs[k].dirty && n.bufs[k].blockno == b;
    }
  }

  // ---------------------------------------------------------------- one buffer at a time

  lemma StillUnused(c: Cache, n: Cache, h: Handle)
    requires Unused(c, h) && Bystood(c, n) && Ours(h)
    ensures Unused(n, h)
  {
    forall k | 0 <= k < |n.bufs| ensures h !in n.bufs[k].refs {
      assert Stays(c.bufs[k], n.bufs[k]);
    }
  }

  lemma BeforeSecond(c: Cache, n: Cache, flat: Disk, i: nat, a: int, b: int, pinned: seq<int>, readers: Foreign, alone: bool)
    requires Inv(c) && Inv(n) && Calm(c) && a != b && Used(c, n, 0, i) && Held(n, flat, 0, i, a) && (alone ==> ReadAlone(c, n, 0, i))
    ensures Unused(n, 1) && |n.bufs| == |c.bufs| && |readers + {0}| == |readers| + 1 && {0} + {1} == {0, 1}
    ensures alone && Quiet(c) ==> Unlocked(n, b) && (TwoFree(c) || DirtyFor(c, b) ==> Found(n, b))
    ensures (DirtyFor(c, b) ==> DirtyFor(n, b)) && (PinnedIn(c, Blocks(pinned)) ==> PinnedIn(n, Blocks(pinned)))
  {
    SecondRead(c, n, flat, i, a, b, alone);
    StillUnusedOne(c, n, i);
    RoomForSecond(c, n, i, pinned, readers, b);
  }

  lemma AfterSecond(c: Cache, m: Cache, n: Cache, flat: Disk, i: nat, j: nat, a: int, b: int)
    requires Calm(c) && a != b && Used(c, m, 0, i) && Held(m, flat, 0, i, a) && Used(m, n, 1, j) && Held(n, flat, 1, j, b)
    ensures PairRead(n, flat, i, j, a, b) && SamePins(c, n) && n.disk == c.disk
    ensures Quiet(c) && ReadAlone(c, m, 0, i) && ReadAlone(m, n, 1, j) ==> PairAlone(n, i, j)
  {
    PairIsRead(c, m, n, flat, i, j, a, b);
    PairIsAlone(c, m, n, i, j);
  }

  lemma StillUnusedOne(c: Cache, n: Cache, i: nat)
    requires Calm(c) && Used(c, n, 0, i)
    ensures Unused(n, 1)
  {
    forall k | 0 <= k < |n.bufs| ensures 1 !in n.bufs[k].refs {
      assert k != i ==> Stays(c.bufs[k], n.bufs[k]);
    }
  }

  lemma GetIsUse(c: Cache, h: Handle, bno: int, i: nat)
    requires Inv(c) && Ours(h) && i < |c.bufs| && (Keyed(c.bufs[i], DISK_DEV, bno) || Recyclable(c.bufs[i]))
    ensures Used(c, Get(c, h, DISK_DEV, bno, i), h, i)
  {
    assert BufOk(c.bufs[i], c.disk);
  }

  lemma LockIsUse(c: Cache, h: Handle, i: nat)
    requires Ours(h) && i < |c.bufs| && c.bufs[i].holder.None?
    ensures Used(c, Lock(c, h, i), h, i)
  {
  }

  lemma FillIsUse(c: Cache, h: Handle, i: nat)
    requires Ours(h) && Holds(c, h, i) && 0 <= c.bufs[i].blockno < |c.disk|
    ensures Used(c, Fill(c, i), h, i)
  {
  }

  /** From c to n, our handle h has written `data` through buffer i. */
  ghost predicate Wrote(c: Cache, n: Cache, h: Handle, i: nat, data: Block) {
    match c
    case Cache(disk, bufs, _) =>
      && |n.bufs| == |bufs| && i < |bufs| && 0 <= bufs[i].blockno < |disk| && n.disk == disk[bufs[i].blockno := data]
      && (forall k :: 0 <= k < |bufs| && k != i ==> Stays(bufs[k], n.bufs[k]))
      && n.bufs[i].blockno == bufs[i].blockno && !n.bufs[i].dirty && !n.bufs[i].touched
      && n.bufs[i].holder == Some(h) && h in n.bufs[i].refs && 1 - h !in n.bufs[i].refs
  }

  lemma WriteIsRight(c: Cache, c1: Cache, c2: Cache, h: Handle, i: nat, data: Block)
    requires Ours(h) && i < |c.bufs| && 0 <= c.bufs[i].blockno < |c.disk| && c1 == Modify(c, i, data) && Bystood(c1, c2)
    requires Holds(c, h, i) && h in c.bufs[i].refs && 1 - h !in c.bufs[i].refs && c.bufs[i].valid
    ensures 0 <= c2.bufs[i].blockno < |c2.disk| && Wrote(c, Write(c2, i), h, i, data)
    ensures c1 == c2 ==> WroteAlone(c, Write(c2, i), i)
  {
    assert Stays(c1.bufs[i], c2.bufs[i]);
    forall k | 0 <= k < |c.bufs| && k != i ensures Stays(c.bufs[k], c2.bufs[k]) {
      assert Stays(c1.bufs[k], c2.bufs[k]);
    }
  }

  lemma ReleaseIsUse(c: Cache, c1: Cache, c2: Cache, h: Handle, i: nat)
    requires Ours(h) && Holds(c, h, i) && c1 == Unlock(c, i) && Bystood(c1, c2) && c2.bufs[i].refcnt > 0
    ensures Used(c, Put(c2, h, i), h, i) && h !in Put(c2, h, i).bufs[i].refs
    ensures c1 == c2 ==> ReleasedAlone(c, Put(c2, h, i), h, i)
  {
    assert Stays(c1.bufs[i], c2.bufs[i]);
    forall k | 0 <= k < |c.bufs| && k != i ensures Stays(c.bufs[k], c2.bufs[k]) {
      assert Stays(c1.bufs[k], c2.bufs[k]);
    }
  }

  /** The source of a copy is still held after the write. */
  lemma SourceStays(c: Cache, n: Cache, f: Disk, g: Disk, h: Handle, i: nat, dst: int, j: nat, src: int)
    requires Ours(h) && (if h == 0 then PairRead(c, f, i, j, dst, src) else PairRead(c, f, j, i, src, dst))
    requires exists data :: Wrote(c, n, h, i, data)
    ensures Holds(n, 1 - h, j) && !n.bufs[j].touched
  {
    assert Stays(c.bufs[j], n.bufs[j]);
  }

  lemma TargetStays(c: Cache, n: Cache, h: Handle, i: nat, j: nat)
    requires Ours(h) && i != j && Used(c, n, 1 - h, j) && Holds(c, h, i) && !c.bufs[i].touched
    ensures Holds(n, h, i) && !n.bufs[i].touched
  {
    assert Stays(c.bufs[i], n.bufs[i]);
  }

  /** bwrite of buffer i and the two brelses. */
  lemma TransferIsRight(c: Cache, c1: Cache, c2: Cache, n: Cache, h: Handle, i: nat, dst: int, j: nat)
    requires Ours(h) && i < |c.bufs| && j < |c.bufs| && i != j && c.bufs[i].blockno == dst
    requires forall k :: 0 <= k < |c.bufs| ==> !c.bufs[k].touched && (k != i ==> h !in c.bufs[k].refs) && (k != j ==> 1 - h !in c.bufs[k].refs)
    requires forall k :: 0 <= k < |c.bufs| && c.bufs[k].dirty && c.bufs[k].blockno == dst ==> k == i
    requires (exists data :: Wrote(c, c1, h, i, data)) && Used(c1, c2, 1 - h, j) && 1 - h !in c2.bufs[j].refs && Used(c2, n, h, i) && h !in n.bufs[i].refs
    ensures Calm(n) && Washed(c, n, dst) && n.disk == c1.disk
    ensures PairAlone(c, if h == 0 then i else j, if h == 0 then j else i) && WroteAlone(c, c1, i) && ReleasedAlone(c1, c2, 1 - h, j) && ReleasedAlone(c2, n, h, i) ==> Quiet(n)
  {
    forall k | 0 <= k < |c.bufs| ensures PinAfter(c.bufs[k], n.bufs[k], dst) && 0 !in n.bufs[k].refs && 1 !in n.bufs[k].refs && !n.bufs[k].touched {
      assert k != i ==> Stays(c.bufs[k], c1.bufs[k]) && Stays(c2.bufs[k], n.bufs[k]);
      assert k != j ==> Stays(c1.bufs[k], c2.bufs[k]);
    }
  }

  lemma WashedPins(c: Cache, n: Cache, pinned: set<int>, dst: int)
    requires PinnedIn(c, pinned) && Washed(c, n, dst)
    ensures PinnedIn(n, pinned - {dst})
  {
    forall k | 0 <= k < |n.bufs| && n.bufs[k].dirty ensures n.bufs[k].blockno in pinned - {dst} {
      assert PinAfter(c.bufs[k], n.bufs[k], dst);
    }
  }

  lemma PairThenWashed(c: Cache, m: Cache, n: Cache, dst: int)
    requires SamePins(c, m) && Washed(m, n, dst)
    ensures Washed(c, n, dst)
  {
    forall k | 0 <= k < |c.bufs| ensures PinAfter(c.bufs[k], n.bufs[k], dst) {
      assert SamePin(c.bufs[k], m.bufs[k]) && PinAfter(m.bufs[k], n.bufs[k], dst);
    }
  }

  // ---------------------------------------------------------------- when nobody else runs

  /** The buffer of block bno, if there is one, is not locked. */
  ghost predicate Unlocked(c: Cache, bno: int) {
    match c
    case Cache(_, bufs, _) => forall k :: 0 <= k < |bufs| && Keyed(bufs[k], DISK_DEV, bno) ==> bufs[k].holder.None?
  }

  /** bread by h changed buffer i alone. */
  ghost predicate ReadAlone(c: Cache, n: Cache, h: Handle, i: nat) {
    match c
    case Cache(_, bufs, _) =>
      && |n.bufs| == |bufs| && i < |bufs| && (forall k :: 0 <= k < |bufs| && k != i ==> n.bufs[k] == bufs[k])
      && n.bufs[i].refs == bufs[i].refs + {h}
  }

  ghost predicate WroteAlone(c: Cache, n: Cache, i: nat) {
    match c
    case Cache(_, bufs, _) => |n.bufs| == |bufs| && forall k :: 0 <= k < |bufs| ==> n.bufs[k].refs == bufs[k].refs
  }

  ghost predicate ReleasedAlone(c: Cache, n: Cache, h: Handle, i: nat) {
    match c
    case Cache(_, bufs, _) =>
      |n.bufs| == |bufs| && forall k :: 0 <= k < |bufs| ==> n.bufs[k].refs == if k == i then bufs[k].refs - {h} else bufs[k].refs
  }

  /** Only commit uses buffers. */
  ghost predicate PairAlone(c: Cache, i: nat, j: nat) {
    match c
    case Cache(_, bufs, _) => forall k :: 0 <= k < |bufs| ==> bufs[k].refs == (if k == i then {0} else {}) + (if k == j then {1} else {})
  }

  lemma ReadIsAlone(c: Cache, m: Cache, n: Cache, h: Handle, i: nat, bno: int)
    requires Inv(c) && Ours(h) && Unused(c, h) && Used(c, m, h, i) && Keyed(m.bufs[i], DISK_DEV, bno) && 0 <= bno < |c.disk|
    ensures m == Get(c, h, DISK_DEV, bno, i) && Found(c, bno) && Choose(c, DISK_DEV, bno).value == i ==>
      (n == Fill(Lock(m, h, i), i) ==> ReadAlone(c, n, h, i)) && (Unlocked(c, bno) ==> m.bufs[i].holder.None?)
  {
    assert BufOk(c.bufs[i], c.disk);
    if m == Get(c, h, DISK_DEV, bno, i) && Found(c, bno) && Choose(c, DISK_DEV, bno).value == i {
      ChooseIsRight(c, DISK_DEV, bno);
      assert n == Fill(Lock(m, h, i), i) ==> n.bufs[i].refs == c.bufs[i].refs + {h};
    }
  }

  lemma PairIsAlone(c: Cache, m: Cache, n: Cache, i: nat, j: nat)
    ensures Quiet(c) && ReadAlone(c, m, 0, i) && ReadAlone(m, n, 1, j) ==> PairAlone(n, i, j)
  {
  }

  /** bread, bwrite and brelse of one block. */
  lemma WrittenOnce(c: Cache, c1: Cache, c2: Cache, n: Cache, i: nat, bno: int, data: Block)
    requires Calm(c) && Used(c, c1, 0, i) && c1.bufs[i].blockno == bno && Wrote(c1, c2, 0, i, data) && Used(c2, n, 0, i) && 0 !in n.bufs[i].refs
    requires forall k :: 0 <= k < |c1.bufs| && c1.bufs[k].dirty && c1.bufs[k].blockno == bno ==> k == i
    ensures Calm(n) && Washed(c, n, bno)
    ensures Quiet(c) && ReadAlone(c, c1, 0, i) && WroteAlone(c1, c2, i) && ReleasedAlone(c2, n, 0, i) ==> Quiet(n)
  {
    forall k | 0 <= k < |c.bufs| ensures PinAfter(c.bufs[k], n.bufs[k], bno) && 0 !in n.bufs[k].refs && 1 !in n.bufs[k].refs && !n.bufs[k].touched {
      assert k != i ==> Stays(c.bufs[k], c1.bufs[k]) && Stays(c1.bufs[k], c2.bufs[k]) && Stays(c2.bufs[k], n.bufs[k]);
    }
  }

  /** bread and brelse of one block. */
  lemma ReadOnce(c: Cache, c1: Cache, n: Cache, i: nat)
    requires Calm(c) && PinnedIn(c, {}) && Used(c, c1, 0, i) && Used(c1, n, 0, i) && 0 !in n.bufs[i].refs
    ensures Calm(n) && PinnedIn(n, {}) && (TwoFree(c) ==> TwoFree(n))
    ensures Quiet(c) && ReadAlone(c, c1, 0, i) && ReleasedAlone(c1, n, 0, i) ==> Quiet(n)
  {
    forall k | 0 <= k < |c.bufs| ensures SamePin(c.bufs[k], n.bufs[k]) && 0 !in n.bufs[k].refs && 1 !in n.bufs[k].refs && !n.bufs[k].touched {
      assert k != i ==> Stays(c.bufs[k], c1.bufs[k]) && Stays(c1.bufs[k], n.bufs[k]);
    }
    if TwoFree(c) {
      var j, k :| 0 <= j < k < |c.bufs| && !c.bufs[j].dirty && !c.bufs[k].dirty;
      assert !n.bufs[j].dirty && !n.bufs[k].dirty;
    }
  }

  lemma FreeIsFound(c: Cache, bno: int)
    requires Inv(c)
    ensures Quiet(c) ==> Unlocked(c, bno) && (OneFree(c) || TwoFree(c) ==> Found(c, bno))
  {
    if Quiet(c) {
      forall k | 0 <= k < |c.bufs| ensures c.bufs[k].holder.None? {
        assert BufOk(c.bufs[k], c.disk);
      }
      if k :| 0 <= k < |c.bufs| && !c.bufs[k].dirty {
        RecyclableIsFound(c, k, bno);
      }
    }
  }

  /** After the first bread there is still a buffer for the second one. */
  lemma SecondRead(c: Cache, n: Cache, flat: Disk, i: nat, a: int, b: int, alone: bool)
    requires Inv(c) && Inv(n) && a != b && Used(c, n, 0, i) && Held(n, flat, 0, i, a) && (alone ==> ReadAlone(c, n, 0, i))
    ensures alone && Quiet(c) ==> Unlocked(n, b) && (TwoFree(c) || DirtyFor(c, b) ==> Found(n, b))
  {
    if alone && Quiet(c) {
      forall k | 0 <= k < |c.bufs| ensures c.bufs[k].holder.None? {
        assert BufOk(c.bufs[k], c.disk);
      }
      if TwoFree(c) {
        var j, k :| 0 <= j < k < |c.bufs| && !c.bufs[j].dirty && !c.bufs[k].dirty;
        RecyclableIsFound(n, if j == i then k else j, b);
      } else if DirtyFor(c, b) {
        var k :| 0 <= k < |c.bufs| && c.bufs[k].dirty && c.bufs[k].blockno == b;
        assert k != i ==> n.bufs[k] == c.bufs[k];
        assert n.bufs[k].dirty && n.bufs[k].blockno == b;
        PinnedIsFound(n, b);
      }
    }
  }

  lemma NextInstalled(r: Region, c: Cache, flat: Disk, lh: seq<int>, d0: Disk, f0: Disk, tail: nat, steps: seq<Disk>, n: Cache, f: Disk)
    requires |d0| == |f0| && GoodList(r, lh, |d0|) && tail < |lh| && Installing(r, c, flat, lh, d0, f0, tail, steps)
    requires Sound(r, n, f) && Calm(n) && PinnedIn(n, Rest(lh, tail) - {lh[tail]})
    requires r.start + 1 + tail < |flat| == |c.disk| && lh[tail] < |flat|
    requires var logBlock, home := r.start + 1 + tail, lh[tail]; n.disk == c.disk[home := flat[logBlock]] && f == flat[home := flat[logBlock]]
    ensures Installing(r, n, f, lh, d0, f0, tail + 1, steps + [n.disk])
  {
    var logBlock, home := r.start + 1 + tail, lh[tail];
    assert InLog(r, logBlock);
    UnpinnedIsOnDisk(c, flat, Rest(lh, tail), logBlock);
    InstallOne(r, d0, lh, tail, c.disk);
    InstallOne(r, f0, lh, tail, flat);
    RestShrinks(lh, tail);
  }

  /** Writing the log leaves the room that commit needs. */
  lemma StillReady(r: Region, n: nat, c: Cache, c': Cache, lh: seq<int>, dst: int)
    requires Washed(c, c', dst) && GoodList(r, lh, n) && r.start < dst < r.start + r.size
    ensures Ready(c, lh) ==> Ready(c', lh)
  {
    if Ready(c, lh) {
      WashedReady(c, c', dst, lh, lh);
    }
  }

  lemma OnlyOneKeyed(c: Cache, i: nat, bno: int)
    requires Inv(c) && i < |c.bufs| && c.bufs[i].valid && c.bufs[i].blockno == bno
    ensures forall k :: 0 <= k < |c.bufs| && c.bufs[k].dirty && c.bufs[k].blockno == bno ==> k == i
  {
    forall k | 0 <= k < |c.bufs| && c.bufs[k].dirty && c.bufs[k].blockno == bno ensures k == i {
      assert BufOk(c.bufs[k], c.disk) && BufOk(c.bufs[i], c.disk);
    }
  }

  lemma FirstIsDirty(c: Cache, lh: seq<int>, tail: nat)
    requires tail < |lh|
    ensures Ready(c, lh[tail..]) ==> OneFree(c) && DirtyFor(c, lh[tail])
  {
    assert lh[tail..][0] == lh[tail];
  }

  lemma RoomStays(c: Cache, n: Cache, lh: seq<int>, tail: nat)
    requires tail < |lh| && Washed(c, n, lh[tail]) && forall j, k :: 0 <= j < k < |lh| ==> lh[j] != lh[k]
    ensures (Ready(c, lh[tail..]) ==> Ready(n, lh[tail + 1..])) && (TwoFree(c) ==> TwoFree(n))
  {
    WashedFree(c, n, lh[tail]);
    if Ready(c, lh[tail..]) {
      var rest := lh[tail + 1..];
      forall k | 0 <= k < |rest| ensures rest[k] != lh[tail] && rest[k] in lh[tail..] {
        assert rest[k] == lh[tail + 1 + k] == lh[tail..][k + 1];
      }
      WashedReady(c, n, lh[tail], lh[tail..], rest);
    }
  }

  lemma PinKeepsDirty(c: Cache, i: nat, b: int)
    requires i < |c.bufs| && (DirtyFor(c, b) || c.bufs[i].blockno == b)
    ensures DirtyFor(Pin(c, i), b)
  {
    if DirtyFor(c, b) {
      var k :| 0 <= k < |c.bufs| && c.bufs[k].dirty && c.bufs[k].blockno == b;
      assert Pin(c, i).bufs[k].dirty && Pin(c, i).bufs[k].blockno == b;
    } else {
      assert Pin(c, i).bufs[i].dirty && Pin(c, i).bufs[i].blockno == b;
    }
  }

  /** With more buffers than listed blocks, commit has the room it needs. */
  lemma RoomToCommit(c: Cache, lh: seq<int>)
    requires Inv(c) && PinnedIn(c, Blocks(lh)) && |lh| < |c.bufs| && forall k :: 0 <= k < |lh| ==> DirtyFor(c, lh[k])
    ensures Ready(c, lh)
  {
    FewPinned(c, lh);
  }

  lemma CleanIsNewest(r: Region, c: Cache, flat: Disk)
    requires Inv(c) && Represents(c, flat) && Calm(c) && PinnedIn(c, {})
    ensures SameHome(r, flat, c.disk)
  {
    forall b | 0 <= b < |flat| ensures flat[b] == c.disk[b] {
      UnpinnedIsOnDisk(c, flat, {}, b);
    }
  }

  /** After a commit the disk and the newest contents agree outside the log. */
  lemma CommitIsNewest(r: Region, c: Cache, flat: Disk, lh: seq<int>, h: Disk, e: Disk, fh: Disk, fe: Disk)
    requires Inv(c) && Represents(c, flat) && Calm(c) && PinnedIn(c, Blocks(lh)) && GoodList(r, lh, |c.disk|)
    requires Committed(r, c.disk, lh, Newest(flat, lh), h) && Recoverable(r, h) && IsRecovered(r, h, e)
    requires Committed(r, flat, lh, Newest(flat, lh), fh) && Recoverable(r, fh) && IsRecovered(r, fh, fe)
    ensures SameHome(r, flat, e) && SameHome(r, flat, fe) && Clean(r, e)
  {
    EndIsCommitStep(r, c.disk, lh, Newest(flat, lh), h, e);
    EndIsCommitStep(r, flat, lh, Newest(flat, lh), fh, fe);
    forall b | 0 <= b < |flat| && !InLog(r, b) ensures flat[b] == e[b] && flat[b] == fe[b] {
      if Named(lh, |lh|, b) {
        var k :| 0 <= k < |lh| && lh[k] == b;
      } else {
        UnpinnedIsOnDisk(c, flat, Blocks(lh), b);
      }
    }
  }

  /** The list after log_write: absorption keeps it free of duplicates. */
  function Absorb(lh: seq<int>, b: int): (lh': seq<int>)
    ensures Blocks(lh') == Blocks(lh) + {b} && lh <= lh' && |lh'| <= |lh| + 1
    ensures (forall j, k :: 0 <= j < k < |lh| ==> lh[j] != lh[k]) ==> forall j, k :: 0 <= j < k < |lh'| ==> lh'[j] != lh'[k]
  {
    if b in lh then lh else lh + [b]
  }

  /** The listed blocks from position tail on. */
  function Rest(lh: seq<int>, tail: nat): set<int> {
    set k | tail <= k < |lh| :: lh[k]
  }

  lemma RestShrinks(lh: seq<int>, tail: nat)
    requires tail < |lh|
    requires forall j, k :: 0 <= j < k < |lh| ==> lh[j] != lh[k]
    ensures Rest(lh, tail) - {lh[tail]} == Rest(lh, tail + 1)
  {
  }

  /** The newest contents of the listed blocks. */
  ghost function Newest(flat: Disk, lh: seq<int>): (data: seq<Block>)
    requires forall k :: 0 <= k < |lh| ==> 0 <= lh[k] < |flat|
    ensures |data| == |lh| && forall k :: 0 <= k < |lh| ==> data[k] == flat[lh[k]]
  {
    seq(|lh|, k requires 0 <= k < |lh| => flat[lh[k]])
  }

  /** write_head's loop over the header words. */
  method FillHead(was: Block, lh: seq<int>) returns (b: Block)
    requires |lh| <= LOGSIZE
    ensures b == HeadBlock(was, lh)
  {
    var w: seq<int> := was.words[0 := |lh|];
    var i := 0;
    while i < |lh|
      invariant 0 <= i <= |lh|
      invariant w == [|lh|] + lh[..i] + was.words[i + 1..]
    {
      w := w[i + 1 := lh[i]];
      i := i + 1;
    }
    assert lh[..i] == lh;
    b := Block(w);
  }

  /** read_head's loop over the header words. */
  method DrainHead(b: Block) returns (lh: seq<int>)
    requires HeadOk(b)
    ensures lh == HeadList(b)
  {
    lh := [];
    var i := 0;
    while i < b.words[0]
      invariant 0 <= i <= b.words[0]
      invariant lh == b.words[1..1 + i]
    {
      lh := lh + [b.words[1 + i]];
      i := i + 1;
    }
  }
}
