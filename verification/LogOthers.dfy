/** What other processes can do to the cache while a commit runs. No file-system operation is
    outstanding then, so they only read: fileread calls bread without begin_op. They hold
    buffers, also those of blocks that are being committed, and take over buffers that are
    neither in use nor pinned. */
module LogOthers {
  import opened Basics
  import opened BufferCache
  import opened LogRoom

  /** The two handles of commit and recovery. */
  predicate Ours(h: Handle) {
    h == 0 || h == 1
  }

  predicate IsRead(s: Step) {
    match s
    case GetStep(h, _, _) => !Ours(h)
    case LockStep(h, _) => !Ours(h)
    case FillStep(h, _) => !Ours(h)
    case UnlockStep(h, _) => !Ours(h)
    case PutStep(h, _) => !Ours(h)
    case _ => false
  }

  /** Handle h has the same buffer as before, with the same block and contents. */
  predicate SameFor(b: Buf, after: Buf, h: Handle) {
    && (h in after.refs <==> h in b.refs) && (after.holder == Some(h) <==> b.holder == Some(h))
    && (h in b.refs ==> Keyed(after, b.dev, b.blockno) && (b.valid ==> after.valid && after.data == b.data))
  }

  predicate Stays(b: Buf, after: Buf) {
    SamePin(b, after) && after.touched == b.touched && SameFor(b, after, 0) && SameFor(b, after, 1)
  }

  /** From c to n, others have read. */
  ghost predicate Bystood(c: Cache, n: Cache) {
    match c
    case Cache(disk, bufs, _) => n.disk == disk && |n.bufs| == |bufs| && forall k :: 0 <= k < |bufs| ==> Stays(bufs[k], n.bufs[k])
  }

  lemma ReadBystands(c: Cache, s: Step)
    requires Inv(c) && Enabled(c, s) && IsRead(s)
    ensures Bystood(c, Apply(c, s))
  {
    if s.GetStep? {
      ChooseIsRight(c, s.dev, s.bno);
      var i := Choose(c, s.dev, s.bno).value;
      assert BufOk(c.bufs[i], c.disk);
    } else {
      assert BufOk(c.bufs[s.i], c.disk);
    }
  }

  lemma BystoodTransitive(c: Cache, m: Cache, n: Cache)
    requires Bystood(c, m) && Bystood(m, n)
    ensures Bystood(c, n)
  {
    forall k | 0 <= k < |c.bufs| ensures Stays(c.bufs[k], n.bufs[k]) {
      assert Stays(c.bufs[k], m.bufs[k]) && Stays(m.bufs[k], n.bufs[k]);
    }
  }

  /** From c to n, others have read, and our handle h has used buffer i. */
  ghost predicate Used(c: Cache, n: Cache, h: Handle, i: nat) {
    match c
    case Cache(disk, bufs, _) =>
      && n.disk == disk && |n.bufs| == |bufs| && i < |bufs|
      && (forall k :: 0 <= k < |bufs| && k != i ==> Stays(bufs[k], n.bufs[k])) && AlmostStays(bufs[i], n.bufs[i], h)
  }

  predicate AlmostStays(b: Buf, after: Buf, h: Handle) {
    SamePin(b, after) && after.touched == b.touched && SameFor(b, after, 1 - h)
  }

  lemma UsedTransitive(c: Cache, m: Cache, n: Cache, h: Handle, i: nat)
    requires Used(c, m, h, i) && Used(m, n, h, i)
    ensures Used(c, n, h, i)
  {
    forall k | 0 <= k < |c.bufs| && k != i ensures Stays(c.bufs[k], n.bufs[k]) {
      assert Stays(c.bufs[k], m.bufs[k]) && Stays(m.bufs[k], n.bufs[k]);
    }
  }

  lemma BystoodIsUsed(c: Cache, n: Cache, h: Handle, i: nat)
    requires Bystood(c, n) && Ours(h) && i < |c.bufs|
    ensures Used(c, n, h, i)
  {
    assert Stays(c.bufs[i], n.bufs[i]);
  }

  /** Handle h has buffer i locked, and it shows block bno. */
  ghost predicate Held(c: Cache, flat: Disk, h: Handle, i: nat, bno: int) {
    match c
    case Cache(_, bufs, _) =>
      && i < |bufs| && bufs[i].blockno == bno && 0 <= bno < |flat| && bufs[i].valid && bufs[i].data == flat[bno]
      && bufs[i].holder == Some(h) && h in bufs[i].refs && !bufs[i].touched
  }

  lemma StaysHeld(c: Cache, n: Cache, flat: Disk, h: Handle, i: nat, bno: int, g: Handle, j: nat)
    requires Held(c, flat, h, i, bno) && Used(c, n, g, j) && Ours(h) && Ours(g) && h != g
    ensures Held(n, flat, h, i, bno)
  {
    if i != j {
      assert Stays(c.bufs[i], n.bufs[i]);
    }
  }

  /** Commit has no buffer, and nobody is in the middle of a change. */
  ghost predicate Calm(c: Cache) {
    match c
    case Cache(_, bufs, _) => forall k :: 0 <= k < |bufs| ==> 0 !in bufs[k].refs && 1 !in bufs[k].refs && !bufs[k].touched
  }

  /** From c to n, the same pins. */
  ghost predicate SamePins(c: Cache, n: Cache) {
    match c
    case Cache(_, bufs, _) => |n.bufs| == |bufs| && forall k :: 0 <= k < |bufs| ==> SamePin(bufs[k], n.bufs[k])
  }

  /** Commit has block a in buffer i and block b in buffer j, and nothing else. */
  ghost predicate PairRead(n: Cache, flat: Disk, i: nat, j: nat, a: int, b: int) {
    match n
    case Cache(_, bufs, _) =>
      && Held(n, flat, 0, i, a) && Held(n, flat, 1, j, b) && i != j
      && (forall k :: 0 <= k < |bufs| ==> !bufs[k].touched && (k != i ==> 0 !in bufs[k].refs) && (k != j ==> 1 !in bufs[k].refs))
  }

  lemma PairIsRead(c: Cache, m: Cache, n: Cache, flat: Disk, i: nat, j: nat, a: int, b: int)
    requires Calm(c) && a != b && Used(c, m, 0, i) && Held(m, flat, 0, i, a) && Used(m, n, 1, j) && Held(n, flat, 1, j, b)
    ensures PairRead(n, flat, i, j, a, b) && SamePins(c, n) && n.disk == c.disk
  {
    StaysHeld(m, n, flat, 0, i, a, 1, j);
    forall k | 0 <= k < |n.bufs| ensures !n.bufs[k].touched && (k != i ==> 0 !in n.bufs[k].refs) && (k != j ==> 1 !in n.bufs[k].refs) && SamePin(c.bufs[k], n.bufs[k]) {
      assert k != i ==> Stays(c.bufs[k], m.bufs[k]);
      assert k != j ==> Stays(m.bufs[k], n.bufs[k]);
    }
  }

  // ---------------------------------------------------------------- how many readers there are

  /** Only these handles have buffers, and each at most one. */
  ghost predicate Crowd(c: Cache, handles: set<Handle>) {
    match c
    case Cache(_, bufs, _) =>
      && (forall k, h :: 0 <= k < |bufs| && h in bufs[k].refs ==> h in handles)
      && (forall j, k, h :: 0 <= j < |bufs| && 0 <= k < |bufs| && j != k && h in bufs[j].refs ==> h !in bufs[k].refs)
  }

  lemma StepKeepsCrowd(c: Cache, s: Step, handles: set<Handle>)
    requires Inv(c) && Enabled(c, s) && Crowd(c, handles)
    ensures Crowd(Apply(c, s), if s.GetStep? then handles + {s.h} else handles)
    ensures s.PutStep? ==> Crowd(Apply(c, s), handles - {s.h})
  {
  }

  /** How many of the first n buffers are pinned, and how many have users. */
  function Pins(bufs: seq<Buf>, n: nat): nat
    requires n <= |bufs|
  {
    if n == 0 then 0 else Pins(bufs, n - 1) + if bufs[n - 1].dirty then 1 else 0
  }

  function Users(bufs: seq<Buf>, n: nat): nat
    requires n <= |bufs|
  {
    if n == 0 then 0 else Users(bufs, n - 1) + if bufs[n - 1].refs != {} then 1 else 0
  }

  lemma SomeOf<T>(xs: set<T>) returns (x: T)
    requires |xs| > 0
    ensures x in xs
  {
    x :| x in xs;
  }

  lemma {:induction false} UsersAtMost(c: Cache, handles: set<Handle>, n: nat) returns (hs: set<Handle>)
    requires Crowd(c, handles) && n <= |c.bufs|
    ensures |hs| == Users(c.bufs, n) && hs <= handles && forall h :: h in hs ==> exists k :: 0 <= k < n && h in c.bufs[k].refs
  {
    hs := {};
    if n > 0 {
      hs := UsersAtMost(c, handles, n - 1);
      if c.bufs[n - 1].refs != {} {
        var h := SomeOf(c.bufs[n - 1].refs);
        assert h !in hs;
        hs := hs + {h};
      }
    }
  }

  /** One of the first n buffers is pinned for block b. */
  ghost predicate PinnedAt(c: Cache, n: nat, b: int)
    requires n <= |c.bufs|
  {
    exists k :: 0 <= k < n && c.bufs[k].dirty && c.bufs[k].blockno == b
  }

  lemma {:induction false} PinsAtMost(c: Cache, lh: seq<int>, n: nat) returns (at: seq<nat>)
    requires Inv(c) && n <= |c.bufs| && forall i :: 0 <= i < |c.bufs| && c.bufs[i].dirty ==> c.bufs[i].blockno in lh
    ensures |at| == Pins(c.bufs, n) && (forall i :: 0 <= i < |at| ==> at[i] < |lh|)
    ensures forall i :: 0 <= i < |at| ==> PinnedAt(c, n, lh[at[i]])
    ensures forall i, j :: 0 <= i < j < |at| ==> at[i] != at[j]
  {
    at := [];
    if n > 0 {
      at := PinsAtMost(c, lh, n - 1);
      if c.bufs[n - 1].dirty {
        var p :| 0 <= p < |lh| && lh[p] == c.bufs[n - 1].blockno;
        forall i | 0 <= i < |at| ensures at[i] != p {
          assert PinnedAt(c, n - 1, lh[at[i]]);
          var k :| 0 <= k < n - 1 && c.bufs[k].dirty && c.bufs[k].blockno == lh[at[i]];
          assert BufOk(c.bufs[k], c.disk) && BufOk(c.bufs[n - 1], c.disk);
        }
        at := at + [p];
        assert PinnedAt(c, n, lh[p]);
      }
    }
  }

  lemma {:induction false} NoneFree(bufs: seq<Buf>, n: nat)
    requires n <= |bufs| && forall k :: 0 <= k < n ==> bufs[k].dirty || bufs[k].refs != {}
    ensures n <= Pins(bufs, n) + Users(bufs, n)
  {
    if n > 0 {
      NoneFree(bufs, n - 1);
    }
  }

  lemma SubsetSize(a: set<Handle>, b: set<Handle>)
    requires a <= b
    ensures |a| <= |b|
  {
    assert |b - a| + |a| == |b|;
  }

  /** With more buffers than listed blocks and handles together, bget finds one. */
  lemma RoomIsThere(c: Cache, lh: seq<int>, handles: set<Handle>, bno: int)
    requires Inv(c) && Crowd(c, handles) && |lh| + |handles| < |c.bufs|
    requires forall i :: 0 <= i < |c.bufs| && c.bufs[i].dirty ==> c.bufs[i].blockno in lh
    ensures Found(c, bno)
  {
    if k :| 0 <= k < |c.bufs| && !c.bufs[k].dirty && c.bufs[k].refs == {} {
      RecyclableIsFound(c, k, bno);
    } else {
      var n := |c.bufs|;
      var at := PinsAtMost(c, lh, n);
      var hs := UsersAtMost(c, handles, n);
      Injective(at, |lh|);
      SubsetSize(hs, handles);
      NoneFree(c.bufs, n);
    }
  }

  /** Handles of other processes. */
  type Foreign = hs: set<Handle> | 0 !in hs && 1 !in hs

  ghost predicate Readers(sched: seq<seq<Step>>, readers: Foreign) {
    forall t, k :: 0 <= t < |sched| && 0 <= k < |sched[t]| ==> sched[t][k].h in readers
  }

  lemma ReadKeepsCrowd(c: Cache, s: Step, sched: seq<seq<Step>>, k: nat, readers: Foreign, ours: set<Handle>)
    requires Inv(c) && Enabled(c, s) && |sched| > 0 && k < |sched[0]| && sched[0][k] == s
    ensures Readers(sched, readers) && Crowd(c, readers + ours) ==> Crowd(Apply(c, s), readers + ours)
  {
    if Readers(sched, readers) && Crowd(c, readers + ours) {
      StepKeepsCrowd(c, s, readers + ours);
      assert readers + ours + {s.h} == readers + ours;
    }
  }

  lemma OursKeepCrowd(c: Cache, s: Step, readers: Foreign, ours: set<Handle>)
    requires Inv(c) && Enabled(c, s) && Ours(s.h)
    ensures Crowd(c, readers + ours) ==> Crowd(Apply(c, s), readers + match s case GetStep(h, _, _) => ours + {h} case PutStep(h, _) => ours - {h} case _ => ours)
  {
    if Crowd(c, readers + ours) {
      StepKeepsCrowd(c, s, readers + ours);
      assert readers + ours + {s.h} == readers + (ours + {s.h});
      assert readers + ours - {s.h} == readers + (ours - {s.h});
    }
  }
}
