/** The block cache of bio.c over the memory disk of memide.c, as values.

    One step is one critical section (of bcache.lock, of a buffer's sleep lock, or
    one iderw), so every interleaving of any number of processes is a sequence of
    these steps. A handle stands for one call of bread that has not been released. */
module BufferCache {
  import opened Basics

  const DISK_DEV := 1

  /** A disk block, as its 32-bit words. */
  type Words = w: seq<int> | |w| == 128 witness seq(128, _ => 0)
  datatype Block = Block(words: Words)
  type Disk = seq<Block>
  type Handle = int

  /** A buffer. `refs` are the handles counted by refcnt, `holder` is the handle
      that owns the sleep lock, and `touched` says that the holder has changed the
      data and called neither log_write nor bwrite since. */
  datatype Buf = Buf(dev: int, blockno: int, valid: bool, dirty: bool, refcnt: nat,
                     data: Block, refs: set<Handle>, holder: Option<Handle>, touched: bool)

  /** `order` lists the buffers along next from the list head: most recent first. */
  datatype Cache = Cache(disk: Disk, bufs: seq<Buf>, order: seq<nat>)

  predicate Keyed(b: Buf, dev: int, bno: int) {
    b.dev == dev && b.blockno == bno
  }

  predicate Recyclable(b: Buf) {
    b.refcnt == 0 && !b.dirty
  }

  // ---------------------------------------------------------------- invariant

  ghost predicate IsPermutation(order: seq<nat>, n: nat) {
    && |order| == n
    && (forall k :: 0 <= k < n ==> order[k] < n)
    && (forall j, k :: 0 <= j < k < n ==> order[j] != order[k])
    && (forall i: nat :: i < n ==> i in order)
  }

  ghost predicate BufOk(b: Buf, disk: Disk) {
    && b.refcnt == |b.refs|
    && (b.holder.Some? ==> b.holder.value in b.refs)
    && (b.valid ==> b.dev == DISK_DEV && 0 <= b.blockno < |disk|)
    && (b.dirty || b.touched ==> b.valid)
    && (b.touched ==> b.holder.Some?)
    && (b.valid && !b.dirty && !b.touched ==> b.data == disk[b.blockno])
  }

  /** At most one buffer per key, except the key (0,0) that binit leaves in all. */
  ghost predicate UniqueKeys(bufs: seq<Buf>) {
    forall i, j :: 0 <= i < |bufs| && 0 <= j < |bufs| && bufs[i].dev == bufs[j].dev && bufs[i].blockno == bufs[j].blockno
      ==> i == j || (bufs[i].dev == 0 && bufs[i].blockno == 0)
  }

  ghost predicate Inv(c: Cache) {
    match c
    case Cache(disk, bufs, order) =>
      && IsPermutation(order, |bufs|)
      && UniqueKeys(bufs)
      && (forall i :: 0 <= i < |bufs| ==> BufOk(bufs[i], disk))
  }

  ghost predicate Cached(c: Cache, bno: int) {
    exists i :: 0 <= i < |c.bufs| && c.bufs[i].valid && c.bufs[i].blockno == bno
  }

  /** `flat` is the store without a cache: the newest contents of every block. */
  ghost predicate Represents(c: Cache, flat: Disk) {
    match c
    case Cache(disk, bufs, _) =>
      && |flat| == |disk|
      && (forall i :: 0 <= i < |bufs| && bufs[i].valid && 0 <= bufs[i].blockno < |flat|
            ==> bufs[i].data == flat[bufs[i].blockno])
      && (forall b :: 0 <= b < |flat| ==> Cached(c, b) || flat[b] == disk[b])
  }

  // ---------------------------------------------------------------- steps

  /** Every buffer has key (0,0) and no flags; binit pushes them one by one. */
  function Boot(disk: Disk, nbuf: nat): Cache {
    Cache(disk, seq(nbuf, _ => Buf(0, 0, false, false, 0, Block(seq(128, _ => 0)), {}, None, false)),
          seq(nbuf, i requires 0 <= i < nbuf => nbuf - 1 - i))
  }

  /** The first buffer along next with this key. */
  function FirstKeyed(bufs: seq<Buf>, order: seq<nat>, dev: int, bno: int): (r: Option<nat>)
    requires forall k :: 0 <= k < |order| ==> order[k] < |bufs|
    ensures r.Some? ==> r.value in order && r.value < |bufs| && Keyed(bufs[r.value], dev, bno)
    ensures r.None? ==> forall k :: 0 <= k < |order| ==> !Keyed(bufs[order[k]], dev, bno)
  {
    if order == [] then None
    else if Keyed(bufs[order[0]], dev, bno) then Some(order[0])
    else
      var r := FirstKeyed(bufs, order[1..], dev, bno);
      assert forall k :: 0 < k < |order| ==> order[k] == order[1..][k - 1];
      r
  }

  /** The first recyclable buffer along prev. */
  function LastRecyclable(bufs: seq<Buf>, order: seq<nat>): (r: Option<nat>)
    requires forall k :: 0 <= k < |order| ==> order[k] < |bufs|
    ensures r.Some? ==> r.value in order && r.value < |bufs| && Recyclable(bufs[r.value])
    ensures r.None? ==> forall k :: 0 <= k < |order| ==> !Recyclable(bufs[order[k]])
  {
    if order == [] then None
    else
      var last := order[|order| - 1];
      if Recyclable(bufs[last]) then Some(last) else LastRecyclable(bufs, order[..|order| - 1])
  }

  /** The buffer bget chooses; None is panic("bget: no buffers"). */
  function Choose(c: Cache, dev: int, bno: int): (r: Option<nat>)
    requires forall k :: 0 <= k < |c.order| ==> c.order[k] < |c.bufs|
    ensures r.Some? ==> r.value < |c.bufs|
  {
    var hit := FirstKeyed(c.bufs, c.order, dev, bno);
    if hit.Some? then hit else LastRecyclable(c.bufs, c.order)
  }

  /** bget's critical section on buffer i: count one more user, after taking the
      buffer over when it holds another block. */
  function Get(c: Cache, h: Handle, dev: int, bno: int, i: nat): Cache
    requires i < |c.bufs|
  {
    var b := c.bufs[i];
    if Keyed(b, dev, bno) then c.(bufs := c.bufs[i := b.(refcnt := b.refcnt + 1, refs := b.refs + {h})])
    else c.(bufs := c.bufs[i := b.(dev := dev, blockno := bno, valid := false, dirty := false, refcnt := 1, refs := {h})])
  }

  function Lock(c: Cache, h: Handle, i: nat): Cache
    requires i < |c.bufs|
  {
    c.(bufs := c.bufs[i := c.bufs[i].(holder := Some(h))])
  }

  /** The iderw of bread: read the block unless the buffer already has it. */
  function Fill(c: Cache, i: nat): Cache
    requires i < |c.bufs| && 0 <= c.bufs[i].blockno < |c.disk|
  {
    var b := c.bufs[i];
    if b.valid then c else c.(bufs := c.bufs[i := b.(data := c.disk[b.blockno], valid := true)])
  }

  function Modify(c: Cache, i: nat, data: Block): Cache
    requires i < |c.bufs|
  {
    c.(bufs := c.bufs[i := c.bufs[i].(data := data, touched := true)])
  }

  /** log_write's pin. */
  function Pin(c: Cache, i: nat): Cache
    requires i < |c.bufs|
  {
    c.(bufs := c.bufs[i := c.bufs[i].(dirty := true, touched := false)])
  }

  /** bwrite: set B_DIRTY, then iderw writes the block and clears it. */
  function Write(c: Cache, i: nat): Cache
    requires i < |c.bufs| && 0 <= c.bufs[i].blockno < |c.disk|
  {
    var b := c.bufs[i];
    c.(disk := c.disk[b.blockno := b.data], bufs := c.bufs[i := b.(dirty := false, valid := true, touched := false)])
  }

  /** brelse's releasesleep. */
  function Unlock(c: Cache, i: nat): Cache
    requires i < |c.bufs|
  {
    c.(bufs := c.bufs[i := c.bufs[i].(holder := None)])
  }

  function Without(order: seq<nat>, i: nat): seq<nat> {
    if order == [] then []
    else if order[0] == i then order[1..]
    else [order[0]] + Without(order[1..], i)
  }

  /** The rest of brelse: drop the reference, and the last one moves the buffer first. */
  function Put(c: Cache, h: Handle, i: nat): Cache
    requires i < |c.bufs| && c.bufs[i].refcnt > 0
  {
    var b := c.bufs[i];
    c.(bufs := c.bufs[i := b.(refcnt := b.refcnt - 1, refs := b.refs - {h})],
       order := if b.refcnt == 1 then [i] + Without(c.order, i) else c.order)
  }

  // ---------------------------------------------------------------- runs

  datatype Step =
    | GetStep(h: Handle, dev: int, bno: int)
    | LockStep(h: Handle, i: nat)
    | FillStep(h: Handle, i: nat)
    | ModifyStep(h: Handle, i: nat, data: Block)
    | PinStep(h: Handle, i: nat)
    | WriteStep(h: Handle, i: nat)
    | UnlockStep(h: Handle, i: nat)
    | PutStep(h: Handle, i: nat)

  predicate Unused(c: Cache, h: Handle) {
    forall i :: 0 <= i < |c.bufs| ==> h !in c.bufs[i].refs
  }

  predicate Holds(c: Cache, h: Handle, i: nat) {
    i < |c.bufs| && c.bufs[i].holder == Some(h)
  }

  /** What the callers of bio.c do: use a buffer only between bread and brelse, and
      pass changed data to log_write or bwrite before releasing it. */
  predicate Enabled(c: Cache, s: Step)
    requires IsPermutation(c.order, |c.bufs|)
  {
    match s
    case GetStep(h, dev, bno) => Unused(c, h) && Choose(c, dev, bno).Some?
    case LockStep(h, i) => i < |c.bufs| && h in c.bufs[i].refs && c.bufs[i].holder.None?
    case FillStep(h, i) => Holds(c, h, i) && c.bufs[i].dev == DISK_DEV && 0 <= c.bufs[i].blockno < |c.disk|
    case ModifyStep(h, i, data) => Holds(c, h, i) && c.bufs[i].valid
    case PinStep(h, i) => Holds(c, h, i) && c.bufs[i].valid
    case WriteStep(h, i) => Holds(c, h, i) && c.bufs[i].valid && 0 <= c.bufs[i].blockno < |c.disk|
    case UnlockStep(h, i) => Holds(c, h, i) && !c.bufs[i].touched
    case PutStep(h, i) => i < |c.bufs| && h in c.bufs[i].refs && c.bufs[i].holder != Some(h) && c.bufs[i].refcnt > 0
  }

  function Apply(c: Cache, s: Step): Cache
    requires IsPermutation(c.order, |c.bufs|) && Enabled(c, s)
  {
    match s
    case GetStep(h, dev, bno) => Get(c, h, dev, bno, Choose(c, dev, bno).value)
    case LockStep(h, i) => Lock(c, h, i)
    case FillStep(h, i) => Fill(c, i)
    case ModifyStep(h, i, data) => Modify(c, i, data)
    case PinStep(h, i) => Pin(c, i)
    case WriteStep(h, i) => Write(c, i)
    case UnlockStep(h, i) => Unlock(c, i)
    case PutStep(h, i) => Put(c, h, i)
  }

  /** Only a modification changes the flat store, at the block of that buffer. */
  ghost function ApplyFlat(c: Cache, flat: Disk, s: Step): Disk {
    if s.ModifyStep? && s.i < |c.bufs| && 0 <= c.bufs[s.i].blockno < |flat|
    then flat[c.bufs[s.i].blockno := s.data]
    else flat
  }

  lemma {:induction false} WithoutKeepsRest(order: seq<nat>, i: nat, k: nat)
    requires k < |order| && order[k] == i
    requires forall j :: 0 <= j < k ==> order[j] != i
    ensures Without(order, i) == order[..k] + order[k + 1..]
  {
    if order[0] != i {
      WithoutKeepsRest(order[1..], i, k - 1);
      calc {
        Without(order, i);
        [order[0]] + (order[1..][..k - 1] + order[1..][k..]);
        { assert order[1..][k..] == order[k + 1..] && order[..k] == [order[0]] + order[1..][..k - 1]; }
        order[..k] + order[k + 1..];
      }
    }
  }

  lemma {:induction false} MoveToFrontAt(order: seq<nat>, i: nat, k: nat)
    requires k < |order| && order[k] == i
    requires forall j :: 0 <= j < k ==> order[j] != i
    ensures var moved := [i] + Without(order, i);
      && |moved| == |order| && moved[0] == i
      && (forall j :: 0 < j <= k ==> moved[j] == order[j - 1])
      && (forall j :: k < j < |order| ==> moved[j] == order[j])
  {
    WithoutKeepsRest(order, i, k);
    var rest := Without(order, i);
    assert forall j :: 0 <= j < k ==> rest[j] == order[j];
    assert forall j :: k <= j < |rest| ==> rest[j] == order[j + 1];
  }

  lemma {:induction false} MoveToFrontPermutes(order: seq<nat>, i: nat, n: nat)
    requires IsPermutation(order, n) && i < n
    ensures IsPermutation([i] + Without(order, i), n)
  {
    assert i in order;
    var k :| 0 <= k < |order| && order[k] == i;
    MoveToFrontAt(order, i, k);
    var moved := [i] + Without(order, i);

    forall x: nat | x < n ensures x in moved {
      assert x in order;
      var j :| 0 <= j < |order| && order[j] == x;
      if j < k {
        assert moved[j + 1] == x;
      } else if j > k {
        assert moved[j] == x;
      } else {
        assert moved[0] == x;
      }
    }
  }

  /** bget finds the only buffer of the block, or the block is in no buffer. */
  lemma ChooseIsRight(c: Cache, dev: int, bno: int)
    requires Inv(c) && Choose(c, dev, bno).Some?
    ensures var i := Choose(c, dev, bno).value;
      Keyed(c.bufs[i], dev, bno) || (Recyclable(c.bufs[i]) && forall j :: 0 <= j < |c.bufs| ==> !Keyed(c.bufs[j], dev, bno))
  {
    var i := Choose(c, dev, bno).value;
    if !Keyed(c.bufs[i], dev, bno) {
      forall j: nat | j < |c.bufs| ensures !Keyed(c.bufs[j], dev, bno) {
        assert j in c.order;
      }
    }
  }

  lemma CachedAfterUpdate(c: Cache, c': Cache, i: nat)
    requires i < |c.bufs| == |c'.bufs|
    requires forall j :: 0 <= j < |c.bufs| && j != i ==> c'.bufs[j] == c.bufs[j]
    requires c'.bufs[i].blockno == c.bufs[i].blockno && (c.bufs[i].valid ==> c'.bufs[i].valid)
    ensures forall b :: Cached(c, b) ==> Cached(c', b)
  {
    forall b | Cached(c, b) ensures Cached(c', b) {
      var j :| 0 <= j < |c.bufs| && c.bufs[j].valid && c.bufs[j].blockno == b;
      assert c'.bufs[j].valid && c'.bufs[j].blockno == b;
    }
  }

  lemma GetKeepsInv(c: Cache, flat: Disk, h: Handle, dev: int, bno: int)
    requires Inv(c) && Represents(c, flat)
    requires Enabled(c, GetStep(h, dev, bno))
    ensures Inv(Apply(c, GetStep(h, dev, bno))) && Represents(Apply(c, GetStep(h, dev, bno)), flat)
  {
    var i := Choose(c, dev, bno).value;
    var c' := Apply(c, GetStep(h, dev, bno));
    ChooseIsRight(c, dev, bno);
    var b := c.bufs[i];
    assert |b.refs + {h}| == |b.refs| + 1;
    if !Keyed(b, dev, bno) {
      assert b.refs == {};
      forall x | 0 <= x < |flat| ensures Cached(c', x) || flat[x] == c'.disk[x] {
        if Cached(c, x) {
          var j :| 0 <= j < |c.bufs| && c.bufs[j].valid && c.bufs[j].blockno == x;
          if j != i {
            assert c'.bufs[j].valid && c'.bufs[j].blockno == x;
          }
        }
      }
    } else {
      CachedAfterUpdate(c, c', i);
    }
  }

  lemma PutKeepsInv(c: Cache, flat: Disk, h: Handle, i: nat)
    requires Inv(c) && Represents(c, flat)
    requires Enabled(c, PutStep(h, i))
    ensures Inv(Apply(c, PutStep(h, i))) && Represents(Apply(c, PutStep(h, i)), flat)
  {
    var c' := Apply(c, PutStep(h, i));
    MoveToFrontPermutes(c.order, i, |c.bufs|);
    assert |c.bufs[i].refs - {h}| == |c.bufs[i].refs| - 1;
    CachedAfterUpdate(c, c', i);
  }

  lemma FillKeepsInv(c: Cache, flat: Disk, h: Handle, i: nat)
    requires Inv(c) && Represents(c, flat)
    requires Enabled(c, FillStep(h, i))
    ensures Inv(Apply(c, FillStep(h, i))) && Represents(Apply(c, FillStep(h, i)), flat)
  {
    var c' := Apply(c, FillStep(h, i));
    CachedAfterUpdate(c, c', i);
    if !c.bufs[i].valid {
      assert !Cached(c, c.bufs[i].blockno);
    }
  }

  lemma WriteKeepsInv(c: Cache, flat: Disk, h: Handle, i: nat)
    requires Inv(c) && Represents(c, flat)
    requires Enabled(c, WriteStep(h, i))
    ensures Inv(Apply(c, WriteStep(h, i))) && Represents(Apply(c, WriteStep(h, i)), flat)
  {
    CachedAfterUpdate(c, Apply(c, WriteStep(h, i)), i);
  }

  lemma ModifyKeepsInv(c: Cache, flat: Disk, h: Handle, i: nat, data: Block)
    requires Inv(c) && Represents(c, flat)
    requires Enabled(c, ModifyStep(h, i, data))
    ensures Inv(Apply(c, ModifyStep(h, i, data)))
    ensures Represents(Apply(c, ModifyStep(h, i, data)), ApplyFlat(c, flat, ModifyStep(h, i, data)))
  {
    var c' := Apply(c, ModifyStep(h, i, data));
    CachedAfterUpdate(c, c', i);
    assert c'.bufs[i].valid;
    assert Cached(c', c.bufs[i].blockno);
  }

  lemma MarkKeepsInv(c: Cache, flat: Disk, s: Step, i: nat)
    requires Inv(c) && Represents(c, flat) && Enabled(c, s)
    requires (s.LockStep? || s.PinStep? || s.UnlockStep?) && s.i == i
    ensures Inv(Apply(c, s)) && Represents(Apply(c, s), flat)
  {
    CachedAfterUpdate(c, Apply(c, s), i);
  }

  /** Every step keeps the cache invariant and keeps it a cache of the flat store. */
  lemma StepRefines(c: Cache, flat: Disk, s: Step)
    requires Inv(c) && Represents(c, flat) && Enabled(c, s)
    ensures Inv(Apply(c, s)) && Represents(Apply(c, s), ApplyFlat(c, flat, s))
  {
    match s
    case GetStep(h, dev, bno) => GetKeepsInv(c, flat, h, dev, bno);
    case LockStep(h, i) => MarkKeepsInv(c, flat, s, i);
    case FillStep(h, i) => FillKeepsInv(c, flat, h, i);
    case ModifyStep(h, i, data) => ModifyKeepsInv(c, flat, h, i, data);
    case PinStep(h, i) => MarkKeepsInv(c, flat, s, i);
    case WriteStep(h, i) => WriteKeepsInv(c, flat, h, i);
    case UnlockStep(h, i) => MarkKeepsInv(c, flat, s, i);
    case PutStep(h, i) => PutKeepsInv(c, flat, h, i);
  }

  lemma BootRefines(disk: Disk, nbuf: nat)
    ensures Inv(Boot(disk, nbuf)) && Represents(Boot(disk, nbuf), disk)
  {
    var c := Boot(disk, nbuf);
    forall i: nat | i < nbuf ensures i in c.order {
      assert c.order[nbuf - 1 - i] == i;
    }
  }

  /** `c` and `flat` are reached from boot on `disk` by the steps. */
  ghost predicate Run(disk: Disk, nbuf: nat, steps: seq<Step>, c: Cache, flat: Disk)
    decreases |steps|
  {
    if steps == [] then c == Boot(disk, nbuf) && flat == disk
    else
      var last := steps[|steps| - 1];
      exists c0, flat0 :: Run(disk, nbuf, steps[..|steps| - 1], c0, flat0)
        && IsPermutation(c0.order, |c0.bufs|) && Enabled(c0, last) && c == Apply(c0, last) && flat == ApplyFlat(c0, flat0, last)
  }

  /** In every run, with any number of processes, the list is a permutation of the
      buffers with one buffer per key, and whoever holds a filled buffer sees the
      latest contents of its block. */
  lemma {:induction false} EveryRunRefines(disk: Disk, nbuf: nat, steps: seq<Step>, c: Cache, flat: Disk)
    requires Run(disk, nbuf, steps, c, flat)
    ensures Inv(c) && Represents(c, flat)
    ensures forall i :: 0 <= i < |c.bufs| && c.bufs[i].valid ==> c.bufs[i].data == flat[c.bufs[i].blockno]
    decreases |steps|
  {
    if steps == [] {
      BootRefines(disk, nbuf);
    } else {
      var last := steps[|steps| - 1];
      var c0, flat0 :| Run(disk, nbuf, steps[..|steps| - 1], c0, flat0)
        && IsPermutation(c0.order, |c0.bufs|) && Enabled(c0, last) && c == Apply(c0, last) && flat == ApplyFlat(c0, flat0, last);
      EveryRunRefines(disk, nbuf, steps[..|steps| - 1], c0, flat0);
      StepRefines(c0, flat0, last);
    }
  }

  /** A buffer in use or pinned keeps its block in every step, its data unless the
      step is its holder's modification, and its pin until the block is written. */
  lemma NeverRecycled(c: Cache, s: Step, i: nat)
    requires Inv(c) && Enabled(c, s) && i < |c.bufs|
    requires c.bufs[i].refcnt > 0 || c.bufs[i].dirty
    ensures Keyed(Apply(c, s).bufs[i], c.bufs[i].dev, c.bufs[i].blockno)
    ensures c.bufs[i].valid ==> Apply(c, s).bufs[i].valid
    ensures c.bufs[i].valid && !(s.ModifyStep? && s.i == i) ==> Apply(c, s).bufs[i].data == c.bufs[i].data
    ensures c.bufs[i].dirty && !(s.WriteStep? && s.i == i) ==> Apply(c, s).bufs[i].dirty
  {
    if s.GetStep? {
      ChooseIsRight(c, s.dev, s.bno);
    }
  }
}
