/** When bget finds a buffer: the room that commit and recovery need in the cache. */
module LogRoom {
  import opened Basics
  import opened BufferCache

  /** A pinned buffer shows block b. */
  ghost predicate DirtyFor(c: Cache, b: int) {
    exists i :: 0 <= i < |c.bufs| && c.bufs[i].dirty && c.bufs[i].blockno == b
  }

  /** Some buffer is not pinned. */
  ghost predicate OneFree(c: Cache) {
    exists i :: 0 <= i < |c.bufs| && !c.bufs[i].dirty
  }

  /** Two buffers are not pinned. */
  ghost predicate TwoFree(c: Cache) {
    exists i, j :: 0 <= i < j < |c.bufs| && !c.bufs[i].dirty && !c.bufs[j].dirty
  }

  /** What commit needs: a buffer for each listed block, and one more. */
  ghost predicate Ready(c: Cache, lh: seq<int>) {
    match c
    case Cache(_, _, _) => OneFree(c) && forall k :: 0 <= k < |lh| ==> DirtyFor(c, lh[k])
  }

  /** From c to n, the pin of block dst is gone and every other one is as it was. */
  ghost predicate Washed(c: Cache, n: Cache, dst: int) {
    match c
    case Cache(_, bufs, _) =>
      |n.bufs| == |bufs| && forall k :: 0 <= k < |bufs| ==> PinAfter(bufs[k], n.bufs[k], dst)
  }

  predicate PinAfter(b: Buf, after: Buf, dst: int) {
    after.dirty == (b.dirty && b.blockno != dst) && (after.dirty ==> after.blockno == b.blockno)
  }

  /** The same pin as before. */
  predicate SamePin(b: Buf, after: Buf) {
    after.dirty == b.dirty && (b.dirty ==> after.blockno == b.blockno)
  }

  lemma WashedDirty(c: Cache, n: Cache, dst: int, b: int)
    requires Washed(c, n, dst) && DirtyFor(c, b) && b != dst
    ensures DirtyFor(n, b)
  {
    var i :| 0 <= i < |c.bufs| && c.bufs[i].dirty && c.bufs[i].blockno == b;
    assert PinAfter(c.bufs[i], n.bufs[i], dst);
  }

  lemma WashedFree(c: Cache, n: Cache, dst: int)
    requires Washed(c, n, dst)
    ensures (OneFree(c) ==> OneFree(n)) && (TwoFree(c) ==> TwoFree(n))
  {
    if OneFree(c) {
      var i :| 0 <= i < |c.bufs| && !c.bufs[i].dirty;
      assert PinAfter(c.bufs[i], n.bufs[i], dst);
    }
    if TwoFree(c) {
      var i, j :| 0 <= i < j < |c.bufs| && !c.bufs[i].dirty && !c.bufs[j].dirty;
      assert PinAfter(c.bufs[i], n.bufs[i], dst) && PinAfter(c.bufs[j], n.bufs[j], dst);
    }
  }

  /** Writing one listed block home leaves the room that the others need. */
  lemma WashedReady(c: Cache, n: Cache, dst: int, lh: seq<int>, rest: seq<int>)
    requires Washed(c, n, dst) && Ready(c, lh)
    requires forall k :: 0 <= k < |rest| ==> rest[k] != dst && rest[k] in lh
    ensures Ready(n, rest)
  {
    WashedFree(c, n, dst);
    forall k | 0 <= k < |rest| ensures DirtyFor(n, rest[k]) {
      var j :| 0 <= j < |lh| && lh[j] == rest[k];
      WashedDirty(c, n, dst, rest[k]);
    }
  }

  /** bget(bno) finds a buffer. */
  ghost predicate Found(c: Cache, bno: int) {
    match c
    case Cache(_, _, _) => Inv(c) && Choose(c, DISK_DEV, bno).Some?
  }

  /** bget finds a buffer if one is neither in use nor pinned. */
  lemma RecyclableIsFound(c: Cache, i: nat, bno: int)
    requires Inv(c) && i < |c.bufs| && c.bufs[i].refs == {} && !c.bufs[i].dirty
    ensures Found(c, bno)
  {
    assert BufOk(c.bufs[i], c.disk) && i in c.order;
    var k :| 0 <= k < |c.order| && c.order[k] == i;
    assert Recyclable(c.bufs[c.order[k]]);
  }

  /** And if the block is pinned. */
  lemma PinnedIsFound(c: Cache, bno: int)
    requires Inv(c) && DirtyFor(c, bno)
    ensures Found(c, bno)
  {
    var i :| 0 <= i < |c.bufs| && c.bufs[i].dirty && c.bufs[i].blockno == bno;
    assert BufOk(c.bufs[i], c.disk) && i in c.order;
    var k :| 0 <= k < |c.order| && c.order[k] == i;
    assert Keyed(c.bufs[c.order[k]], DISK_DEV, bno);
  }

  /** bget finds none if every buffer is pinned, for another block. */
  lemma AllPinnedIsStuck(c: Cache, bno: int)
    requires Inv(c) && !OneFree(c) && !DirtyFor(c, bno)
    ensures !Found(c, bno)
  {
    forall i | 0 <= i < |c.bufs| ensures !Recyclable(c.bufs[i]) && !Keyed(c.bufs[i], DISK_DEV, bno) {
      assert c.bufs[i].dirty && BufOk(c.bufs[i], c.disk);
    }
  }

  // ---------------------------------------------------------------- counting

  /** Where the first n blocks of a list of different ones are pinned. */
  lemma {:induction false} PinnedAt(c: Cache, lh: seq<int>, n: nat) returns (at: seq<nat>)
    requires n <= |lh| && (forall k :: 0 <= k < |lh| ==> DirtyFor(c, lh[k])) && forall j, k :: 0 <= j < k < |lh| ==> lh[j] != lh[k]
    ensures |at| == n && (forall k :: 0 <= k < n ==> at[k] < |c.bufs| && c.bufs[at[k]].dirty && c.bufs[at[k]].blockno == lh[k])
  {
    at := [];
    if n > 0 {
      at := PinnedAt(c, lh, n - 1);
      assert DirtyFor(c, lh[n - 1]);
      var i :| 0 <= i < |c.bufs| && c.bufs[i].dirty && c.bufs[i].blockno == lh[n - 1];
      at := at + [i];
    }
  }

  /** If the pinned blocks are the listed ones, each once, a buffer is free if and only if there
      are more buffers than these. */
  lemma {:induction false} FreeIff(c: Cache, lh: seq<int>)
    requires Inv(c) && forall i :: 0 <= i < |c.bufs| && c.bufs[i].dirty ==> c.bufs[i].blockno in lh
    requires (forall k :: 0 <= k < |lh| ==> DirtyFor(c, lh[k])) && forall j, k :: 0 <= j < k < |lh| ==> lh[j] != lh[k]
    ensures OneFree(c) <==> |lh| < |c.bufs|
  {
    if |lh| < |c.bufs| {
      FewPinned(c, lh);
    } else if OneFree(c) {
      var i: nat :| i < |c.bufs| && !c.bufs[i].dirty;
      var at := PinnedAt(c, lh, |lh|);
      Injective(at + [i], |c.bufs|);
    }
  }

  /** If only listed blocks are pinned and there are more buffers than these, one is free. */
  lemma {:induction false} FewPinned(c: Cache, lh: seq<int>)
    requires Inv(c) && |lh| < |c.bufs| && forall i :: 0 <= i < |c.bufs| && c.bufs[i].dirty ==> c.bufs[i].blockno in lh
    ensures OneFree(c)
  {
    if !OneFree(c) {
      var at := Positions(c, lh, |c.bufs|);
      Injective(at, |lh|);
      assert false;
    }
  }

  /** Where the list names the block of each of the first n buffers, all pinned. */
  lemma {:induction false} Positions(c: Cache, lh: seq<int>, n: nat) returns (at: seq<nat>)
    requires Inv(c) && n <= |c.bufs| && !OneFree(c) && forall i :: 0 <= i < |c.bufs| && c.bufs[i].dirty ==> c.bufs[i].blockno in lh
    ensures |at| == n && (forall i :: 0 <= i < n ==> at[i] < |lh| && lh[at[i]] == c.bufs[i].blockno)
    ensures forall i, j :: 0 <= i < j < n ==> at[i] != at[j]
  {
    at := [];
    if n > 0 {
      at := Positions(c, lh, n - 1);
      assert c.bufs[n - 1].dirty;
      var k :| 0 <= k < |lh| && lh[k] == c.bufs[n - 1].blockno;
      forall i | 0 <= i < n - 1 ensures at[i] != k {
        assert BufOk(c.bufs[i], c.disk) && BufOk(c.bufs[n - 1], c.disk) && c.bufs[i].dirty;
      }
      at := at + [k];
    }
  }

  /** Distinct numbers below m are at most m. */
  lemma {:induction false} Injective(at: seq<nat>, m: nat)
    requires (forall i :: 0 <= i < |at| ==> at[i] < m) && forall i, j :: 0 <= i < j < |at| ==> at[i] != at[j]
    ensures |at| <= m
    decreases m
  {
    if at != [] {
      assert at[0] < m;
      if k :| 0 <= k < |at| && at[k] == m - 1 {
        var rest := at[..k] + at[k + 1..];
        forall i | 0 <= i < |rest| ensures rest[i] < m - 1 {
          assert rest[i] == at[if i < k then i else i + 1];
        }
        Injective(rest, m - 1);
      } else {
        Injective(at, m - 1);
      }
    }
  }
}
