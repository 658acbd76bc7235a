/** bio.c with its pointers: the buffers on a circular doubly linked list through a
    head node, searched and rearranged in place. Buffers are array indices and the
    head node is the index after the last buffer. */
module BufferList {
  import opened Basics
  import opened BufferCache

  /** Position k of the list `order`, with the head on both ends. */
  function At(order: seq<nat>, head: nat, k: int): nat {
    if 0 <= k < |order| then order[k] else head
  }

  /** next and prev link the nodes of `list`, in order, into a circle through the
      head; the pointers of other nodes are free. */
  ghost predicate Spells(next: seq<nat>, prev: seq<nat>, list: seq<nat>, head: nat) {
    && |next| == |prev| == head + 1
    && (forall k :: 0 <= k < |list| ==> list[k] < head)
    && (forall j, k :: 0 <= j < k < |list| ==> list[j] != list[k])
    && (forall k :: -1 <= k < |list| ==> next[At(list, head, k)] == At(list, head, k + 1))
    && (forall k :: 0 <= k <= |list| ==> prev[At(list, head, k)] == At(list, head, k - 1))
  }

  /** The pointer writes of brelse, in its order. */
  function UnlinkNext(next: seq<nat>, prev: seq<nat>, i: nat): seq<nat>
    requires i < |next| == |prev| && prev[i] < |next|
  {
    next[prev[i] := next[i]]
  }

  function UnlinkPrev(next: seq<nat>, prev: seq<nat>, i: nat): seq<nat>
    requires i < |next| == |prev| && next[i] < |prev|
  {
    prev[next[i] := prev[i]]
  }

  lemma UnlinkSpells(next: seq<nat>, prev: seq<nat>, order: seq<nat>, head: nat, k: nat)
    requires Spells(next, prev, order, head) && k < |order|
    ensures next[order[k]] <= head && prev[order[k]] <= head
    ensures Spells(UnlinkNext(next, prev, order[k]), UnlinkPrev(next, prev, order[k]), order[..k] + order[k + 1..], head)
  {
    var i := order[k];
    var rest := order[..k] + order[k + 1..];
    assert At(order, head, k) == i;
    assert next[i] == At(order, head, k + 1) && prev[i] == At(order, head, k - 1);
    assert forall j :: -1 <= j < k ==> At(rest, head, j) == At(order, head, j);
    assert forall j :: k <= j <= |rest| ==> At(rest, head, j) == At(order, head, j + 1);
    var next', prev' := UnlinkNext(next, prev, i), UnlinkPrev(next, prev, i);
    forall j | -1 <= j < |rest| ensures next'[At(rest, head, j)] == At(rest, head, j + 1) {
      if j < k - 1 {
        assert At(order, head, j) != At(order, head, k - 1);
        assert next[At(order, head, j)] == At(order, head, j + 1);
      } else if j >= k {
        assert At(order, head, j + 1) != At(order, head, k - 1);
        assert next[At(order, head, j + 1)] == At(order, head, j + 2);
      }
    }
    forall j | 0 <= j <= |rest| ensures prev'[At(rest, head, j)] == At(rest, head, j - 1) {
      if j < k {
        assert At(order, head, j) != At(order, head, k + 1);
        assert prev[At(order, head, j)] == At(order, head, j - 1);
      } else if j > k {
        assert At(order, head, j + 1) != At(order, head, k + 1);
        assert prev[At(order, head, j + 1)] == At(order, head, j);
      }
    }
  }

  lemma PushSpells(next: seq<nat>, prev: seq<nat>, rest: seq<nat>, head: nat, i: nat)
    requires Spells(next, prev, rest, head)
    requires i < head && i !in rest
    ensures next[head] <= head
    ensures Spells(next[i := next[head]][head := i], prev[i := head][next[head] := i], [i] + rest, head)
  {
    var order := [i] + rest;
    assert At(rest, head, -1) == head && next[head] == At(rest, head, 0);
    assert forall j :: -1 <= j <= |rest| ==> At(order, head, j + 1) == if j == -1 then i else At(rest, head, j);
    var next', prev' := next[i := next[head]][head := i], prev[i := head][next[head] := i];
    forall j | -1 <= j < |order| ensures next'[At(order, head, j)] == At(order, head, j + 1) {
      if j >= 1 {
        assert At(order, head, j) == At(rest, head, j - 1) != i;
        assert next[At(rest, head, j - 1)] == At(rest, head, j);
      }
    }
    forall j | 0 <= j <= |order| ensures prev'[At(order, head, j)] == At(order, head, j - 1) {
      if j >= 2 {
        assert At(order, head, j) == At(rest, head, j - 1) != At(rest, head, 0);
        assert prev[At(rest, head, j - 1)] == At(rest, head, j - 2);
      }
    }
  }

  /** The flat store a cache stands for. */
  ghost function LatestOf(c: Cache): (flat: Disk)
    requires Inv(c)
    ensures Represents(c, flat)
  {
    var flat := seq(|c.disk|, b requires 0 <= b < |c.disk| =>
      if Cached(c, b) then (var i :| 0 <= i < |c.bufs| && c.bufs[i].valid && c.bufs[i].blockno == b; c.bufs[i].data)
      else c.disk[b]);
    flat
  }

  lemma LastOf(bufs: seq<Buf>, order: seq<nat>, k: nat)
    requires 0 < k <= |order| && forall j :: 0 <= j < |order| ==> order[j] < |bufs|
    ensures LastRecyclable(bufs, order[..k]) == if Recyclable(bufs[order[k - 1]]) then Some(order[k - 1]) else LastRecyclable(bufs, order[..k - 1])
  {
    assert order[..k][..k - 1] == order[..k - 1];
  }

  class BCache {
    var disk: Disk
    const bufs: array<Buf>
    const next: array<nat>
    const prev: array<nat>
    ghost var order: seq<nat>

    ghost predicate ListOk()
      reads this, next, prev
    {
      && next != prev
      && next.Length == prev.Length == bufs.Length + 1
      && Spells(next[..], prev[..], order, bufs.Length)
    }

    ghost predicate Valid()
      reads this, bufs, next, prev
    {
      ListOk() && Inv(Value())
    }

    ghost function Value(): Cache
      reads this, bufs
    {
      Cache(disk, bufs[..], order)
    }

    /** binit: push the buffers one by one behind the head. */
    constructor (image: Disk, nbuf: nat)
      ensures Valid() && fresh(bufs) && fresh(next) && fresh(prev)
      ensures Value() == Boot(image, nbuf)
    {
      disk := image;
      bufs := new Buf[nbuf](_ => Buf(0, 0, false, false, 0, Block(seq(128, _ => 0)), {}, None, false));
      next := new nat[nbuf + 1](_ => nbuf);
      prev := new nat[nbuf + 1](_ => nbuf);
      order := [];
      new;
      var b := 0;
      while b < nbuf
        invariant 0 <= b <= nbuf
        invariant fresh(bufs) && fresh(next) && fresh(prev) && next != prev
        invariant next.Length == prev.Length == nbuf + 1 && bufs.Length == nbuf
        invariant |order| == b && forall k :: 0 <= k < b ==> order[k] == b - 1 - k
        invariant Spells(next[..], prev[..], order, nbuf)
        invariant disk == image
        invariant bufs[..] == Boot(image, nbuf).bufs
      {
        PushSpells(next[..], prev[..], order, nbuf, b);
        next[b] := next[nbuf];
        prev[b] := nbuf;
        prev[next[nbuf]] := b;
        next[nbuf] := b;
        order := [b] + order;
        b := b + 1;
      }
      BootRefines(image, nbuf);
      assert order == Boot(image, nbuf).order;
    }

    /** bget's first loop: along next for the block; the head when it is not cached. */
    method FindCached(dev: int, bno: int) returns (b: nat)
      requires ListOk()
      ensures b == match FirstKeyed(bufs[..], order, dev, bno) case Some(i) => i case None => bufs.Length
    {
      var head := bufs.Length;
      assert At(order, head, -1) == head;
      b := next[head];
      ghost var k := 0;
      while b != head
        invariant 0 <= k <= |order| && b == At(order, head, k)
        invariant FirstKeyed(bufs[..], order, dev, bno) == FirstKeyed(bufs[..], order[k..], dev, bno)
        decreases |order| - k
      {
        if Keyed(bufs[b], dev, bno) {
          return;
        }
        assert next[At(order, head, k)] == At(order, head, k + 1);
        assert order[k..][1..] == order[k + 1..];
        b := next[b];
        k := k + 1;
      }
    }

    /** bget's second loop: along prev for a buffer nobody uses or has pinned. */
    method FindRecyclable() returns (b: nat)
      requires ListOk()
      ensures b == match LastRecyclable(bufs[..], order) case Some(i) => i case None => bufs.Length
    {
      var head := bufs.Length;
      ghost var k, bs := |order|, bufs[..];
      assert At(order, head, k) == head && order[..k] == order;
      b := prev[head];
      while b != head
        invariant 0 <= k <= |order| && b == At(order, head, k - 1)
        invariant LastRecyclable(bs, order) == LastRecyclable(bs, order[..k])
        decreases k
      {
        LastOf(bs, order, k);
        if Recyclable(bufs[b]) {
          return;
        }
        assert prev[At(order, head, k - 1)] == At(order, head, k - 2);
        b := prev[b];
        k := k - 1;
      }
    }

    /** bget; not ok is panic("bget: no buffers"). */
    method BGet(h: Handle, dev: int, bno: int) returns (i: nat, ok: bool)
      requires Valid() && Unused(Value(), h)
      modifies bufs
      ensures ok == Choose(old(Value()), dev, bno).Some?
      ensures ok ==> i == Choose(old(Value()), dev, bno).value && Value() == Get(old(Value()), h, dev, bno, i)
      ensures !ok ==> Value() == old(Value())
      ensures Valid()
    {
      ghost var c0 := Value();
      i := FindCached(dev, bno);
      if i != bufs.Length {
        GetKeepsInv(c0, LatestOf(c0), h, dev, bno);
        bufs[i] := bufs[i].(refcnt := bufs[i].refcnt + 1, refs := bufs[i].refs + {h});
        assert Value() == Get(c0, h, dev, bno, i);
        return i, true;
      }
      i := FindRecyclable();
      if i != bufs.Length {
        GetKeepsInv(c0, LatestOf(c0), h, dev, bno);
        assert !Keyed(bufs[i], dev, bno) by { assert i in order; }
        bufs[i] := bufs[i].(dev := dev, blockno := bno, valid := false, dirty := false, refcnt := 1, refs := {h});
        assert Value() == Get(c0, h, dev, bno, i);
        return i, true;
      }
      return 0, false;
    }

    /** The list surgery of brelse. */
    method MoveToFront(i: nat)
      requires ListOk() && i in order
      modifies this`order, next, prev
      ensures ListOk() && order == [i] + Without(old(order), i)
    {
      ghost var k :| 0 <= k < |order| && order[k] == i;
      ghost var rest := order[..k] + order[k + 1..];
      WithoutKeepsRest(order, i, k);
      UnlinkSpells(next[..], prev[..], order, bufs.Length, k);
      ghost var next0: seq<nat>, prev0: seq<nat> := next[..], prev[..];
      prev[next[i]] := prev[i];
      next[prev[i]] := next[i];
      assert next[..] == UnlinkNext(next0, prev0, i) && prev[..] == UnlinkPrev(next0, prev0, i);
      PushSpells(next[..], prev[..], rest, bufs.Length, i);
      next0, prev0 := next[..], prev[..];
      next[i] := next[bufs.Length];
      prev[i] := bufs.Length;
      prev[next[bufs.Length]] := i;
      next[bufs.Length] := i;
      assert next[..] == next0[i := next0[bufs.Length]][bufs.Length := i];
      assert prev[..] == prev0[i := bufs.Length][next0[bufs.Length] := i];
      order := [i] + rest;
    }

    /** brelse: unlock, drop the reference, and the last reference moves the buffer first. */
    method BRelse(h: Handle, i: nat)
      requires Valid() && Holds(Value(), h, i) && !bufs[i].touched
      modifies this`order, bufs, next, prev
      ensures Value() == Put(Unlock(old(Value()), i), h, i)
      ensures Valid()
    {
      ghost var c0 := Value();
      ghost var flat := LatestOf(c0);
      StepRefines(c0, flat, UnlockStep(h, i));
      ghost var c1 := Unlock(c0, i);
      StepRefines(c1, flat, PutStep(h, i));
      bufs[i] := bufs[i].(holder := None);
      assert Value() == c1;
      bufs[i] := bufs[i].(refcnt := bufs[i].refcnt - 1, refs := bufs[i].refs - {h});
      assert bufs[..] == Put(c1, h, i).bufs;
      if bufs[i].refcnt == 0 {
        MoveToFront(i);
      }
    }
  }
}
