/** The list of bio.c is in order of release, so bget recycles the buffer released longest ago. */
module BufferAge {
  import opened Basics
  import opened BufferCache

  /** The caches of a run from binit, one more than its steps. */
  ghost predicate Trace(disk: Disk, nbuf: nat, cs: seq<Cache>, steps: seq<Step>) {
    && |cs| == |steps| + 1 && cs[0] == Boot(disk, nbuf)
    && (forall j :: 0 <= j < |steps| ==> IsPermutation(cs[j].order, |cs[j].bufs|) && Enabled(cs[j], steps[j]) && cs[j + 1] == Apply(cs[j], steps[j]))
  }

  /** Step j is the brelse that leaves nobody with buffer i. */
  predicate Releases(cs: seq<Cache>, steps: seq<Step>, i: nat, j: nat)
    requires j < |steps| && j + 1 < |cs|
  {
    steps[j].PutStep? && steps[j].i == i && i < |cs[j + 1].bufs| && cs[j + 1].bufs[i].refs == {}
  }

  /** When buffer i was last released before step j; before the run, binit put the buffers into the
      list in their order. */
  function Released(cs: seq<Cache>, steps: seq<Step>, nbuf: nat, i: nat, j: nat): int
    requires j <= |steps| && |cs| == |steps| + 1
  {
    if j == 0 then i - nbuf else if Releases(cs, steps, i, j - 1) then j - 1 else Released(cs, steps, nbuf, i, j - 1)
  }

  /** The list is ordered by release, the last first. */
  ghost predicate ByAge(order: seq<nat>, nbuf: nat, cs: seq<Cache>, steps: seq<Step>, j: nat)
    requires j <= |steps| && |cs| == |steps| + 1
  {
    && (forall a, b :: 0 <= a < b < |order| ==> Released(cs, steps, nbuf, order[a], j) > Released(cs, steps, nbuf, order[b], j))
    && (forall a :: 0 <= a < |order| ==> Released(cs, steps, nbuf, order[a], j) < j)
  }

  lemma PutMoves(c: Cache, h: Handle, i: nat) returns (k: nat)
    requires Inv(c) && Enabled(c, PutStep(h, i))
    ensures k < |c.order| && c.order[k] == i && |Put(c, h, i).order| == |c.order|
    ensures Put(c, h, i).bufs[i].refs != {} ==> Put(c, h, i).order == c.order
    ensures Put(c, h, i).bufs[i].refs == {} ==>
      && Put(c, h, i).order[0] == i && (forall j :: 0 < j <= k ==> Put(c, h, i).order[j] == c.order[j - 1])
      && (forall j :: k < j < |c.order| ==> Put(c, h, i).order[j] == c.order[j])
  {
    assert i in c.order && BufOk(c.bufs[i], c.disk);
    k :| 0 <= k < |c.order| && c.order[k] == i;
    assert |c.bufs[i].refs - {h}| == |c.bufs[i].refs| - 1;
    MoveToFrontAt(c.order, i, k);
  }

  lemma OrderStays(c: Cache, s: Step)
    requires Inv(c) && Enabled(c, s) && !s.PutStep?
    ensures Apply(c, s).order == c.order
  {
  }

  lemma ReleaseKeepsAge(before: seq<nat>, order: seq<nat>, nbuf: nat, cs: seq<Cache>, steps: seq<Step>, j: nat, k: nat, i: nat)
    requires j < |steps| && |cs| == |steps| + 1 && IsPermutation(before, |before|) && ByAge(before, nbuf, cs, steps, j)
    requires Releases(cs, steps, i, j) && k < |before| && before[k] == i && |order| == |before|
    requires order[0] == i && (forall a :: 0 < a <= k ==> order[a] == before[a - 1]) && (forall a :: k < a < |before| ==> order[a] == before[a])
    ensures ByAge(order, nbuf, cs, steps, j + 1)
  {
    forall a | 0 < a < |order| ensures Released(cs, steps, nbuf, order[a], j + 1) == Released(cs, steps, nbuf, order[a], j) < j {
      assert order[a] == before[if a <= k then a - 1 else a];
    }
    assert Released(cs, steps, nbuf, i, j + 1) == j;
    forall a, b | 0 <= a < b < |order| ensures Released(cs, steps, nbuf, order[a], j + 1) > Released(cs, steps, nbuf, order[b], j + 1) {
      if a > 0 {
        assert order[a] == before[if a <= k then a - 1 else a] && order[b] == before[if b <= k then b - 1 else b];
      }
    }
  }

  /** A step that does not release a buffer keeps the list and the ages. */
  lemma QuietKeepsAge(order: seq<nat>, nbuf: nat, cs: seq<Cache>, steps: seq<Step>, j: nat)
    requires j < |steps| && |cs| == |steps| + 1 && ByAge(order, nbuf, cs, steps, j)
    requires forall a :: 0 <= a < |order| ==> !Releases(cs, steps, order[a], j)
    ensures ByAge(order, nbuf, cs, steps, j + 1)
  {
  }

  lemma StepKeepsAge(c: Cache, s: Step, nbuf: nat, cs: seq<Cache>, steps: seq<Step>, j: nat)
    requires j < |steps| && |cs| == |steps| + 1 && cs[j] == c && steps[j] == s && Inv(c) && Enabled(c, s) && cs[j + 1] == Apply(c, s)
    requires ByAge(c.order, nbuf, cs, steps, j)
    ensures ByAge(cs[j + 1].order, nbuf, cs, steps, j + 1)
  {
    if s.PutStep? {
      var k := PutMoves(c, s.h, s.i);
      if cs[j + 1].bufs[s.i].refs == {} {
        ReleaseKeepsAge(c.order, cs[j + 1].order, nbuf, cs, steps, j, k, s.i);
      } else {
        QuietKeepsAge(c.order, nbuf, cs, steps, j);
      }
    } else {
      OrderStays(c, s);
      QuietKeepsAge(c.order, nbuf, cs, steps, j);
    }
  }

  ghost function Flats(disk: Disk, cs: seq<Cache>, steps: seq<Step>, n: nat): (flats: seq<Disk>)
    requires n <= |steps| < |cs|
    ensures |flats| == n + 1 && flats[0] == disk && forall m :: 0 <= m < n ==> flats[m + 1] == ApplyFlat(cs[m], flats[m], steps[m])
  {
    if n == 0 then [disk]
    else var f := Flats(disk, cs, steps, n - 1); f + [ApplyFlat(cs[n - 1], f[n - 1], steps[n - 1])]
  }

  lemma {:induction false} TraceIsSound(disk: Disk, nbuf: nat, cs: seq<Cache>, steps: seq<Step>, j: nat)
    requires Trace(disk, nbuf, cs, steps) && j <= |steps|
    ensures Inv(cs[j]) && Represents(cs[j], Flats(disk, cs, steps, j)[j]) && |cs[j].bufs| == nbuf
  {
    if j == 0 {
      BootRefines(disk, nbuf);
    } else {
      TraceIsSound(disk, nbuf, cs, steps, j - 1);
      StepRefines(cs[j - 1], Flats(disk, cs, steps, j - 1)[j - 1], steps[j - 1]);
    }
  }

  lemma {:induction false} ListIsByAge(disk: Disk, nbuf: nat, cs: seq<Cache>, steps: seq<Step>, j: nat)
    requires Trace(disk, nbuf, cs, steps) && j <= |steps|
    ensures Inv(cs[j]) && ByAge(cs[j].order, nbuf, cs, steps, j)
  {
    TraceIsSound(disk, nbuf, cs, steps, j);
    if j > 0 {
      ListIsByAge(disk, nbuf, cs, steps, j - 1);
      StepKeepsAge(cs[j - 1], steps[j - 1], nbuf, cs, steps, j - 1);
    }
  }

  lemma {:induction false} LastIsLast(bufs: seq<Buf>, order: seq<nat>) returns (k: nat)
    requires (forall a :: 0 <= a < |order| ==> order[a] < |bufs|) && LastRecyclable(bufs, order).Some?
    ensures k < |order| && order[k] == LastRecyclable(bufs, order).value && forall a :: k < a < |order| ==> !Recyclable(bufs[order[a]])
  {
    if Recyclable(bufs[order[|order| - 1]]) {
      k := |order| - 1;
    } else {
      k := LastIsLast(bufs, order[..|order| - 1]);
    }
  }

  /** bget takes over the last recyclable buffer of the list. */
  lemma TakesOver(c: Cache, s: Step) returns (i: nat)
    requires Inv(c) && s.GetStep? && Enabled(c, s) && forall k :: 0 <= k < |c.bufs| ==> !Keyed(c.bufs[k], s.dev, s.bno)
    ensures i < |c.bufs| == |Apply(c, s).bufs| && LastRecyclable(c.bufs, c.order) == Some(i)
    ensures Keyed(Apply(c, s).bufs[i], s.dev, s.bno) && Apply(c, s).bufs[i].refs == {s.h} && c.bufs[i].refs == {} && !c.bufs[i].dirty
    ensures forall k :: 0 <= k < |c.bufs| && k != i ==> Apply(c, s).bufs[k] == c.bufs[k]
  {
    i := Choose(c, s.dev, s.bno).value;
    assert BufOk(c.bufs[i], c.disk);
  }

  /** No recyclable buffer comes behind it. */
  lemma Later(c: Cache, i: nat, k: nat) returns (a: nat, b: nat)
    requires Inv(c) && LastRecyclable(c.bufs, c.order) == Some(i) && k < |c.bufs| && c.bufs[k].refs == {} && !c.bufs[k].dirty
    ensures a <= b < |c.order| && c.order[a] == k && c.order[b] == i
  {
    b := LastIsLast(c.bufs, c.order);
    assert BufOk(c.bufs[k], c.disk) && k in c.order;
    a :| 0 <= a < |c.order| && c.order[a] == k;
    assert Recyclable(c.bufs[c.order[a]]);
  }

  /** In every run: a bget of a block that is not cached takes over, of the buffers that nobody uses
      and that are clean, the one released longest ago. */
  lemma OldestIsRecycled(disk: Disk, nbuf: nat, cs: seq<Cache>, steps: seq<Step>, j: nat) returns (i: nat)
    requires Trace(disk, nbuf, cs, steps) && j < |steps| && steps[j].GetStep?
    requires forall k :: 0 <= k < |cs[j].bufs| ==> !Keyed(cs[j].bufs[k], steps[j].dev, steps[j].bno)
    ensures i < |cs[j].bufs| == |cs[j + 1].bufs| && Keyed(cs[j + 1].bufs[i], steps[j].dev, steps[j].bno) && cs[j + 1].bufs[i].refs == {steps[j].h}
    ensures cs[j].bufs[i].refs == {} && !cs[j].bufs[i].dirty
    ensures forall k :: 0 <= k < |cs[j].bufs| && cs[j].bufs[k].refs == {} && !cs[j].bufs[k].dirty ==>
      Released(cs, steps, nbuf, i, j) <= Released(cs, steps, nbuf, k, j)
    ensures forall k :: 0 <= k < |cs[j].bufs| && k != i ==> cs[j + 1].bufs[k] == cs[j].bufs[k]
  {
    ListIsByAge(disk, nbuf, cs, steps, j);
    var c, s := cs[j], steps[j];
    i := TakesOver(c, s);
    forall k | 0 <= k < |c.bufs| && c.bufs[k].refs == {} && !c.bufs[k].dirty ensures Released(cs, steps, nbuf, i, j) <= Released(cs, steps, nbuf, k, j) {
      var a, b := Later(c, i, k);
    }
  }
}
