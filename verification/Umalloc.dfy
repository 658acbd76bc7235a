/** The Kernighan and Ritchie allocator of umalloc.c. Addresses count Header units; the
    free list is a circle of headers in memory that starts at the static header `base`. */
module Umalloc {

  const HEADER_BYTES := 8

  /** A free block: its address and its size in units, header included. */
  datatype Blk = Blk(addr: int, size: nat)

  function EndOf(b: Blk): int {
    b.addr + b.size
  }

  // ---------------------------------------------------------------- invariant

  /** Address order with a gap between neighbours: no overlap, nothing left to coalesce.
      The first block is base, of size 0. */
  ghost predicate Ordered(free: seq<Blk>, base: int) {
    && |free| > 0 && free[0] == Blk(base, 0)
    && (forall j :: 0 < j < |free| ==> free[j].size > 0)
    && (forall j, k :: 0 <= j < k < |free| ==> EndOf(free[j]) < free[k].addr)
  }

  predicate Apart(a: int, n: int, b: int, m: int) {
    a + n <= b || b + m <= a
  }

  ghost predicate LiveOk(live: map<int, nat>, base: int) {
    && (forall a :: a in live ==> a > base && live[a] > 0)
    && (forall a, b :: a in live && b in live && a != b ==> Apart(a, live[a], b, live[b]))
  }

  ghost predicate FreeApartFromLive(free: seq<Blk>, live: map<int, nat>) {
    forall a, j :: a in live && 0 <= j < |free| ==> Apart(a, live[a], free[j].addr, free[j].size)
  }

  ghost predicate InFree(free: seq<Blk>, u: int) {
    exists j :: 0 <= j < |free| && free[j].addr <= u < EndOf(free[j])
  }

  ghost predicate InLive(live: map<int, nat>, u: int) {
    exists a :: a in live && a <= u < a + live[a]
  }

  /** The units obtained from sbrk are exactly the free and the live ones. */
  ghost predicate Conserved(free: seq<Blk>, live: map<int, nat>, owned: set<int>) {
    forall u :: u in owned <==> InFree(free, u) || InLive(live, u)
  }

  ghost predicate Inv(free: seq<Blk>, live: map<int, nat>, owned: set<int>, base: int) {
    && Ordered(free, base) && LiveOk(live, base) && FreeApartFromLive(free, live)
    && Conserved(free, live, owned)
  }

  // ---------------------------------------------------------------- conservation in numbers

  /** The size fields of the free list, added up. */
  function FreeSizes(free: seq<Blk>): nat {
    if free == [] then 0 else FreeSizes(free[..|free| - 1]) + free[|free| - 1].size
  }

  ghost function AnyKey<K, V>(m: map<K, V>): (k: K)
    requires |m| > 0
    ensures k in m
  {
    assert |m.Keys| > 0;
    var k :| k in m.Keys;
    k
  }

  /** The sizes of the live blocks, added up. */
  ghost function LiveSizes(live: map<int, nat>): nat
    decreases |live|
  {
    if |live| == 0 then 0
    else
      var a := AnyKey(live);
      assert |live - {a}| == |live| - 1 by { assert live.Keys == (live - {a}).Keys + {a}; }
      live[a] + LiveSizes(live - {a})
  }

  ghost function FreeUnits(free: seq<Blk>): set<int> {
    if free == [] then {} else FreeUnits(free[..|free| - 1]) + Units(free[|free| - 1].addr, free[|free| - 1].size)
  }

  lemma {:induction false} UnitsSize(a: int, n: nat)
    ensures |Units(a, n)| == n
  {
    if n == 0 {
      assert Units(a, n) == {};
    } else {
      UnitsSize(a, n - 1);
      assert Units(a, n) == Units(a, n - 1) + {a + n - 1};
    }
  }

  lemma JoinedSize(s: set<int>, a: int, n: nat)
    requires forall u :: u in s ==> !Within(a, n, u)
    ensures |s + Units(a, n)| == |s| + n
  {
    UnitsSize(a, n);
    assert s !! Units(a, n);
  }

  lemma InFreeMore(rest: seq<Blk>, last: Blk, u: int)
    ensures InFree(rest + [last], u) <==> InFree(rest, u) || Within(last.addr, last.size, u)
  {
    var free := rest + [last];
    assert free[|rest|] == last;
    if j :| 0 <= j < |rest| && rest[j].addr <= u < EndOf(rest[j]) {
      assert free[j].addr <= u < EndOf(free[j]);
    }
    if j :| 0 <= j < |free| && free[j].addr <= u < EndOf(free[j]) {
      assert j < |rest| ==> rest[j].addr <= u < EndOf(rest[j]);
    }
  }

  lemma {:induction false} FreeUnitIs(free: seq<Blk>, u: int)
    ensures u in FreeUnits(free) <==> InFree(free, u)
    decreases |free|
  {
    if free != [] {
      var rest, last := free[..|free| - 1], free[|free| - 1];
      FreeUnitIs(rest, u);
      InFreeMore(rest, last, u);
      assert free == rest + [last];
    }
  }

  lemma {:induction false} FreeUnitsBelow(free: seq<Blk>, x: int)
    requires forall j :: 0 <= j < |free| ==> EndOf(free[j]) <= x
    ensures forall u :: u in FreeUnits(free) ==> u < x
    decreases |free|
  {
    if free != [] {
      FreeUnitsBelow(free[..|free| - 1], x);
    }
  }

  lemma {:induction false} FreeUnitsSize(free: seq<Blk>)
    requires forall j, k :: 0 <= j < k < |free| ==> EndOf(free[j]) < free[k].addr
    ensures |FreeUnits(free)| == FreeSizes(free)
    decreases |free|
  {
    if free != [] {
      var rest, last := free[..|free| - 1], free[|free| - 1];
      FreeUnitsSize(rest);
      FreeUnitsBelow(rest, last.addr);
      JoinedSize(FreeUnits(rest), last.addr, last.size);
    }
  }

  lemma InLiveMore(live: map<int, nat>, a: int, u: int)
    requires a in live
    ensures InLive(live, u) <==> InLive(live - {a}, u) || Within(a, live[a], u)
  {
    var rest := live - {a};
    if b :| b in rest && b <= u < b + rest[b] {
      assert b in live && b <= u < b + live[b];
    }
    if b :| b in live && b <= u < b + live[b] {
      assert b != a ==> b in rest && b <= u < b + rest[b];
    }
  }

  ghost function LiveUnits(live: map<int, nat>): set<int>
    decreases |live|
  {
    if |live| == 0 then {}
    else
      var a := AnyKey(live);
      assert |live - {a}| == |live| - 1 by { assert live.Keys == (live - {a}).Keys + {a}; }
      LiveUnits(live - {a}) + Units(a, live[a])
  }

  lemma {:induction false} LiveUnitIs(live: map<int, nat>, u: int)
    ensures u in LiveUnits(live) <==> InLive(live, u)
    decreases |live|
  {
    if |live| > 0 {
      var a := AnyKey(live);
      assert |live - {a}| < |live| by { assert live.Keys == (live - {a}).Keys + {a}; }
      LiveUnitIs(live - {a}, u);
      InLiveMore(live, a, u);
    }
  }

  /** No unit of the other live blocks is one of block a. */
  lemma LiveUnitIsOutside(live: map<int, nat>, a: int, u: int)
    requires a in live && (forall b, c :: b in live && c in live && b != c ==> Apart(b, live[b], c, live[c])) && u in LiveUnits(live - {a})
    ensures !Within(a, live[a], u)
  {
    var rest := live - {a};
    LiveUnitIs(rest, u);
    var b :| b in rest && b <= u < b + rest[b];
    assert Apart(b, live[b], a, live[a]);
  }

  lemma {:induction false} LiveUnitsSize(live: map<int, nat>)
    requires forall a, b :: a in live && b in live && a != b ==> Apart(a, live[a], b, live[b])
    ensures |LiveUnits(live)| == LiveSizes(live)
    decreases |live|
  {
    if |live| > 0 {
      var a := AnyKey(live);
      var rest := live - {a};
      assert |rest| < |live| by { assert live.Keys == rest.Keys + {a}; }
      LiveUnitsSize(rest);
      forall u | u in LiveUnits(rest) ensures !Within(a, live[a], u) {
        LiveUnitIsOutside(live, a, u);
      }
      JoinedSize(LiveUnits(rest), a, live[a]);
    }
  }

  /** A unit obtained from sbrk is either on the free list or in a live block. */
  lemma UnitIsFreeOrLive(free: seq<Blk>, live: map<int, nat>, owned: set<int>, u: int)
    requires FreeApartFromLive(free, live) && Conserved(free, live, owned)
    ensures u in owned <==> u in FreeUnits(free) || u in LiveUnits(live)
    ensures !(u in FreeUnits(free) && u in LiveUnits(live))
  {
    FreeUnitIs(free, u);
    LiveUnitIs(live, u);
    if InFree(free, u) {
      var j :| 0 <= j < |free| && free[j].addr <= u < EndOf(free[j]);
      assert forall a :: a in live ==> Apart(a, live[a], free[j].addr, free[j].size);
    }
  }

  lemma PartsSize<T(!new)>(f: set<T>, l: set<T>, whole: set<T>)
    requires forall u :: (u in whole <==> u in f || u in l) && !(u in f && u in l)
    ensures |whole| == |f| + |l|
  {
    assert whole == f + l;
  }

  /** The sizes on the free list and the sizes of the live blocks add up to the units obtained
      from sbrk. */
  lemma UnitsAddUp(free: seq<Blk>, live: map<int, nat>, owned: set<int>, base: int)
    requires Inv(free, live, owned, base)
    ensures FreeSizes(free) + LiveSizes(live) == |owned|
  {
    var f, l := FreeUnits(free), LiveUnits(live);
    FreeUnitsSize(free);
    LiveUnitsSize(live);
    forall u ensures (u in owned <==> u in f || u in l) && !(u in f && u in l) {
      UnitIsFreeOrLive(free, live, owned, u);
    }
    PartsSize(f, l, owned);
  }

  // ---------------------------------------------------------------- free

  /** Block i is the last free block below address a. */
  predicate Below(free: seq<Blk>, i: nat, a: int) {
    i < |free| && free[i].addr < a && (i + 1 < |free| ==> a < free[i + 1].addr)
  }

  /** Blocks lo to hi - 1 give way to block b. */
  function Splice(free: seq<Blk>, lo: nat, hi: nat, b: Blk): seq<Blk>
    requires lo <= hi <= |free|
  {
    free[..lo] + [b] + free[hi..]
  }

  predicate TouchesLow(free: seq<Blk>, i: nat, a: int)
    requires i < |free|
  {
    EndOf(free[i]) == a
  }

  predicate TouchesHigh(free: seq<Blk>, i: nat, a: int, n: nat) {
    i + 1 < |free| && a + n == free[i + 1].addr
  }

  /** The new block together with the neighbours it touches. */
  function Merged(free: seq<Blk>, i: nat, a: int, n: nat): Blk
    requires i < |free|
  {
    var upper := n + if TouchesHigh(free, i, a, n) then free[i + 1].size else 0;
    if TouchesLow(free, i, a) then Blk(free[i].addr, free[i].size + upper) else Blk(a, upper)
  }

  /** free's list surgery: block a of n units goes behind block i and merges with the
      neighbour it touches on either side. */
  function Insert(free: seq<Blk>, i: nat, a: int, n: nat): seq<Blk>
    requires i < |free|
  {
    Splice(free, if TouchesLow(free, i, a) then i else i + 1, if TouchesHigh(free, i, a, n) then i + 2 else i + 1, Merged(free, i, a, n))
  }

  /** The n units from a on lie between block i and block i + 1. */
  ghost predicate Fits(free: seq<Blk>, i: nat, a: int, n: nat) {
    && i < |free| && n > 0 && free[i].addr < a
    && (forall j :: 0 <= j <= i ==> EndOf(free[j]) <= a)
    && (forall j :: i < j < |free| ==> a + n <= free[j].addr)
  }

  lemma LiveFits(free: seq<Blk>, base: int, live: map<int, nat>, i: nat, a: int)
    requires Ordered(free, base) && LiveOk(live, base) && FreeApartFromLive(free, live) && a in live && Below(free, i, a)
    ensures Fits(free, i, a, live[a])
  {
    forall j | i < j < |free| ensures a + live[a] <= free[j].addr {
      assert a < free[i + 1].addr;
      assert Apart(a, live[a], free[j].addr, free[j].size);
    }
    assert Apart(a, live[a], free[i].addr, free[i].size);
  }

  lemma SpliceOrdered(free: seq<Blk>, base: int, lo: nat, hi: nat, b: Blk)
    requires Ordered(free, base) && 0 < lo <= hi <= |free| && b.size > 0
    requires forall j :: 0 <= j < lo ==> EndOf(free[j]) < b.addr
    requires forall j :: hi <= j < |free| ==> EndOf(b) < free[j].addr
    ensures Ordered(Splice(free, lo, hi, b), base)
  {
    var r := Splice(free, lo, hi, b);
    assert forall k :: 0 <= k < lo ==> r[k] == free[k];
    assert r[lo] == b;
    assert forall k :: lo < k < |r| ==> r[k] == free[k - lo - 1 + hi];
  }

  lemma SpliceCovers(free: seq<Blk>, lo: nat, hi: nat, b: Blk, u: int)
    requires lo <= hi <= |free|
    ensures InFree(Splice(free, lo, hi, b), u) <==>
      (b.addr <= u < EndOf(b) || exists j :: 0 <= j < |free| && !(lo <= j < hi) && free[j].addr <= u < EndOf(free[j]))
  {
    var r := Splice(free, lo, hi, b);
    assert forall k :: 0 <= k < lo ==> r[k] == free[k];
    assert r[lo] == b;
    assert forall k :: lo < k < |r| ==> r[k] == free[k - lo - 1 + hi];
    if j :| 0 <= j < |free| && !(lo <= j < hi) && free[j].addr <= u < EndOf(free[j]) {
      assert r[if j < lo then j else j - hi + lo + 1] == free[j];
    }
  }

  lemma InsertOrdered(free: seq<Blk>, base: int, i: nat, a: int, n: nat)
    requires Ordered(free, base) && Fits(free, i, a, n)
    ensures Ordered(Insert(free, i, a, n), base)
  {
    var lo := if TouchesLow(free, i, a) then i else i + 1;
    var hi := if TouchesHigh(free, i, a, n) then i + 2 else i + 1;
    var b := Merged(free, i, a, n);
    assert EndOf(b) == if TouchesHigh(free, i, a, n) then EndOf(free[i + 1]) else a + n;
    forall j | 0 <= j < lo ensures EndOf(free[j]) < b.addr {
      if j == i { assert EndOf(free[i]) != a; }
    }
    forall j | hi <= j < |free| ensures EndOf(b) < free[j].addr {
      if j == i + 1 { assert a + n != free[j].addr; }
    }
    SpliceOrdered(free, base, lo, hi, b);
  }

  lemma InsertCovers(free: seq<Blk>, base: int, i: nat, a: int, n: nat, u: int)
    requires Ordered(free, base) && Fits(free, i, a, n)
    ensures InFree(Insert(free, i, a, n), u) <==> (InFree(free, u) || a <= u < a + n)
  {
    var lo := if TouchesLow(free, i, a) then i else i + 1;
    var hi := if TouchesHigh(free, i, a, n) then i + 2 else i + 1;
    var b := Merged(free, i, a, n);
    assert EndOf(b) == if TouchesHigh(free, i, a, n) then EndOf(free[i + 1]) else a + n;
    SpliceCovers(free, lo, hi, b, u);
  }

  lemma MergedApart(free: seq<Blk>, i: nat, a: int, n: nat, b: int, m: nat)
    requires Fits(free, i, a, n) && m > 0
    requires Apart(b, m, a, n) && (forall j :: 0 <= j < |free| ==> Apart(b, m, free[j].addr, free[j].size))
    ensures Apart(b, m, Merged(free, i, a, n).addr, Merged(free, i, a, n).size)
  {
    assert Apart(b, m, free[i].addr, free[i].size);
  }

  lemma InsertApart(free: seq<Blk>, i: nat, a: int, n: nat, b: int, m: nat)
    requires Fits(free, i, a, n) && m > 0
    requires Apart(b, m, a, n) && (forall j :: 0 <= j < |free| ==> Apart(b, m, free[j].addr, free[j].size))
    ensures var r := Insert(free, i, a, n); forall j :: 0 <= j < |r| ==> Apart(b, m, r[j].addr, r[j].size)
  {
    MergedApart(free, i, a, n, b, m);
    var lo := if TouchesLow(free, i, a) then i else i + 1;
    var hi := if TouchesHigh(free, i, a, n) then i + 2 else i + 1;
    var r := Insert(free, i, a, n);
    forall j | 0 <= j < |r| ensures Apart(b, m, r[j].addr, r[j].size) {
      if j < lo {
        assert r[j] == free[j];
      } else if j > lo {
        assert r[j] == free[j - lo - 1 + hi];
      }
    }
  }

  /** free turns live units into free units and keeps the list ordered and coalesced. */
  lemma FreeKeepsInv(free: seq<Blk>, live: map<int, nat>, owned: set<int>, base: int, i: nat, a: int)
    requires Inv(free, live, owned, base) && a in live && Below(free, i, a)
    ensures Inv(Insert(free, i, a, live[a]), live - {a}, owned, base)
  {
    var n := live[a];
    var r, rest := Insert(free, i, a, n), live - {a};
    LiveFits(free, base, live, i, a);
    InsertOrdered(free, base, i, a, n);
    forall b, j | b in rest && 0 <= j < |r| ensures Apart(b, rest[b], r[j].addr, r[j].size) {
      InsertApart(free, i, a, n, b, live[b]);
    }
    forall u ensures u in owned <==> InFree(r, u) || InLive(rest, u) {
      InsertCovers(free, base, i, a, n, u);
      LiveMinus(live, a, u);
    }
  }

  lemma LiveMinus(live: map<int, nat>, a: int, u: int)
    requires a in live
    ensures InLive(live, u) <==> InLive(live - {a}, u) || a <= u < a + live[a]
  {
    if InLive(live, u) && !(a <= u < a + live[a]) {
      var b :| b in live && b <= u < b + live[b];
      assert b in live - {a};
    }
    if InLive(live - {a}, u) {
      var b :| b in live - {a} && b <= u < b + (live - {a})[b];
      assert b in live;
    }
  }

  // ---------------------------------------------------------------- malloc

  /** malloc takes the n units at the end of block k, or all of it. */
  function Carve(free: seq<Blk>, k: nat, n: nat): seq<Blk>
    requires k < |free| && n <= free[k].size
  {
    if free[k].size == n then free[..k] + free[k + 1..] else free[k := Blk(free[k].addr, free[k].size - n)]
  }

  lemma CarveAt(free: seq<Blk>, k: nat, n: nat, j: nat)
    requires k < |free| && n <= free[k].size && j < |Carve(free, k, n)|
    ensures var c := Carve(free, k, n)[j];
      if free[k].size == n then c == free[if j < k then j else j + 1]
      else c == if j == k then Blk(free[k].addr, free[k].size - n) else free[j]
  {
  }

  lemma CarveOrdered(free: seq<Blk>, base: int, k: nat, n: nat)
    requires Ordered(free, base) && 0 < k < |free| && 0 < n <= free[k].size
    ensures Ordered(Carve(free, k, n), base)
  {
    var r := Carve(free, k, n);
    forall j | 0 <= j < |r|
      ensures r[j] == (if free[k].size == n then free[if j < k then j else j + 1]
                       else if j == k then Blk(free[k].addr, free[k].size - n) else free[j])
    {
      CarveAt(free, k, n, j);
    }
  }

  lemma CarveCovers(free: seq<Blk>, base: int, k: nat, n: nat, u: int)
    requires Ordered(free, base) && 0 < k < |free| && 0 < n <= free[k].size
    ensures InFree(free, u) <==> InFree(Carve(free, k, n), u) || EndOf(free[k]) - n <= u < EndOf(free[k])
  {
    var r := Carve(free, k, n);
    if j :| 0 <= j < |free| && free[j].addr <= u < EndOf(free[j]) {
      if j < k {
        assert r[j] == free[j];
      } else if j > k {
        assert r[if free[k].size == n then j - 1 else j] == free[j];
      } else if free[k].size != n {
        assert r[k] == Blk(free[k].addr, free[k].size - n);
      }
    }
    if j :| 0 <= j < |r| && r[j].addr <= u < EndOf(r[j]) {
      CarveAt(free, k, n, j);
      assert free[if free[k].size == n && j >= k then j + 1 else j].addr <= u;
    }
  }

  /** A live block of m units at b stays apart from what is left, and the carved units
      are apart from both. */
  lemma CarveApart(free: seq<Blk>, base: int, k: nat, n: nat, b: int, m: nat)
    requires Ordered(free, base) && 0 < k < |free| && 0 < n <= free[k].size
    requires forall j :: 0 <= j < |free| ==> Apart(b, m, free[j].addr, free[j].size)
    ensures var r := Carve(free, k, n); forall j :: 0 <= j < |r| ==> Apart(b, m, r[j].addr, r[j].size)
    ensures Apart(b, m, EndOf(free[k]) - n, n)
  {
    var r := Carve(free, k, n);
    forall j | 0 <= j < |r| ensures Apart(b, m, r[j].addr, r[j].size) {
      CarveAt(free, k, n, j);
    }
  }

  lemma CarvedApart(free: seq<Blk>, base: int, k: nat, n: nat)
    requires Ordered(free, base) && 0 < k < |free| && 0 < n <= free[k].size
    ensures var r := Carve(free, k, n); forall j :: 0 <= j < |r| ==> Apart(EndOf(free[k]) - n, n, r[j].addr, r[j].size)
  {
    var r := Carve(free, k, n);
    forall j | 0 <= j < |r| ensures Apart(EndOf(free[k]) - n, n, r[j].addr, r[j].size) {
      CarveAt(free, k, n, j);
    }
  }

  /** malloc turns free units into live units that overlap no other block. */
  lemma MallocKeepsInv(free: seq<Blk>, live: map<int, nat>, owned: set<int>, base: int, k: nat, n: nat)
    requires Inv(free, live, owned, base) && 0 < k < |free| && 0 < n <= free[k].size
    ensures var a := EndOf(free[k]) - n; a !in live && Inv(Carve(free, k, n), live[a := n], owned, base)
  {
    var a := EndOf(free[k]) - n;
    var r, more := Carve(free, k, n), live[a := n];
    CarveOrdered(free, base, k, n);
    CarvedApart(free, base, k, n);
    forall b | b in live ensures b != a {
      assert Apart(b, live[b], free[k].addr, free[k].size);
    }
    forall b | b in live ensures Apart(b, live[b], a, n) && forall j :: 0 <= j < |r| ==> Apart(b, live[b], r[j].addr, r[j].size) {
      CarveApart(free, base, k, n, b, live[b]);
    }
    forall u ensures u in owned <==> InFree(r, u) || InLive(more, u) {
      CarveCovers(free, base, k, n, u);
      LiveMinus(more, a, u);
      assert more - {a} == live;
    }
  }

  // ---------------------------------------------------------------- morecore

  predicate Within(a: int, n: nat, u: int) {
    a <= u < a + n
  }

  function Units(a: int, n: nat): set<int> {
    set u | a <= u < a + n && Within(a, n, u)
  }

  /** Units above everything obtained so far join as one live block. */
  lemma GrowKeepsInv(free: seq<Blk>, live: map<int, nat>, owned: set<int>, base: int, a: int, n: nat)
    requires Inv(free, live, owned, base) && base < a && n > 0 && forall u :: u in owned ==> u < a
    ensures a !in live && Inv(free, live[a := n], owned + Units(a, n), base)
  {
    var more := live[a := n];
    forall b | b in live ensures b + live[b] <= a {
      assert InLive(live, b + live[b] - 1);
    }
    forall j | 0 <= j < |free| ensures EndOf(free[j]) <= a {
      if j > 0 {
        assert InFree(free, EndOf(free[j]) - 1);
      }
    }
    forall u ensures u in owned + Units(a, n) <==> InFree(free, u) || InLive(more, u) {
      LiveMinus(more, a, u);
      assert more - {a} == live;
    }
  }

  // ---------------------------------------------------------------- headers in memory

  datatype Header = Header(ptr: int, size: nat)

  /** The circular successor of index i among n. */
  function Succ(i: nat, n: nat): nat {
    if i + 1 < n then i + 1 else 0
  }

  /** The header of block i points at the next block around the circle. */
  ghost predicate Link(mem: map<int, Header>, free: seq<Blk>, i: int)
    requires 0 <= i < |free|
  {
    free[i].addr in mem && mem[free[i].addr] == Header(free[Succ(i, |free|)].addr, free[i].size)
  }

  /** The headers in memory spell the free list as a circle. */
  ghost predicate Encodes(mem: map<int, Header>, free: seq<Blk>) {
    forall i {:trigger Link(mem, free, i)} :: 0 <= i < |free| ==> Link(mem, free, i)
  }

  ghost predicate EncodesLive(mem: map<int, Header>, live: map<int, nat>) {
    forall a :: a in live ==> a in mem && mem[a].size == live[a]
  }

  /** The header writes of free, with p the header before the block. */
  function FreeWrites(mem: map<int, Header>, p: int, bp: int): map<int, Header>
    requires p in mem && bp in mem && mem[p].ptr in mem
  {
    var next := mem[p].ptr;
    var up := if bp + mem[bp].size == next then Header(mem[next].ptr, mem[bp].size + mem[next].size) else Header(next, mem[bp].size);
    var mem1 := mem[bp := up];
    if p + mem1[p].size == bp then mem1[p := Header(up.ptr, mem1[p].size + up.size)] else mem1[p := Header(bp, mem1[p].size)]
  }

  /** The header writes of malloc on block p of at least n units, behind header prev. */
  function MallocWrites(mem: map<int, Header>, prev: int, p: int, n: nat): map<int, Header>
    requires prev in mem && p in mem && n <= mem[p].size
  {
    if mem[p].size == n then mem[prev := Header(mem[p].ptr, mem[prev].size)]
    else
      var a := p + mem[p].size - n;
      mem[p := Header(mem[p].ptr, mem[p].size - n)][a := Header(if a in mem then mem[a].ptr else 0, n)]
  }
}
