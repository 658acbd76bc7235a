/** umalloc.c at work: the static base header, freep and the headers in the heap. */
module UmallocHeap {
  import opened Umalloc

  lemma SpliceEncodes(mem': map<int, Header>, free: seq<Blk>, lo: nat, hi: nat, b: Blk)
    requires 0 < lo <= hi <= |free|
    requires free[lo - 1].addr in mem' && mem'[free[lo - 1].addr] == Header(b.addr, free[lo - 1].size)
    requires b.addr in mem' && mem'[b.addr] == Header(free[Succ(hi - 1, |free|)].addr, b.size)
    requires forall j {:trigger Link(mem', free, j)} :: 0 <= j < |free| && !(lo - 1 <= j < hi) ==> Link(mem', free, j)
    ensures Encodes(mem', Splice(free, lo, hi, b))
  {
    var r := Splice(free, lo, hi, b);
    forall j | 0 <= j < |r| ensures Link(mem', r, j) {
      if j < lo - 1 {
        assert Link(mem', free, j);
        assert r[j] == free[j] && r[j + 1] == free[j + 1];
      } else if j > lo {
        var k := j - lo - 1 + hi;
        assert Link(mem', free, k);
        assert r[j] == free[k];
        assert r[Succ(j, |r|)] == free[Succ(k, |free|)];
      }
    }
  }

  lemma InsertEncodes(mem: map<int, Header>, free: seq<Blk>, base: int, i: nat, a: int, n: nat)
    requires Ordered(free, base) && Fits(free, i, a, n) && Encodes(mem, free)
    requires a in mem && mem[a].size == n && free[i].addr in mem && mem[free[i].addr].ptr in mem
    ensures Encodes(FreeWrites(mem, free[i].addr, a), Insert(free, i, a, n))
  {
    var mem' := FreeWrites(mem, free[i].addr, a);
    var low, high := TouchesLow(free, i, a), TouchesHigh(free, i, a, n);
    var lo, hi := if low then i else i + 1, if high then i + 2 else i + 1;
    assert Link(mem, free, i);
    if high {
      assert Link(mem, free, i + 1);
    }
    if low {
      assert Link(mem, free, i - 1);
    }
    forall j | 0 <= j < |free| && j != i ensures Link(mem', free, j) {
      assert Link(mem, free, j);
      assert free[j].addr != a && free[j].addr != free[i].addr;
    }
    SpliceEncodes(mem', free, lo, hi, Merged(free, i, a, n));
  }

  /** Taking a whole block unlinks it. */
  lemma UnlinkEncodes(mem: map<int, Header>, free: seq<Blk>, i: nat)
    requires Encodes(mem, free) && i + 1 < |free| && forall j :: 0 <= j < |free| && j != i ==> free[j].addr != free[i].addr
    requires free[i].addr in mem && free[i + 1].addr in mem
    ensures Encodes(mem[free[i].addr := Header(mem[free[i + 1].addr].ptr, free[i].size)], free[..i + 1] + free[i + 2..])
  {
    var mem' := mem[free[i].addr := Header(mem[free[i + 1].addr].ptr, free[i].size)];
    var r := free[..i + 1] + free[i + 2..];
    assert Link(mem, free, i + 1);
    forall j | 0 <= j < |r| ensures Link(mem', r, j) {
      var k := if j > i then j + 1 else j;
      assert Link(mem, free, k);
      assert r[j] == free[k];
      if j != i {
        assert r[Succ(j, |r|)] == free[Succ(k, |free|)];
      } else {
        assert r[Succ(j, |r|)] == free[Succ(i + 1, |free|)];
      }
    }
  }

  /** Taking the end of a block changes only its size. */
  lemma ShrinkEncodes(mem: map<int, Header>, free: seq<Blk>, base: int, k: nat, n: nat, h: Header)
    requires Ordered(free, base) && Encodes(mem, free) && 0 < k < |free| && 0 < n < free[k].size
    requires free[k].addr in mem
    ensures Encodes(mem[free[k].addr := Header(mem[free[k].addr].ptr, free[k].size - n)][EndOf(free[k]) - n := h],
                    free[k := Blk(free[k].addr, free[k].size - n)])
  {
    var a := EndOf(free[k]) - n;
    var mem' := mem[free[k].addr := Header(mem[free[k].addr].ptr, free[k].size - n)][a := h];
    var r := free[k := Blk(free[k].addr, free[k].size - n)];
    assert forall j :: 0 <= j < |free| ==> r[j].addr == free[j].addr;
    forall j | 0 <= j < |r| ensures Link(mem', r, j) {
      assert Link(mem, free, j);
      assert j < k ==> EndOf(free[j]) < free[k].addr;
      assert free[j].addr != a && (j != k ==> free[j].addr != free[k].addr);
    }
  }

  lemma CarveEncodes(mem: map<int, Header>, free: seq<Blk>, base: int, i: nat, n: nat)
    requires Ordered(free, base) && Encodes(mem, free) && i + 1 < |free| && 0 < n <= free[i + 1].size
    requires free[i].addr in mem && free[i + 1].addr in mem && mem[free[i + 1].addr].size == free[i + 1].size
    ensures Encodes(MallocWrites(mem, free[i].addr, free[i + 1].addr, n), Carve(free, i + 1, n))
  {
    assert Link(mem, free, i);
    if free[i + 1].size == n {
      UnlinkEncodes(mem, free, i);
    } else {
      var a := EndOf(free[i + 1]) - n;
      ShrinkEncodes(mem, free, base, i + 1, n, Header(if a in mem then mem[a].ptr else 0, n));
    }
  }

  lemma {:induction false} PlaceExists(free: seq<Blk>, base: int, a: int, k: nat) returns (i: nat)
    requires Ordered(free, base) && a > base && k < |free|
    requires forall j :: k < j < |free| ==> a < free[j].addr
    requires forall j :: 0 <= j < |free| ==> free[j].addr != a
    ensures Below(free, i, a)
  {
    if free[k].addr < a {
      i := k;
    } else {
      i := PlaceExists(free, base, a, k - 1);
    }
  }

  lemma FreeIsNotLive(free: seq<Blk>, live: map<int, nat>, owned: set<int>, base: int, i: nat, a: int)
    requires Inv(free, live, owned, base) && i < |free| && a in live
    ensures free[i].addr != a
  {
    assert Apart(a, live[a], free[i].addr, free[i].size);
  }

  /** How far the walk along the circle is from index t. */
  function Distance(i: nat, t: nat, n: nat): int {
    if i <= t then t - i else t + n - i
  }

  /** What the headers stand for: the free list, the live blocks and all memory obtained. */
  datatype Books = Books(free: seq<Blk>, live: map<int, nat>, owned: set<int>, base: int)

  ghost predicate Kept(mem: map<int, Header>, books: Books) {
    match books
    case Books(free, live, owned, base) => Inv(free, live, owned, base) && Encodes(mem, free) && EncodesLive(mem, live)
  }

  class Heap {
    const base: int
    var mem: map<int, Header>
    var freep: int
    var brk: int
    ghost var free: seq<Blk>
    ghost var fi: nat
    ghost var live: map<int, nat>
    ghost var owned: set<int>

    ghost predicate ListValid()
      reads this
    {
      && Kept(mem, Books(free, live, owned, base)) && fi < |free| && free[fi].addr == freep
    }

    /** Before the first malloc freep is null and there is nothing. */
    ghost predicate Valid()
      reads this
    {
      && 0 < base < brk && (forall u :: u in owned ==> u < brk)
      && if freep == 0 then free == [] && live == map[] && owned == {} else ListValid()
    }

    /** The loop of free: walk from freep to the header before address bp. */
    method FindPlace(bp: int) returns (p: int, ghost i: nat)
      requires ListValid() && bp > base && forall j :: 0 <= j < |free| ==> free[j].addr != bp
      ensures Below(free, i, bp) && p == free[i].addr
    {
      ghost var n := |free|;
      ghost var t := PlaceExists(free, base, bp, n - 1);
      p := freep;
      i := fi;
      assert Link(mem, free, i);
      while !(bp > p && bp < mem[p].ptr)
        invariant 0 <= i < n && p == free[i].addr && Link(mem, free, i)
        decreases Distance(i, t, n)
      {
        if p >= mem[p].ptr && (bp > p || bp < mem[p].ptr) {
          break;
        }
        p := mem[p].ptr;
        i := Succ(i, n);
        assert Link(mem, free, i);
      }
    }

    /** The header writes of free. */
    method LinkIn(p: int, bp: int)
      requires p in mem && bp in mem && mem[p].ptr in mem
      modifies this`mem
      ensures mem == FreeWrites(old(mem), p, bp)
    {
      if bp + mem[bp].size == mem[p].ptr {
        var next := mem[p].ptr;
        mem := mem[bp := Header(mem[next].ptr, mem[bp].size + mem[next].size)];
      } else {
        mem := mem[bp := Header(mem[p].ptr, mem[bp].size)];
      }
      if p + mem[p].size == bp {
        mem := mem[p := Header(mem[bp].ptr, mem[p].size + mem[bp].size)];
      } else {
        mem := mem[p := Header(bp, mem[p].size)];
      }
    }

    /** free(ap), with ap one header behind a live block. */
    method Free(ap: int)
      requires Valid() && freep != 0 && ap - 1 in live
      modifies this`mem, this`freep, this`free, this`fi, this`live
      ensures Valid() && freep != 0 && live == old(live) - {ap - 1}
      ensures HasRoom(free, old(live)[ap - 1])
    {
      var bp := ap - 1;
      forall j | 0 <= j < |free| ensures free[j].addr != bp {
        FreeIsNotLive(free, live, owned, base, j, bp);
      }
      ghost var i;
      var p;
      p, i := FindPlace(bp);
      FreeIsRight(mem, free, live, owned, base, i, bp);
      LinkIn(p, bp);
      freep := p;
      fi := i;
      free := Insert(free, i, bp, live[bp]);
      live := live - {bp};
    }

    /** sbrk has returned n units at hp: they get a header and count as a live block. */
    method AddBlock(hp: int, n: nat)
      requires Valid() && freep != 0 && brk <= hp && n > 0
      modifies this`mem, this`brk, this`live, this`owned
      ensures Valid() && hp !in old(live) && live == old(live)[hp := n] && owned == old(owned) + Units(hp, n)
    {
      GrowIsRight(mem, free, live, owned, base, hp, n);
      mem := mem[hp := Header(0, n)];
      brk := hp + n;
      live := live[hp := n];
      owned := owned + Units(hp, n);
    }

    /** morecore: sbrk fails, or its region starts `gap` units above the old break. */
    method Morecore(nu: nat, fail: bool, gap: nat) returns (ok: bool)
      requires Valid() && freep != 0 && nu > 0
      modifies this
      ensures Valid() && freep != 0 && live == old(live) && ok == !fail
      ensures ok ==> HasRoom(free, nu) && owned == old(owned) + Units(old(brk) + gap, Chunk(nu))
      ensures !ok ==> mem == old(mem) && freep == old(freep) && free == old(free) && owned == old(owned) && brk == old(brk)
    {
      if fail {
        return false;
      }
      var n := if nu < 4096 then 4096 else nu;
      var hp := brk + gap;
      AddBlock(hp, n);
      Free(hp + 1);
      assert live == old(live);
      return true;
    }

    /** The header writes of malloc. */
    method CutOut(prevp: int, p: int, n: nat) returns (q: int)
      requires prevp in mem && p in mem && n <= mem[p].size
      modifies this`mem
      ensures mem == MallocWrites(old(mem), prevp, p, n) && q == p + old(mem)[p].size - n
    {
      q := p;
      if mem[p].size == n {
        mem := mem[prevp := Header(mem[p].ptr, mem[prevp].size)];
      } else {
        mem := mem[p := Header(mem[p].ptr, mem[p].size - n)];
        q := p + mem[p].size;
        mem := mem[q := Header(if q in mem then mem[q].ptr else 0, n)];
      }
    }

    /** malloc's exit: take n units from block p, behind header prevp. */
    method Take(prevp: int, p: int, n: nat, ghost i: nat) returns (ap: int)
      requires Valid() && freep != 0 && n > 0 && i + 1 < |free|
      requires prevp == free[i].addr && p == free[i + 1].addr && free[i + 1].size >= n
      modifies this`mem, this`freep, this`free, this`fi, this`live
      ensures Valid() && freep != 0 && ap - 1 !in old(live) && live == old(live)[ap - 1 := n] && ap > 1
    {
      TakeIsRight(mem, free, live, owned, base, i, n);
      var q := CutOut(prevp, p, n);
      freep := prevp;
      fi := i;
      free := Carve(free, i + 1, n);
      live := live[q := n];
      return q + 1;
    }

    /** malloc's walk once around the list, starting behind freep, to the first block that is large
        enough. */
    method Search(nunits: nat) returns (found: bool, prevp: int, p: int, ghost i: nat, ghost d: nat)
      requires ListValid() && nunits > 0
      ensures found ==> i + 1 < |free| && prevp == free[i].addr && p == free[i + 1].addr && free[i + 1].size >= nunits
      ensures found ==> d < |free| && i == Around(fi, d, |free|) && forall e :: 1 <= e <= d ==> free[Around(fi, e, |free|)].size < nunits
      ensures !found ==> p == freep && !HasRoom(free, nunits)
    {
      ghost var n := |free|;
      i, d := fi, 0;
      prevp := freep;
      assert Link(mem, free, i);
      p := mem[prevp].ptr;
      while true
        invariant 0 <= d < n && i == Around(fi, d, n) && prevp == free[i].addr && p == free[Succ(i, n)].addr
        invariant forall e :: 1 <= e <= d ==> free[Around(fi, e, n)].size < nunits
        decreases n - d
      {
        assert Link(mem, free, Succ(i, n));
        if mem[p].size >= nunits {
          found := true;
          return;
        }
        assert Around(fi, d + 1, n) == Succ(i, n);
        if p == freep {
          assert d + 1 == n;
          AroundCovers(free, fi, nunits);
          found := false;
          return;
        }
        prevp, p := p, mem[p].ptr;
        i, d := Succ(i, n), d + 1;
      }
    }

    /** malloc(nbytes). A null result is 0. The walk goes around the list; if it fails,
        morecore adds a block and the walk starts again behind the new freep. So memory is asked
        for only when no free block is large enough. */
    method Malloc(nbytes: nat, fail: bool, gap: nat) returns (ap: int)
      requires Valid()
      modifies this
      ensures Valid() && freep != 0
      ensures ap != 0 ==> ap - 1 !in old(live) && live == old(live)[ap - 1 := UnitsFor(nbytes)]
      ensures ap == 0 <==> fail && !HasRoom(old(free), UnitsFor(nbytes))
      ensures ap == 0 ==> live == old(live)
      ensures owned == if fail || HasRoom(old(free), UnitsFor(nbytes)) then old(owned) else old(owned) + Units(old(brk) + gap, Chunk(UnitsFor(nbytes)))
    {
      var nunits := UnitsFor(nbytes);
      if freep == 0 {
        mem, freep := mem[base := Header(base, 0)], base;
        free, fi := [Blk(base, 0)], 0;
        EmptyIsRight(mem, base);
      }
      ghost var more := false;
      while true
        invariant Valid() && freep != 0 && live == old(live)
        invariant if more then HasRoom(free, nunits) && !fail && !HasRoom(old(free), nunits) && owned == old(owned) + Units(old(brk) + gap, Chunk(nunits))
                  else owned == old(owned) && brk == old(brk) && (HasRoom(free, nunits) <==> HasRoom(old(free), nunits))
        decreases !more
      {
        var found, prevp, p;
        ghost var i, d;
        found, prevp, p, i, d := Search(nunits);
        if found {
          ap := Take(prevp, p, nunits, i);
          return;
        }
        var ok := Morecore(nunits, fail, gap);
        if !ok {
          return 0;
        }
        more := true;
      }
    }
  }

  /** Some free block has n units. */
  ghost predicate HasRoom(free: seq<Blk>, n: nat) {
    exists j :: 0 <= j < |free| && free[j].size >= n
  }

  lemma FreeIsRight(mem: map<int, Header>, free: seq<Blk>, live: map<int, nat>, owned: set<int>, base: int, i: nat, a: int)
    requires Kept(mem, Books(free, live, owned, base)) && a in live && Below(free, i, a)
    ensures free[i].addr in mem && mem[free[i].addr].ptr in mem && base <= free[i].addr
    ensures var mem' := FreeWrites(mem, free[i].addr, a); var r := Insert(free, i, a, live[a]);
      && Kept(mem', Books(r, live - {a}, owned, base))
      && HasRoom(r, live[a]) && i < |r| && r[i].addr == free[i].addr
  {
    LiveFits(free, base, live, i, a);
    assert Link(mem, free, i) && Link(mem, free, Succ(i, |free|));
    InsertEncodes(mem, free, base, i, a, live[a]);
    FreeKeepsInv(free, live, owned, base, i, a);
    PlaceStaysListed(free, base, i, a, live[a]);
    forall b | b in live ensures b != free[i].addr {
      FreeIsNotLive(free, live, owned, base, i, b);
    }
  }

  /** After free the header before the block is still listed, and some block has grown to
      hold the freed units. */
  lemma PlaceStaysListed(free: seq<Blk>, base: int, i: nat, a: int, n: nat)
    requires Ordered(free, base) && Fits(free, i, a, n)
    ensures var r := Insert(free, i, a, n); i < |r| && r[i].addr == free[i].addr
    ensures var r := Insert(free, i, a, n); HasRoom(r, n)
  {
    var r := Insert(free, i, a, n);
    var lo := if TouchesLow(free, i, a) then i else i + 1;
    assert r[lo] == Merged(free, i, a, n);
  }

  lemma GrowIsRight(mem: map<int, Header>, free: seq<Blk>, live: map<int, nat>, owned: set<int>, base: int, a: int, n: nat)
    requires Kept(mem, Books(free, live, owned, base))
    requires base < a && n > 0 && forall u :: u in owned ==> u < a
    ensures a !in live && Kept(mem[a := Header(0, n)], Books(free, live[a := n], owned + Units(a, n), base))
  {
    GrowKeepsInv(free, live, owned, base, a, n);
    var mem' := mem[a := Header(0, n)];
    forall j | 0 <= j < |free| ensures Link(mem', free, j) {
      assert Link(mem, free, j);
      FreeIsNotLive(free, live[a := n], owned + Units(a, n), base, j, a);
    }
  }

  lemma TakeIsRight(mem: map<int, Header>, free: seq<Blk>, live: map<int, nat>, owned: set<int>, base: int, i: nat, n: nat)
    requires Kept(mem, Books(free, live, owned, base))
    requires i + 1 < |free| && 0 < n <= free[i + 1].size
    ensures free[i].addr in mem && mem[free[i].addr].size == free[i].size
    ensures free[i + 1].addr in mem && mem[free[i + 1].addr].size == free[i + 1].size && base <= free[i].addr
    ensures var a := EndOf(free[i + 1]) - n; var mem' := MallocWrites(mem, free[i].addr, free[i + 1].addr, n);
      var r := Carve(free, i + 1, n);
      && a > base && a !in live && Kept(mem', Books(r, live[a := n], owned, base))
      && i < |r| && r[i].addr == free[i].addr
  {
    var a := EndOf(free[i + 1]) - n;
    assert Link(mem, free, i) && Link(mem, free, i + 1);
    MallocKeepsInv(free, live, owned, base, i + 1, n);
    CarveEncodes(mem, free, base, i, n);
    CarveAt(free, i + 1, n, i);
    forall b | b in live ensures b != free[i].addr && b != free[i + 1].addr && b != a {
      FreeIsNotLive(free, live, owned, base, i, b);
      FreeIsNotLive(free, live, owned, base, i + 1, b);
    }
  }

  /** Header units for a request: its bytes rounded up, and one for the header. */
  function UnitsFor(nbytes: nat): (n: nat)
    ensures n > 0 && (n - 2) * HEADER_BYTES < nbytes <= (n - 1) * HEADER_BYTES
  {
    (nbytes + HEADER_BYTES - 1) / HEADER_BYTES + 1
  }

  /** How much morecore asks for. */
  function Chunk(nu: nat): nat {
    if nu < 4096 then 4096 else nu
  }

  /** The index e places after f on a circle of n. */
  function Around(f: nat, e: int, n: nat): int {
    if f + e < n then f + e else f + e - n
  }

  lemma AroundCovers(free: seq<Blk>, f: nat, n: nat)
    requires f < |free| && forall e :: 1 <= e <= |free| ==> free[Around(f, e, |free|)].size < n
    ensures !HasRoom(free, n)
  {
    forall j | 0 <= j < |free| ensures free[j].size < n {
      var e := if j > f then j - f else j - f + |free|;
      assert Around(f, e, |free|) == j;
    }
  }

  lemma EmptyIsRight(mem: map<int, Header>, base: int)
    requires base in mem && mem[base] == Header(base, 0)
    ensures Kept(mem, Books([Blk(base, 0)], map[], {}, base))
  {
  }
}
