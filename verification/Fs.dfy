/** Inodes, the free map and who owns which disk block: the data side of fs.c, seen through
    the block cache as one array of blocks. */
module Fs {
  import opened Basics

  const BSIZE := 512
  const NDIRECT := 12
  const NINDIRECT := 128
  const MAXFILE := 140

  type Block = seq<byte>

  /** The fields of an inode that matter here: its size and its NDIRECT + 1 addresses, the
      last one the indirect block. */
  datatype Inode = Inode(size: nat, addrs: seq<nat>)

  // ---------------------------------------------------------------- words in a block

  /** The k-th 32-bit word, low byte first. */
  function Word(b: Block, k: nat): nat
    requires |b| == BSIZE && k < NINDIRECT
  {
    b[4 * k] as int + 0x100 * b[4 * k + 1] as int + 0x1_0000 * b[4 * k + 2] as int + 0x100_0000 * b[4 * k + 3] as int
  }

  function SetWord(b: Block, k: nat, v: nat): (r: Block)
    requires |b| == BSIZE && k < NINDIRECT && v < 0x1_0000_0000
    ensures |r| == BSIZE
  {
    b[4 * k := v % 0x100][4 * k + 1 := v / 0x100 % 0x100][4 * k + 2 := v / 0x1_0000 % 0x100][4 * k + 3 := v / 0x100_0000]
  }

  lemma ByteSplit(v: nat)
    requires v < 0x1_0000_0000
    ensures v % 0x100 + 0x100 * (v / 0x100 % 0x100) + 0x1_0000 * (v / 0x1_0000 % 0x100) + 0x100_0000 * (v / 0x100_0000) == v
    ensures v / 0x100_0000 < 0x100
  {
    var a, b, c := v / 0x100, v / 0x1_0000, v / 0x100_0000;
    assert v == 0x100 * a + v % 0x100;
    assert b == a / 0x100 && a == 0x100 * b + a % 0x100;
    assert c == b / 0x100 && b == 0x100 * c + b % 0x100;
  }

  /** Reading back a word that was written, and the others. */
  lemma WordSet(b: Block, k: nat, v: nat, j: nat)
    requires |b| == BSIZE && k < NINDIRECT && v < 0x1_0000_0000 && j < NINDIRECT
    ensures Word(SetWord(b, k, v), j) == if j == k then v else Word(b, j)
  {
    ByteSplit(v);
  }

  function Zeros(): (b: Block)
    ensures |b| == BSIZE && (forall k :: 0 <= k < NINDIRECT ==> Word(b, k) == 0) && forall k :: 0 <= k < BSIZE ==> b[k] == 0
  {
    seq(BSIZE, _ => 0)
  }

  // ---------------------------------------------------------------- ownership

  /** bitmap[b] says that block b is in use. `inodes` shows the locked inode as it is in
      memory and every other one as it is on disk. */
  datatype St = St(bitmap: seq<bool>, blocks: seq<Block>, inodes: seq<Inode>)

  /** Places that hold a block number: 0 to 12 are the addresses in the inode, 13 to 140 the
      words of its indirect block. */
  const NSLOTS := 141

  predicate Sized(st: St) {
    match st
    case St(bitmap, blocks, inodes) =>
      && |bitmap| == |blocks| < 0x1_0000_0000
      && (forall b :: 0 <= b < |blocks| ==> |blocks[b]| == BSIZE)
      && (forall i :: 0 <= i < |inodes| ==> |inodes[i].addrs| == NDIRECT + 1)
  }

  function Addr(st: St, i: nat, x: nat): nat
    requires Sized(st) && i < |st.inodes| && x < NSLOTS
  {
    var a := st.inodes[i].addrs[if x <= NDIRECT then x else NDIRECT];
    if x <= NDIRECT then a else if 0 < a < |st.blocks| then Word(st.blocks[a], x - NDIRECT - 1) else 0
  }

  /** Each named block has one owner, which `owner` knows, and lies behind the metadata; the
      bits set in the map are the metadata, the owned blocks and the loose ones that are
      allocated but not yet named. */
  ghost predicate Inv(st: St, nmeta: nat, owner: map<nat, (nat, nat)>, loose: set<nat>) {
    match st
    case St(bitmap, blocks, inodes) =>
      && Sized(st) && 0 < nmeta <= |blocks|
      && (forall i, x :: 0 <= i < |inodes| && 0 <= x < NSLOTS && Addr(st, i, x) != 0 ==>
            Addr(st, i, x) in owner && owner[Addr(st, i, x)] == (i, x))
      && (forall b :: b in owner ==> nmeta <= b < |blocks| && b !in loose)
      && (forall b :: b in owner ==> owner[b].0 < |inodes| && owner[b].1 < NSLOTS && Addr(st, owner[b].0, owner[b].1) == b)
      && (forall b :: b in loose ==> nmeta <= b < |blocks|)
      && (forall b :: 0 <= b < |blocks| ==> (bitmap[b] <==> b < nmeta || b in owner || b in loose))
  }

  // ---------------------------------------------------------------- steps of bmap

  /** balloc of block b: mark it and zero it. */
  function Alloc(st: St, b: nat): St
    requires b < |st.bitmap| == |st.blocks|
  {
    st.(bitmap := st.bitmap[b := true], blocks := st.blocks[b := Zeros()])
  }

  /** Store b in address x of inode i. */
  function Attach(st: St, i: nat, x: nat, b: nat): St
    requires i < |st.inodes| && x < |st.inodes[i].addrs|
  {
    st.(inodes := st.inodes[i := st.inodes[i].(addrs := st.inodes[i].addrs[x := b])])
  }

  /** Store b in word k of the indirect block of inode i. */
  function AttachEntry(st: St, i: nat, k: nat, b: nat): St
    requires Sized(st) && i < |st.inodes| && k < NINDIRECT && b < |st.blocks| && st.inodes[i].addrs[NDIRECT] < |st.blocks|
  {
    var a := st.inodes[i].addrs[NDIRECT];
    st.(blocks := st.blocks[a := SetWord(st.blocks[a], k, b)])
  }

  /** Replace the contents of block a. */
  function Fill(st: St, a: nat, data: Block): St
    requires a < |st.blocks|
  {
    st.(blocks := st.blocks[a := data])
  }

  lemma AllocKeepsInv(st: St, nmeta: nat, owner: map<nat, (nat, nat)>, loose: set<nat>, b: nat)
    requires Inv(st, nmeta, owner, loose) && b < |st.blocks| && !st.bitmap[b]
    ensures b >= nmeta && b !in owner && b !in loose
    ensures Inv(Alloc(st, b), nmeta, owner, loose + {b})
    ensures forall i, x :: 0 <= i < |st.inodes| && 0 <= x < NSLOTS ==> Addr(Alloc(st, b), i, x) == Addr(st, i, x)
  {
    var t := Alloc(st, b);
    forall i, x | 0 <= i < |st.inodes| && 0 <= x < NSLOTS ensures Addr(t, i, x) == Addr(st, i, x) {
      assert Addr(st, i, NDIRECT) != b;
    }
  }

  /** Naming a loose block at one free place gives it an owner. */
  lemma NamingKeepsInv(st: St, t: St, nmeta: nat, owner: map<nat, (nat, nat)>, loose: set<nat>, i: nat, x: nat, b: nat)
    requires Inv(st, nmeta, owner, loose) && SameShape(st, t) && t.bitmap == st.bitmap
    requires i < |st.inodes| && x < NSLOTS && Addr(st, i, x) == 0 && b in loose
    requires forall j, y :: 0 <= j < |st.inodes| && 0 <= y < NSLOTS ==>
      Addr(t, j, y) == if j == i && y == x then b else Addr(st, j, y)
    ensures Inv(t, nmeta, owner[b := (i, x)], loose - {b})
  {
  }

  lemma AttachAddr(st: St, i: nat, x: nat, b: nat)
    requires Sized(st) && i < |st.inodes| && x <= NDIRECT && st.inodes[i].addrs[x] == 0 && b < |st.blocks|
    requires x == NDIRECT ==> forall k :: 0 <= k < NINDIRECT ==> Word(st.blocks[b], k) == 0
    ensures SameShape(st, Attach(st, i, x, b))
    ensures forall j, y :: 0 <= j < |st.inodes| && 0 <= y < NSLOTS ==>
      Addr(Attach(st, i, x, b), j, y) == if j == i && y == x then b else Addr(st, j, y)
  {
  }

  lemma AttachKeepsInv(st: St, nmeta: nat, owner: map<nat, (nat, nat)>, loose: set<nat>, i: nat, x: nat, b: nat)
    requires Inv(st, nmeta, owner, loose) && i < |st.inodes| && x <= NDIRECT && st.inodes[i].addrs[x] == 0 && b in loose
    requires x == NDIRECT ==> forall k :: 0 <= k < NINDIRECT ==> Word(st.blocks[b], k) == 0
    ensures Inv(Attach(st, i, x, b), nmeta, owner[b := (i, x)], loose - {b})
    ensures forall j, y :: 0 <= j < |st.inodes| && 0 <= y < NSLOTS ==>
      Addr(Attach(st, i, x, b), j, y) == if j == i && y == x then b else Addr(st, j, y)
  {
    AttachAddr(st, i, x, b);
    NamingKeepsInv(st, Attach(st, i, x, b), nmeta, owner, loose, i, x, b);
  }

  lemma AttachEntryAddr(st: St, i: nat, k: nat, b: nat)
    requires Sized(st) && i < |st.inodes| && k < NINDIRECT && b < |st.blocks| && 0 < st.inodes[i].addrs[NDIRECT] < |st.blocks|
    requires forall j :: 0 <= j < |st.inodes| && j != i ==> st.inodes[j].addrs[NDIRECT] != st.inodes[i].addrs[NDIRECT]
    ensures SameShape(st, AttachEntry(st, i, k, b))
    ensures forall j, y :: 0 <= j < |st.inodes| && 0 <= y < NSLOTS ==>
      Addr(AttachEntry(st, i, k, b), j, y) == if j == i && y == NDIRECT + 1 + k then b else Addr(st, j, y)
  {
    var t := AttachEntry(st, i, k, b);
    var a := st.inodes[i].addrs[NDIRECT];
    forall j, y | 0 <= j < |st.inodes| && 0 <= y < NSLOTS
      ensures Addr(t, j, y) == if j == i && y == NDIRECT + 1 + k then b else Addr(st, j, y)
    {
      if y > NDIRECT {
        WordSet(st.blocks[a], k, b, y - NDIRECT - 1);
      }
    }
  }

  lemma AttachEntryKeepsInv(st: St, nmeta: nat, owner: map<nat, (nat, nat)>, loose: set<nat>, i: nat, k: nat, b: nat)
    requires Inv(st, nmeta, owner, loose) && i < |st.inodes| && k < NINDIRECT && b in loose
    requires 0 < st.inodes[i].addrs[NDIRECT] < |st.blocks| && Addr(st, i, NDIRECT + 1 + k) == 0
    ensures Inv(AttachEntry(st, i, k, b), nmeta, owner[b := (i, NDIRECT + 1 + k)], loose - {b})
    ensures forall j, y :: 0 <= j < |st.inodes| && 0 <= y < NSLOTS ==>
      Addr(AttachEntry(st, i, k, b), j, y) == if j == i && y == NDIRECT + 1 + k then b else Addr(st, j, y)
  {
    assert forall j :: 0 <= j < |st.inodes| ==> Addr(st, j, NDIRECT) == st.inodes[j].addrs[NDIRECT];
    AttachEntryAddr(st, i, k, b);
    NamingKeepsInv(st, AttachEntry(st, i, k, b), nmeta, owner, loose, i, NDIRECT + 1 + k, b);
  }

  /** Data blocks hold no addresses. */
  lemma FillKeepsInv(st: St, nmeta: nat, owner: map<nat, (nat, nat)>, loose: set<nat>, i: nat, x: nat, data: Block)
    requires Inv(st, nmeta, owner, loose) && i < |st.inodes| && x < NSLOTS && x != NDIRECT && Addr(st, i, x) != 0 && |data| == BSIZE
    ensures Inv(Fill(st, Addr(st, i, x), data), nmeta, owner, loose)
    ensures forall j, y :: 0 <= j < |st.inodes| && 0 <= y < NSLOTS ==> Addr(Fill(st, Addr(st, i, x), data), j, y) == Addr(st, j, y)
  {
    var a := Addr(st, i, x);
    var t := Fill(st, a, data);
    forall j, y | 0 <= j < |st.inodes| && 0 <= y < NSLOTS ensures Addr(t, j, y) == Addr(st, j, y) {
      assert Addr(st, j, NDIRECT) != a;
    }
  }

  // ---------------------------------------------------------------- file contents

  /** The slot of the n-th block of a file. */
  function SlotOf(bn: nat): nat {
    if bn < NDIRECT then bn else bn + 1
  }

  /** A block that is not there reads as zeros, which is what bmap makes of it. */
  function FileByte(st: St, i: nat, off: nat): byte
    requires Sized(st) && i < |st.inodes| && off < MAXFILE * BSIZE
  {
    var a := Addr(st, i, SlotOf(off / BSIZE));
    if 0 < a < |st.blocks| then st.blocks[a][off % BSIZE] else 0
  }

  /** The size is one that a file can have. */
  predicate Fits(st: St, i: nat)
    requires i < |st.inodes|
  {
    st.inodes[i].size <= MAXFILE * BSIZE
  }

  /** A file as a flat sequence of bytes. */
  ghost function Content(st: St, i: nat): (c: seq<byte>)
    requires Sized(st) && i < |st.inodes| && Fits(st, i)
    ensures |c| == st.inodes[i].size && forall o :: 0 <= o < |c| ==> c[o] == FileByte(st, i, o)
  {
    seq(st.inodes[i].size, o requires 0 <= o < st.inodes[i].size => FileByte(st, i, o))
  }

  /** Every block below the size is there. */
  ghost predicate NoHoles(st: St, i: nat)
    requires Sized(st) && i < |st.inodes|
  {
    && Fits(st, i)
    && forall bn :: 0 <= bn < MAXFILE && bn * BSIZE < st.inodes[i].size ==> Addr(st, i, SlotOf(bn)) != 0
  }

  /** What nobody but inode i can notice. */
  ghost predicate OthersSame(st: St, t: St, i: nat)
    requires Sized(st) && Sized(t) && |t.inodes| == |st.inodes| && |t.blocks| == |st.blocks|
  {
    match st
    case St(_, blocks, inodes) =>
      forall j :: 0 <= j < |inodes| && j != i ==>
        && t.inodes[j] == inodes[j]
        && forall y :: 0 <= y < NSLOTS ==>
             && Addr(t, j, y) == Addr(st, j, y)
             && (y != NDIRECT && 0 < Addr(st, j, y) < |blocks| ==> t.blocks[Addr(st, j, y)] == blocks[Addr(st, j, y)])
  }

  /** Inode i may have got more blocks, full of zeros; the ones it had are where and what they
      were. */
  ghost predicate Grows(st: St, t: St, i: nat)
    requires Sized(st) && Sized(t) && |t.inodes| == |st.inodes| && |t.blocks| == |st.blocks| && i < |st.inodes|
  {
    match st
    case St(_, blocks, inodes) =>
      && OthersSame(st, t, i) && t.inodes[i].size == inodes[i].size
      && (forall y :: 0 <= y < NSLOTS && Addr(st, i, y) != 0 ==>
            && Addr(t, i, y) == Addr(st, i, y)
            && (y != NDIRECT && Addr(st, i, y) < |blocks| ==> t.blocks[Addr(st, i, y)] == blocks[Addr(st, i, y)]))
      && (forall y :: 0 <= y < NSLOTS && y != NDIRECT && Addr(st, i, y) == 0 && 0 < Addr(t, i, y) < |blocks| ==>
            t.blocks[Addr(t, i, y)] == Zeros())
  }

  predicate SameShape(st: St, t: St) {
    Sized(st) && Sized(t) && |t.inodes| == |st.inodes| && |t.blocks| == |st.blocks|
  }

  /** New blocks do not show. */
  lemma GrowsBytes(st: St, t: St, i: nat, o: nat)
    requires SameShape(st, t) && i < |st.inodes| && Grows(st, t, i) && o < MAXFILE * BSIZE
    ensures FileByte(t, i, o) == FileByte(st, i, o)
  {
    var y := SlotOf(o / BSIZE);
    assert Addr(st, i, y) != 0 ==> Addr(t, i, y) == Addr(st, i, y);
  }

  lemma GrowsTransitive(st: St, t: St, u: St, i: nat)
    requires SameShape(st, t) && SameShape(t, u) && i < |st.inodes| && Grows(st, t, i) && Grows(t, u, i)
    ensures Grows(st, u, i)
  {
  }

  /** balloc for address x of inode i. */
  lemma AllocDirect(st: St, nmeta: nat, owner: map<nat, (nat, nat)>, i: nat, x: nat, b: nat)
    requires Inv(st, nmeta, owner, {}) && i < |st.inodes| && x <= NDIRECT && st.inodes[i].addrs[x] == 0
    requires b < |st.blocks| && !st.bitmap[b]
    ensures var t := Attach(Alloc(st, b), i, x, b);
      && Inv(t, nmeta, owner[b := (i, x)], {}) && Grows(st, t, i) && Addr(t, i, x) == b
      && forall y :: 0 <= y < NSLOTS && y != x ==> Addr(t, i, y) == Addr(st, i, y)
  {
    var s1 := Alloc(st, b);
    AllocKeepsInv(st, nmeta, owner, {}, b);
    AttachKeepsInv(s1, nmeta, owner, {b}, i, x, b);
    assert {b} - {b} == {};
    var t := Attach(s1, i, x, b);
    forall j, y | 0 <= j < |st.inodes| && 0 <= y < NSLOTS && Addr(st, j, y) != 0 ensures Addr(st, j, y) != b {
    }
  }

  /** balloc for word k of the indirect block of inode i. */
  lemma AllocEntry(st: St, nmeta: nat, owner: map<nat, (nat, nat)>, i: nat, k: nat, b: nat)
    requires Inv(st, nmeta, owner, {}) && i < |st.inodes| && k < NINDIRECT && st.inodes[i].addrs[NDIRECT] != 0
    requires Addr(st, i, NDIRECT + 1 + k) == 0 && b < |st.blocks| && !st.bitmap[b]
    ensures st.inodes[i].addrs[NDIRECT] < |st.blocks|
    ensures var t := AttachEntry(Alloc(st, b), i, k, b);
      Inv(t, nmeta, owner[b := (i, NDIRECT + 1 + k)], {}) && Grows(st, t, i) && Addr(t, i, NDIRECT + 1 + k) == b
  {
    assert Addr(st, i, NDIRECT) == st.inodes[i].addrs[NDIRECT];
    var s1 := Alloc(st, b);
    AllocKeepsInv(st, nmeta, owner, {}, b);
    AttachEntryKeepsInv(s1, nmeta, owner, {b}, i, k, b);
    assert {b} - {b} == {};
    var t := AttachEntry(s1, i, k, b);
    forall j, y | 0 <= j < |st.inodes| && 0 <= y < NSLOTS && Addr(st, j, y) != 0
      ensures Addr(st, j, y) != b && (y != NDIRECT ==> Addr(st, j, y) != st.inodes[i].addrs[NDIRECT])
    {
    }
  }

  // ---------------------------------------------------------------- writing

  /** memmove into a block. */
  function Overlay(b: Block, at: nat, chunk: seq<byte>): (r: Block)
    requires at + |chunk| <= |b|
    ensures |r| == |b|
    ensures forall k :: 0 <= k < |b| ==> r[k] == if at <= k < at + |chunk| then chunk[k - at] else b[k]
  {
    b[..at] + chunk + b[at + |chunk|..]
  }

  lemma SlotsDiffer(st: St, nmeta: nat, owner: map<nat, (nat, nat)>, i: nat, bn: nat, j: nat, y: nat)
    requires Inv(st, nmeta, owner, {}) && i < |st.inodes| && j < |st.inodes| && bn < MAXFILE && y < NSLOTS
    requires Addr(st, i, SlotOf(bn)) != 0 && Addr(st, i, SlotOf(bn)) == Addr(st, j, y)
    ensures i == j && y == SlotOf(bn)
  {
  }

  /** Writing inside one block of the file. */
  lemma FillBytes(st: St, nmeta: nat, owner: map<nat, (nat, nat)>, i: nat, bn: nat, at: nat, chunk: seq<byte>)
    requires Inv(st, nmeta, owner, {}) && i < |st.inodes| && bn < MAXFILE && at + |chunk| <= BSIZE
    requires 0 < Addr(st, i, SlotOf(bn)) < |st.blocks|
    ensures var a := Addr(st, i, SlotOf(bn)); var t := Fill(st, a, Overlay(st.blocks[a], at, chunk));
      && Inv(t, nmeta, owner, {}) && OthersSame(st, t, i)
      && (forall y :: 0 <= y < NSLOTS ==> Addr(t, i, y) == Addr(st, i, y))
      && forall o :: 0 <= o < MAXFILE * BSIZE ==>
           FileByte(t, i, o) == if o / BSIZE == bn && at <= o % BSIZE < at + |chunk| then chunk[o % BSIZE - at] else FileByte(st, i, o)
  {
    var a := Addr(st, i, SlotOf(bn));
    var data := Overlay(st.blocks[a], at, chunk);
    var t := Fill(st, a, data);
    FillKeepsInv(st, nmeta, owner, {}, i, SlotOf(bn), data);
    forall j, y | 0 <= j < |st.inodes| && 0 <= y < NSLOTS && Addr(st, j, y) == a ensures j == i && y == SlotOf(bn) {
      SlotsDiffer(st, nmeta, owner, i, bn, j, y);
    }
  }

  /** From st to t, `chunk` has been written at offset `off` of inode i and nothing else that
      could be read has changed. The size is not yet updated. */
  ghost predicate Wrote(st: St, t: St, i: nat, off: nat, chunk: seq<byte>)
    requires SameShape(st, t) && i < |st.inodes|
  {
    match st
    case St(_, _, _) =>
      && OthersSame(st, t, i) && t.inodes[i].size == st.inodes[i].size
      && (forall y :: 0 <= y < NSLOTS && Addr(st, i, y) != 0 ==> Addr(t, i, y) == Addr(st, i, y))
      && (forall o :: 0 <= o < MAXFILE * BSIZE && off <= o < off + |chunk| ==>
            Addr(t, i, SlotOf(o / BSIZE)) != 0 && FileByte(t, i, o) == chunk[o - off])
      && (forall o :: 0 <= o < MAXFILE * BSIZE && !(off <= o < off + |chunk|) ==> FileByte(t, i, o) == FileByte(st, i, o))
  }

  lemma WroteAppend(st: St, t: St, u: St, i: nat, off: nat, c1: seq<byte>, c2: seq<byte>)
    requires SameShape(st, t) && SameShape(t, u) && i < |st.inodes|
    requires Wrote(st, t, i, off, c1) && Wrote(t, u, i, off + |c1|, c2)
    ensures Wrote(st, u, i, off, c1 + c2)
  {
    forall o | 0 <= o < MAXFILE * BSIZE && off <= o < off + |c1 + c2|
      ensures Addr(u, i, SlotOf(o / BSIZE)) != 0 && FileByte(u, i, o) == (c1 + c2)[o - off]
    {
    }
  }

  lemma WroteSlice(st: St, t: St, u: St, i: nat, off: nat, src: seq<byte>, tot: nat, o: nat, m: nat)
    requires SameShape(st, t) && SameShape(t, u) && i < |st.inodes| && tot + m <= |src| && o == off + tot
    requires Wrote(st, t, i, off, src[..tot]) && Wrote(t, u, i, o, src[tot..tot + m])
    ensures Wrote(st, u, i, off, src[..tot + m])
  {
    WroteAppend(st, t, u, i, off, src[..tot], src[tot..tot + m]);
    assert src[..tot] + src[tot..tot + m] == src[..tot + m];
  }

  /** bmap and then the copy into the block. */
  lemma GrowAndFill(st: St, mid: St, nmeta: nat, owner: map<nat, (nat, nat)>, i: nat, off: nat, chunk: seq<byte>)
    requires SameShape(st, mid) && i < |st.inodes| && Grows(st, mid, i) && Inv(mid, nmeta, owner, {})
    requires off / BSIZE < MAXFILE && off % BSIZE + |chunk| <= BSIZE && 0 < Addr(mid, i, SlotOf(off / BSIZE)) < |mid.blocks|
    ensures var a := Addr(mid, i, SlotOf(off / BSIZE)); var t := Fill(mid, a, Overlay(mid.blocks[a], off % BSIZE, chunk));
      Inv(t, nmeta, owner, {}) && SameShape(st, t) && Wrote(st, t, i, off, chunk)
  {
    var bn, at := off / BSIZE, off % BSIZE;
    FillBytes(mid, nmeta, owner, i, bn, at, chunk);
    var a := Addr(mid, i, SlotOf(bn));
    var t := Fill(mid, a, Overlay(mid.blocks[a], at, chunk));
    forall o | 0 <= o < MAXFILE * BSIZE && off <= o < off + |chunk|
      ensures Addr(t, i, SlotOf(o / BSIZE)) != 0 && FileByte(t, i, o) == chunk[o - off]
    {
      assert o / BSIZE == bn && o % BSIZE == at + (o - off);
    }
    forall o | 0 <= o < MAXFILE * BSIZE && !(off <= o < off + |chunk|) ensures FileByte(t, i, o) == FileByte(st, i, o) {
      GrowsBytes(st, mid, i, o);
      assert !(o / BSIZE == bn && at <= o % BSIZE < at + |chunk|);
    }
  }

  // ---------------------------------------------------------------- a flat file

  /** The flat file after src has been written at off: it grows if it has to. */
  function Replace(c: seq<byte>, off: nat, src: seq<byte>): (r: seq<byte>)
    requires off <= |c|
    ensures |r| == if off + |src| > |c| then off + |src| else |c|
  {
    c[..off] + src + if off + |src| <= |c| then c[off + |src|..] else []
  }

  lemma ReplaceAt(c: seq<byte>, off: nat, src: seq<byte>, o: nat)
    requires off <= |c| && o < |Replace(c, off, src)|
    ensures Replace(c, off, src)[o] == if off <= o < off + |src| then src[o - off] else c[o]
  {
  }

  /** Reading back what was written. */
  lemma ReadBack(c: seq<byte>, off: nat, src: seq<byte>)
    requires off <= |c|
    ensures Replace(c, off, src)[off..off + |src|] == src
  {
  }

  function Resize(st: St, i: nat, size: nat): St
    requires i < |st.inodes|
  {
    st.(inodes := st.inodes[i := st.inodes[i].(size := size)])
  }

  lemma ResizeKeepsInv(st: St, nmeta: nat, owner: map<nat, (nat, nat)>, i: nat, size: nat)
    requires Inv(st, nmeta, owner, {}) && i < |st.inodes|
    ensures Inv(Resize(st, i, size), nmeta, owner, {}) && SameShape(st, Resize(st, i, size))
    ensures forall j, y :: 0 <= j < |st.inodes| && 0 <= y < NSLOTS ==> Addr(Resize(st, i, size), j, y) == Addr(st, j, y)
  {
    var t := Resize(st, i, size);
    assert Sized(t);
    assert forall j, y :: 0 <= j < |st.inodes| && 0 <= y < NSLOTS ==> Addr(t, j, y) == Addr(st, j, y);
  }

  /** A file whose inode, places and blocks are the same reads the same. */
  lemma OtherFileSame(st: St, t: St, i: nat, j: nat)
    requires SameShape(st, t) && i < |st.inodes| && j < |st.inodes| && j != i && OthersSame(st, t, i)
    ensures forall o :: 0 <= o < MAXFILE * BSIZE ==> FileByte(t, j, o) == FileByte(st, j, o)
    ensures Fits(st, j) ==> Fits(t, j) && Content(t, j) == Content(st, j)
  {
    assert t.inodes[j] == st.inodes[j];
    forall o | 0 <= o < MAXFILE * BSIZE ensures FileByte(t, j, o) == FileByte(st, j, o) {
      assert Addr(t, j, SlotOf(o / BSIZE)) == Addr(st, j, SlotOf(o / BSIZE));
    }
  }

  /** New blocks full of zeros change no file. */
  lemma GrowsIsQuiet(st: St, t: St, i: nat, j: nat)
    requires SameShape(st, t) && i < |st.inodes| && j < |st.inodes| && Grows(st, t, i) && Fits(st, j)
    ensures Fits(t, j) && Content(t, j) == Content(st, j)
  {
    if j != i {
      OtherFileSame(st, t, i, j);
    } else {
      forall o | 0 <= o < st.inodes[i].size ensures FileByte(t, i, o) == FileByte(st, i, o) {
        GrowsBytes(st, t, i, o);
      }
    }
  }

  /** The new size after a write of n bytes at off. */
  function NewSize(size: nat, off: nat, n: nat): nat {
    if off + n > size then off + n else size
  }

  lemma WriteLeavesNoHoles(st: St, t: St, u: St, i: nat, off: nat, src: seq<byte>)
    requires SameShape(st, t) && SameShape(st, u) && i < |st.inodes| && NoHoles(st, i) && Wrote(st, t, i, off, src)
    requires off <= st.inodes[i].size && off + |src| <= MAXFILE * BSIZE
    requires u.inodes[i].size == NewSize(st.inodes[i].size, off, |src|)
    requires forall y :: 0 <= y < NSLOTS ==> Addr(u, i, y) == Addr(t, i, y)
    ensures NoHoles(u, i)
  {
    forall bn | 0 <= bn < MAXFILE && bn * BSIZE < u.inodes[i].size ensures Addr(u, i, SlotOf(bn)) != 0 {
      if bn * BSIZE < st.inodes[i].size {
        assert Addr(st, i, SlotOf(bn)) != 0;
      } else {
        var o := bn * BSIZE;
        assert off <= o < off + |src| && o / BSIZE == bn;
      }
    }
  }

  lemma WriteByte(st: St, t: St, i: nat, off: nat, src: seq<byte>, o: nat)
    requires SameShape(st, t) && i < |st.inodes| && Fits(st, i) && Wrote(st, t, i, off, src)
    requires off <= st.inodes[i].size && off + |src| <= MAXFILE * BSIZE && o < NewSize(st.inodes[i].size, off, |src|)
    ensures FileByte(t, i, o) == Replace(Content(st, i), off, src)[o]
  {
    ReplaceAt(Content(st, i), off, src, o);
  }

  /** Blocks written and then the size: the flat file with src in its place. */
  lemma WriteIsReplace(st: St, t: St, i: nat, off: nat, src: seq<byte>)
    requires SameShape(st, t) && i < |st.inodes| && Fits(st, i) && Wrote(st, t, i, off, src)
    requires off <= st.inodes[i].size && off + |src| <= MAXFILE * BSIZE
    ensures var u := Resize(t, i, NewSize(st.inodes[i].size, off, |src|));
      && SameShape(st, u) && Fits(u, i) && Content(u, i) == Replace(Content(st, i), off, src) && OthersSame(st, u, i)
      && (NoHoles(st, i) ==> NoHoles(u, i))
  {
    var u := Resize(t, i, NewSize(st.inodes[i].size, off, |src|));
    SameBytes(t, i, u.inodes[i].size);
    if NoHoles(st, i) {
      WriteLeavesNoHoles(st, t, u, i, off, src);
    }
    forall o | 0 <= o < u.inodes[i].size ensures FileByte(u, i, o) == Replace(Content(st, i), off, src)[o] {
      WriteByte(st, t, i, off, src, o);
    }
  }

  lemma SameBytes(t: St, i: nat, size: nat)
    requires Sized(t) && i < |t.inodes|
    ensures SameShape(t, Resize(t, i, size))
    ensures forall j, y :: 0 <= j < |t.inodes| && 0 <= y < NSLOTS ==> Addr(Resize(t, i, size), j, y) == Addr(t, j, y)
    ensures forall o :: 0 <= o < MAXFILE * BSIZE ==> FileByte(Resize(t, i, size), i, o) == FileByte(t, i, o)
  {
  }
}
