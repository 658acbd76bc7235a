/** balloc, bmap, itrunc, readi and writei of fs.c and the write loop of file.c, in place on
    a file system with one locked inode. `logged` collects the block numbers that log_write
    has been called with since the transaction began. */
module FsFile {
  import opened Basics
  import opened Fs
  import opened FsCount
  import opened FsWrite
  import opened FsTrunc

  const TWO32 := 0x1_0000_0000

  /** The test off + n < off of readi and writei is one for a sum that does not fit 32 bits. */
  lemma WrapsIff(off: nat, n: nat)
    requires off < TWO32 && n < TWO32
    ensures (off + n) % TWO32 < off <==> off + n >= TWO32
    ensures (off + n) % TWO32 == if off + n >= TWO32 then off + n - TWO32 else off + n
  {
  }

  class FileSystem {
    const nmeta: nat
    const bmapstart: nat
    const inodestart: nat
    /** The number of the locked inode; its copy in memory is st.inodes[inum] and its copy on
        disk is `disk`. */
    const inum: nat
    var st: St
    var disk: Inode
    /** The offset of the open file, f->off. */
    var foff: nat
    ghost var owner: map<nat, (nat, nat)>
    ghost var logged: set<nat>

    function BBlock(b: nat): nat {
      b / BPB + bmapstart
    }

    function IBlock(): nat {
      inum / IPB + inodestart
    }

    ghost predicate Valid()
      reads this
    {
      Inv(st, nmeta, owner, {}) && inum < |st.inodes|
    }

    /** balloc: the first block whose bit is clear, marked and zeroed; not ok is
        panic("balloc: out of blocks"). */
    method Balloc() returns (r: nat, ok: bool)
      requires |st.bitmap| == |st.blocks|
      modifies this`st, this`logged
      ensures ok ==> r < |old(st).bitmap| && !old(st).bitmap[r] && (forall b :: 0 <= b < r ==> old(st).bitmap[b])
      ensures ok ==> st == Alloc(old(st), r) && logged == old(logged) + {BBlock(r), r}
      ensures !ok ==> st == old(st) && Full(st)
    {
      var size := |st.bitmap|;
      var b := 0;
      while b < size
        invariant st == old(st) && logged == old(logged)
        invariant b % BPB == 0 && forall k :: 0 <= k < b && k < size ==> st.bitmap[k]
      {
        var bi := 0;
        while bi < BPB && b + bi < size
          invariant 0 <= bi <= BPB && forall k :: 0 <= k < b + bi && k < size ==> st.bitmap[k]
          invariant st == old(st) && logged == old(logged)
        {
          if !st.bitmap[b + bi] {
            st := st.(bitmap := st.bitmap[b + bi := true]);
            logged := logged + {BBlock(b + bi)};
            st := st.(blocks := st.blocks[b + bi := Zeros()]);
            logged := logged + {b + bi};
            return b + bi, true;
          }
          bi := bi + 1;
        }
        b := b + BPB;
      }
      return 0, false;
    }

    /** Allocate a block for address x of the inode. */
    method AllocAddr(x: nat) returns (b: nat, ok: bool)
      requires Valid() && x <= NDIRECT && st.inodes[inum].addrs[x] == 0
      modifies this`st, this`logged, this`owner
      ensures ok ==> Valid() && SameShape(old(st), st) && Grows(old(st), st, inum)
      ensures ok ==> b != 0 && st.inodes[inum].addrs == old(st).inodes[inum].addrs[x := b] && Addr(st, inum, x) == b
      ensures ok ==> forall y :: 0 <= y < NSLOTS && y != x ==> Addr(st, inum, y) == Addr(old(st), inum, y)
      ensures ok ==> logged == old(logged) + {BBlock(b), b} && Covered(old(st), st, bmapstart, logged)
      ensures !ok ==> Full(st)
    {
      ghost var st0 := st;
      b, ok := Balloc();
      if ok {
        AllocKeepsInv(st0, nmeta, owner, {}, b);
        AllocDirect(st0, nmeta, owner, inum, x, b);
        st := Attach(st, inum, x, b);
        owner := owner[b := (inum, x)];
      }
    }

    /** Store block b, which balloc has just taken out of st0, in word k of the indirect block. */
    method SetEntry(ghost st0: St, k: nat, b: nat)
      requires Sized(st0) && inum < |st0.inodes| && k < NINDIRECT && b < |st0.blocks| && st == Alloc(st0, b)
      requires st0.inodes[inum].addrs[NDIRECT] < |st0.blocks| && BBlock(b) in logged && b in logged
      modifies this`st, this`logged, this`owner
      ensures st == AttachEntry(old(st), inum, k, b) && owner == old(owner)[b := (inum, NDIRECT + 1 + k)]
      ensures logged == old(logged) + {st0.inodes[inum].addrs[NDIRECT]} && Covered(st0, st, bmapstart, logged)
    {
      st := AttachEntry(st, inum, k, b);
      logged := logged + {st.inodes[inum].addrs[NDIRECT]};
      owner := owner[b := (inum, NDIRECT + 1 + k)];
    }

    /** Allocate a block for word k of the indirect block. */
    method AllocWord(k: nat) returns (b: nat, ok: bool)
      requires Valid() && k < NINDIRECT && st.inodes[inum].addrs[NDIRECT] != 0 && Addr(st, inum, NDIRECT + 1 + k) == 0
      modifies this`st, this`logged, this`owner
      ensures ok ==> Valid() && SameShape(old(st), st) && Grows(old(st), st, inum) && st.inodes == old(st).inodes
      ensures ok ==> b != 0 && Addr(st, inum, NDIRECT + 1 + k) == b
      ensures ok ==> logged == old(logged) + {BBlock(b), b} + {st.inodes[inum].addrs[NDIRECT]} && Covered(old(st), st, bmapstart, logged)
      ensures !ok ==> Full(st)
    {
      ghost var st0 := st;
      b, ok := Balloc();
      if ok {
        AllocEntry(st0, nmeta, owner, inum, k, b);
        SetEntry(st0, k, b);
      }
    }

    /** The indirect case of bmap, with the indirect block in place. */
    method BmapWord(k: nat) returns (addr: nat, ok: bool, ghost maps: set<nat>)
      requires Valid() && k < NINDIRECT && st.inodes[inum].addrs[NDIRECT] != 0
      modifies this`st, this`logged, this`owner
      ensures ok ==> Valid() && SameShape(old(st), st) && Grows(old(st), st, inum) && st.inodes == old(st).inodes
      ensures ok ==> addr == Addr(st, inum, NDIRECT + 1 + k) && addr != 0 && |maps| <= 1
      ensures Addr(old(st), inum, NDIRECT + 1 + k) != 0 ==> ok && st == old(st) && logged == old(logged) && owner == old(owner) && maps == {}
      ensures ok && Addr(old(st), inum, NDIRECT + 1 + k) == 0 ==> addr in logged
      ensures ok ==> logged <= old(logged) + maps + {addr} + Indirect(st.inodes[inum])
      ensures ok ==> old(logged) <= logged && Covered(old(st), st, bmapstart, logged)
      ensures !ok ==> Full(st)
    {
      maps := {};
      ok := true;
      CoveredNone(st, bmapstart, logged);
      assert Addr(st, inum, NDIRECT) == st.inodes[inum].addrs[NDIRECT];
      addr := Word(st.blocks[st.inodes[inum].addrs[NDIRECT]], k);
      assert addr == Addr(st, inum, NDIRECT + 1 + k);
      if addr == 0 {
        addr, ok := AllocWord(k);
        maps := {BBlock(addr)};
      }
    }

    /** The direct case of bmap. */
    method BmapDirect(bn: nat) returns (addr: nat, ok: bool, ghost maps: set<nat>)
      requires Valid() && bn < NDIRECT
      modifies this`st, this`logged, this`owner
      ensures ok ==> Valid() && SameShape(old(st), st) && Grows(old(st), st, inum)
      ensures ok ==> addr == Addr(st, inum, bn) && addr != 0 && |maps| <= 1
      ensures Addr(old(st), inum, bn) != 0 ==> ok && st == old(st) && logged == old(logged) && owner == old(owner) && maps == {}
      ensures ok && Addr(old(st), inum, bn) == 0 ==> addr in logged
      ensures ok ==> Gained(old(st).inodes[inum], st.inodes[inum], Ready(old(st).inodes[inum], bn))
      ensures ok ==> logged <= old(logged) + maps + {addr} && Indirect(st.inodes[inum]) == Indirect(old(st).inodes[inum])
      ensures ok ==> old(logged) <= logged && Covered(old(st), st, bmapstart, logged)
      ensures !ok ==> Full(st)
    {
      maps := {};
      ok := true;
      CoveredNone(st, bmapstart, logged);
      addr := st.inodes[inum].addrs[bn];
      assert addr == Addr(st, inum, bn);
      if addr == 0 {
        addr, ok := AllocAddr(bn);
        maps := {BBlock(addr)};
      }
    }

    /** Load the indirect block, allocating it if need be. */
    method NeedIndirect() returns (ok: bool, ghost maps: set<nat>)
      requires Valid()
      modifies this`st, this`logged, this`owner
      ensures ok ==> Valid() && SameShape(old(st), st) && Grows(old(st), st, inum)
      ensures ok ==> st.inodes[inum].addrs[NDIRECT] != 0 && |maps| <= GotIndirect(old(st).inodes[inum], st.inodes[inum])
      ensures old(st).inodes[inum].addrs[NDIRECT] != 0 ==> ok && st == old(st) && logged == old(logged) && owner == old(owner) && maps == {}
      ensures ok ==> Gained(old(st).inodes[inum], st.inodes[inum], old(st).inodes[inum].addrs[NDIRECT] != 0)
      ensures ok ==> forall y :: NDIRECT < y < NSLOTS ==> Addr(st, inum, y) == Addr(old(st), inum, y)
      ensures ok ==> logged <= old(logged) + maps + Indirect(st.inodes[inum])
      ensures ok ==> Indirect(old(st).inodes[inum]) <= Indirect(st.inodes[inum])
      ensures ok ==> old(logged) <= logged && Covered(old(st), st, bmapstart, logged)
      ensures !ok ==> Full(st)
    {
      maps := {};
      ok := true;
      CoveredNone(st, bmapstart, logged);
      if st.inodes[inum].addrs[NDIRECT] == 0 {
        var ind;
        ind, ok := AllocAddr(NDIRECT);
        maps := {BBlock(ind)};
      }
    }

    /** The indirect case of bmap. */
    method BmapIndirect(k: nat) returns (addr: nat, ok: bool, ghost maps: set<nat>)
      requires Valid() && k < NINDIRECT
      modifies this`st, this`logged, this`owner
      ensures ok ==> Valid() && SameShape(old(st), st) && Grows(old(st), st, inum)
      ensures ok ==> addr == Addr(st, inum, NDIRECT + 1 + k) && addr != 0
      ensures Addr(old(st), inum, NDIRECT + 1 + k) != 0 ==> ok && st == old(st) && logged == old(logged) && owner == old(owner) && maps == {}
      ensures ok && Addr(old(st), inum, NDIRECT + 1 + k) == 0 ==> addr in logged
      ensures ok ==> Gained(old(st).inodes[inum], st.inodes[inum], old(st).inodes[inum].addrs[NDIRECT] != 0)
      ensures ok ==> Charged(old(st).inodes[inum], st.inodes[inum], old(logged), logged, maps, addr) && Covered(old(st), st, bmapstart, logged)
      ensures !ok ==> Full(st)
    {
      ghost var st0 := st;
      addr := 0;
      ok, maps := NeedIndirect();
      if !ok { return; }
      ghost var mid, log1 := st, logged;
      ghost var more;
      addr, ok, more := BmapWord(k);
      if ok {
        CoveredTwice(st0, mid, st, bmapstart, log1, logged);
        assert Grows(st0, st, inum) by { GrowsTransitive(st0, mid, st, inum); }
        UnionSize(maps, more);
      }
      maps := maps + more;
    }

    /** bmap: the block of the file's n-th block, allocated if need be. `maps` are the
        bitmap blocks that changed. */
    method Bmap(bn: nat) returns (addr: nat, ok: bool, ghost maps: set<nat>)
      requires Valid() && bn < MAXFILE
      modifies this`st, this`logged, this`owner
      ensures ok ==> Valid() && SameShape(old(st), st) && Grows(old(st), st, inum)
      ensures ok ==> addr == Addr(st, inum, SlotOf(bn)) && addr != 0
      ensures Addr(old(st), inum, SlotOf(bn)) != 0 ==> ok && st == old(st) && logged == old(logged) && owner == old(owner) && maps == {}
      ensures ok && Addr(old(st), inum, SlotOf(bn)) == 0 ==> addr in logged
      ensures ok ==> Gained(old(st).inodes[inum], st.inodes[inum], Ready(old(st).inodes[inum], bn))
      ensures ok ==> Charged(old(st).inodes[inum], st.inodes[inum], old(logged), logged, maps, addr) && Covered(old(st), st, bmapstart, logged)
      ensures !ok ==> Full(st)
    {
      if bn < NDIRECT {
        addr, ok, maps := BmapDirect(bn);
      } else {
        addr, ok, maps := BmapIndirect(bn - NDIRECT);
      }
    }

    /** The copy into block a, which bmap has got out of st0, and log_write. */
    method CopyIn(ghost st0: St, a: nat, off: nat, chunk: seq<byte>)
      requires Valid() && SameShape(st0, st) && Grows(st0, st, inum) && off / BSIZE < MAXFILE && off % BSIZE + |chunk| <= BSIZE
      requires a == Addr(st, inum, SlotOf(off / BSIZE)) != 0 && Covered(st0, st, bmapstart, logged)
      modifies this`st, this`logged
      ensures Valid() && SameShape(st0, st) && Wrote(st0, st, inum, off, chunk) && st.inodes == old(st).inodes
      ensures logged == old(logged) + {a} && Covered(st0, st, bmapstart, logged)
    {
      assert a < |st.blocks|;
      GrowAndFill(st0, st, nmeta, owner, inum, off, chunk);
      CoveredFill(st0, st, bmapstart, logged, a, Overlay(st.blocks[a], off % BSIZE, chunk));
      st := Fill(st, a, Overlay(st.blocks[a], off % BSIZE, chunk));
      logged := logged + {a};
    }

    /** One turn of writei's loop: bmap, copy, log_write. */
    method WriteBlock(off: nat, chunk: seq<byte>) returns (ok: bool, ghost addr: nat, ghost maps: set<nat>)
      requires Valid() && off / BSIZE < MAXFILE && off % BSIZE + |chunk| <= BSIZE
      modifies this`st, this`logged, this`owner
      ensures ok ==> Valid() && SameShape(old(st), st) && Wrote(old(st), st, inum, off, chunk)
      ensures ok && Addr(old(st), inum, SlotOf(off / BSIZE)) != 0 ==> maps == {}
      ensures ok ==> Gained(old(st).inodes[inum], st.inodes[inum], Ready(old(st).inodes[inum], off / BSIZE))
      ensures ok ==> Charged(old(st).inodes[inum], st.inodes[inum], old(logged), logged, maps, addr) && Covered(old(st), st, bmapstart, logged)
      ensures !ok ==> Full(st)
    {
      ghost var st0 := st;
      var a;
      a, ok, maps := Bmap(off / BSIZE);
      addr := a;
      if ok {
        CopyIn(st0, a, off, chunk);
      }
    }

    /** One turn of writei's loop: min, bmap, copy, log_write. */
    method Turn(ghost job: Job, ghost t: Tally, ghost next: nat, chunk: seq<byte>, o: nat) returns (ok: bool, ghost t': Tally)
      requires Valid() && job.inum == inum && Written(job, t.tot, st) && Tallied(job, t, st.inodes[inum], logged) && o == job.off + t.tot
      requires t.tot < |job.src| && |chunk| == ChunkSize(o, |job.src| - t.tot) && next == t.tot + |chunk| <= |job.src|
      requires chunk == job.src[t.tot..next] && o / BSIZE < MAXFILE && o % BSIZE + |chunk| <= BSIZE
      requires t.tot == 0 && First(job) ==> Addr(st, inum, SlotOf(o / BSIZE)) != 0
      requires job.log0 <= logged && Covered(job.st0, st, bmapstart, logged)
      modifies this`st, this`logged, this`owner
      ensures ok ==> Valid() && Written(job, t'.tot, st) && Tallied(job, t', st.inodes[inum], logged) && t'.tot == next
      ensures ok ==> job.log0 <= logged && Covered(job.st0, st, bmapstart, logged)
      ensures !ok ==> Full(st)
    {
      ghost var st1, log1 := st, logged;
      ghost var addr, more;
      ok, addr, more := WriteBlock(o, chunk);
      t' := t;
      if ok {
        t' := TalliedNext(job, t, next, o, |chunk|, st1.inodes[inum], log1, st.inodes[inum], logged, addr, more);
        WrittenNext(job, t.tot, next, o, chunk, st1, st);
        CoveredTwice(job.st0, st1, st, bmapstart, log1, logged);
      }
    }

    /** The next turn, of as much as goes into the block. */
    method NextTurn(ghost job: Job, ghost t: Tally, src: seq<byte>, tot: nat, o: nat) returns (ok: bool, m: nat, ghost t': Tally)
      requires Valid() && job.inum == inum && Underway(job, t, st, logged, bmapstart)
      requires src == job.src && tot == t.tot < |src| && o == job.off + tot
      modifies this`st, this`logged, this`owner
      ensures ok ==> Valid() && Underway(job, t', st, logged, bmapstart) && t'.tot == tot + m && 0 < m <= |src| - tot
      ensures !ok ==> Full(st)
    {
      m := ChunkSize(o, |src| - tot);
      ChunkIsReady(job, t, o, m, st);
      ok, t' := Turn(job, t, tot + m, src[tot..tot + m], o);
    }

    /** writei's loop. */
    method WriteLoop(off: nat, src: seq<byte>) returns (ok: bool, ghost t: Tally)
      requires Valid() && Fits(st, inum) && off <= st.inodes[inum].size && off + |src| <= MAXFILE * BSIZE
      modifies this`st, this`logged, this`owner
      ensures ok ==> Valid() && Underway(Job(old(st), old(logged), inum, off, src), t, st, logged, bmapstart) && t.tot == |src|
      ensures !ok ==> Full(st)
    {
      ghost var job := Job(st, logged, inum, off, src);
      t := ProgressStart(job, bmapstart);
      var tot := 0;
      while tot < |src|
        invariant tot == t.tot <= |src| && Valid() && Underway(job, t, st, logged, bmapstart)
      {
        var m;
        ok, m, t := NextTurn(job, t, src, tot, off + tot);
        if !ok { return; }
        tot := tot + m;
      }
      ok := true;
    }

    /** The new size, and iupdate. */
    method Enlarge(end: nat)
      requires Valid()
      modifies this`st, this`disk, this`logged
      ensures Valid() && st == Resize(old(st), inum, end) && disk == st.inodes[inum] && logged == old(logged) + {IBlock()}
    {
      ResizeKeepsInv(st, nmeta, owner, inum, end);
      st := Resize(st, inum, end);
      disk := st.inodes[inum];
      logged := logged + {IBlock()};
    }

    /** The end of writei: a file that grew gets its size and is written to disk. */
    method SetSize(ghost job: Job, ghost t: Tally, n: nat, end: nat)
      requires Valid() && job.inum == inum && n == |job.src| && end == job.off + n
      requires Underway(job, t, st, logged, bmapstart) && t.tot == n
      modifies this`st, this`disk, this`logged
      ensures Valid() && Replaced(job.st0, st, inum, job.off, job.src) && Modest(job, t, st.inodes[inum], logged, IBlock())
      ensures InodeAfter(job.st0.inodes[inum], old(disk), st.inodes[inum], disk, job.off, n)
      ensures st.bitmap == old(st).bitmap && st.blocks == old(st).blocks && old(logged) <= logged && (disk != old(disk) ==> IBlock() in logged)
    {
      if n > 0 && end > st.inodes[inum].size {
        WriteGrew(job, t, st, Resize(st, inum, end), logged, IBlock(), disk, end);
        Enlarge(end);
      } else {
        WriteStayed(job, t, st, logged, IBlock(), disk, end);
      }
    }

    /** writei: -1 for a write that starts behind the end, wraps around 32 bits or does not
        fit, else the number of bytes, all of them. Not ok is a panic for want of blocks.
        Afterwards the inode on disk is the one in memory if and only if the file grew or bmap
        stored no address in the inode. */
    method Writei(src: seq<byte>, off: nat) returns (r: int, ok: bool, ghost t: Tally)
      requires Valid() && Fits(st, inum) && off < TWO32 && |src| < TWO32
      modifies this`st, this`disk, this`logged, this`owner
      ensures r == if off > old(st).inodes[inum].size || off + |src| > MAXFILE * BSIZE then -1 else |src|
      ensures r == -1 ==> ok && st == old(st) && logged == old(logged) && disk == old(disk) && owner == old(owner)
      ensures ok && r != -1 ==> Valid() && Replaced(old(st), st, inum, off, src)
      ensures ok && r != -1 ==> Modest(Job(old(st), old(logged), inum, off, src), t, st.inodes[inum], logged, IBlock())
      ensures ok && r != -1 ==> InodeAfter(old(st).inodes[inum], old(disk), st.inodes[inum], disk, off, |src|)
      ensures ok && r != -1 && old(disk) == old(st).inodes[inum] ==>
        (disk == st.inodes[inum] <==> off + |src| > old(st).inodes[inum].size || Kept(old(st).inodes[inum], off, |src|))
      ensures ok && r != -1 ==> Covered(old(st), st, bmapstart, logged) && (disk != old(disk) ==> IBlock() in logged)
      ensures !ok ==> Full(st)
    {
      t := Tally(0, 0, {}, {});
      WrapsIff(off, |src|);
      if off > st.inodes[inum].size || (off + |src|) % TWO32 < off { return -1, true, t; }
      if (off + |src|) % TWO32 > MAXFILE * BSIZE { return -1, true, t; }
      ghost var job, d := Job(st, logged, inum, off, src), disk;
      ok, t := WriteLoop(off, src);
      if ok {
        ghost var st1, log1 := st, logged;
        SetSize(job, t, |src|, off + |src|);
        CoveredMore(job.st0, st1, st, bmapstart, log1, logged);
        if d == job.st0.inodes[inum] {
          InodeIsRightIff(job.st0.inodes[inum], d, st.inodes[inum], disk, off, |src|);
        }
      }
      r := |src|;
    }

    /** bmap inside readi. */
    method ReadMap(ghost st0: St, ghost log0: set<nat>, ghost off: nat, o: nat, ghost m: nat, ghost next: nat) returns (addr: nat, ok: bool)
      requires Valid() && off <= o && HasRead(st0, st, inum, off, o - off, log0, logged)
      requires m > 0 && next == o + m && o % BSIZE + m <= BSIZE && o / BSIZE < MAXFILE
      modifies this`st, this`logged, this`owner
      ensures ok ==> Valid() && HasRead(st0, st, inum, off, next - off, log0, logged)
      ensures ok ==> addr == Addr(st, inum, SlotOf(o / BSIZE)) && 0 < addr < |st.blocks|
      ensures !ok ==> Full(st)
    {
      ghost var st1, log1 := st, logged;
      ghost var maps;
      addr, ok, maps := Bmap(o / BSIZE);
      if ok {
        ReadMore(st0, st1, st, inum, off, o - off, o, m, next - off, log0, log1, logged);
      }
    }

    /** One turn of readi's loop. */
    method ReadBlock(ghost st0: St, ghost log0: set<nat>, ghost off: nat, o: nat, m: nat, ghost next: nat) returns (chunk: seq<byte>, ok: bool)
      requires Valid() && off <= o && HasRead(st0, st, inum, off, o - off, log0, logged)
      requires m > 0 && next == o + m <= st0.inodes[inum].size && o % BSIZE + m <= BSIZE && o / BSIZE < MAXFILE
      modifies this`st, this`logged, this`owner
      ensures ok ==> Valid() && HasRead(st0, st, inum, off, next - off, log0, logged)
      ensures ok ==> chunk == Content(st0, inum)[o..next]
      ensures !ok ==> Full(st)
    {
      var addr;
      addr, ok := ReadMap(st0, log0, off, o, m, next);
      chunk := [];
      if ok {
        var at := o % BSIZE;
        var past := at + m;
        ReadChunk(st0, st, inum, o, next, at, past, addr);
        chunk := st.blocks[addr][at..past];
      }
    }

    /** As much as there is in the block of o. */
    method ReadNext(ghost st0: St, ghost log0: set<nat>, ghost off: nat, o: nat, end: nat, dst: seq<byte>) returns (o': nat, dst': seq<byte>, ok: bool)
      requires Valid() && off <= o < end && HasRead(st0, st, inum, off, o - off, log0, logged)
      requires end <= st0.inodes[inum].size && dst == Content(st0, inum)[off..o]
      modifies this`st, this`logged, this`owner
      ensures ok ==> Valid() && o < o' <= end && HasRead(st0, st, inum, off, o' - off, log0, logged)
      ensures ok ==> dst' == Content(st0, inum)[off..o']
      ensures !ok ==> Full(st)
    {
      var m := ChunkSize(o, end - o);
      ChunkFits(o, end - o);
      o' := o + m;
      var chunk;
      chunk, ok := ReadBlock(st0, log0, off, o, m, o');
      Joined(Content(st0, inum), off, o, o');
      dst' := dst + chunk;
    }

    /** readi's loop. */
    method ReadLoop(off: nat, end: nat) returns (dst: seq<byte>, ok: bool)
      requires Valid() && Fits(st, inum) && off <= end <= st.inodes[inum].size
      modifies this`st, this`logged, this`owner
      ensures ok ==> Valid() && HasRead(old(st), st, inum, off, end - off, old(logged), logged)
      ensures ok ==> dst == Content(old(st), inum)[off..end]
      ensures !ok ==> Full(st)
    {
      ghost var st0, log0 := st, logged;
      dst := [];
      var o := off;
      while o < end
        invariant off <= o <= end && Valid() && HasRead(st0, st, inum, off, o - off, log0, logged)
        invariant dst == Content(st0, inum)[off..o]
      {
        o, dst, ok := ReadNext(st0, log0, off, o, end, dst);
        if !ok { return; }
      }
      ok := true;
    }

    /** readi: -1 for a read that starts behind the end or wraps around 32 bits, else the
        bytes from off on up to the end. Not ok is a panic for want of blocks. Every file
        reads as before; but nothing at all has changed, and nothing has been logged, if and
        only if no block of the range is a hole. */
    method Readi(off: nat, n: nat) returns (r: int, dst: seq<byte>, ok: bool)
      requires Valid() && Fits(st, inum) && off < TWO32 && n < TWO32
      modifies this`st, this`logged, this`owner
      ensures r == -1 <==> off > old(st).inodes[inum].size || off + n >= TWO32
      ensures r == -1 ==> ok && st == old(st) && logged == old(logged) && owner == old(owner)
      ensures r != -1 ==> r == if off + n > old(st).inodes[inum].size then old(st).inodes[inum].size - off else n
      ensures ok && r != -1 ==> |dst| == r && dst == Content(old(st), inum)[off..off + r]
      ensures ok ==> Valid() && (r != -1 ==> QuietIff(old(st), st, inum, off, r, old(logged), logged))
      ensures !ok ==> Full(st)
    {
      ghost var st0, log0 := st, logged;
      dst := [];
      WrapsIff(off, n);
      if off > st.inodes[inum].size || (off + n) % TWO32 < off { return -1, dst, true; }
      var left := n;
      if off + n > st.inodes[inum].size { left := st.inodes[inum].size - off; }
      dst, ok := ReadLoop(off, off + left);
      if ok {
        ReadIff(st0, st, inum, off, left, log0, logged);
      }
      r := left;
    }

    /** Between transactions. */
    ghost predicate Settled()
      reads this
    {
      Valid() && Fits(st, inum) && foff < TWO32
    }

    /** No holes, and the inode on disk is the one in memory. */
    ghost predicate Whole()
      requires Settled()
      reads this
    {
      NoHoles(st, inum) && disk == st.inodes[inum]
    }

    /** What a transaction of filewrite promises: the bytes are in the file, every block that
        differs on disk has been logged, and a file without holes stays whole. */
    ghost predicate TxnDone(st0: St, disk0: Inode, off: nat, chunk: seq<byte>, whole: bool)
      reads this
    {
      match st
      case St(_, _, _) =>
        && Settled() && Replaced(st0, st, inum, off, chunk) && foff == off + |chunk| && |logged| <= MAXOPBLOCKS + 1
        && ChangesLogged(OnDisk(st0, inum, disk0), OnDisk(st, inum, disk), bmapstart, inodestart, logged)
        && (whole ==> Whole() && |logged| <= MAXOPBLOCKS && ChangesLogged(st0, st, bmapstart, inodestart, logged))
    }

    /** One transaction of filewrite: begin_op, writei, end_op. */
    method WriteTxn(chunk: seq<byte>) returns (r: int, ok: bool)
      requires Settled() && 0 < |chunk| <= CHUNK
      modifies this`st, this`disk, this`logged, this`owner, this`foff
      ensures r == if old(foff) > old(st).inodes[inum].size || old(foff) + |chunk| > MAXFILE * BSIZE then -1 else |chunk|
      ensures r == -1 ==> ok && st == old(st) && foff == old(foff) && disk == old(disk) && owner == old(owner) && logged == {}
      ensures ok && r != -1 ==> TxnDone(old(st), old(disk), old(foff), chunk, old(Whole()))
      ensures !ok ==> Full(st)
    {
      ghost var st0, off, d := st, foff, disk;
      ghost var job := Job(st, {}, inum, foff, chunk);
      logged := {};
      ghost var t;
      r, ok, t := Writei(chunk, foff);
      if ok && r != -1 {
        WriteChangesLogged(st0, st, inum, off, chunk, d, disk, bmapstart, inodestart, logged);
        StaysWhole(job, st.inodes[inum], d, disk);
      }
      if r > 0 {
        foff := foff + r;
      }
    }

    /** filewrite has written the first n bytes of src, from off0 on, into what was st0. */
    ghost predicate Writing(st0: St, off0: nat, whole: bool, src: seq<byte>, n: nat)
      reads this
    {
      match st
      case St(_, _, _) => Settled() && (whole ==> Whole()) && foff == off0 + n && WroteSome(st0, st, inum, off0, src, n)
    }

    /** One turn of filewrite's loop. */
    method WriteChunk(ghost st0: St, ghost off0: nat, ghost whole: bool, src: seq<byte>, i: nat) returns (r: int, ok: bool, i': nat)
      requires i < |src| && Writing(st0, off0, whole, src, i)
      modifies this`st, this`disk, this`logged, this`owner, this`foff
      ensures ok ==> Writing(st0, off0, whole, src, i') && |logged| <= if whole then MAXOPBLOCKS else MAXOPBLOCKS + 1
      ensures r == -1 ==> ok && i' == i && st == old(st) && (foff > st.inodes[inum].size || foff + NextChunk(|src| - i) > MAXFILE * BSIZE)
      ensures r != -1 ==> r == NextChunk(|src| - i) && i' == i + r
      ensures !ok ==> Full(st)
    {
      var n1 := |src| - i;
      if n1 > CHUNK { n1 := CHUNK; }
      ghost var st1, at := st, foff;
      var next := i + n1;
      r, ok := WriteTxn(src[i..next]);
      if r == -1 { return r, ok, i; }
      if ok {
        WroteMore(st0, st1, st, inum, off0, src, i, at, next, src[i..next]);
      }
      i' := next;
    }

    /** filewrite: a few blocks at a time. `done` bytes get written, all of them unless the
        file would get too large; no transaction logs more than MAXOPBLOCKS blocks, and one
        more only in a file with holes. */
    method FileWrite(src: seq<byte>) returns (r: int, ok: bool, done: nat, ghost txns: seq<set<nat>>)
      requires Settled()
      modifies this`st, this`disk, this`logged, this`owner, this`foff
      ensures ok ==> Settled() && (old(Whole()) ==> Whole())
      ensures ok ==> WroteSome(old(st), st, inum, old(foff), src, done) && foff == old(foff) + done
      ensures ok ==> r == if done == |src| then |src| else -1
      ensures ok && done < |src| ==> foff > st.inodes[inum].size || foff + NextChunk(|src| - done) > MAXFILE * BSIZE
      ensures forall k :: 0 <= k < |txns| ==> |txns[k]| <= if old(Whole()) then MAXOPBLOCKS else MAXOPBLOCKS + 1
      ensures !ok ==> Full(st)
    {
      ghost var st0, off0, whole := st, foff, Whole();
      done, txns, ok := 0, [], true;
      WroteNone(st, inum, foff, src);
      while done < |src|
        invariant done <= |src| && Writing(st0, off0, whole, src, done)
        invariant forall k :: 0 <= k < |txns| ==> |txns[k]| <= if whole then MAXOPBLOCKS else MAXOPBLOCKS + 1
      {
        r, ok, done := WriteChunk(st0, off0, whole, src, done);
        if !ok { return; }
        txns := txns + [logged];
        if r < 0 { break; }
      }
      r := if done == |src| then |src| else -1;
    }

    /** bfree: not ok is panic("freeing free block"). */
    method Bfree(b: nat) returns (ok: bool)
      requires b < |st.bitmap|
      modifies this`st, this`logged
      ensures ok == old(st).bitmap[b]
      ensures ok ==> st == old(st).(bitmap := old(st).bitmap[b := false]) && logged == old(logged) + {BBlock(b)}
      ensures forall st0 :: ok && Covered(st0, old(st), bmapstart, old(logged)) ==> Covered(st0, st, bmapstart, logged)
    {
      if !st.bitmap[b] { return false; }
      forall st0 | Covered(st0, st, bmapstart, logged) ensures Covered(st0, st.(bitmap := st.bitmap[b := false]), bmapstart, logged + {BBlock(b)}) {
        CoveredFree(st0, st, bmapstart, logged, b);
      }
      st := st.(bitmap := st.bitmap[b := false]);
      logged := logged + {BBlock(b)};
      return true;
    }

    /** itrunc's first loop. */
    method FreeDirect(ghost st0: St)
      requires Inv(st0, nmeta, owner, {}) && inum < |st0.inodes| && st == st0
      modifies this`st, this`logged
      ensures Cleared(st0.bitmap, st.bitmap, owner, inum, NDIRECT, 0) && st.blocks == st0.blocks
      ensures |st.inodes| == |st0.inodes| && st.inodes == st0.inodes[inum := st.inodes[inum]]
      ensures |st.inodes[inum].addrs| == NDIRECT + 1 && st.inodes[inum].addrs[NDIRECT] == st0.inodes[inum].addrs[NDIRECT]
      ensures forall k :: 0 <= k < NDIRECT ==> st.inodes[inum].addrs[k] == 0
      ensures old(logged) <= logged && Covered(st0, st, bmapstart, logged)
    {
      CoveredNone(st, bmapstart, logged);
      var i := 0;
      while i < NDIRECT
        invariant old(logged) <= logged && Covered(st0, st, bmapstart, logged)
        invariant i <= NDIRECT && Cleared(st0.bitmap, st.bitmap, owner, inum, i, 0) && st.blocks == st0.blocks
        invariant |st.inodes| == |st0.inodes| && st.inodes == st0.inodes[inum := st.inodes[inum]]
        invariant |st.inodes[inum].addrs| == NDIRECT + 1
        invariant forall k :: 0 <= k <= NDIRECT ==> st.inodes[inum].addrs[k] == if k < i then 0 else st0.inodes[inum].addrs[k]
      {
        assert st.inodes[inum].addrs[i] == Addr(st0, inum, i);
        ghost var bits := st.bitmap;
        if st.inodes[inum].addrs[i] != 0 {
          NextIsInUse(st0, nmeta, owner, st.bitmap, inum, i, 0, i);
          var ok := Bfree(st.inodes[inum].addrs[i]);
          assert ok;
          CoveredMore(st0, st, Attach(st, inum, i, 0), bmapstart, logged, logged);
          st := Attach(st, inum, i, 0);
        }
        ClearNext(st0, nmeta, owner, bits, st.bitmap, inum, i, 0, i, i + 1, 0);
        i := i + 1;
      }
    }

    /** itrunc's second loop, over the words of the indirect block. */
    method FreeWords(ghost st0: St, ind: nat)
      requires Inv(st0, nmeta, owner, {}) && inum < |st0.inodes| && ind == st0.inodes[inum].addrs[NDIRECT] != 0
      requires Cleared(st0.bitmap, st.bitmap, owner, inum, NDIRECT, 0) && st.blocks == st0.blocks && Covered(st0, st, bmapstart, logged)
      modifies this`st, this`logged
      ensures Cleared(st0.bitmap, st.bitmap, owner, inum, NDIRECT, NINDIRECT) && st.blocks == st0.blocks && st.inodes == old(st).inodes
      ensures old(logged) <= logged && Covered(st0, st, bmapstart, logged)
    {
      assert Addr(st0, inum, NDIRECT) == ind;
      var j := 0;
      while j < NINDIRECT
        invariant j <= NINDIRECT && Cleared(st0.bitmap, st.bitmap, owner, inum, NDIRECT, j)
        invariant st.blocks == st0.blocks && st.inodes == old(st).inodes
        invariant old(logged) <= logged && Covered(st0, st, bmapstart, logged)
      {
        var b := Word(st.blocks[ind], j);
        assert b == Addr(st0, inum, NDIRECT + 1 + j);
        ghost var bits := st.bitmap;
        if b != 0 {
          NextIsInUse(st0, nmeta, owner, st.bitmap, inum, NDIRECT, j, NDIRECT + 1 + j);
          var ok := Bfree(b);
          assert ok;
        }
        ClearNext(st0, nmeta, owner, bits, st.bitmap, inum, NDIRECT, j, NDIRECT + 1 + j, NDIRECT, j + 1);
        j := j + 1;
      }
    }

    /** The indirect block itself. */
    method FreeIndirect(ghost st0: St, ind: nat)
      requires Inv(st0, nmeta, owner, {}) && inum < |st0.inodes| && ind == st0.inodes[inum].addrs[NDIRECT] != 0
      requires Cleared(st0.bitmap, st.bitmap, owner, inum, NDIRECT, 0) && st.blocks == st0.blocks && Covered(st0, st, bmapstart, logged)
      modifies this`st, this`logged
      ensures Cleared(st0.bitmap, st.bitmap, owner, inum, NDIRECT + 1, NINDIRECT) && st.blocks == st0.blocks && st.inodes == old(st).inodes
      ensures old(logged) <= logged && Covered(st0, st, bmapstart, logged)
    {
      FreeWords(st0, ind);
      ghost var bits := st.bitmap;
      assert Addr(st0, inum, NDIRECT) == ind;
      NextIsInUse(st0, nmeta, owner, st.bitmap, inum, NDIRECT, NINDIRECT, NDIRECT);
      var ok := Bfree(ind);
      assert ok;
      ClearNext(st0, nmeta, owner, bits, st.bitmap, inum, NDIRECT, NINDIRECT, NDIRECT, NDIRECT + 1, NINDIRECT);
    }

    /** itrunc: the inode is empty, in memory and on disk, exactly its blocks are free again,
        and every other file is what it was. */
    method Itrunc()
      requires Valid()
      modifies this`st, this`disk, this`logged, this`owner
      ensures Valid() && SameShape(old(st), st) && owner == Without(old(owner), inum) && disk == st.inodes[inum]
      ensures forall b :: 0 <= b < |st.bitmap| ==> st.bitmap[b] == (old(st).bitmap[b] && !(b in old(owner) && old(owner)[b].0 == inum))
      ensures st.inodes[inum].size == 0 && (forall k :: 0 <= k <= NDIRECT ==> st.inodes[inum].addrs[k] == 0)
      ensures st == Emptied(old(st), inum, st.bitmap) && OthersSame(old(st), st, inum)
      ensures ChangesLogged(old(st), st, bmapstart, inodestart, logged) && IBlock() in logged
    {
      ghost var st0 := st;
      FreeDirect(st0);
      var ind := st.inodes[inum].addrs[NDIRECT];
      if ind != 0 {
        FreeIndirect(st0, ind);
        CoveredMore(st0, st, Attach(st, inum, NDIRECT, 0), bmapstart, logged, logged);
        st := Attach(st, inum, NDIRECT, 0);
      } else {
        NoIndirectNoWords(st0, nmeta, owner, st.bitmap, inum);
      }
      ghost var st1, log1 := st, logged;
      st := Resize(st, inum, 0);
      disk := st.inodes[inum];
      logged := logged + {IBlock()};
      CoveredMore(st0, st1, st, bmapstart, log1, logged);
      assert disk.addrs == NoAddrs();
      assert st.inodes == st0.inodes[inum := Inode(0, NoAddrs())];
      TruncKeepsInv(st0, nmeta, owner, st.bitmap, inum);
      owner := Without(owner, inum);
    }
  }
}
