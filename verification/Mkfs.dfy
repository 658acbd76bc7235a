/** The first file system image: mkfs.c. */
module Mkfs {
  import opened Basics
  import opened Fs
  import opened FsCount
  import opened FsWrite
  import opened FsTrunc

  const DIRSIZ := 14
  const DIRENT := 16

  /** A directory entry: the inode number, low byte first, and the name cut or filled up with
      zeros to DIRSIZ bytes. */
  function Dirent(inum: nat, name: seq<byte>): (e: seq<byte>)
    ensures |e| == DIRENT
  {
    [inum % 256, inum / 256 % 256] + seq(DIRSIZ, k requires 0 <= k => if k < |name| then name[k] else 0)
  }

  /** A file to put into the image. */
  datatype File = File(name: seq<byte>, data: seq<byte>)

  /** The entries of the root directory for the first n files, which have the inodes from 2 on. */
  function Entries(files: seq<File>, n: nat): (e: seq<byte>)
    requires n <= |files|
    ensures |e| == DIRENT * (2 + n)
  {
    if n == 0 then Dirent(ROOTINO, ['.' as int]) + Dirent(ROOTINO, ['.' as int, '.' as int])
    else Entries(files, n - 1) + Dirent(n + 1, files[n - 1].name)
  }

  // ---------------------------------------------------------------- states of the image

  /** Blocks are handed out in order, and the rest of the image is still zero. */
  ghost predicate Untouched(st: St, freeblock: nat, freeinode: nat) {
    match st
    case St(bitmap, blocks, inodes) =>
      && (forall b :: 0 <= b < |bitmap| ==> (bitmap[b] <==> b < freeblock))
      && (forall b :: freeblock <= b < |blocks| ==> blocks[b] == Zeros())
      && (forall i :: freeinode <= i < |inodes| ==> inodes[i] == Inode(0, NoAddrs()))
  }

  /** File i has the blocks for `end` bytes, the indirect block if these need it, and no others, and
      nothing but zeros behind. */
  ghost predicate Tight(st: St, i: nat, end: nat)
    requires Sized(st) && i < |st.inodes|
  {
    match st
    case St(_, _, inodes) =>
      && (forall bn :: 0 <= bn < MAXFILE ==> (Addr(st, i, SlotOf(bn)) != 0 <==> bn * BSIZE < end))
      && (inodes[i].addrs[NDIRECT] != 0 <==> NDIRECT * BSIZE < end)
      && ZerosFrom(st, i, end)
  }

  ghost predicate ZerosFrom(st: St, i: nat, end: nat)
    requires Sized(st) && i < |st.inodes|
  {
    match st
    case St(_, _, _) => forall o :: 0 <= o < MAXFILE * BSIZE && o >= end ==> FileByte(st, i, o) == 0
  }

  /** Only the n-th block of file i can be new, and the indirect block if this lies behind it. */
  ghost predicate OnlyBlock(st: St, t: St, i: nat, n: nat)
    requires SameShape(st, t) && i < |st.inodes|
  {
    match st
    case St(_, _, inodes) =>
      && (forall bn :: 0 <= bn < MAXFILE && bn != n ==> Addr(t, i, SlotOf(bn)) == Addr(st, i, SlotOf(bn)))
      && (n < NDIRECT ==> t.inodes[i].addrs[NDIRECT] == inodes[i].addrs[NDIRECT])
  }

  /** File i may have got a block at place x and nothing else. */
  ghost predicate GrownAt(st: St, t: St, i: nat, x: nat) {
    match st
    case St(_, _, inodes) =>
      && SameShape(st, t) && i < |inodes| && Grows(st, t, i)
      && forall y :: 0 <= y < NSLOTS && y != x ==> Addr(t, i, y) == Addr(st, i, y)
  }

  lemma GrownTwice(st: St, mid: St, t: St, i: nat, k: nat)
    requires k < NINDIRECT && GrownAt(st, mid, i, NDIRECT) && GrownAt(mid, t, i, NDIRECT + 1 + k)
    ensures SameShape(st, t) && Grows(st, t, i) && OnlyBlock(st, t, i, NDIRECT + k)
  {
    GrowsTransitive(st, mid, t, i);
  }

  lemma GrownOnce(st: St, t: St, i: nat, x: nat)
    requires x < NDIRECT && GrownAt(st, t, i, x)
    ensures SameShape(st, t) && Grows(st, t, i) && OnlyBlock(st, t, i, x)
  {
    assert Addr(t, i, NDIRECT) == Addr(st, i, NDIRECT);
  }

  lemma WordIsAddr(st: St, nmeta: nat, owner: map<nat, (nat, nat)>, i: nat, k: nat)
    requires Inv(st, nmeta, owner, {}) && i < |st.inodes| && k < NINDIRECT && st.inodes[i].addrs[NDIRECT] != 0
    ensures st.inodes[i].addrs[NDIRECT] < |st.blocks| && Word(st.blocks[st.inodes[i].addrs[NDIRECT]], k) == Addr(st, i, NDIRECT + 1 + k)
    ensures SameShape(st, st) && GrownAt(st, st, i, NDIRECT + 1 + k)
  {
    assert Addr(st, i, NDIRECT) == st.inodes[i].addrs[NDIRECT];
  }

  lemma NextDirect(st: St, nmeta: nat, owner: map<nat, (nat, nat)>, freeblock: nat, freeinode: nat, i: nat, x: nat)
    requires Inv(st, nmeta, owner, {}) && Untouched(st, freeblock, freeinode) && freeblock < |st.blocks|
    requires i < freeinode <= |st.inodes| && x <= NDIRECT && st.inodes[i].addrs[x] == 0
    ensures var t := Attach(Alloc(st, freeblock), i, x, freeblock);
      && Inv(t, nmeta, owner[freeblock := (i, x)], {}) && GrownAt(st, t, i, x) && t.blocks == st.blocks
      && Untouched(t, freeblock + 1, freeinode) && Addr(t, i, x) == freeblock > 0
  {
    var b := freeblock;
    AllocDirect(st, nmeta, owner, i, x, b);
    AllocKeepsInv(st, nmeta, owner, {}, b);
    AttachAddr(Alloc(st, b), i, x, b);
    assert Alloc(st, b).blocks == st.blocks;
  }

  lemma NextWord(st: St, nmeta: nat, owner: map<nat, (nat, nat)>, freeblock: nat, freeinode: nat, i: nat, k: nat)
    requires Inv(st, nmeta, owner, {}) && Untouched(st, freeblock, freeinode) && freeblock < |st.blocks|
    requires i < freeinode <= |st.inodes| && k < NINDIRECT && st.inodes[i].addrs[NDIRECT] != 0 && Addr(st, i, NDIRECT + 1 + k) == 0
    ensures 0 < st.inodes[i].addrs[NDIRECT] < freeblock
    ensures var t := AttachEntry(Alloc(st, freeblock), i, k, freeblock); var a := st.inodes[i].addrs[NDIRECT];
      && Inv(t, nmeta, owner[freeblock := (i, NDIRECT + 1 + k)], {}) && GrownAt(st, t, i, NDIRECT + 1 + k) && t.inodes == st.inodes
      && t.blocks == st.blocks[a := SetWord(st.blocks[a], k, freeblock)]
      && Untouched(t, freeblock + 1, freeinode) && Addr(t, i, NDIRECT + 1 + k) == freeblock > 0
  {
    var b := freeblock;
    assert Addr(st, i, NDIRECT) == st.inodes[i].addrs[NDIRECT];
    AllocEntry(st, nmeta, owner, i, k, b);
    AllocKeepsInv(st, nmeta, owner, {}, b);
    assert Alloc(st, b).blocks == st.blocks;
    AttachEntryKeepsInv(Alloc(st, b), nmeta, owner, {b}, i, k, b);
  }

  /** A turn of iappend: the block is placed, then filled. */
  lemma AppendStep(st: St, mid: St, nmeta: nat, owner: map<nat, (nat, nat)>, freeblock: nat, freeinode: nat, i: nat, o: nat, chunk: seq<byte>)
    requires SameShape(st, mid) && i < |st.inodes| && Grows(st, mid, i) && Inv(mid, nmeta, owner, {}) && Untouched(mid, freeblock, freeinode)
    requires o / BSIZE < MAXFILE && o % BSIZE + |chunk| <= BSIZE && Addr(mid, i, SlotOf(o / BSIZE)) != 0
    requires OnlyBlock(st, mid, i, o / BSIZE)
    ensures Addr(mid, i, SlotOf(o / BSIZE)) < |mid.blocks|
    ensures var a := Addr(mid, i, SlotOf(o / BSIZE)); var t := Fill(mid, a, Overlay(mid.blocks[a], o % BSIZE, chunk));
      Inv(t, nmeta, owner, {}) && SameShape(st, t) && Wrote(st, t, i, o, chunk) && Untouched(t, freeblock, freeinode) && OnlyBlock(st, t, i, o / BSIZE)
  {
    var a := Addr(mid, i, SlotOf(o / BSIZE));
    var data := Overlay(mid.blocks[a], o % BSIZE, chunk);
    GrowAndFill(st, mid, nmeta, owner, i, o, chunk);
    FillKeepsInv(mid, nmeta, owner, {}, i, SlotOf(o / BSIZE), data);
    assert mid.bitmap[a];
  }

  lemma StillTight(st: St, t: St, i: nat, o: nat, chunk: seq<byte>, end: nat)
    requires SameShape(st, t) && i < |st.inodes| && OnlyBlock(st, t, i, o / BSIZE) && Tight(st, i, o) && Wrote(st, t, i, o, chunk)
    requires o < end == o + |chunk| <= o / BSIZE * BSIZE + BSIZE && o / BSIZE < MAXFILE && Addr(t, i, SlotOf(o / BSIZE)) != 0
    ensures Tight(t, i, end)
  {
    StillZeros(st, t, i, o, chunk, end);
    assert o / BSIZE * BSIZE <= o;
  }

  lemma StillZeros(st: St, t: St, i: nat, o: nat, chunk: seq<byte>, end: nat)
    requires SameShape(st, t) && i < |st.inodes| && ZerosFrom(st, i, o) && Wrote(st, t, i, o, chunk) && end == o + |chunk|
    ensures ZerosFrom(t, i, end)
  {
  }

  // ---------------------------------------------------------------- how many blocks

  /** The blocks of a file of s bytes, with its indirect block. */
  function Uses(s: nat): nat {
    (s + BSIZE - 1) / BSIZE + if s > NDIRECT * BSIZE then 1 else 0
  }

  lemma UsesGrows(s: nat, t: nat)
    requires s <= t
    ensures Uses(s) <= Uses(t)
  {
  }

  /** The blocks that iappend has to take for the n-th block of file i. */
  function Lacking(st: St, i: nat, n: nat): nat
    requires Sized(st) && i < |st.inodes| && n < MAXFILE
  {
    (if n >= NDIRECT && st.inodes[i].addrs[NDIRECT] == 0 then 1 else 0) + if Addr(st, i, SlotOf(n)) == 0 then 1 else 0
  }

  lemma LackingIs(st: St, i: nat, o: nat, end: nat)
    requires Sized(st) && i < |st.inodes| && Tight(st, i, o) && o < end <= o / BSIZE * BSIZE + BSIZE && o / BSIZE < MAXFILE
    ensures Lacking(st, i, o / BSIZE) == Uses(end) - Uses(o)
  {
    var bn := o / BSIZE;
    assert o == bn * BSIZE + o % BSIZE;
    assert Addr(st, i, SlotOf(bn)) != 0 <==> bn * BSIZE < o;
  }

  /** n blocks have been taken, if there were so many. */
  predicate Took(was: nat, n: int, now: nat, size: nat, ok: bool) {
    match ok
    case true => now == was + n <= size
    case false => size < now <= was + n
  }

  /** What the first n files and the root directory with their entries need. */
  function Needed(files: seq<File>, n: nat): nat
    requires n <= |files|
  {
    Uses(DIRENT * (2 + n)) + Stored(files, n)
  }

  function Stored(files: seq<File>, n: nat): nat
    requires n <= |files|
  {
    if n == 0 then 0 else Stored(files, n - 1) + Uses(|files[n - 1].data|)
  }

  lemma {:induction false} NeededGrows(files: seq<File>, n: nat)
    requires n <= |files|
    ensures Needed(files, n) <= Needed(files, |files|)
    decreases |files| - n
  {
    if n < |files| {
      NeededGrows(files, n + 1);
      UsesGrows(DIRENT * (2 + n), DIRENT * (3 + n));
    }
  }

  /** File i now reads c, and the other files are what they were. */
  ghost predicate Became(st: St, u: St, i: nat, c: seq<byte>) {
    match st
    case St(_, _, inodes) =>
      && SameShape(st, u) && i < |inodes| && NoHoles(u, i) && Content(u, i) == c
      && forall j :: 0 <= j < |inodes| && j != i ==> OtherFile(st, u, j)
  }

  lemma BecameTwice(st: St, t: St, u: St, i: nat, c: seq<byte>, d: seq<byte>)
    requires Became(st, t, i, c) && Became(t, u, i, d)
    ensures Became(st, u, i, d)
  {
    forall j | 0 <= j < |st.inodes| && j != i ensures OtherFile(st, u, j) {
      assert OtherFile(st, t, j) && OtherFile(t, u, j);
    }
  }

  /** The part of the data that fits. */
  function Fitting(off: nat, data: seq<byte>): (r: seq<byte>)
    requires off <= MAXFILE * BSIZE
    ensures r <= data && off + |r| <= MAXFILE * BSIZE && (off + |data| <= MAXFILE * BSIZE ==> r == data)
    ensures |r| < |data| ==> off + |r| == MAXFILE * BSIZE
  {
    if off + |data| <= MAXFILE * BSIZE then data else data[..MAXFILE * BSIZE - off]
  }

  lemma FitsInBlock(off: nat, data: seq<byte>, tot: nat, o: nat, m: nat)
    requires off <= MAXFILE * BSIZE && tot < |data| && o == off + tot && o / BSIZE < MAXFILE && m == ChunkSize(o, |data| - tot)
    ensures 0 < m && o % BSIZE + m <= BSIZE && tot + m <= |data|
    ensures tot + m <= |Fitting(off, data)| && data[tot..tot + m] == Fitting(off, data)[tot..tot + m]
  {
    assert o + m <= MAXFILE * BSIZE;
  }

  lemma ResizeIsQuiet(st: St, nmeta: nat, owner: map<nat, (nat, nat)>, freeblock: nat, freeinode: nat, i: nat, size: nat, end: nat)
    requires Inv(st, nmeta, owner, {}) && Untouched(st, freeblock, freeinode) && i < freeinode && i < |st.inodes| && Tight(st, i, end)
    ensures var u := Resize(st, i, size); Inv(u, nmeta, owner, {}) && Untouched(u, freeblock, freeinode) && Tight(u, i, end)
  {
    ResizeKeepsInv(st, nmeta, owner, i, size);
    SameBytes(st, i, size);
  }

  lemma TakeMore(data: seq<byte>, p: nat, q: nat)
    requires p <= q <= |data|
    ensures data[..p] + data[p..q] == data[..q]
  {
  }

  /** iappend has done tot bytes, up to offset o, and has taken blocks since `was`. */
  ghost predicate Appending(job: Job, st: St, tot: nat, o: nat, was: nat, freeblock: nat) {
    match job
    case Job(_, _, i, off, _) =>
      && Written(job, tot, st) && o == off + tot && Tight(st, i, o) && Took(was, Uses(o) - Uses(off), freeblock, |st.blocks|, true)
  }

  /** Setting the size ends iappend. */
  lemma AppendIsDone(job: Job, st: St, u: St)
    requires Written(job, |job.src|, st) && job.off == job.st0.inodes[job.inum].size
    requires u == Resize(st, job.inum, job.off + |job.src|) && NoHoles(job.st0, job.inum)
    ensures Became(job.st0, u, job.inum, Content(job.st0, job.inum) + job.src)
  {
    WriteIsDone(job, st, u);
    ReplaceAtEnd(Content(job.st0, job.inum), job.off, job.src);
  }

  lemma ReplaceAtEnd(c: seq<byte>, off: nat, src: seq<byte>)
    requires off == |c|
    ensures Replace(c, off, src) == c + src
  {
  }

  /** File i reads c. */
  ghost predicate FileIs(st: St, i: nat, c: seq<byte>) {
    match st
    case St(_, _, inodes) => Sized(st) && i < |inodes| && NoHoles(st, i) && Content(st, i) == c
  }

  lemma BlankIsEmpty(st: St, i: nat)
    requires Sized(st) && i < |st.inodes| && st.inodes[i] == Inode(0, NoAddrs())
    ensures FileIs(st, i, []) && Tight(st, i, 0)
  {
    assert forall y :: 0 <= y < NSLOTS ==> Addr(st, i, y) == 0;
  }

  lemma BecameNothing(st: St, i: nat, c: seq<byte>)
    requires FileIs(st, i, c)
    ensures Became(st, st, i, c)
  {
  }

  lemma StillIs(st: St, u: St, i: nat, c: seq<byte>, j: nat, d: seq<byte>)
    requires Became(st, u, i, c) && j != i && FileIs(st, j, d)
    ensures FileIs(u, j, d)
  {
    assert OtherFile(st, u, j);
  }

  /** The root directory lists the first n files, and these read as they should. */
  ghost predicate Holds(st: St, files: seq<File>, n: nat) {
    match st
    case St(_, _, _) =>
      n <= |files| && FileIs(st, ROOTINO, Entries(files, n)) && forall k :: 0 <= k < n ==> FileIs(st, k + 2, files[k].data)
  }

  lemma {:induction false} HoldsRoot(st: St, t: St, u: St, files: seq<File>, n: nat)
    requires n < |files| && Became(st, t, ROOTINO, Entries(files, n) + Dirent(n + 2, files[n].name)) && Became(t, u, n + 2, files[n].data)
    ensures FileIs(u, ROOTINO, Entries(files, n + 1)) && FileIs(u, n + 2, files[n].data)
  {
    assert FileIs(t, ROOTINO, Entries(files, n + 1));
    StillIs(t, u, n + 2, files[n].data, ROOTINO, Entries(files, n + 1));
  }

  lemma {:induction false} HoldsOld(st: St, t: St, u: St, c: seq<byte>, d: seq<byte>, n: nat, k: nat, e: seq<byte>)
    requires Became(st, t, ROOTINO, c) && Became(t, u, n + 2, d) && k < n && FileIs(st, k + 2, e)
    ensures FileIs(u, k + 2, e)
  {
    StillIs(st, t, ROOTINO, c, k + 2, e);
    StillIs(t, u, n + 2, d, k + 2, e);
  }

  lemma {:induction false} HoldsNext(st: St, t: St, u: St, files: seq<File>, n: nat)
    requires Holds(st, files, n) && n < |files|
    requires Became(st, t, ROOTINO, Entries(files, n) + Dirent(n + 2, files[n].name))
    requires Became(t, u, n + 2, files[n].data)
    ensures Holds(u, files, n + 1)
  {
    HoldsRoot(st, t, u, files, n);
    forall k | 0 <= k < n + 1 ensures FileIs(u, k + 2, files[k].data) {
      if k < n {
        HoldsOld(st, t, u, Entries(files, n) + Dirent(n + 2, files[n].name), files[n].data, n, k, files[k].data);
      }
    }
  }

  /** The image after n files. */
  ghost predicate Loaded(st: St, files: seq<File>, n: nat) {
    match st
    case St(_, _, inodes) => Sized(st) && ROOTINO < |inodes| && Holds(st, files, n) && Tight(st, ROOTINO, DIRENT * (2 + n))
  }

  lemma StillTightOther(st: St, u: St, i: nat, c: seq<byte>, j: nat, end: nat)
    requires Became(st, u, i, c) && j != i && j < |st.inodes| && Tight(st, j, end)
    ensures SameShape(st, u) && Tight(u, j, end)
  {
    assert OtherFile(st, u, j);
  }

  lemma {:induction false} LoadedNext(st: St, t: St, u: St, files: seq<File>, n: nat, next: nat)
    requires Loaded(st, files, n) && n < |files| && next == n + 1
    requires Became(st, t, ROOTINO, Entries(files, n) + Dirent(n + 2, files[n].name)) && Tight(t, ROOTINO, DIRENT * (2 + next))
    requires Became(t, u, n + 2, files[n].data)
    ensures Loaded(u, files, next)
  {
    HoldsNext(st, t, u, files, n);
    StillTightOther(t, u, n + 2, files[n].data, ROOTINO, DIRENT * (2 + next));
  }

  /** A file or the root directory would be larger than MAXFILE blocks. */
  predicate TooBig(files: seq<File>) {
    DIRENT * (2 + |files|) > MAXFILE * BSIZE || exists k :: 0 <= k < |files| && |files[k].data| > MAXFILE * BSIZE
  }

  /** main's new size for the root directory. */
  function RoundedUp(off: nat): nat {
    (off / BSIZE + 1) * BSIZE
  }

  /** Rounding the size up leaves a hole exactly when the entries filled their last block. */
  lemma RoundingIff(st: St, u: St, i: nat, off: nat)
    requires SameShape(st, u) && i < |st.inodes| && NoHoles(st, i) && off == st.inodes[i].size && Tight(st, i, off)
    requires u == Resize(st, i, RoundedUp(off))
    ensures NoHoles(u, i) <==> off % BSIZE != 0
    ensures forall o :: 0 <= o < off ==> FileByte(u, i, o) == Content(st, i)[o]
  {
    SameBytes(st, i, RoundedUp(off));
    var bn := off / BSIZE;
    assert off == bn * BSIZE + off % BSIZE;
    if off % BSIZE == 0 && bn < MAXFILE {
      assert Addr(u, i, SlotOf(bn)) == 0;
    }
    if off % BSIZE != 0 {
      forall b | 0 <= b < MAXFILE && b * BSIZE < RoundedUp(off) ensures Addr(u, i, SlotOf(b)) != 0 {
        assert b * BSIZE < off;
      }
    }
  }

  lemma ResizeOther(st: St, i: nat, size: nat, j: nat, c: seq<byte>)
    requires FileIs(st, j, c) && j != i && i < |st.inodes|
    ensures FileIs(Resize(st, i, size), j, c)
  {
    var u := Resize(st, i, size);
    assert SameShape(st, u);
    assert forall y :: 0 <= y < NSLOTS ==> Addr(u, j, y) == Addr(st, j, y);
    assert Content(u, j) == Content(st, j);
  }

  /** The inode number of the j-th entry of the root directory. */
  function Number(j: nat): nat {
    if j < 2 then ROOTINO else j
  }

  /** Its name: ".", "..", and then the files in order. */
  function Name(files: seq<File>, j: nat): seq<byte>
    requires j < 2 + |files|
  {
    if j == 0 then [46] else if j == 1 then [46, 46] else files[j - 2].name
  }

  /** Byte k of the j-th entry of the root directory. */
  function RootByte(st: St, j: nat, k: nat): byte
    requires Sized(st) && ROOTINO < |st.inodes| && DIRENT * (j + 1) <= MAXFILE * BSIZE && k < DIRENT
  {
    FileByte(st, ROOTINO, DIRENT * j + k)
  }

  /** The j-th entry of the root directory, byte by byte: the number, low byte first, and the name,
      cut off or filled up with zeros. */
  ghost predicate HasEntry(st: St, j: nat, num: nat, name: seq<byte>)
    requires Sized(st) && ROOTINO < |st.inodes| && DIRENT * (j + 1) <= MAXFILE * BSIZE
  {
    match st
    case St(_, _, _) =>
      && RootByte(st, j, 0) == num % 256 && RootByte(st, j, 1) == num / 256 % 256
      && forall k :: 2 <= k < DIRENT ==> RootByte(st, j, k) == if k - 2 < |name| then name[k - 2] else 0
  }

  lemma {:induction false} EntryByte(files: seq<File>, n: nat, j: nat, k: nat)
    requires n <= |files| && j < 2 + n && k < DIRENT
    ensures Entries(files, n)[DIRENT * j + k] == Dirent(Number(j), Name(files, j))[k]
  {
    if n > 0 && j < n + 1 {
      EntryByte(files, n - 1, j, k);
    }
  }

  lemma {:induction false} RootHasEntry(st: St, files: seq<File>, j: nat)
    requires Sized(st) && ROOTINO < |st.inodes| && DIRENT * (2 + |files|) <= MAXFILE * BSIZE && j < 2 + |files|
    requires forall o :: 0 <= o < DIRENT * (2 + |files|) ==> FileByte(st, ROOTINO, o) == Entries(files, |files|)[o]
    ensures HasEntry(st, j, Number(j), Name(files, j))
  {
    var e := Dirent(Number(j), Name(files, j));
    forall k | 0 <= k < DIRENT ensures RootByte(st, j, k) == e[k] {
      EntryByte(files, |files|, j, k);
    }
  }

  /** What mkfs promises of the finished image: every file reads as its host file did, the root
      directory has its entries and nothing but zeros behind them, and a hole exactly when they
      fill up their last block. */
  ghost predicate Finished(st: St, files: seq<File>) {
    match st
    case St(_, _, inodes) =>
      && Sized(st) && ROOTINO < |inodes| && DIRENT * (2 + |files|) <= MAXFILE * BSIZE
      && (forall k :: 0 <= k < |files| ==> FileIs(st, k + 2, files[k].data))
      && (forall j :: 0 <= j < 2 + |files| ==> HasEntry(st, j, Number(j), Name(files, j)))
      && ZerosFrom(st, ROOTINO, DIRENT * (2 + |files|))
      && inodes[ROOTINO].size == RoundedUp(DIRENT * (2 + |files|))
      && (NoHoles(st, ROOTINO) <==> (2 + |files|) % 32 != 0)
  }

  lemma BlockIsFull(n: nat)
    ensures DIRENT * n % BSIZE == 0 <==> n % 32 == 0
  {
    assert DIRENT * n == n / 32 * BSIZE + DIRENT * (n % 32);
  }

  lemma {:induction false} RootIsFixed(st: St, u: St, files: seq<File>)
    requires Loaded(st, files, |files|)
    requires u == Resize(st, ROOTINO, RoundedUp(DIRENT * (2 + |files|)))
    ensures Finished(u, files)
  {
    var off := DIRENT * (2 + |files|);
    assert SameShape(st, u);
    RoundingIff(st, u, ROOTINO, off);
    BlockIsFull(2 + |files|);
    SameBytes(st, ROOTINO, RoundedUp(off));
    forall j | 0 <= j < 2 + |files| ensures HasEntry(u, j, Number(j), Name(files, j)) {
      RootHasEntry(u, files, j);
    }
    forall k | 0 <= k < |files| ensures FileIs(u, k + 2, files[k].data) {
      ResizeOther(st, ROOTINO, RoundedUp(off), k + 2, files[k].data);
    }
  }

  /** With 30 files the entries are one full block; the root then claims two and has one. A read
      or a write of the next entry meets the hole. */
  lemma {:induction false} ThirtyFilesLeaveAHole(st: St, files: seq<File>)
    requires Finished(st, files) && |files| == 30
    ensures st.inodes[ROOTINO].size == 2 * BSIZE && st.inodes[ROOTINO].addrs[0] != 0 && st.inodes[ROOTINO].addrs[1] == 0
    ensures !Filled(st, ROOTINO, BSIZE, DIRENT) && !Kept(st.inodes[ROOTINO], BSIZE, DIRENT)
  {
    var ip := st.inodes[ROOTINO];
    assert HasEntry(st, 0, Number(0), Name(files, 0));
    assert RootByte(st, 0, 0) == FileByte(st, ROOTINO, 0) == ROOTINO && Addr(st, ROOTINO, SlotOf(0)) == ip.addrs[0];
    var bn :| 0 <= bn < MAXFILE && bn * BSIZE < ip.size && Addr(st, ROOTINO, SlotOf(bn)) == 0;
    assert bn == 1 && Addr(st, ROOTINO, SlotOf(1)) == ip.addrs[1];
    assert Meets(1, BSIZE, DIRENT) && !Ready(ip, 1);
  }

  /** main after n files, when it started with block `was`. */
  ghost predicate Along(st: St, files: seq<File>, n: nat, was: nat, freeblock: nat, freeinode: nat) {
    match st
    case St(_, blocks, _) =>
      n <= |files| && freeinode == n + 2 && Loaded(st, files, n) && Took(was, Needed(files, n), freeblock, |blocks|, true)
  }

  /** What the next file takes: its entry, then its blocks; or too few are left for one of them. */
  lemma NextTakes(files: seq<File>, n: nat, next: nat, was: nat, before: nat, entry: nat, after: nat, size: nat, ok: bool)
    requires n < |files| && next == n + 1 && Took(was, Needed(files, n), before, size, true)
    requires Took(before, Uses(DIRENT * (2 + next)) - Uses(DIRENT * (2 + n)), entry, size, true)
    requires Took(entry, Uses(|files[n].data|), after, size, ok)
    ensures Took(was, Needed(files, next), after, size, ok)
  {
  }

  lemma EntryLacks(files: seq<File>, n: nat, next: nat, was: nat, before: nat, entry: nat, size: nat)
    requires n < |files| && next == n + 1 && Took(was, Needed(files, n), before, size, true)
    requires Took(before, Uses(DIRENT * (2 + next)) - Uses(DIRENT * (2 + n)), entry, size, false)
    ensures Took(was, Needed(files, next), entry, size, false)
  {
    UsesGrows(0, |files[n].data|);
  }

  /** What is in the image, and the counters. */
  ghost predicate Shown(st: St, blocks: seq<Block>, inodes: seq<Inode>, freeblock: nat, freeinode: nat) {
    match st
    case St(_, b, i) => Untouched(st, freeblock, freeinode) && b == blocks && i == inodes && 0 < freeinode <= |i| && freeblock <= |b|
  }

  /** The image that mkfs is writing. `st` adds the free map as it will be in the end. */
  class Image {
    const nmeta: nat
    var blocks: seq<Block>
    var inodes: seq<Inode>
    var freeblock: nat
    var freeinode: nat
    ghost var st: St
    ghost var owner: map<nat, (nat, nat)>

    ghost predicate Valid()
      reads this
    {
      Shown(st, blocks, inodes, freeblock, freeinode) && Inv(st, nmeta, owner, {})
    }

    /** An image of zeros behind the metadata. */
    constructor (size: nat, ninodes: nat, nmeta: nat)
      requires 0 < nmeta <= size < 0x1_0000_0000 && ninodes > ROOTINO
      ensures Valid() && freeinode == ROOTINO && |inodes| == ninodes && |blocks| == size && this.nmeta == nmeta == freeblock
    {
      this.nmeta := nmeta;
      blocks, inodes := seq(size, _ => Zeros()), seq(ninodes, _ => Inode(0, NoAddrs()));
      freeblock, freeinode := nmeta, ROOTINO;
      st := St(seq(size, b requires 0 <= b => b < nmeta), seq(size, _ => Zeros()), seq(ninodes, _ => Inode(0, NoAddrs())));
      owner := map[];
      new;
      assert forall i, y :: 0 <= i < |st.inodes| && 0 <= y < NSLOTS ==> Addr(st, i, y) == 0;
    }

    /** Address x of inode i gets the next free block if it has none. Not ok is the exit after
        a sector behind the end of the image. */
    method NeedAddr(i: nat, x: nat) returns (ok: bool)
      requires Valid() && i < freeinode && x <= NDIRECT
      modifies this`inodes, this`freeblock, this`st, this`owner
      ensures ok ==> Valid() && GrownAt(old(st), st, i, x) && inodes[i].addrs[x] != 0
      ensures Took(old(freeblock), if old(inodes)[i].addrs[x] == 0 then 1 else 0, freeblock, |blocks|, ok)
    {
      if inodes[i].addrs[x] == 0 {
        var b := freeblock;
        freeblock := freeblock + 1;
        if b >= |blocks| { return false; }
        NextDirect(st, nmeta, owner, b, freeinode, i, x);
        inodes := inodes[i := inodes[i].(addrs := inodes[i].addrs[x := b])];
        st, owner := Attach(Alloc(st, b), i, x, b), owner[b := (i, x)];
      }
      ok := true;
    }

    /** Word k of the indirect block of inode i gets the next free block if it has none. */
    method NeedWord(i: nat, k: nat) returns (x: nat, ok: bool)
      requires Valid() && i < freeinode && k < NINDIRECT && inodes[i].addrs[NDIRECT] != 0
      modifies this`blocks, this`freeblock, this`st, this`owner
      ensures ok ==> Valid() && GrownAt(old(st), st, i, NDIRECT + 1 + k) && x == Addr(st, i, NDIRECT + 1 + k) != 0
      ensures |blocks| == |old(blocks)| && Took(old(freeblock), if Addr(old(st), i, NDIRECT + 1 + k) == 0 then 1 else 0, freeblock, |blocks|, ok)
    {
      var a := inodes[i].addrs[NDIRECT];
      WordIsAddr(st, nmeta, owner, i, k);
      x := Word(blocks[a], k);
      if x == 0 {
        x := freeblock;
        freeblock := freeblock + 1;
        if x >= |blocks| { return x, false; }
        NextWord(st, nmeta, owner, x, freeinode, i, k);
        blocks := blocks[a := SetWord(blocks[a], k, x)];
        st, owner := AttachEntry(Alloc(st, x), i, k, x), owner[x := (i, NDIRECT + 1 + k)];
      }
      ok := true;
    }

    /** A block behind the direct ones. */
    method PlaceWord(i: nat, k: nat) returns (x: nat, ok: bool)
      requires Valid() && i < freeinode && k < NINDIRECT
      modifies this`blocks, this`inodes, this`freeblock, this`st, this`owner
      ensures ok ==> Valid() && SameShape(old(st), st) && Grows(old(st), st, i) && OnlyBlock(old(st), st, i, NDIRECT + k)
      ensures ok ==> x == Addr(st, i, NDIRECT + 1 + k) != 0
      ensures |blocks| == |old(blocks)| && Took(old(freeblock), Lacking(old(st), i, NDIRECT + k), freeblock, |blocks|, ok)
    {
      ghost var st0 := st;
      x := 0;
      ok := NeedAddr(i, NDIRECT);
      if !ok { return; }
      ghost var mid := st;
      x, ok := NeedWord(i, k);
      if ok {
        GrownTwice(st0, mid, st, i, k);
      }
    }

    /** One of the direct blocks. */
    method PlaceDirect(i: nat, fbn: nat) returns (x: nat, ok: bool)
      requires Valid() && i < freeinode && fbn < NDIRECT
      modifies this`inodes, this`freeblock, this`st, this`owner
      ensures ok ==> Valid() && SameShape(old(st), st) && Grows(old(st), st, i) && OnlyBlock(old(st), st, i, fbn)
      ensures ok ==> x == Addr(st, i, fbn) != 0
      ensures Took(old(freeblock), Lacking(old(st), i, fbn), freeblock, |blocks|, ok)
    {
      ghost var st0 := st;
      ok := NeedAddr(i, fbn);
      if !ok { return 0, ok; }
      GrownOnce(st0, st, i, fbn);
      x := inodes[i].addrs[fbn];
    }

    /** The block of the file's n-th block, taking the next free one if there is none. */
    method Place(i: nat, fbn: nat) returns (x: nat, ok: bool)
      requires Valid() && i < freeinode && fbn < MAXFILE
      modifies this`blocks, this`inodes, this`freeblock, this`st, this`owner
      ensures ok ==> Valid() && SameShape(old(st), st) && Grows(old(st), st, i) && OnlyBlock(old(st), st, i, fbn)
      ensures ok ==> x == Addr(st, i, SlotOf(fbn)) != 0
      ensures |blocks| == |old(blocks)| && Took(old(freeblock), Lacking(old(st), i, fbn), freeblock, |blocks|, ok)
    {
      if fbn < NDIRECT {
        x, ok := PlaceDirect(i, fbn);
      } else {
        x, ok := PlaceWord(i, fbn - NDIRECT);
      }
    }

    /** wsect of the block x, which holds the bytes of file i from o on. */
    method Put(ghost st0: St, i: nat, o: nat, x: nat, chunk: seq<byte>)
      requires Valid() && i < freeinode && o / BSIZE < MAXFILE && o % BSIZE + |chunk| <= BSIZE && x == Addr(st, i, SlotOf(o / BSIZE)) != 0
      requires SameShape(st0, st) && Grows(st0, st, i) && OnlyBlock(st0, st, i, o / BSIZE)
      modifies this`blocks, this`st
      ensures Valid() && SameShape(st0, st) && Wrote(st0, st, i, o, chunk) && OnlyBlock(st0, st, i, o / BSIZE)
      ensures |blocks| == |old(blocks)| && Addr(st, i, SlotOf(o / BSIZE)) != 0
    {
      AppendStep(st0, st, nmeta, owner, freeblock, freeinode, i, o, chunk);
      var data := Overlay(blocks[x], o % BSIZE, chunk);
      blocks := blocks[x := data];
      st := Fill(st, x, data);
    }

    /** Bytes into one block of the file. */
    method PutBytes(i: nat, o: nat, chunk: seq<byte>) returns (ok: bool)
      requires Valid() && i < freeinode && o / BSIZE < MAXFILE && o % BSIZE + |chunk| <= BSIZE
      modifies this`blocks, this`inodes, this`freeblock, this`st, this`owner
      ensures ok ==> Valid() && SameShape(old(st), st) && Wrote(old(st), st, i, o, chunk) && OnlyBlock(old(st), st, i, o / BSIZE)
      ensures ok ==> Addr(st, i, SlotOf(o / BSIZE)) != 0
      ensures |blocks| == |old(blocks)| && Took(old(freeblock), Lacking(old(st), i, o / BSIZE), freeblock, |blocks|, ok)
    {
      ghost var st0 := st;
      var x;
      x, ok := Place(i, o / BSIZE);
      if ok {
        Put(st0, i, o, x, chunk);
      }
    }

    /** One turn of iappend's loop. */
    method AppendTurn(ghost job: Job, ghost tot: nat, ghost tot': nat, i: nat, o: nat, chunk: seq<byte>, ghost end: nat) returns (ok: bool)
      requires Valid() && i == job.inum < freeinode && Written(job, tot, st) && o == job.off + tot && Tight(st, i, o)
      requires o / BSIZE < MAXFILE && o % BSIZE + |chunk| <= BSIZE && end == o + |chunk|
      requires tot < tot' == tot + |chunk| <= |job.src| && chunk == job.src[tot..tot']
      modifies this`blocks, this`inodes, this`freeblock, this`st, this`owner
      ensures ok ==> Valid() && Written(job, tot', st) && Tight(st, i, end)
      ensures |blocks| == |old(blocks)| && Took(old(freeblock), Uses(end) - Uses(o), freeblock, |blocks|, ok)
    {
      ghost var st0 := st;
      LackingIs(st, i, o, end);
      ok := PutBytes(i, o, chunk);
      if ok {
        StillTight(st0, st, i, o, chunk, end);
        WrittenNext(job, tot, tot', o, chunk, st0, st);
      }
    }

    /** The next turn, of as much as goes into the block. Not ok is a failed
        assert(fbn < MAXFILE) or the exit for want of blocks. */
    method AppendNext(ghost job: Job, i: nat, off: nat, data: seq<byte>, tot: nat, o: nat, ghost was: nat) returns (ok: bool, tot': nat, o': nat)
      requires Valid() && i == job.inum < freeinode && Appending(job, st, tot, o, was, freeblock) && tot < |data|
      requires off == job.off <= MAXFILE * BSIZE && job.src == Fitting(off, data)
      modifies this`blocks, this`inodes, this`freeblock, this`st, this`owner
      ensures ok ==> Valid() && Appending(job, st, tot', o', was, freeblock) && tot < tot' <= |data|
      ensures |blocks| == |old(blocks)|
      ensures !ok && off + |data| <= MAXFILE * BSIZE ==> o' <= off + |data| && Took(was, Uses(o') - Uses(off), freeblock, |blocks|, false)
    {
      if o / BSIZE >= MAXFILE { return false, tot, o; }
      var m := ChunkSize(o, |data| - tot);
      FitsInBlock(off, data, tot, o, m);
      tot', o' := tot + m, o + m;
      ok := AppendTurn(job, tot, tot', i, o, data[tot..tot'], o');
    }

    /** iappend's loop. */
    method AppendAll(ghost job: Job, i: nat, off: nat, data: seq<byte>, ghost was: nat) returns (ok: bool, o: nat)
      requires Valid() && i == job.inum < freeinode && Appending(job, st, 0, off, was, freeblock)
      requires off == job.off <= MAXFILE * BSIZE && job.src == Fitting(off, data)
      modifies this`blocks, this`inodes, this`freeblock, this`st, this`owner
      ensures ok ==> Valid() && Appending(job, st, |data|, o, was, freeblock)
      ensures |blocks| == |old(blocks)|
      ensures !ok && off + |data| <= MAXFILE * BSIZE ==> o <= off + |data| && Took(was, Uses(o) - Uses(off), freeblock, |blocks|, false)
    {
      var tot := 0;
      o := off;
      while tot < |data|
        invariant Valid() && tot <= |data| && |blocks| == |old(blocks)| && Appending(job, st, tot, o, was, freeblock)
      {
        ok, tot, o := AppendNext(job, i, off, data, tot, o, was);
        if !ok { return; }
      }
      ok := true;
    }

    /** iappend up to the new size. */
    method AppendLoop(i: nat, off: nat, data: seq<byte>, ghost end: nat) returns (ok: bool)
      requires Valid() && i < freeinode && NoHoles(st, i) && off == st.inodes[i].size && Tight(st, i, off) && end == off + |data|
      modifies this`blocks, this`inodes, this`freeblock, this`st, this`owner
      ensures ok ==> Valid() && Written(Job(old(st), {}, i, off, data), |data|, st) && Tight(st, i, end)
      ensures |blocks| == |old(blocks)| && (ok || end <= MAXFILE * BSIZE ==> Took(old(freeblock), Uses(end) - Uses(off), freeblock, |blocks|, ok))
    {
      ghost var job, was := Job(st, {}, i, off, Fitting(off, data)), freeblock;
      ghost var t := ProgressStart(job, 0);
      var o;
      ok, o := AppendAll(job, i, off, data, was);
      if ok {
        assert job.src == data;
      } else if end <= MAXFILE * BSIZE {
        UsesGrows(o, end);
      }
    }

    /** The end of iappend. */
    method SetEnd(ghost job: Job, i: nat, end: nat)
      requires Valid() && i == job.inum < freeinode && end == job.off + |job.src|
      requires Written(job, |job.src|, st) && Tight(st, i, end) && job.off == job.st0.inodes[i].size && NoHoles(job.st0, i)
      modifies this`inodes, this`st
      ensures Valid() && Became(job.st0, st, i, Content(job.st0, i) + job.src) && st.inodes[i].size == end && Tight(st, i, end)
    {
      AppendIsDone(job, st, Resize(st, i, end));
      ResizeIsQuiet(st, nmeta, owner, freeblock, freeinode, i, end, end);
      inodes := inodes[i := inodes[i].(size := end)];
      st := Resize(st, i, end);
    }

    /** iappend. It takes the blocks that the file lacks and no others; not ok is the exit for
        want of blocks or a failed assert(fbn < MAXFILE). */
    method IAppend(i: nat, data: seq<byte>, ghost c: seq<byte>, ghost end: nat) returns (ok: bool)
      requires Valid() && i < freeinode && FileIs(st, i, c) && Tight(st, i, |c|) && end == |c| + |data|
      modifies this`blocks, this`inodes, this`freeblock, this`st, this`owner
      ensures ok ==> Valid() && Became(old(st), st, i, c + data) && Tight(st, i, end)
      ensures |blocks| == |old(blocks)| && (ok || end <= MAXFILE * BSIZE ==> Took(old(freeblock), Uses(end) - Uses(|c|), freeblock, |blocks|, ok))
    {
      var off := inodes[i].size;
      ghost var st0, job := st, Job(st, {}, i, off, data);
      assert off == |c| && NoHoles(st0, i) && Content(st0, i) == c;
      ok := AppendLoop(i, off, data, end);
      if ok {
        SetEnd(job, i, off + |data|);
        assert Became(st0, st, i, c + data);
      }
    }

    /** ialloc: the next inode, still blank. */
    method Ialloc() returns (inum: nat)
      requires Valid() && freeinode < |inodes|
      modifies this`inodes, this`freeinode
      ensures Valid() && inum == old(freeinode) && freeinode == inum + 1 && inodes == old(inodes)
      ensures inodes[inum] == Inode(0, NoAddrs()) && FileIs(st, inum, []) && Tight(st, inum, 0)
    {
      inum := freeinode;
      freeinode := freeinode + 1;
      inodes := inodes[inum := Inode(0, NoAddrs())];
      assert inodes == old(inodes);
      BlankIsEmpty(st, inum);
    }

    /** One buffer of a host file. */
    method CopyPiece(ghost st0: St, i: nat, data: seq<byte>, p: nat) returns (ok: bool, p': nat)
      requires Valid() && i < freeinode && p < |data| && Became(st0, st, i, data[..p]) && Tight(st, i, p)
      modifies this`blocks, this`inodes, this`freeblock, this`st, this`owner
      ensures p < p' <= |data| && (ok ==> Valid() && Became(st0, st, i, data[..p']) && Tight(st, i, p'))
      ensures |blocks| == |old(blocks)| && (ok || p' <= MAXFILE * BSIZE ==> Took(old(freeblock), Uses(p') - Uses(p), freeblock, |blocks|, ok))
    {
      ghost var st1 := st;
      p' := if |data| - p < BSIZE then |data| else p + BSIZE;
      TakeMore(data, p, p');
      ok := IAppend(i, data[p..p'], data[..p], p');
      if ok {
        BecameTwice(st0, st1, st, i, data[..p], data[..p']);
      }
    }

    /** The loop that copies a host file, a buffer at a time. */
    method CopyIn(i: nat, data: seq<byte>) returns (ok: bool)
      requires Valid() && i < freeinode && FileIs(st, i, []) && Tight(st, i, 0)
      modifies this`blocks, this`inodes, this`freeblock, this`st, this`owner
      ensures ok ==> Valid() && Became(old(st), st, i, data)
      ensures |blocks| == |old(blocks)| && (ok || |data| <= MAXFILE * BSIZE ==> Took(old(freeblock), Uses(|data|), freeblock, |blocks|, ok))
    {
      ghost var st0 := st;
      BecameNothing(st, i, []);
      assert data[..0] == [];
      var p := 0;
      while p < |data|
        invariant Valid() && p <= |data| && Became(st0, st, i, data[..p]) && Tight(st, i, p)
        invariant |blocks| == |old(blocks)| && Took(old(freeblock), Uses(p), freeblock, |blocks|, true)
      {
        ok, p := CopyPiece(st0, i, data, p);
        if !ok {
          UsesGrows(p, |data|);
          return;
        }
      }
      assert data[..p] == data;
      ok := true;
    }

    /** The entry of a file. */
    method AddEntry(files: seq<File>, n: nat, ghost next: nat) returns (inum: nat, ok: bool)
      requires Valid() && n < |files| && freeinode == n + 2 < |inodes| && next == n + 1 && Loaded(st, files, n)
      modifies this`blocks, this`inodes, this`freeblock, this`freeinode, this`st, this`owner
      ensures inum == n + 2 && freeinode == next + 2
      ensures ok ==> Valid() && Became(old(st), st, ROOTINO, Entries(files, n) + Dirent(inum, files[n].name)) && |inodes| == |old(inodes)|
      ensures ok ==> Tight(st, ROOTINO, DIRENT * (2 + next)) && FileIs(st, inum, []) && Tight(st, inum, 0)
      ensures |blocks| == |old(blocks)|
      ensures ok || DIRENT * (2 + next) <= MAXFILE * BSIZE ==>
        Took(old(freeblock), Uses(DIRENT * (2 + next)) - Uses(DIRENT * (2 + n)), freeblock, |blocks|, ok)
    {
      inum := Ialloc();
      ghost var st0 := st;
      ghost var c := Entries(files, n) + Dirent(inum, files[n].name);
      ok := IAppend(ROOTINO, Dirent(inum, files[n].name), Entries(files, n), DIRENT * (2 + next));
      if ok {
        StillIs(st0, st, ROOTINO, c, inum, []);
        StillTightOther(st0, st, ROOTINO, c, inum, 0);
      }
    }

    /** The data of a file, behind its entry. */
    method AddData(files: seq<File>, n: nat, ghost next: nat, ghost was: nat, inum: nat, ghost st0: St, ghost before: nat) returns (ok: bool)
      requires Valid() && n < |files| && next == n + 1 && inum == n + 2 && freeinode == next + 2
      requires Loaded(st0, files, n) && Became(st0, st, ROOTINO, Entries(files, n) + Dirent(inum, files[n].name))
      requires Tight(st, ROOTINO, DIRENT * (2 + next)) && FileIs(st, inum, []) && Tight(st, inum, 0)
      requires Took(was, Needed(files, n), before, |blocks|, true)
      requires Took(before, Uses(DIRENT * (2 + next)) - Uses(DIRENT * (2 + n)), freeblock, |blocks|, true)
      modifies this`blocks, this`inodes, this`freeblock, this`st, this`owner
      ensures ok ==> Valid() && |inodes| == |old(inodes)| && Along(st, files, next, was, freeblock, freeinode)
      ensures |blocks| == |old(blocks)| && (ok || |files[n].data| <= MAXFILE * BSIZE ==> Took(was, Needed(files, next), freeblock, |blocks|, ok))
    {
      ghost var st1, entry := st, freeblock;
      ok := CopyIn(inum, files[n].data);
      if ok {
        LoadedNext(st0, st1, st, files, n, next);
      }
      if ok || |files[n].data| <= MAXFILE * BSIZE {
        NextTakes(files, n, next, was, before, entry, freeblock, |blocks|, ok);
      }
    }

    /** One turn of main's loop over its arguments. */
    method AddFile(files: seq<File>, n: nat, ghost next: nat, ghost was: nat) returns (ok: bool)
      requires Valid() && n < |files| && |files| + 2 <= |inodes| && next == n + 1 && Along(st, files, n, was, freeblock, freeinode)
      modifies this`blocks, this`inodes, this`freeblock, this`freeinode, this`st, this`owner
      ensures ok ==> Valid() && |inodes| == |old(inodes)| && Along(st, files, next, was, freeblock, freeinode)
      ensures |blocks| == |old(blocks)| && (!ok && !TooBig(files) ==> Took(was, Needed(files, next), freeblock, |blocks|, ok))
    {
      ghost var st0, before := st, freeblock;
      var inum;
      inum, ok := AddEntry(files, n, next);
      if ok {
        ok := AddData(files, n, next, was, inum, st0, before);
      } else if !TooBig(files) {
        EntryLacks(files, n, next, was, before, freeblock, |blocks|);
      }
    }

    /** The root directory with "." and "..". */
    method MakeRoot(files: seq<File>) returns (ok: bool)
      requires Valid() && freeinode == ROOTINO < |inodes|
      modifies this`blocks, this`inodes, this`freeblock, this`freeinode, this`st, this`owner
      ensures ok ==> Valid() && |inodes| == |old(inodes)| && Along(st, files, 0, old(freeblock), freeblock, freeinode)
      ensures |blocks| == |old(blocks)| && Took(old(freeblock), Needed(files, 0), freeblock, |blocks|, ok)
    {
      var rootino := Ialloc();
      var dot, dots := Dirent(rootino, ['.' as int]), Dirent(rootino, ['.' as int, '.' as int]);
      ok := IAppend(rootino, dot, [], DIRENT);
      if !ok { return; }
      assert [] + dot == dot;
      ok := IAppend(rootino, dots, dot, DIRENT * 2);
    }

    /** main's loop over the files. */
    method AddFiles(files: seq<File>, ghost was: nat) returns (ok: bool)
      requires Valid() && |files| + 2 <= |inodes| && Along(st, files, 0, was, freeblock, freeinode)
      modifies this`blocks, this`inodes, this`freeblock, this`freeinode, this`st, this`owner
      ensures ok ==> Valid() && Along(st, files, |files|, was, freeblock, freeinode)
      ensures |blocks| == |old(blocks)| && (!ok && !TooBig(files) ==> Took(was, Needed(files, |files|), freeblock, |blocks|, ok))
    {
      var n := 0;
      while n < |files|
        invariant Valid() && n <= |files| && |inodes| == |old(inodes)| && |blocks| == |old(blocks)|
        invariant Along(st, files, n, was, freeblock, freeinode)
      {
        var next := n + 1;
        ok := AddFile(files, n, next, was);
        if !ok {
          NeededGrows(files, next);
          return;
        }
        n := next;
      }
      ok := true;
    }

    /** main's "fix size of root inode dir". */
    method FixRoot()
      requires Valid() && ROOTINO < freeinode && NoHoles(st, ROOTINO) && Tight(st, ROOTINO, st.inodes[ROOTINO].size)
      modifies this`inodes, this`st
      ensures Valid() && st == Resize(old(st), ROOTINO, RoundedUp(old(st).inodes[ROOTINO].size))
    {
      var off := inodes[ROOTINO].size;
      ResizeIsQuiet(st, nmeta, owner, freeblock, freeinode, ROOTINO, RoundedUp(off), off);
      inodes := inodes[ROOTINO := inodes[ROOTINO].(size := RoundedUp(off))];
      st := Resize(st, ROOTINO, RoundedUp(off));
    }

    /** main up to the free map. */
    method AddAll(files: seq<File>) returns (ok: bool)
      requires Valid() && freeinode == ROOTINO && |files| + 2 <= |inodes|
      modifies this
      ensures ok ==> Valid() && Finished(st, files) && Took(old(freeblock), Needed(files, |files|), freeblock, |blocks|, ok)
      ensures |blocks| == |old(blocks)| && (!ok && !TooBig(files) ==> Took(old(freeblock), Needed(files, |files|), freeblock, |blocks|, ok))
    {
      ghost var was := freeblock;
      NeededGrows(files, 0);
      ok := MakeRoot(files);
      if !ok { return; }
      ok := AddFiles(files, was);
      if !ok { return; }
      ghost var st0 := st;
      FixRoot();
      RootIsFixed(st0, st, files);
    }
  }

  /** mkfs gets by: no file is too large, and the blocks are there, in the image and in the one
      block of its free map. */
  predicate HasRoom(files: seq<File>, nmeta: nat, size: nat) {
    !TooBig(files) && nmeta + Needed(files, |files|) <= size && nmeta + Needed(files, |files|) < BSIZE * 8
  }

  lemma {:induction false} StoredAtMost(files: seq<File>, n: nat)
    requires n <= |files| && forall k :: 0 <= k < n ==> |files[k].data| <= NDIRECT * BSIZE
    ensures Stored(files, n) <= n * NDIRECT
  {
    if n > 0 {
      StoredAtMost(files, n - 1);
      UsesGrows(|files[n - 1].data|, NDIRECT * BSIZE);
    }
  }

  /** For instance, for 30 files without indirect blocks. */
  lemma {:induction false} RoomForThirty(files: seq<File>, nmeta: nat, size: nat)
    requires |files| == 30 && (forall k :: 0 <= k < 30 ==> |files[k].data| <= NDIRECT * BSIZE)
    requires nmeta + 361 <= size && nmeta + 361 < BSIZE * 8
    ensures HasRoom(files, nmeta, size)
  {
    StoredAtMost(files, 30);
  }

  /** main, on an image of zeros. The free map it writes is that of the finished image: its set
      bits are the metadata and the blocks that some inode owns. */
  method Build(image: Image, files: seq<File>) returns (ok: bool, bits: seq<bool>)
    requires image.Valid() && image.freeinode == ROOTINO && |files| + 2 <= |image.inodes|
    modifies image
    ensures ok ==> image.Valid() && Finished(image.st, files)
    ensures ok ==> |bits| == BSIZE * 8 && forall b :: 0 <= b < |image.blocks| ==> (image.st.bitmap[b] <==> b < |bits| && bits[b])
    ensures |image.blocks| == |old(image.blocks)| && (ok <==> HasRoom(files, old(image.freeblock), |image.blocks|))
    ensures ok ==> image.freeblock == old(image.freeblock) + Needed(files, |files|)
  {
    bits := [];
    ok := image.AddAll(files);
    if ok {
      ok, bits := Balloc(image.freeblock);
    }
  }

  /** balloc: the first block of the free map. Not ok is a failed assert(used < BSIZE*8). */
  method Balloc(used: nat) returns (ok: bool, bits: seq<bool>)
    ensures ok <==> used < BSIZE * 8
    ensures ok ==> |bits| == BSIZE * 8 && forall b :: 0 <= b < BSIZE * 8 ==> (bits[b] <==> b < used)
  {
    if used >= BSIZE * 8 { return false, []; }
    bits := seq(BSIZE * 8, _ => false);
    var i := 0;
    while i < used
      invariant i <= used && |bits| == BSIZE * 8 && forall b :: 0 <= b < BSIZE * 8 ==> (bits[b] <==> b < i)
    {
      bits := bits[i := true];
      i := i + 1;
    }
    ok := true;
  }
}
