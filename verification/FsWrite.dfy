/** What writei's loop has done and logged after each turn. */
module FsWrite {
  import opened Basics
  import opened Fs
  import opened FsCount

  // ---------------------------------------------------------------- a call of writei

  /** A call of writei: the state and the log it started from and its arguments. */
  datatype Job = Job(st0: St, log0: set<nat>, inum: nat, off: nat, src: seq<byte>)

  /** The bytes written so far, the turns of the loop, and the data and bitmap blocks logged. */
  datatype Tally = Tally(tot: nat, turns: nat, data: set<nat>, maps: set<nat>)

  ghost predicate Proper(job: Job) {
    match job
    case Job(st0, _, i, off, src) =>
      && Sized(st0) && i < |st0.inodes| && Fits(st0, i)
      && off <= st0.inodes[i].size && off + |src| <= MAXFILE * BSIZE
  }

  /** The first tot bytes are in the file. */
  ghost predicate Written(job: Job, tot: nat, st: St) {
    match job
    case Job(st0, _, i, off, src) =>
      Proper(job) && SameShape(st0, st) && tot <= |src| && Wrote(st0, st, i, off, src[..tot])
  }

  /** The block that the write starts in is there already. */
  predicate First(job: Job) {
    match job
    case Job(st0, _, i, off, _) => Sized(st0) && i < |st0.inodes| && off / BSIZE < MAXFILE && Addr(st0, i, SlotOf(off / BSIZE)) != 0
  }

  /** The inode has changed, and blocks have been logged, as the tally says. */
  ghost predicate Tallied(job: Job, t: Tally, ip: Inode, logged: set<nat>) {
    match job
    case Job(st0, log0, i, off, src) =>
      && i < |st0.inodes| && t.tot <= |src| && Turns(off, t.tot, |src|, t.turns)
      && Accounts(logged, log0, st0.inodes[i], ip, First(job), t.turns, t.data, t.maps)
      && Gained(st0.inodes[i], ip, Kept(st0.inodes[i], off, t.tot))
  }

  /** Both, and every block that has changed has been logged. */
  ghost predicate Underway(job: Job, t: Tally, st: St, logged: set<nat>, bmapstart: nat) {
    match job
    case Job(st0, log0, i, _, _) =>
      && Written(job, t.tot, st) && Tallied(job, t, st.inodes[i], logged)
      && log0 <= logged && Covered(st0, st, bmapstart, logged)
  }

  lemma ProgressStart(job: Job, bmapstart: nat) returns (t: Tally)
    requires Proper(job)
    ensures Underway(job, t, job.st0, job.log0, bmapstart) && t.tot == 0
  {
    t := Tally(0, 0, {}, {});
    assert job.src[..0] == [];
  }

  /** The next chunk lies in one block of the file; the first one's is still there. */
  lemma ChunkIsReady(job: Job, t: Tally, o: nat, m: nat, st: St)
    requires Written(job, t.tot, st) && t.tot < |job.src| && o == job.off + t.tot && m == ChunkSize(o, |job.src| - t.tot)
    ensures 0 < m <= |job.src| - t.tot && o / BSIZE < MAXFILE && o % BSIZE + m <= BSIZE
    ensures t.tot == 0 && First(job) ==> Addr(st, job.inum, SlotOf(o / BSIZE)) != 0
  {
    ChunkFits(o, |job.src| - t.tot);
  }

  lemma WrittenNext(job: Job, tot: nat, tot': nat, o: nat, chunk: seq<byte>, st: St, st': St)
    requires Written(job, tot, st) && SameShape(st, st') && tot' == tot + |chunk| <= |job.src| && o == job.off + tot
    requires chunk == job.src[tot..tot'] && Wrote(st, st', job.inum, o, chunk)
    ensures Written(job, tot', st')
  {
    WroteSlice(job.st0, st, st', job.inum, job.off, job.src, tot, o, |chunk|);
  }

  lemma TalliedNext(job: Job, t: Tally, next: nat, o: nat, m: nat, ip: Inode, logged: set<nat>, ip': Inode, logged': set<nat>, addr: nat, more: set<nat>)
      returns (t': Tally)
    requires Tallied(job, t, ip, logged) && t.tot < |job.src| && o == job.off + t.tot && m == ChunkSize(o, |job.src| - t.tot)
    requires |more| <= 1 + GotIndirect(ip, ip') && logged' <= logged + more + {addr} + Indirect(ip') && Indirect(ip) <= Indirect(ip')
    requires o / BSIZE < MAXFILE && o % BSIZE + m <= BSIZE && next == t.tot + m
    requires t.tot == 0 && First(job) ==> more == {}
    requires Gained(ip, ip', Ready(ip, o / BSIZE))
    ensures Tallied(job, t', ip', logged') && t'.tot == next
  {
    t' := Tally(next, t.turns + 1, t.data + {addr}, t.maps + more);
    TurnsNext(job.off, t.tot, |job.src|, t.turns, o, m, next);
    AccountsNext(job.log0, logged, logged', job.st0.inodes[job.inum], ip, ip', First(job), t.turns, t.data, t.maps, addr, more);
    KeptNext(job.st0.inodes[job.inum], ip, ip', job.off, t.tot, o, m);
  }

  /** From st to u, file i has had src written at off and every other file is what it was. */
  ghost predicate Replaced(st: St, u: St, i: nat, off: nat, src: seq<byte>) {
    match st
    case St(_, _, inodes) =>
      && SameShape(st, u) && i < |inodes| && Fits(st, i) && Fits(u, i) && off <= inodes[i].size
      && Content(u, i) == Replace(Content(st, i), off, src) && (NoHoles(st, i) ==> NoHoles(u, i))
      && forall j :: 0 <= j < |inodes| && j != i ==> OtherFile(st, u, j)
  }

  /** File j is what it was. */
  ghost predicate OtherFile(st: St, u: St, j: nat)
    requires SameShape(st, u) && j < |st.inodes|
  {
    match st
    case St(_, _, inodes) =>
      && u.inodes[j] == inodes[j] && (forall y :: 0 <= y < NSLOTS ==> Addr(u, j, y) == Addr(st, j, y))
      && (forall o :: 0 <= o < MAXFILE * BSIZE ==> FileByte(u, j, o) == FileByte(st, j, o))
      && (Fits(st, j) ==> Content(u, j) == Content(st, j))
  }

  lemma WriteIsDone(job: Job, st: St, u: St)
    requires Written(job, |job.src|, st)
    requires u == Resize(st, job.inum, NewSize(job.st0.inodes[job.inum].size, job.off, |job.src|))
    ensures Replaced(job.st0, u, job.inum, job.off, job.src)
  {
    assert job.src[..|job.src|] == job.src;
    WriteIsReplace(job.st0, st, job.inum, job.off, job.src);
    forall j | 0 <= j < |st.inodes| && j != job.inum ensures OtherFile(job.st0, u, j) {
      assert u.inodes[j] == job.st0.inodes[j];
      OtherFileSame(job.st0, u, job.inum, j);
    }
  }

  lemma SizeKept(st: St, i: nat)
    requires i < |st.inodes|
    ensures Resize(st, i, st.inodes[i].size) == st
  {
    assert st.inodes[i := st.inodes[i].(size := st.inodes[i].size)] == st.inodes;
  }

  /** The log entries of a transaction that only wrote one chunk of filewrite: at most four
      data blocks, four bitmap blocks, the indirect block and the inode's block; and a fifth
      bitmap block if the write starts inside a hole. */
  ghost predicate Modest(job: Job, t: Tally, ip: Inode, logged: set<nat>, iblock: nat) {
    match job
    case Job(_, log0, _, off, src) =>
      log0 == {} && |src| <= CHUNK ==>
        && |logged| <= MAXOPBLOCKS + 1 && |t.data| <= 4 && |t.maps| <= 5 && logged <= t.data + t.maps + Indirect(ip) + {iblock}
        && (off % BSIZE == 0 || First(job) ==> |logged| <= MAXOPBLOCKS && |t.maps| <= 4)
  }

  lemma IsModest(job: Job, t: Tally, ip: Inode, logged: set<nat>, iblock: nat)
    requires Tallied(job, t, ip, logged) && t.tot == |job.src|
    ensures Modest(job, t, ip, logged, iblock) && Modest(job, t, ip, logged + {iblock}, iblock)
  {
    if job.log0 == {} && |job.src| <= CHUNK {
      FewBlocks(logged, job.st0.inodes[job.inum], ip, job.off, First(job), |job.src|, t.turns, t.data, t.maps, iblock);
    }
  }

  /** Without holes the last clause always applies. */
  lemma StartsInBlock(job: Job)
    requires Proper(job) && NoHoles(job.st0, job.inum) && job.src != []
    ensures job.off % BSIZE == 0 || First(job)
  {
    var bn := job.off / BSIZE;
    assert job.off == bn * BSIZE + job.off % BSIZE;
    assert job.off % BSIZE != 0 ==> bn * BSIZE < job.st0.inodes[job.inum].size && bn < MAXFILE;
  }

  // ---------------------------------------------------------------- holes

  /** The n-th block of a file is one of those that hold the n bytes from off on. */
  predicate Meets(bn: nat, off: nat, n: nat) {
    n > 0 && bn * BSIZE < off + n && off < bn * BSIZE + BSIZE
  }

  /** bmap of the bn-th block stores nothing in the inode. */
  predicate Ready(ip: Inode, bn: nat) {
    |ip.addrs| == NDIRECT + 1 && ip.addrs[if bn < NDIRECT then bn else NDIRECT] != 0
  }

  /** Every direct block in the range is there, and the indirect block if the range reaches it. */
  ghost predicate Kept(ip: Inode, off: nat, n: nat) {
    forall bn :: 0 <= bn < MAXFILE && Meets(bn, off, n) ==> Ready(ip, bn)
  }

  /** No block of the range is a hole. */
  ghost predicate Filled(st: St, i: nat, off: nat, n: nat)
    requires Sized(st) && i < |st.inodes|
  {
    match st
    case St(_, _, _) => forall bn :: 0 <= bn < MAXFILE && Meets(bn, off, n) ==> Addr(st, i, SlotOf(bn)) != 0
  }

  /** The inode may have got addresses where it had none; it has not if and only if `same`. */
  ghost predicate Gained(ip: Inode, ip': Inode, same: bool) {
    match ip
    case Inode(size, addrs) =>
      && |addrs| == |ip'.addrs| == NDIRECT + 1 && ip'.size == size && (ip' == ip <==> same)
      && forall x :: 0 <= x <= NDIRECT && addrs[x] != 0 ==> ip'.addrs[x] == addrs[x]
  }

  lemma MeetsNext(bn: nat, off: nat, n: nat, o: nat, m: nat)
    requires o == off + n && m > 0 && o % BSIZE + m <= BSIZE
    ensures Meets(bn, off, n + m) <==> Meets(bn, off, n) || bn == o / BSIZE
  {
    assert o == o / BSIZE * BSIZE + o % BSIZE;
  }

  lemma KeptMore(ip: Inode, off: nat, n: nat, o: nat, m: nat)
    requires o == off + n && m > 0 && o % BSIZE + m <= BSIZE && o / BSIZE < MAXFILE
    ensures Kept(ip, off, n + m) <==> Kept(ip, off, n) && Ready(ip, o / BSIZE)
  {
    forall bn | 0 <= bn < MAXFILE ensures Meets(bn, off, n + m) <==> Meets(bn, off, n) || bn == o / BSIZE {
      MeetsNext(bn, off, n, o, m);
    }
  }

  lemma FilledMore(st: St, i: nat, off: nat, n: nat, o: nat, m: nat)
    requires Sized(st) && i < |st.inodes| && o == off + n && m > 0 && o % BSIZE + m <= BSIZE && o / BSIZE < MAXFILE
    ensures Filled(st, i, off, n + m) <==> Filled(st, i, off, n) && Addr(st, i, SlotOf(o / BSIZE)) != 0
  {
    forall bn | 0 <= bn < MAXFILE ensures Meets(bn, off, n + m) <==> Meets(bn, off, n) || bn == o / BSIZE {
      MeetsNext(bn, off, n, o, m);
    }
  }

  lemma GainedTwice(ip: Inode, ip1: Inode, ip2: Inode, first: bool, second: bool)
    requires Gained(ip, ip1, first) && Gained(ip1, ip2, second)
    ensures Gained(ip, ip2, first && second)
  {
    if ip1 != ip {
      var x :| 0 <= x <= NDIRECT && ip1.addrs[x] != ip.addrs[x];
      assert ip.addrs[x] == 0 && ip2.addrs[x] == ip1.addrs[x];
    }
  }

  lemma KeptNext(ip0: Inode, ip: Inode, ip': Inode, off: nat, n: nat, o: nat, m: nat)
    requires o == off + n && m > 0 && o % BSIZE + m <= BSIZE && o / BSIZE < MAXFILE
    requires Gained(ip0, ip, Kept(ip0, off, n)) && Gained(ip, ip', Ready(ip, o / BSIZE))
    ensures Gained(ip0, ip', Kept(ip0, off, n + m))
  {
    KeptMore(ip0, off, n, o, m);
    GainedTwice(ip0, ip, ip', Kept(ip0, off, n), Ready(ip, o / BSIZE));
  }

  /** writei's last test: the inode goes to disk if the file has grown. The inode was ip in
      memory and d on disk, and is ip' and d' now. */
  ghost predicate InodeAfter(ip: Inode, d: Inode, ip': Inode, d': Inode, off: nat, n: nat) {
    match ip
    case Inode(size, _) =>
      ip'.size == NewSize(size, off, n) && if off + n > size then d' == ip' else d' == d && Gained(ip, ip', Kept(ip, off, n))
  }

  lemma WriteGrew(job: Job, t: Tally, st: St, u: St, logged: set<nat>, iblock: nat, d: Inode, end: nat)
    requires Written(job, |job.src|, st) && Tallied(job, t, st.inodes[job.inum], logged) && t.tot == |job.src|
    requires end == job.off + |job.src| > st.inodes[job.inum].size && u == Resize(st, job.inum, end)
    ensures Replaced(job.st0, u, job.inum, job.off, job.src) && Modest(job, t, u.inodes[job.inum], logged + {iblock}, iblock)
    ensures InodeAfter(job.st0.inodes[job.inum], d, u.inodes[job.inum], u.inodes[job.inum], job.off, |job.src|)
  {
    WriteIsDone(job, st, u);
    IsModest(job, t, st.inodes[job.inum], logged, iblock);
  }

  lemma WriteStayed(job: Job, t: Tally, st: St, logged: set<nat>, iblock: nat, d: Inode, end: nat)
    requires Written(job, |job.src|, st) && Tallied(job, t, st.inodes[job.inum], logged) && t.tot == |job.src|
    requires end == job.off + |job.src| <= st.inodes[job.inum].size
    ensures Replaced(job.st0, st, job.inum, job.off, job.src) && Modest(job, t, st.inodes[job.inum], logged, iblock)
    ensures InodeAfter(job.st0.inodes[job.inum], d, st.inodes[job.inum], d, job.off, |job.src|)
  {
    SizeKept(st, job.inum);
    WriteIsDone(job, st, st);
    IsModest(job, t, st.inodes[job.inum], logged, iblock);
  }

  /** So the inode on disk is still right if and only if the file grew or bmap stored no address
      in it. */
  lemma InodeIsRightIff(ip: Inode, d: Inode, ip': Inode, d': Inode, off: nat, n: nat)
    requires InodeAfter(ip, d, ip', d', off, n) && d == ip
    ensures d' == ip' <==> off + n > ip.size || Kept(ip, off, n)
  {
  }

  /** Which is always so in a file without holes. */
  lemma NoHolesKept(st: St, i: nat, off: nat, n: nat)
    requires Sized(st) && i < |st.inodes| && NoHoles(st, i) && off + n <= st.inodes[i].size
    ensures Kept(st.inodes[i], off, n) && Filled(st, i, off, n)
  {
    forall bn | 0 <= bn < MAXFILE && Meets(bn, off, n) ensures Ready(st.inodes[i], bn) && Addr(st, i, SlotOf(bn)) != 0 {
      assert Addr(st, i, SlotOf(bn)) != 0;
    }
  }

  /** In a file without holes the inode on disk stays right. */
  lemma StaysWhole(job: Job, ip: Inode, d: Inode, d': Inode)
    requires Proper(job) && InodeAfter(job.st0.inodes[job.inum], d, ip, d', job.off, |job.src|) && job.src != []
    ensures NoHoles(job.st0, job.inum) && d == job.st0.inodes[job.inum] ==> d' == ip && (job.off % BSIZE == 0 || First(job))
  {
    if NoHoles(job.st0, job.inum) && d == job.st0.inodes[job.inum] {
      StartsInBlock(job);
      if job.off + |job.src| <= job.st0.inodes[job.inum].size {
        NoHolesKept(job.st0, job.inum, job.off, |job.src|);
      }
    }
  }

  // ---------------------------------------------------------------- what is logged

  const BPB := 4096

  /** Every block of the file system is in use. */
  ghost predicate Full(st: St) {
    forall b :: 0 <= b < |st.bitmap| ==> st.bitmap[b]
  }

  /** Every block that differs from st to t, and the bitmap block of every bit that differs, has
      been logged. */
  ghost predicate Covered(st: St, t: St, bmapstart: nat, logged: set<nat>) {
    match st
    case St(bitmap, blocks, _) =>
      && |t.bitmap| == |bitmap| && |t.blocks| == |blocks|
      && (forall b :: 0 <= b < |blocks| && t.blocks[b] != blocks[b] ==> b in logged)
      && (forall b :: 0 <= b < |bitmap| && t.bitmap[b] != bitmap[b] ==> b / BPB + bmapstart in logged)
  }

  lemma CoveredNone(st: St, bmapstart: nat, logged: set<nat>)
    ensures Covered(st, st, bmapstart, logged)
  {
  }

  lemma CoveredTwice(st: St, t: St, u: St, bmapstart: nat, log1: set<nat>, log2: set<nat>)
    requires Covered(st, t, bmapstart, log1) && Covered(t, u, bmapstart, log2) && log1 <= log2
    ensures Covered(st, u, bmapstart, log2)
  {
  }

  lemma CoveredMore(st: St, t: St, u: St, bmapstart: nat, log1: set<nat>, log2: set<nat>)
    requires Covered(st, t, bmapstart, log1) && u.bitmap == t.bitmap && u.blocks == t.blocks && log1 <= log2
    ensures Covered(st, u, bmapstart, log2)
  {
  }

  lemma CoveredFill(st: St, t: St, bmapstart: nat, logged: set<nat>, a: nat, data: Block)
    requires Covered(st, t, bmapstart, logged) && a < |t.blocks|
    ensures Covered(st, Fill(t, a, data), bmapstart, logged + {a})
  {
  }

  lemma CoveredFree(st: St, t: St, bmapstart: nat, logged: set<nat>, b: nat)
    requires Covered(st, t, bmapstart, logged) && b < |t.bitmap|
    ensures Covered(st, t.(bitmap := t.bitmap[b := false]), bmapstart, logged + {b / BPB + bmapstart})
  {
  }

  const IPB := 8

  /** Every block of the disk that differs between st and t, be it data, free map or inodes, has
      been logged. */
  ghost predicate ChangesLogged(st: St, t: St, bmapstart: nat, inodestart: nat, logged: set<nat>) {
    match st
    case St(_, _, inodes) =>
      && Covered(st, t, bmapstart, logged) && |t.inodes| == |inodes|
      && (forall j :: 0 <= j < |inodes| && t.inodes[j] != inodes[j] ==> j / IPB + inodestart in logged)
  }

  /** The file system as it is on disk, where inode i is `disk`. */
  function OnDisk(st: St, i: nat, disk: Inode): St
    requires i < |st.inodes|
  {
    st.(inodes := st.inodes[i := disk])
  }

  /** A write logs every block of the disk that it changes; these are all the changes there are
      if the inode on disk is the one in memory, before and after. */
  lemma WriteChangesLogged(st: St, t: St, i: nat, off: nat, src: seq<byte>, d: Inode, d': Inode, bmapstart: nat, inodestart: nat, logged: set<nat>)
    requires Replaced(st, t, i, off, src) && Covered(st, t, bmapstart, logged)
    requires d' != d ==> i / IPB + inodestart in logged
    ensures ChangesLogged(OnDisk(st, i, d), OnDisk(t, i, d'), bmapstart, inodestart, logged)
    ensures d == st.inodes[i] && d' == t.inodes[i] ==> ChangesLogged(st, t, bmapstart, inodestart, logged)
  {
    forall j | 0 <= j < |st.inodes| && t.inodes[j] != st.inodes[j] ensures j == i {
      assert j != i ==> OtherFile(st, t, j);
    }
  }

  /** Two operations of one transaction. */
  lemma BothLogged(st: St, t: St, u: St, bmapstart: nat, inodestart: nat, first: set<nat>, second: set<nat>)
    requires ChangesLogged(st, t, bmapstart, inodestart, first) && ChangesLogged(t, u, bmapstart, inodestart, second)
    ensures ChangesLogged(st, u, bmapstart, inodestart, first + second)
  {
  }

  // ---------------------------------------------------------------- reading

  lemma Joined(c: seq<byte>, a: nat, b: nat, d: nat)
    requires a <= b <= d <= |c|
    ensures c[a..b] + c[b..d] == c[a..d]
  {
  }

  /** Every file reads in u as it did in st. */
  ghost predicate SameFiles(st: St, u: St) {
    match st
    case St(_, _, inodes) =>
      SameShape(st, u) && forall j :: 0 <= j < |inodes| && Fits(st, j) ==> Fits(u, j) && Content(u, j) == Content(st, j)
  }

  /** readi has read the n bytes from off on: the holes it met are blocks of zeros now, and
      nothing else has changed. */
  ghost predicate HasRead(st: St, u: St, i: nat, off: nat, n: nat, log0: set<nat>, logged: set<nat>) {
    match st
    case St(_, _, inodes) =>
      && SameShape(st, u) && i < |inodes| && Fits(st, i) && Grows(st, u, i) && Filled(u, i, off, n)
      && (Filled(st, i, off, n) ==> u == st && logged == log0) && (!Filled(st, i, off, n) ==> logged != {})
      && log0 <= logged && Gained(inodes[i], u.inodes[i], Kept(inodes[i], off, n))
  }

  /** After readi every file reads as before; and nothing has changed or been logged if and only
      if no block of the range was a hole. */
  ghost predicate QuietIff(st: St, u: St, i: nat, off: nat, n: nat, log0: set<nat>, logged: set<nat>) {
    match st
    case St(_, _, _) =>
      && HasRead(st, u, i, off, n, log0, logged) && SameFiles(st, u) && (u == st <==> Filled(st, i, off, n))
      && (log0 == {} ==> (logged == {} <==> Filled(st, i, off, n)))
  }

  lemma ReadIff(st: St, u: St, i: nat, off: nat, n: nat, log0: set<nat>, logged: set<nat>)
    requires HasRead(st, u, i, off, n, log0, logged)
    ensures QuietIff(st, u, i, off, n, log0, logged)
  {
    forall j | 0 <= j < |st.inodes| && Fits(st, j) ensures Fits(u, j) && Content(u, j) == Content(st, j) {
      GrowsIsQuiet(st, u, i, j);
    }
  }

  lemma ReadByte(st: St, t: St, i: nat, off: nat, at: nat, k: nat, a: nat)
    requires SameShape(st, t) && i < |st.inodes| && Grows(st, t, i) && at == off % BSIZE && at + k < BSIZE && off + k < MAXFILE * BSIZE
    requires a == Addr(t, i, SlotOf(off / BSIZE)) && 0 < a < |t.blocks|
    ensures FileByte(st, i, off + k) == t.blocks[a][at + k]
  {
    assert (off + k) / BSIZE == off / BSIZE && (off + k) % BSIZE == at + k;
    GrowsBytes(st, t, i, off + k);
  }

  /** Bytes of one block of a file are bytes of the flat file, also of what it was when the
      block was a hole. */
  lemma ReadChunk(st: St, t: St, i: nat, off: nat, end: nat, at: nat, past: nat, a: nat)
    requires SameShape(st, t) && i < |st.inodes| && Fits(st, i) && Grows(st, t, i) && off <= end <= st.inodes[i].size
    requires at == off % BSIZE && past == at + (end - off) <= BSIZE && off / BSIZE < MAXFILE
    requires a == Addr(t, i, SlotOf(off / BSIZE)) && 0 < a < |t.blocks|
    ensures Content(st, i)[off..end] == t.blocks[a][at..past]
  {
    var c, b := Content(st, i)[off..end], t.blocks[a][at..past];
    forall k | 0 <= k < end - off ensures c[k] == b[k] {
      ReadByte(st, t, i, off, at, k, a);
    }
  }

  lemma ReadMore(st: St, t: St, u: St, i: nat, off: nat, n: nat, o: nat, m: nat, next: nat, log0: set<nat>, log1: set<nat>, log2: set<nat>)
    requires HasRead(st, t, i, off, n, log0, log1) && o == off + n && m > 0 && o % BSIZE + m <= BSIZE && o / BSIZE < MAXFILE && next == n + m
    requires SameShape(t, u) && Grows(t, u, i) && log1 <= log2 && Addr(u, i, SlotOf(o / BSIZE)) != 0
    requires if Addr(t, i, SlotOf(o / BSIZE)) != 0 then u == t && log2 == log1 else log2 != {}
    requires Gained(t.inodes[i], u.inodes[i], Ready(t.inodes[i], o / BSIZE))
    ensures HasRead(st, u, i, off, next, log0, log2)
  {
    GrowsTransitive(st, t, u, i);
    FilledMore(st, i, off, n, o, m);
    FilledMore(u, i, off, n, o, m);
    assert Filled(u, i, off, n);
    KeptNext(st.inodes[i], t.inodes[i], u.inodes[i], off, n, o, m);
  }

  // ---------------------------------------------------------------- several writes

  /** d is c with the first n bytes of src at off. */
  predicate Spliced(c: seq<byte>, d: seq<byte>, off: nat, src: seq<byte>, n: nat)
    requires n <= |src|
  {
    && (n > 0 ==> off <= |c|) && |d| == (if n == 0 then |c| else NewSize(|c|, off, n))
    && forall o :: 0 <= o < |d| ==> d[o] == if off <= o < off + n then src[o - off] else if o < |c| then c[o] else 0
  }

  lemma SplicedIsReplace(c: seq<byte>, d: seq<byte>, off: nat, src: seq<byte>)
    requires off <= |c|
    ensures Spliced(c, d, off, src, |src|) <==> d == Replace(c, off, src)
  {
    var r := Replace(c, off, src);
    assert forall o :: 0 <= o < |r| ==> r[o] == if off <= o < off + |src| then src[o - off] else c[o];
  }

  lemma SplicedMore(c: seq<byte>, d: seq<byte>, e: seq<byte>, off: nat, src: seq<byte>, n: nat, m: nat, chunk: seq<byte>)
    requires n + m <= |src| && m > 0 && chunk == src[n..n + m] && Spliced(c, d, off, src, n)
    requires off + n <= |d| && e == Replace(d, off + n, chunk)
    ensures Spliced(c, e, off, src, n + m)
  {
    SplicedIsReplace(d, e, off + n, chunk);
  }

  /** filewrite has written the first n bytes of src, from off on, into file i and every other
      file is what it was. */
  ghost predicate WroteSome(st: St, u: St, i: nat, off: nat, src: seq<byte>, n: nat) {
    match st
    case St(_, _, inodes) =>
      && n <= |src| && SameShape(st, u) && i < |inodes| && Fits(st, i) && Fits(u, i) && (NoHoles(st, i) ==> NoHoles(u, i))
      && Spliced(Content(st, i), Content(u, i), off, src, n)
      && forall j :: 0 <= j < |inodes| && j != i ==> OtherFile(st, u, j)
  }

  lemma WroteNone(st: St, i: nat, off: nat, src: seq<byte>)
    requires Sized(st) && i < |st.inodes| && Fits(st, i)
    ensures WroteSome(st, st, i, off, src, 0)
  {
  }

  lemma WroteMore(st: St, t: St, u: St, i: nat, off: nat, src: seq<byte>, n: nat, at: nat, next: nat, chunk: seq<byte>)
    requires WroteSome(st, t, i, off, src, n) && n < next <= |src| && chunk == src[n..next] && at == off + n
    requires Replaced(t, u, i, at, chunk)
    ensures WroteSome(st, u, i, off, src, next)
  {
    SplicedMore(Content(st, i), Content(t, i), Content(u, i), off, src, n, |chunk|, chunk);
    forall j | 0 <= j < |st.inodes| && j != i ensures OtherFile(st, u, j) {
      assert OtherFile(st, t, j) && OtherFile(t, u, j);
    }
  }

  /** All of it: the flat file with src in its place. */
  lemma WroteAll(st: St, u: St, i: nat, off: nat, src: seq<byte>)
    requires WroteSome(st, u, i, off, src, |src|) && off <= st.inodes[i].size
    ensures Replaced(st, u, i, off, src)
  {
    SplicedIsReplace(Content(st, i), Content(u, i), off, src);
  }
}
