/** The file system on the log: what a crash can do to a transaction of filewrite. How blocks,
    bits and inodes are laid out in a sector does not matter, so the encoders are parameters. */
module FsCrash {
  import opened Basics
  import opened Fs
  import opened FsWrite
  import B = BufferCache
  import L = CrashLog

  /** Where the superblock says things are: boot, superblock, log, inodes, free map, data. */
  datatype Layout = Layout(log: L.Region, inodestart: nat, bmapstart: nat, nmeta: nat)

  predicate Ordered(lay: Layout) {
    lay.log.start + lay.log.size <= lay.inodestart <= lay.bmapstart <= lay.nmeta
  }

  /** How data, BPB bits, IPB inodes, and the blocks in front of the log look in a sector. */
  datatype Codec = Codec(data: Block -> B.Block, bits: seq<bool> -> B.Block, inodes: seq<Inode> -> B.Block, other: int -> B.Block)

  /** The n elements from position at on, as far as there are any. */
  function Part<T>(s: seq<T>, at: nat, n: nat): seq<T> {
    if at >= |s| then [] else if at + n >= |s| then s[at..] else s[at..at + n]
  }

  /** Block b of the disk that holds st. */
  function Sector(c: Codec, lay: Layout, st: St, b: nat): B.Block {
    if lay.nmeta <= b < |st.blocks| then c.data(st.blocks[b])
    else if lay.bmapstart <= b < lay.nmeta then c.bits(Part(st.bitmap, (b - lay.bmapstart) * BPB, BPB))
    else if lay.inodestart <= b < lay.bmapstart then c.inodes(Part(st.inodes, (b - lay.inodestart) * IPB, IPB))
    else c.other(b)
  }

  /** Outside the log, disk d is st. */
  ghost predicate Stores(c: Codec, lay: Layout, st: St, d: B.Disk) {
    match lay
    case Layout(log, _, _, _) => |d| == |st.blocks| && forall b :: 0 <= b < |d| && !L.InLog(log, b) ==> d[b] == Sector(c, lay, st, b)
  }

  lemma SamePart<T>(s: seq<T>, t: seq<T>, at: nat, n: nat)
    requires |s| == |t| && forall k :: at <= k < at + n && k < |s| ==> s[k] == t[k]
    ensures Part(s, at, n) == Part(t, at, n)
  {
  }

  /** A block that was not logged is the same before and after the transaction. */
  lemma UnloggedIsSame(c: Codec, lay: Layout, st: St, t: St, logged: set<nat>, b: nat)
    requires Ordered(lay) && ChangesLogged(st, t, lay.bmapstart, lay.inodestart, logged) && b !in logged
    ensures Sector(c, lay, t, b) == Sector(c, lay, st, b)
  {
    if lay.nmeta <= b < |st.blocks| {
      assert t.blocks[b] == st.blocks[b];
    } else if lay.bmapstart <= b < lay.nmeta {
      var at := (b - lay.bmapstart) * BPB;
      forall k | at <= k < at + BPB && k < |st.bitmap| ensures t.bitmap[k] == st.bitmap[k] {
        assert k / BPB + lay.bmapstart == b;
      }
      SamePart(st.bitmap, t.bitmap, at, BPB);
    } else if lay.inodestart <= b < lay.bmapstart {
      var at := (b - lay.inodestart) * IPB;
      forall k | at <= k < at + IPB && k < |st.inodes| ensures t.inodes[k] == st.inodes[k] {
        assert k / IPB + lay.inodestart == b;
      }
      SamePart(st.inodes, t.inodes, at, IPB);
    }
  }

  /** The list that log_write has built names the logged blocks, and write_log copies their new
      contents. */
  ghost predicate LogsChange(c: Codec, lay: Layout, t: St, logged: set<nat>, lh: seq<int>, data: seq<B.Block>) {
    && |data| == |lh| && (forall b :: b in logged ==> b in lh)
    && forall k :: 0 <= k < |lh| && lh[k] >= 0 ==> data[k] == Sector(c, lay, t, lh[k])
  }

  lemma NewIsStored(c: Codec, lay: Layout, st: St, t: St, logged: set<nat>, lh: seq<int>, data: seq<B.Block>, d: B.Disk, e: B.Disk)
    requires Ordered(lay) && ChangesLogged(st, t, lay.bmapstart, lay.inodestart, logged) && Stores(c, lay, st, d)
    requires L.GoodList(lay.log, lh, |d|) && LogsChange(c, lay, t, logged, lh, data) && L.NewHome(lay.log, d, lh, data, e)
    ensures Stores(c, lay, t, e)
  {
    forall b: nat | b < |e| && !L.InLog(lay.log, b) ensures e[b] == Sector(c, lay, t, b) {
      if L.Named(lh, |lh|, b) {
        var k :| 0 <= k < |lh| && lh[k] == b;
        assert e[lh[k]] == data[k];
      } else {
        assert b !in logged;
        UnloggedIsSame(c, lay, st, t, logged, b);
      }
    }
  }

  /** A transaction that logs what it changes is atomic, whatever operations it is made of:
      whichever block write of commit the machine stops after, and however often recovery is
      interrupted, the disk in the end stores the file system from before or the one from
      after. */
  lemma ChangeIsAtomic(c: Codec, lay: Layout, st: St, t: St, logged: set<nat>,
                       lh: seq<int>, data: seq<B.Block>, durable: bool, d: B.Disk, disks: seq<B.Disk>, e: B.Disk)
    requires Ordered(lay) && Stores(c, lay, st, d) && L.Clean(lay.log, d)
    requires ChangesLogged(st, t, lay.bmapstart, lay.inodestart, logged)
    requires L.GoodList(lay.log, lh, |d|) && LogsChange(c, lay, t, logged, lh, data)
    requires L.CrashChain(lay.log, disks) && L.CommitPoint(lay.log, d, lh, data, durable, disks[0])
    requires L.IsRecovered(lay.log, disks[|disks| - 1], e)
    ensures L.Clean(lay.log, e) && Stores(c, lay, if durable then t else st, e)
  {
    L.CrashAtomicity(lay.log, d, lh, data, durable, disks, e);
    if durable {
      NewIsStored(c, lay, st, t, logged, lh, data, d, e);
    }
  }

  // ---------------------------------------------------------------- group commit

  /** One call of writei. */
  datatype Write = Write(i: nat, off: nat, src: seq<byte>)

  /** The transactions that a group commit joins: `logged` is what they have logged together. */
  ghost predicate Writes(st: St, ws: seq<Write>, t: St, bmapstart: nat, inodestart: nat, logged: set<nat>)
    decreases |ws|
  {
    if ws == [] then t == st
    else exists u, first, rest ::
      && Replaced(st, u, ws[0].i, ws[0].off, ws[0].src) && ChangesLogged(st, u, bmapstart, inodestart, first)
      && Writes(u, ws[1..], t, bmapstart, inodestart, rest) && logged == first + rest
  }

  /** What the writes make of the contents c of file j. */
  function Written(ws: seq<Write>, j: nat, c: seq<byte>): seq<byte> {
    if ws == [] then c
    else Written(ws[1..], j, if ws[0].i == j && ws[0].off <= |c| then Replace(c, ws[0].off, ws[0].src) else c)
  }

  lemma FirstWrite(st: St, u: St, ws: seq<Write>, j: nat)
    requires ws != [] && Replaced(st, u, ws[0].i, ws[0].off, ws[0].src) && j < |st.inodes| && Fits(st, j)
    ensures Fits(u, j) && Written(ws, j, Content(st, j)) == Written(ws[1..], j, Content(u, j))
  {
    if j != ws[0].i {
      assert OtherFile(st, u, j);
    }
  }

  lemma {:induction false} WritesMeans(st: St, ws: seq<Write>, t: St, bmapstart: nat, inodestart: nat, logged: set<nat>)
    requires Writes(st, ws, t, bmapstart, inodestart, logged) && Sized(st)
    ensures SameShape(st, t) && ChangesLogged(st, t, bmapstart, inodestart, logged)
    ensures forall j :: 0 <= j < |st.inodes| && Fits(st, j) ==> Fits(t, j) && Content(t, j) == Written(ws, j, Content(st, j))
    decreases |ws|
  {
    if ws != [] {
      var u, first, rest :| Replaced(st, u, ws[0].i, ws[0].off, ws[0].src) && ChangesLogged(st, u, bmapstart, inodestart, first)
        && Writes(u, ws[1..], t, bmapstart, inodestart, rest) && logged == first + rest;
      WritesMeans(u, ws[1..], t, bmapstart, inodestart, rest);
      BothLogged(st, u, t, bmapstart, inodestart, first, rest);
      forall j | 0 <= j < |st.inodes| && Fits(st, j) ensures Fits(t, j) && Content(t, j) == Written(ws, j, Content(st, j)) {
        FirstWrite(st, u, ws, j);
      }
    }
  }

  /** So any group of writes, to any files, is atomic: after the crashes every file has all of
      them or none. */
  lemma WritesAreAtomic(c: Codec, lay: Layout, st: St, ws: seq<Write>, t: St, logged: set<nat>,
                        lh: seq<int>, data: seq<B.Block>, durable: bool, d: B.Disk, disks: seq<B.Disk>, e: B.Disk) returns (u: St)
    requires Ordered(lay) && Sized(st) && Stores(c, lay, st, d) && L.Clean(lay.log, d)
    requires Writes(st, ws, t, lay.bmapstart, lay.inodestart, logged)
    requires L.GoodList(lay.log, lh, |d|) && LogsChange(c, lay, t, logged, lh, data)
    requires L.CrashChain(lay.log, disks) && L.CommitPoint(lay.log, d, lh, data, durable, disks[0])
    requires L.IsRecovered(lay.log, disks[|disks| - 1], e)
    ensures L.Clean(lay.log, e) && Stores(c, lay, u, e) && SameShape(st, u)
    ensures forall j :: 0 <= j < |st.inodes| && Fits(st, j) ==>
      Fits(u, j) && Content(u, j) == if durable then Written(ws, j, Content(st, j)) else Content(st, j)
  {
    WritesMeans(st, ws, t, lay.bmapstart, lay.inodestart, logged);
    ChangeIsAtomic(c, lay, st, t, logged, lh, data, durable, d, disks, e);
    u := if durable then t else st;
  }

  // ---------------------------------------------------------------- calls that interleave

  /** What a call of writei does at a time: a turn of its loop, or the new size at the end. */
  datatype Move = Put(i: nat, off: nat, chunk: seq<byte>) | Extend(i: nat, size: nat)

  ghost predicate Moved(st: St, m: Move, u: St) {
    match m
    case Put(i, off, chunk) => SameShape(st, u) && i < |st.inodes| && Wrote(st, u, i, off, chunk)
    case Extend(i, size) => Sized(st) && i < |st.inodes| && u == Resize(st, i, size)
  }

  /** From st to t by the moves of any number of calls, in the order in which they happen. */
  ghost predicate Moves(st: St, ms: seq<Move>, t: St, bmapstart: nat, logged: set<nat>)
    decreases |ms|
  {
    if ms == [] then t == st
    else exists u :: Moved(st, ms[0], u) && Covered(st, u, bmapstart, logged) && Moves(u, ms[1..], t, bmapstart, logged)
  }

  /** The moves of file j among ms are those of its calls, one after the other, since inode j is
      locked: the rest of one, that has still to write src at off, and then ws. */
  ghost predicate Calls(ms: seq<Move>, j: nat, off: nat, src: seq<byte>, ws: seq<Write>, size: nat)
    decreases |ms|, |ws|, 1
  {
    || (ms == [] && ws == [] && src == [] && off <= size)
    || (ms != [] && CallMoves(ms, j, off, src, ws, size))
    || (ws != [] && Returned(j, off, src, ws[0], size) && Calls(ms, j, ws[0].off, ws[0].src, ws[1..], size))
  }

  /** Some other file's move comes first, or a turn of the loop, or the new size. */
  ghost predicate CallMoves(ms: seq<Move>, j: nat, off: nat, src: seq<byte>, ws: seq<Write>, size: nat)
    requires ms != []
    decreases |ms|, |ws|, 0
  {
    match ms[0]
    case Put(i, o, chunk) =>
      if i != j then Calls(ms[1..], j, off, src, ws, size)
      else o == off && chunk <= src && Calls(ms[1..], j, off + |chunk|, src[|chunk|..], ws, size)
    case Extend(i, end) =>
      if i != j then Calls(ms[1..], j, off, src, ws, size)
      else end == off > size && src == [] && Calls(ms[1..], j, off, [], ws, off)
  }

  /** The call has come to its end, and the next one passes writei's tests. */
  predicate Returned(j: nat, off: nat, src: seq<byte>, w: Write, size: nat) {
    src == [] && off <= size && w.i == j && w.off <= size && w.off + |w.src| <= MAXFILE * BSIZE
  }

  /** File j when the call has written the rest of src at off. */
  ghost function Awaited(st: St, j: nat, off: nat, src: seq<byte>): (c: seq<byte>)
    requires Sized(st) && j < |st.inodes| && Fits(st, j) && off + |src| <= MAXFILE * BSIZE
    ensures |c| == NewSize(st.inodes[j].size, off, |src|)
    ensures forall o :: 0 <= o < |c| ==> c[o] == if off <= o < off + |src| then src[o - off] else FileByte(st, j, o)
  {
    seq(NewSize(st.inodes[j].size, off, |src|),
        o requires 0 <= o < NewSize(st.inodes[j].size, off, |src|) => if off <= o < off + |src| then src[o - off] else FileByte(st, j, o))
  }

  lemma PutAwaited(st: St, u: St, j: nat, off: nat, src: seq<byte>, chunk: seq<byte>)
    requires SameShape(st, u) && j < |st.inodes| && Fits(st, j) && off + |src| <= MAXFILE * BSIZE && chunk <= src && Wrote(st, u, j, off, chunk)
    ensures Fits(u, j) && Awaited(u, j, off + |chunk|, src[|chunk|..]) == Awaited(st, j, off, src)
  {
    var c, d := Awaited(st, j, off, src), Awaited(u, j, off + |chunk|, src[|chunk|..]);
    forall o | 0 <= o < |c| ensures c[o] == d[o] {
      assert off <= o < off + |chunk| ==> FileByte(u, j, o) == chunk[o - off];
    }
  }

  lemma ExtendAwaited(st: St, j: nat, off: nat)
    requires Sized(st) && j < |st.inodes| && st.inodes[j].size < off <= MAXFILE * BSIZE
    ensures var u := Resize(st, j, off); SameShape(st, u) && Fits(u, j) && Awaited(u, j, off, []) == Awaited(st, j, off, [])
  {
    SameBytes(st, j, off);
  }

  lemma OtherAwaited(st: St, u: St, m: Move, j: nat, off: nat, src: seq<byte>)
    requires Moved(st, m, u) && m.i != j && j < |st.inodes| && Fits(st, j) && off + |src| <= MAXFILE * BSIZE
    ensures SameShape(st, u) && u.inodes[j].size == st.inodes[j].size && Awaited(u, j, off, src) == Awaited(st, j, off, src)
  {
    if m.Extend? {
      SameBytes(st, m.i, m.size);
    }
    var c, d := Awaited(st, j, off, src), Awaited(u, j, off, src);
    forall o | 0 <= o < |c| ensures c[o] == d[o] {
      assert Addr(u, j, SlotOf(o / BSIZE)) == Addr(st, j, SlotOf(o / BSIZE));
    }
  }

  lemma NextCall(st: St, j: nat, off: nat, w: Write)
    requires Sized(st) && j < |st.inodes| && Fits(st, j) && off <= st.inodes[j].size && w.i == j
    requires w.off <= st.inodes[j].size && w.off + |w.src| <= MAXFILE * BSIZE
    ensures Awaited(st, j, off, []) == Content(st, j) && Awaited(st, j, w.off, w.src) == Replace(Content(st, j), w.off, w.src)
  {
    forall o | 0 <= o < |Replace(Content(st, j), w.off, w.src)| ensures Awaited(st, j, w.off, w.src)[o] == Replace(Content(st, j), w.off, w.src)[o] {
      ReplaceAt(Content(st, j), w.off, w.src, o);
    }
  }

  /** A turn of the call. */
  lemma {:induction false} TurnMeans(st: St, u: St, ms: seq<Move>, j: nat, off: nat, src: seq<byte>, ws: seq<Write>, chunk: seq<byte>, size: nat)
    requires Sized(st) && j < |st.inodes| && Fits(st, j) && off + |src| <= MAXFILE * BSIZE && size == st.inodes[j].size
    requires ms != [] && ms[0] == Put(j, off, chunk) && Moved(st, ms[0], u) && CallMoves(ms, j, off, src, ws, size)
    ensures chunk <= src && SameShape(st, u) && Fits(u, j) && u.inodes[j].size == size && Calls(ms[1..], j, off + |chunk|, src[|chunk|..], ws, size)
    ensures Awaited(u, j, off + |chunk|, src[|chunk|..]) == Awaited(st, j, off, src)
  {
    PutAwaited(st, u, j, off, src, chunk);
  }

  /** The end of the call. */
  lemma {:induction false} EndMeans(st: St, u: St, ms: seq<Move>, j: nat, off: nat, src: seq<byte>, ws: seq<Write>, end: nat, size: nat)
    requires Sized(st) && j < |st.inodes| && Fits(st, j) && off + |src| <= MAXFILE * BSIZE && size == st.inodes[j].size
    requires ms != [] && ms[0] == Extend(j, end) && Moved(st, ms[0], u) && CallMoves(ms, j, off, src, ws, size)
    ensures end == off && src == [] && SameShape(st, u) && Fits(u, j) && u.inodes[j].size == off && Calls(ms[1..], j, off, [], ws, off)
    ensures Awaited(u, j, off, []) == Awaited(st, j, off, [])
  {
    ExtendAwaited(st, j, off);
  }

  /** What is left of the call after the next move of any. */
  lemma {:induction false} MoveMeans(st: St, u: St, ms: seq<Move>, j: nat, off: nat, src: seq<byte>, ws: seq<Write>, size: nat) returns (off': nat, src': seq<byte>)
    requires Sized(st) && j < |st.inodes| && Fits(st, j) && off + |src| <= MAXFILE * BSIZE && size == st.inodes[j].size
    requires ms != [] && Moved(st, ms[0], u) && CallMoves(ms, j, off, src, ws, size)
    ensures SameShape(st, u) && Fits(u, j) && off' + |src'| <= MAXFILE * BSIZE && Calls(ms[1..], j, off', src', ws, u.inodes[j].size)
    ensures Awaited(u, j, off', src') == Awaited(st, j, off, src)
  {
    off', src' := off, src;
    if ms[0].i != j {
      OtherAwaited(st, u, ms[0], j, off, src);
    } else {
      match ms[0]
      case Put(_, _, chunk) =>
        assert ms[0] == Put(j, off, chunk);
        TurnMeans(st, u, ms, j, off, src, ws, chunk, size);
        off', src' := off + |chunk|, src[|chunk|..];
      case Extend(_, end) => EndMeans(st, u, ms, j, off, src, ws, end, size);
    }
  }

  /** However the moves of several calls interleave, file j gets what its own calls write, in their
      order. */
  lemma {:induction false} CallsMean(st: St, ms: seq<Move>, t: St, bmapstart: nat, logged: set<nat>, j: nat, off: nat, src: seq<byte>, ws: seq<Write>)
    requires Moves(st, ms, t, bmapstart, logged) && Sized(st) && j < |st.inodes| && Fits(st, j) && off + |src| <= MAXFILE * BSIZE
    requires Calls(ms, j, off, src, ws, st.inodes[j].size)
    ensures SameShape(st, t) && Fits(t, j) && Content(t, j) == Written(ws, j, Awaited(st, j, off, src))
    decreases |ms|, |ws|
  {
    if ms != [] && CallMoves(ms, j, off, src, ws, st.inodes[j].size) {
      var u :| Moved(st, ms[0], u) && Covered(st, u, bmapstart, logged) && Moves(u, ms[1..], t, bmapstart, logged);
      var off', src' := MoveMeans(st, u, ms, j, off, src, ws, st.inodes[j].size);
      CallsMean(u, ms[1..], t, bmapstart, logged, j, off', src', ws);
    } else if ws != [] {
      NextCall(st, j, off, ws[0]);
      CallsMean(st, ms, t, bmapstart, logged, j, ws[0].off, ws[0].src, ws[1..]);
    } else {
      assert Awaited(st, j, off, src) == Content(st, j);
    }
  }

  lemma AllCallsMean(st: St, ms: seq<Move>, t: St, bmapstart: nat, logged: set<nat>, ws: seq<seq<Write>>)
    requires Moves(st, ms, t, bmapstart, logged) && Sized(st) && SameShape(st, t) && |ws| == |st.inodes|
    requires forall j :: 0 <= j < |ws| ==> Fits(st, j) && Calls(ms, j, 0, [], ws[j], st.inodes[j].size)
    ensures forall j :: 0 <= j < |ws| ==> Fits(t, j) && Content(t, j) == Written(ws[j], j, Content(st, j))
  {
    forall j | 0 <= j < |ws| ensures Fits(t, j) && Content(t, j) == Written(ws[j], j, Content(st, j)) {
      CallsMean(st, ms, t, bmapstart, logged, j, 0, [], ws[j]);
      assert Awaited(st, j, 0, []) == Content(st, j);
    }
  }

  /** All changes of data and free map are logged. */
  lemma {:induction false} MovesAreCovered(st: St, ms: seq<Move>, t: St, bmapstart: nat, logged: set<nat>)
    requires Moves(st, ms, t, bmapstart, logged) && Sized(st)
    ensures SameShape(st, t) && Covered(st, t, bmapstart, logged)
    decreases |ms|
  {
    if ms == [] {
      CoveredNone(st, bmapstart, logged);
    } else {
      var u :| Moved(st, ms[0], u) && Covered(st, u, bmapstart, logged) && Moves(u, ms[1..], t, bmapstart, logged);
      if ms[0].Extend? {
        SameBytes(st, ms[0].i, ms[0].size);
      }
      MovesAreCovered(u, ms[1..], t, bmapstart, logged);
      CoveredTwice(st, u, t, bmapstart, logged, logged);
    }
  }

  /** A group of calls that interleave turn by turn is atomic too, if the inodes that changed have
      been written: after the crashes every file has all of its writes or none. */
  lemma CallsAreAtomic(c: Codec, lay: Layout, st: St, ms: seq<Move>, t: St, logged: set<nat>, ws: seq<seq<Write>>,
                       lh: seq<int>, data: seq<B.Block>, durable: bool, d: B.Disk, disks: seq<B.Disk>, e: B.Disk) returns (u: St)
    requires Ordered(lay) && Sized(st) && Stores(c, lay, st, d) && L.Clean(lay.log, d)
    requires Moves(st, ms, t, lay.bmapstart, logged) && |ws| == |st.inodes| == |t.inodes|
    requires forall j :: 0 <= j < |ws| ==> Fits(st, j) && Calls(ms, j, 0, [], ws[j], st.inodes[j].size)
    requires forall j :: 0 <= j < |ws| && t.inodes[j] != st.inodes[j] ==> j / IPB + lay.inodestart in logged
    requires L.GoodList(lay.log, lh, |d|) && LogsChange(c, lay, t, logged, lh, data)
    requires L.CrashChain(lay.log, disks) && L.CommitPoint(lay.log, d, lh, data, durable, disks[0])
    requires L.IsRecovered(lay.log, disks[|disks| - 1], e)
    ensures L.Clean(lay.log, e) && Stores(c, lay, u, e) && SameShape(st, u)
    ensures forall j :: 0 <= j < |ws| ==> Fits(u, j) && Content(u, j) == if durable then Written(ws[j], j, Content(st, j)) else Content(st, j)
  {
    MovesAreCovered(st, ms, t, lay.bmapstart, logged);
    assert ChangesLogged(st, t, lay.bmapstart, lay.inodestart, logged);
    ChangeIsAtomic(c, lay, st, t, logged, lh, data, durable, d, disks, e);
    u := if durable then t else st;
    AllCallsMean(st, ms, t, lay.bmapstart, logged, ws);
  }
}
