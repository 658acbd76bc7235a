/** How much a call of writei logs: the arithmetic of its loop. */
module FsCount {
  import opened Basics
  import opened Fs

  /** The indirect block, if there is one. */
  function Indirect(ip: Inode): set<nat> {
    if |ip.addrs| == NDIRECT + 1 && ip.addrs[NDIRECT] != 0 then {ip.addrs[NDIRECT]} else {}
  }

  /** How many allocations got the file an indirect block: 0 or 1. */
  function GotIndirect(before: Inode, after: Inode): nat {
    if Indirect(before) == {} && Indirect(after) != {} then 1 else 0
  }

  /** What bmap may log when it makes `before` into `after`: the block itself, the bitmap blocks
      `maps`, one or with a new indirect block two of them, and the indirect block. */
  predicate Charged(before: Inode, after: Inode, log0: set<nat>, logged: set<nat>, maps: set<nat>, addr: nat) {
    match before
    case Inode(_, _) =>
      && log0 <= logged <= log0 + maps + {addr} + Indirect(after) && Indirect(before) <= Indirect(after)
      && |maps| <= 1 + GotIndirect(before, after)
  }

  lemma UnionSize(a: set<nat>, b: set<nat>)
    ensures |a + b| <= |a| + |b|
  {
    assert |a + b| == |a| + |b| - |a * b|;
  }

  /** min(n - tot, BSIZE - off % BSIZE). */
  function ChunkSize(off: nat, left: nat): nat {
    if left < BSIZE - off % BSIZE then left else BSIZE - off % BSIZE
  }

  lemma ChunkFits(off: nat, left: nat)
    requires left > 0 && off + left <= MAXFILE * BSIZE
    ensures 0 < ChunkSize(off, left) <= left && off / BSIZE < MAXFILE && off % BSIZE + ChunkSize(off, left) <= BSIZE
  {
  }

  /** k turns of writei's loop have covered tot of the n bytes from off on. */
  predicate Turns(off: nat, tot: nat, n: nat, k: nat) {
    && (tot == 0 <==> k == 0)
    && (k > 0 ==> (off / BSIZE + k - 1) * BSIZE < off + tot <= (off / BSIZE + k) * BSIZE)
    && (0 < tot < n ==> (off + tot) % BSIZE == 0)
  }

  /** Turns that may meet a block that is not there: not the first one if `first` is there. */
  function Fresh(first: bool, k: nat): nat {
    if first && k > 0 then k - 1 else k
  }

  /** What k turns have logged: at most k data blocks, at most Fresh bitmap blocks and one for
      the indirect block, and the indirect block. */
  predicate Accounts(logged: set<nat>, log0: set<nat>, ip0: Inode, ip: Inode, first: bool, k: nat, data: set<nat>, maps: set<nat>) {
    && logged <= log0 + data + maps + Indirect(ip) && |data| <= k && Indirect(ip0) <= Indirect(ip)
    && |maps| <= Fresh(first, k) + GotIndirect(ip0, ip)
  }

  lemma AccountsNext(l0: set<nat>, l1: set<nat>, l2: set<nat>, ip0: Inode, ip1: Inode, ip2: Inode, first: bool, k: nat,
                     data: set<nat>, maps: set<nat>, addr: nat, more: set<nat>)
    requires Accounts(l1, l0, ip0, ip1, first, k, data, maps) && Indirect(ip1) <= Indirect(ip2)
    requires l2 <= l1 + more + {addr} + Indirect(ip2) && |more| <= 1 + GotIndirect(ip1, ip2)
    requires k == 0 && first ==> more == {}
    ensures Accounts(l2, l0, ip0, ip2, first, k + 1, data + {addr}, maps + more)
  {
    UnionSize(data, {addr});
    UnionSize(maps, more);
  }

  lemma TurnsNext(off: nat, tot: nat, n: nat, k: nat, o: nat, m: nat, next: nat)
    requires Turns(off, tot, n, k) && tot < n && o == off + tot && m == ChunkSize(o, n - tot) && next == tot + m
    ensures tot < next <= n && Turns(off, next, n, k + 1)
  {
    assert o == o / BSIZE * BSIZE + o % BSIZE;
    if k == 0 {
      assert o == off;
    } else {
      assert o % BSIZE == 0 && o / BSIZE == off / BSIZE + k;
    }
  }

  /** filewrite's max: ((MAXOPBLOCKS - 1 - 1 - 2) / 2) * 512. */
  const CHUNK := (MAXOPBLOCKS - 1 - 1 - 2) / 2 * 512

  function NextChunk(left: nat): nat {
    if left > CHUNK then CHUNK else left
  }

  /** A write of at most CHUNK bytes takes at most four turns, and four only if it starts
      inside a block. */
  lemma FewTurns(off: nat, n: nat, k: nat)
    requires Turns(off, n, n, k) && n <= CHUNK
    ensures k <= 4 && (off % BSIZE == 0 ==> k <= 3)
  {
    assert CHUNK == 1536;
    assert off == off / BSIZE * BSIZE + off % BSIZE;
  }

  /** Four data blocks, four bitmap blocks, the indirect block and the inode's block; a fifth
      bitmap block only if the write starts inside a block that is not there. */
  lemma FewBlocks(logged: set<nat>, ip0: Inode, ip: Inode, off: nat, first: bool, n: nat, k: nat, data: set<nat>, maps: set<nat>, iblock: nat)
    requires Turns(off, n, n, k) && n <= CHUNK && Accounts(logged, {}, ip0, ip, first, k, data, maps)
    ensures |data| <= 4 && |maps| <= 5 && logged + {iblock} <= data + maps + Indirect(ip) + {iblock}
    ensures |logged| <= |logged + {iblock}| <= MAXOPBLOCKS + 1
    ensures off % BSIZE == 0 || first ==> |maps| <= 4 && |logged + {iblock}| <= MAXOPBLOCKS
  {
    FewTurns(off, n, k);
    UnionSize(data, maps);
    UnionSize(data + maps, Indirect(ip));
    UnionSize(data + maps + Indirect(ip), {iblock});
    SubsetSize(logged + {iblock}, data + maps + Indirect(ip) + {iblock});
    SubsetSize(logged, logged + {iblock});
  }

  lemma SubsetSize(a: set<nat>, b: set<nat>)
    requires a <= b
    ensures |a| <= |b|
  {
    assert b == a + (b - a);
  }
}
