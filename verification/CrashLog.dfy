/** The redo log of log.c seen from the disk: a crash may stop the machine after any
    single block write of a commit, and again after any block write of a recovery. */
module CrashLog {
  import opened Basics
  import opened BufferCache

  /** Where the log lies: a header block and size - 1 data blocks. */
  datatype Region = Region(start: nat, size: nat)

  predicate InLog(r: Region, b: int) {
    r.start <= b < r.start + r.size
  }

  /** The block numbers of a transaction: distinct home blocks that fit the log. */
  predicate GoodList(r: Region, lh: seq<int>, nblocks: nat) {
    && |lh| <= LOGSIZE && |lh| < r.size && r.start + r.size <= nblocks
    && (forall k :: 0 <= k < |lh| ==> 0 <= lh[k] < nblocks && !InLog(r, lh[k]))
    && (forall j, k :: 0 <= j < k < |lh| ==> lh[j] != lh[k])
  }

  /** b is among the first t numbers. */
  predicate Named(lh: seq<int>, t: nat, b: int)
    requires t <= |lh|
  {
    exists k :: 0 <= k < t && lh[k] == b
  }

  // ---------------------------------------------------------------- header block

  /** write_head's edit of the header block: the count, then that many numbers. */
  function HeadBlock(was: Block, lh: seq<int>): (b: Block)
    requires |lh| <= LOGSIZE
  {
    Block([|lh|] + lh + was.words[|lh| + 1..])
  }

  predicate HeadOk(b: Block) {
    0 <= b.words[0] <= LOGSIZE
  }

  /** What read_head reads. */
  function HeadList(b: Block): (lh: seq<int>)
    requires HeadOk(b)
    ensures |lh| <= LOGSIZE
  {
    b.words[1..1 + b.words[0]]
  }

  /** read_head undoes write_head whatever the header block held before. */
  lemma HeadRoundTrip(was: Block, lh: seq<int>)
    requires |lh| <= LOGSIZE
    ensures HeadOk(HeadBlock(was, lh)) && HeadList(HeadBlock(was, lh)) == lh
  {
    assert HeadList(HeadBlock(was, lh)) == lh;
  }

  // ---------------------------------------------------------------- disk states

  /** `x` is `d` after t block writes of write_log. */
  ghost predicate IsLogged(r: Region, d: Disk, data: seq<Block>, t: nat, x: Disk)
    requires t <= |data| < r.size && r.start + r.size <= |d|
  {
    && |x| == |d|
    && (forall k :: 0 <= k < t ==> x[r.start + 1 + k] == data[k])
    && (forall b :: 0 <= b < |d| && !(r.start < b <= r.start + t) ==> x[b] == d[b])
  }

  /** `x` is `d` after t block writes of install_trans. */
  ghost predicate IsInstalled(r: Region, d: Disk, lh: seq<int>, t: nat, x: Disk)
    requires GoodList(r, lh, |d|) && t <= |lh|
  {
    && |x| == |d|
    && (forall k :: 0 <= k < t ==> x[lh[k]] == d[r.start + 1 + k])
    && (forall b :: InLog(r, b) ==> x[b] == d[b])
    && (forall b {:trigger Named(lh, t, b)} :: 0 <= b < |d| && !Named(lh, t, b) ==> x[b] == d[b])
  }

  /** `x` is `d` after the header write. */
  predicate IsHeaded(r: Region, d: Disk, lh: seq<int>, x: Disk)
    requires r.start < |d| && |lh| <= LOGSIZE
  {
    x == d[r.start := HeadBlock(d[r.start], lh)]
  }

  /** `steps` are the disks after the block writes of write_log so far. */
  ghost predicate LogSteps(r: Region, d: Disk, data: seq<Block>, steps: seq<Disk>)
    requires |data| < r.size && r.start + r.size <= |d|
  {
    |steps| <= |data| && forall k :: 0 <= k < |steps| ==> IsLogged(r, d, data, k + 1, steps[k])
  }

  /** `steps` are the disks after the block writes of install_trans so far. */
  ghost predicate InstallSteps(r: Region, d: Disk, lh: seq<int>, steps: seq<Disk>)
    requires GoodList(r, lh, |d|)
  {
    |steps| <= |lh| && forall k :: 0 <= k < |steps| ==> IsInstalled(r, d, lh, k + 1, steps[k])
  }

  /** The header names a transaction that can be installed. */
  predicate Recoverable(r: Region, d: Disk) {
    r.start < |d| && HeadOk(d[r.start]) && GoodList(r, HeadList(d[r.start]), |d|)
  }

  /** The header is empty: nothing to recover. */
  predicate Clean(r: Region, d: Disk) {
    r.start + r.size <= |d| && 0 < r.size && d[r.start].words[0] == 0
  }

  /** Equal outside the log. */
  ghost predicate SameHome(r: Region, d: Disk, e: Disk) {
    |d| == |e| && forall b :: 0 <= b < |d| && !InLog(r, b) ==> d[b] == e[b]
  }

  /** `e` is what recover_from_log makes of `d`: install, then empty the header. */
  ghost predicate IsRecovered(r: Region, d: Disk, e: Disk)
    requires Recoverable(r, d)
  {
    var lh := HeadList(d[r.start]);
    exists m :: IsInstalled(r, d, lh, |lh|, m) && IsHeaded(r, m, [], e)
  }

  /** `x` is the disk after some block write of recover_from_log, or before the first. */
  ghost predicate RecoverPoint(r: Region, d: Disk, x: Disk)
    requires Recoverable(r, d)
  {
    || IsRecovered(r, d, x)
    || exists t :: 0 <= t <= |HeadList(d[r.start])| && IsInstalled(r, d, HeadList(d[r.start]), t, x)
  }

  /** `x` is `d` with every logged block and then the header written: the commit point. */
  ghost predicate Committed(r: Region, d: Disk, lh: seq<int>, data: seq<Block>, x: Disk)
    requires GoodList(r, lh, |d|) && |data| == |lh|
  {
    exists y :: IsLogged(r, d, data, |lh|, y) && IsHeaded(r, y, lh, x)
  }

  /** The transaction applied to the home blocks at once. */
  ghost predicate NewHome(r: Region, d: Disk, lh: seq<int>, data: seq<Block>, e: Disk)
    requires GoodList(r, lh, |d|) && |data| == |lh|
  {
    && |e| == |d|
    && (forall k :: 0 <= k < |lh| ==> e[lh[k]] == data[k])
    && (forall b {:trigger Named(lh, |lh|, b)} :: 0 <= b < |d| && !InLog(r, b) && !Named(lh, |lh|, b) ==> e[b] == d[b])
  }

  // ---------------------------------------------------------------- recovery

  lemma RecoveredIsClean(r: Region, d: Disk, e: Disk)
    requires Recoverable(r, d) && IsRecovered(r, d, e)
    ensures Clean(r, e)
  {
  }

  lemma RecoverClean(r: Region, d: Disk, e: Disk)
    requires Clean(r, d)
    ensures Recoverable(r, d)
    ensures IsRecovered(r, d, e) ==> SameHome(r, d, e)
  {
    if IsRecovered(r, d, e) {
      forall b | 0 <= b < |d| && !InLog(r, b) ensures d[b] == e[b] {
        assert !Named([], 0, b);
      }
    }
  }

  lemma SameHomeTransitive(r: Region, d: Disk, e: Disk, f: Disk)
    requires SameHome(r, d, e) && SameHome(r, e, f)
    ensures SameHome(r, d, f)
  {
  }

  lemma NewHomeSame(r: Region, d: Disk, lh: seq<int>, data: seq<Block>, e: Disk, f: Disk)
    requires GoodList(r, lh, |d|) && |data| == |lh| && NewHome(r, d, lh, data, e) && SameHome(r, e, f)
    ensures NewHome(r, d, lh, data, f)
  {
  }

  /** Recovery has one outcome. */
  lemma RecoverDeterministic(r: Region, d: Disk, e: Disk, f: Disk)
    requires Recoverable(r, d) && IsRecovered(r, d, e) && IsRecovered(r, d, f)
    ensures SameHome(r, e, f)
  {
    var lh := HeadList(d[r.start]);
    var m :| IsInstalled(r, d, lh, |lh|, m) && IsHeaded(r, m, [], e);
    var n :| IsInstalled(r, d, lh, |lh|, n) && IsHeaded(r, n, [], f);
    InstallAgain(r, d, lh, 0, d, m, n);
  }

  /** Installing after a partial install gives what one install gives. */
  lemma InstallAgain(r: Region, d: Disk, lh: seq<int>, t: nat, x: Disk, once: Disk, twice: Disk)
    requires GoodList(r, lh, |d|) && t <= |lh|
    requires IsInstalled(r, d, lh, t, x) && IsInstalled(r, d, lh, |lh|, once) && IsInstalled(r, x, lh, |lh|, twice)
    ensures SameHome(r, twice, once)
  {
    forall b | 0 <= b < |d| && !InLog(r, b) ensures twice[b] == once[b] {
      if Named(lh, |lh|, b) {
        var k :| 0 <= k < |lh| && lh[k] == b;
        assert InLog(r, r.start + 1 + k);
      } else {
        assert !Named(lh, t, b);
      }
    }
  }

  /** A crash at any block write of a recovery loses nothing: recovering again gives
      the same home blocks. */
  lemma RecoveryCanCrash(r: Region, d: Disk, x: Disk, e: Disk, f: Disk)
    requires Recoverable(r, d) && RecoverPoint(r, d, x)
    ensures Recoverable(r, x)
    ensures IsRecovered(r, d, e) && IsRecovered(r, x, f) ==> SameHome(r, f, e)
  {
    var lh := HeadList(d[r.start]);
    if t :| 0 <= t <= |lh| && IsInstalled(r, d, lh, t, x) {
      assert x[r.start] == d[r.start];
      if IsRecovered(r, d, e) && IsRecovered(r, x, f) {
        var m :| IsInstalled(r, d, lh, |lh|, m) && IsHeaded(r, m, [], e);
        var n :| IsInstalled(r, x, lh, |lh|, n) && IsHeaded(r, n, [], f);
        InstallAgain(r, d, lh, t, x, m, n);
      }
    } else {
      RecoveredIsClean(r, d, x);
      RecoverClean(r, x, f);
      if IsRecovered(r, d, e) {
        RecoverDeterministic(r, d, e, x);
      }
    }
  }

  /** `disks` are the disks left by repeated crashes inside recovery. */
  ghost predicate CrashChain(r: Region, disks: seq<Disk>) {
    && |disks| > 0
    && (forall i :: 0 <= i < |disks| ==> Recoverable(r, disks[i]))
    && (forall i :: 0 <= i < |disks| - 1 ==> RecoverPoint(r, disks[i], disks[i + 1]))
  }

  lemma {:induction false} ChainRecovers(r: Region, disks: seq<Disk>, e: Disk, f: Disk)
    requires CrashChain(r, disks)
    requires IsRecovered(r, disks[0], e) && IsRecovered(r, disks[|disks| - 1], f)
    ensures SameHome(r, f, e)
    decreases |disks|
  {
    if |disks| == 1 {
      RecoverDeterministic(r, disks[0], f, e);
    } else {
      var g := Recovery(r, disks[1]);
      assert RecoverPoint(r, disks[0], disks[1]);
      RecoveryCanCrash(r, disks[0], disks[1], e, g);
      ChainRecovers(r, disks[1..], g, f);
    }
  }

  /** Recovery always has an outcome. */
  ghost function Recovery(r: Region, d: Disk): (e: Disk)
    requires Recoverable(r, d)
    ensures IsRecovered(r, d, e)
  {
    var lh := HeadList(d[r.start]);
    var m := Install(r, d, lh, |lh|);
    m[r.start := HeadBlock(m[r.start], [])]
  }

  ghost function Install(r: Region, d: Disk, lh: seq<int>, t: nat): (x: Disk)
    requires GoodList(r, lh, |d|) && t <= |lh|
    ensures IsInstalled(r, d, lh, t, x)
  {
    if t == 0 then d
    else
      var y := Install(r, d, lh, t - 1);
      InstallOne(r, d, lh, t - 1, y);
      y[lh[t - 1] := y[r.start + t]]
  }

  /** One more turn of install_trans. */
  lemma InstallOne(r: Region, d: Disk, lh: seq<int>, t: nat, x: Disk)
    requires GoodList(r, lh, |d|) && t < |lh| && IsInstalled(r, d, lh, t, x)
    ensures IsInstalled(r, d, lh, t + 1, x[lh[t] := x[r.start + 1 + t]])
  {
    forall b | 0 <= b < |d| && !Named(lh, t + 1, b) ensures b != lh[t] && x[b] == d[b] {
      assert !Named(lh, t, b);
    }
  }

  /** One more turn of write_log. */
  lemma LogOne(r: Region, d: Disk, data: seq<Block>, t: nat, x: Disk)
    requires t < |data| < r.size && r.start + r.size <= |d| && IsLogged(r, d, data, t, x)
    ensures IsLogged(r, d, data, t + 1, x[r.start + 1 + t := data[t]])
  {
  }

  // ---------------------------------------------------------------- commit

  /** The header write is the commit point. */
  lemma CommittedRecovers(r: Region, d: Disk, lh: seq<int>, data: seq<Block>, x: Disk, e: Disk)
    requires GoodList(r, lh, |d|) && |data| == |lh| && Committed(r, d, lh, data, x)
    ensures Recoverable(r, x) && HeadList(x[r.start]) == lh
    ensures IsRecovered(r, x, e) ==> NewHome(r, d, lh, data, e)
  {
    var y :| IsLogged(r, d, data, |lh|, y) && IsHeaded(r, y, lh, x);
    HeadRoundTrip(y[r.start], lh);
    if IsRecovered(r, x, e) {
      var m :| IsInstalled(r, x, lh, |lh|, m) && IsHeaded(r, m, [], e);
    }
  }

  /** `x` is the disk after some block write of commit, or before the first; `durable`
      tells whether the header write has happened. */
  ghost predicate CommitPoint(r: Region, d: Disk, lh: seq<int>, data: seq<Block>, durable: bool, x: Disk)
    requires GoodList(r, lh, |d|) && |data| == |lh|
  {
    if durable then exists h :: Committed(r, d, lh, data, h) && Recoverable(r, h) && RecoverPoint(r, h, x)
    else exists t :: 0 <= t <= |lh| && IsLogged(r, d, data, t, x)
  }

  /** `steps` are the disks after the block writes of a commit so far; the one with
      index |lh| follows the header write. */
  ghost predicate CommitSteps(r: Region, d: Disk, lh: seq<int>, data: seq<Block>, steps: seq<Disk>)
    requires GoodList(r, lh, |d|) && |data| == |lh|
  {
    forall k :: 0 <= k < |steps| ==> CommitPoint(r, d, lh, data, k >= |lh|, steps[k])
  }

  lemma LogStepsAreCommitSteps(r: Region, d: Disk, lh: seq<int>, data: seq<Block>, steps: seq<Disk>)
    requires GoodList(r, lh, |d|) && |data| == |lh| && LogSteps(r, d, data, steps)
    ensures CommitSteps(r, d, lh, data, steps)
  {
  }

  lemma HeadIsCommitStep(r: Region, d: Disk, lh: seq<int>, data: seq<Block>, h: Disk)
    requires GoodList(r, lh, |d|) && |data| == |lh| && Committed(r, d, lh, data, h)
    ensures CommitPoint(r, d, lh, data, true, h)
  {
    CommittedRecovers(r, d, lh, data, h, h);
    assert IsInstalled(r, h, lh, 0, h);
    assert RecoverPoint(r, h, h);
  }

  lemma EndIsCommitStep(r: Region, d: Disk, lh: seq<int>, data: seq<Block>, h: Disk, e: Disk)
    requires GoodList(r, lh, |d|) && |data| == |lh| && Committed(r, d, lh, data, h)
    requires Recoverable(r, h) && IsRecovered(r, h, e)
    ensures CommitPoint(r, d, lh, data, true, e) && Clean(r, e) && NewHome(r, d, lh, data, e)
  {
    CommittedRecovers(r, d, lh, data, h, e);
    assert RecoverPoint(r, h, e);
    RecoveredIsClean(r, h, e);
  }

  /** The steps of a commit, put together. */
  lemma CommitStepsJoin(r: Region, d: Disk, lh: seq<int>, data: seq<Block>, logs: seq<Disk>, h: Disk, more: seq<Disk>)
    requires GoodList(r, lh, |d|) && |data| == |lh| && LogSteps(r, d, data, logs) && |logs| == |lh|
    requires Committed(r, d, lh, data, h) && Recoverable(r, h)
    requires forall k :: 0 <= k < |more| ==> RecoverPoint(r, h, more[k])
    ensures CommitSteps(r, d, lh, data, logs + [h] + more)
  {
    LogStepsAreCommitSteps(r, d, lh, data, logs);
    HeadIsCommitStep(r, d, lh, data, h);
  }

  /** One crash, then an undisturbed recovery. */
  lemma CommitCanCrash(r: Region, d: Disk, lh: seq<int>, data: seq<Block>, durable: bool, x: Disk, e: Disk)
    requires Clean(r, d) && GoodList(r, lh, |d|) && |data| == |lh|
    requires Recoverable(r, x) && CommitPoint(r, d, lh, data, durable, x) && IsRecovered(r, x, e)
    ensures if durable then NewHome(r, d, lh, data, e) else SameHome(r, d, e)
  {
    if durable {
      var h :| Committed(r, d, lh, data, h) && Recoverable(r, h) && RecoverPoint(r, h, x);
      var f := Recovery(r, h);
      CommittedRecovers(r, d, lh, data, h, f);
      RecoveryCanCrash(r, h, x, f, e);
      NewHomeSame(r, d, lh, data, f, e);
    } else {
      RecoverClean(r, x, e);
      SameHomeTransitive(r, d, x, e);
    }
  }

  /** Crash atomicity: stop a commit before or after any of its block writes and crash
      in recovery as often as you like; the recovery that finishes leaves all home
      blocks new if the header was written, all old if not, and an empty log. */
  lemma CrashAtomicity(r: Region, d: Disk, lh: seq<int>, data: seq<Block>, durable: bool, disks: seq<Disk>, e: Disk)
    requires Clean(r, d) && GoodList(r, lh, |d|) && |data| == |lh|
    requires CrashChain(r, disks) && CommitPoint(r, d, lh, data, durable, disks[0])
    requires IsRecovered(r, disks[|disks| - 1], e)
    ensures Clean(r, e)
    ensures if durable then NewHome(r, d, lh, data, e) else SameHome(r, d, e)
  {
    RecoveredIsClean(r, disks[|disks| - 1], e);
    var g := Recovery(r, disks[0]);
    ChainRecovers(r, disks, g, e);
    CommitCanCrash(r, d, lh, data, durable, disks[0], g);
    if durable {
      NewHomeSame(r, d, lh, data, g, e);
    } else {
      SameHomeTransitive(r, d, g, e);
    }
  }

  /** Every disk a commit passes through can be recovered. */
  lemma CommitPointRecoverable(r: Region, d: Disk, lh: seq<int>, data: seq<Block>, durable: bool, x: Disk)
    requires Clean(r, d) && GoodList(r, lh, |d|) && |data| == |lh|
    requires CommitPoint(r, d, lh, data, durable, x)
    ensures Recoverable(r, x)
  {
    if durable {
      var h :| Committed(r, d, lh, data, h) && Recoverable(r, h) && RecoverPoint(r, h, x);
      RecoveryCanCrash(r, h, x, d, d);
    } else {
      RecoverClean(r, x, x);
    }
  }

  // ---------------------------------------------------------------- histories

  /** One life of a transaction: it completes, or the machine stops at a point of its
      commit and the crashes in the recoveries that follow leave `disks`. */
  datatype Txn =
    | Completed(lh: seq<int>, data: seq<Block>)
    | Crashed(lh: seq<int>, data: seq<Block>, reachedHeader: bool, disks: seq<Disk>)

  predicate Durable(t: Txn) {
    t.Completed? || t.reachedHeader
  }

  /** From disk `d` the life `t` leads to disk `e`. */
  ghost predicate Leads(r: Region, d: Disk, t: Txn, e: Disk) {
    && GoodList(r, t.lh, |d|) && |t.data| == |t.lh|
    && if t.Completed? then exists h :: Committed(r, d, t.lh, t.data, h) && Recoverable(r, h) && IsRecovered(r, h, e)
       else CrashChain(r, t.disks) && CommitPoint(r, d, t.lh, t.data, t.reachedHeader, t.disks[0])
            && IsRecovered(r, t.disks[|t.disks| - 1], e)
  }

  ghost predicate History(r: Region, disks: seq<Disk>, txns: seq<Txn>) {
    |disks| == |txns| + 1 && forall i :: 0 <= i < |txns| ==> Leads(r, disks[i], txns[i], disks[i + 1])
  }

  /** The store that applies each durable transaction at once and no other. */
  ghost predicate Ideal(r: Region, flats: seq<Disk>, txns: seq<Txn>) {
    && |flats| == |txns| + 1
    && forall i :: 0 <= i < |txns| ==>
         if Durable(txns[i])
         then GoodList(r, txns[i].lh, |flats[i]|) && |txns[i].data| == |txns[i].lh| && NewHome(r, flats[i], txns[i].lh, txns[i].data, flats[i + 1])
         else flats[i + 1] == flats[i]
  }

  lemma TxnIsAtomic(r: Region, d: Disk, t: Txn, e: Disk)
    requires Clean(r, d) && Leads(r, d, t, e)
    ensures Clean(r, e)
    ensures if Durable(t) then NewHome(r, d, t.lh, t.data, e) else SameHome(r, d, e)
  {
    if t.Completed? {
      var h :| Committed(r, d, t.lh, t.data, h) && Recoverable(r, h) && IsRecovered(r, h, e);
      CommittedRecovers(r, d, t.lh, t.data, h, e);
      RecoveredIsClean(r, h, e);
    } else {
      CrashAtomicity(r, d, t.lh, t.data, t.reachedHeader, t.disks, e);
    }
  }

  lemma NewHomeKeepsSame(r: Region, d: Disk, d': Disk, flat: Disk, flat': Disk, lh: seq<int>, data: seq<Block>)
    requires SameHome(r, d, flat) && GoodList(r, lh, |d|) && |data| == |lh|
    requires NewHome(r, d, lh, data, d') && NewHome(r, flat, lh, data, flat')
    ensures SameHome(r, d', flat')
  {
    forall b | 0 <= b < |d| && !InLog(r, b) ensures d'[b] == flat'[b] {
      if Named(lh, |lh|, b) {
        var k :| 0 <= k < |lh| && lh[k] == b;
      }
    }
  }

  /** Over any history of commits, crashes and recoveries the home blocks are those of
      the ideal store, and the log is empty between transactions. */
  lemma {:induction false} HistoryIsAtomic(r: Region, disks: seq<Disk>, flats: seq<Disk>, txns: seq<Txn>, n: nat)
    requires History(r, disks, txns) && Ideal(r, flats, txns) && n <= |txns|
    requires Clean(r, disks[0]) && SameHome(r, disks[0], flats[0])
    ensures Clean(r, disks[n]) && SameHome(r, disks[n], flats[n])
  {
    if n > 0 {
      var i := n - 1;
      HistoryIsAtomic(r, disks, flats, txns, i);
      assert Leads(r, disks[i], txns[i], disks[i + 1]);
      TxnIsAtomic(r, disks[i], txns[i], disks[i + 1]);
      if Durable(txns[i]) {
        NewHomeKeepsSame(r, disks[i], disks[i + 1], flats[i], flats[i + 1], txns[i].lh, txns[i].data);
      }
    }
  }
}
