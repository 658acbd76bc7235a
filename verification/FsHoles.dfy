/** What writei and readi do to the hole that mkfs leaves in the root directory. */
module FsHoles {
  import opened Basics
  import opened Fs
  import opened FsWrite
  import opened FsFile
  import M = Mkfs

  lemma HoleIsZero(st: St, o: nat)
    requires Sized(st) && ROOTINO < |st.inodes| && st.inodes[ROOTINO].addrs[1] == 0 && BSIZE <= o < 2 * BSIZE
    ensures FileByte(st, ROOTINO, o) == 0
  {
    assert o / BSIZE == 1 && Addr(st, ROOTINO, SlotOf(1)) == st.inodes[ROOTINO].addrs[1];
  }

  /** A hole of the inode on disk reads as zeros, whatever has been written since. */
  lemma LostOnDisk(st: St, disk: Inode, o: nat)
    requires Sized(st) && ROOTINO < |st.inodes| && |disk.addrs| == NDIRECT + 1 && disk.addrs[1] == 0 && BSIZE <= o < 2 * BSIZE
    ensures Sized(OnDisk(st, ROOTINO, disk)) && FileByte(OnDisk(st, ROOTINO, disk), ROOTINO, o) == 0
  {
    HoleIsZero(OnDisk(st, ROOTINO, disk), o);
  }

  /** dirlink's search for a free entry in the root directory that mkfs makes for 30 files: the
      first one behind the full block reads as free, and bmap has allocated its block. */
  method FindFree(fs: FileSystem, files: seq<M.File>) returns (entry: seq<byte>, ok: bool)
    requires fs.Valid() && fs.inum == ROOTINO && M.Finished(fs.st, files) && |files| == 30
    modifies fs`st, fs`logged, fs`owner
    ensures ok ==> fs.Valid() && SameFiles(old(fs.st), fs.st) && |entry| == M.DIRENT && forall k :: 0 <= k < |entry| ==> entry[k] == 0
    ensures ok ==> old(fs.st).inodes[ROOTINO].addrs[1] == 0 && fs.st.inodes[ROOTINO].addrs[1] != 0
    ensures ok ==> fs.st.inodes[ROOTINO].size == 2 * BSIZE == old(fs.st).inodes[ROOTINO].size && fs.logged != {}
  {
    M.ThirtyFilesLeaveAHole(fs.st, files);
    ghost var c := Content(fs.st, ROOTINO);
    forall o | BSIZE <= o < BSIZE + M.DIRENT ensures c[o] == 0 {
      HoleIsZero(fs.st, o);
    }
    var r;
    r, entry, ok := fs.Readi(BSIZE, M.DIRENT);
    if ok {
      assert Meets(1, BSIZE, M.DIRENT) && Addr(fs.st, ROOTINO, SlotOf(1)) == fs.st.inodes[ROOTINO].addrs[1];
    }
  }

  /** dirlink there. Its writei finds the block that the search has allocated, and the file does
      not grow, so neither writes the inode: the entry is in the directory as it is in memory,
      and in nothing that the disk shows. */
  method Dirlink(fs: FileSystem, files: seq<M.File>, de: seq<byte>) returns (ok: bool)
    requires fs.Valid() && fs.inum == ROOTINO && M.Finished(fs.st, files) && |files| == 30
    requires fs.disk == fs.st.inodes[ROOTINO] && |de| == M.DIRENT
    modifies fs
    ensures ok ==> fs.Valid() && Fits(fs.st, ROOTINO) && Content(fs.st, ROOTINO) == Replace(Content(old(fs.st), ROOTINO), BSIZE, de)
    ensures ok ==> fs.disk == old(fs.disk) != fs.st.inodes[ROOTINO]
    ensures ok ==> forall o :: BSIZE <= o < BSIZE + M.DIRENT ==> FileByte(OnDisk(fs.st, ROOTINO, fs.disk), ROOTINO, o) == 0
  {
    var entry, r;
    entry, ok := FindFree(fs, files);
    if !ok { return; }
    ghost var ip, t := fs.st.inodes[ROOTINO], Tally(0, 0, {}, {});
    r, ok, t := fs.Writei(de, BSIZE);
    if !ok { return; }
    assert fs.st.inodes[ROOTINO].addrs[1] == ip.addrs[1];
    forall o | BSIZE <= o < BSIZE + M.DIRENT ensures FileByte(OnDisk(fs.st, ROOTINO, fs.disk), ROOTINO, o) == 0 {
      LostOnDisk(fs.st, fs.disk, o);
    }
  }
}
