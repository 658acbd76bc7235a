/** Every directory operation keeps the link counts right, so every run of them does. */
module LinkRuns {
  import opened Basics
  import opened Links
  import opened LinkCounts

  // ---------------------------------------------------------------- sys_link

  /** A new count for something that is not a directory changes no entry. */
  lemma RecountKeepsDirs(s: Fs, t: Fs, x: nat, n: int)
    requires Inv(s) && x < |s.inodes| && s.inodes[x].kind != Dir && t.inodes == s.inodes[x := s.inodes[x].(nlink := n)]
    ensures forall d :: 0 <= d < |t.inodes| ==> DirOk(t, d)
    ensures forall y :: Count(t.inodes, y) == Count(s.inodes, y)
  {
    forall d | 0 <= d < |t.inodes| ensures DirOk(t, d) {
      assert DirOk(s, d);
      if Live(t.inodes[d]) {
        forall i | 2 <= i < |t.inodes[d].entries| ensures EntryOk(t, d, i) {
          assert EntryOk(s, d, i);
        }
        var p := t.inodes[d].entries[1].inum;
        if d != ROOTINO {
          assert Listed(s, p, d);
        }
      }
    }
    forall y ensures Count(t.inodes, y) == Count(s.inodes, y) {
      CountUpdate(s.inodes, x, s.inodes[x].(nlink := n), y);
    }
  }

  lemma LinkBeginKeepsInv(s: Fs, p: nat, x: nat)
    requires Inv(s) && p < |s.pending| && s.pending[p] == 0 && 0 < x < |s.inodes| && s.inodes[x].kind != Free
    requires LinkBegin(s, p, x).Done?
    ensures Inv(LinkBegin(s, p, x).value)
  {
    var t := LinkBegin(s, p, x).value;
    RecountKeepsDirs(s, t, x, s.inodes[x].nlink + 1);
    forall y | 0 < y < |t.inodes| ensures CountOk(t, y) {
      assert CountOk(s, y);
      PendingUpdate(s.pending, p, x, y);
    }
  }

  lemma LinkUndoKeepsInv(s: Fs, p: nat)
    requires Inv(s) && p < |s.pending| && s.pending[p] != 0
    ensures Inv(LinkUndo(s, p))
  {
    var x := s.pending[p];
    var t := LinkUndo(s, p);
    RecountKeepsDirs(s, t, x, s.inodes[x].nlink - 1);
    forall y | 0 < y < |t.inodes| ensures CountOk(t, y) {
      assert CountOk(s, y);
      PendingUpdate(s.pending, p, 0, y);
    }
  }

  /** A new entry in a linked directory goes behind "." and "..", under a new name. */
  lemma PlaceInDir(s: Fs, dp: nat, name: string, e: Dirent)
    requires dp < |s.inodes| && DotsOk(s, dp) && dp != 0 && e.name == name
    requires Lookup(s.inodes[dp].entries, name, 0).None?
    ensures FirstEmpty(s.inodes[dp].entries, 0) >= 2 && name != "." && name != ".."
    ensures NamesDiffer(Place(s.inodes[dp].entries, FirstEmpty(s.inodes[dp].entries, 0), e))
  {
    var es := s.inodes[dp].entries;
    var i := FirstEmpty(es, 0);
    assert es[0].inum != 0 && es[1].inum != 0;
    assert i != 0 && i != 1;
    var r := Place(es, i, e);
    forall j, k | 0 <= j < k < |r| && r[j].inum != 0 && r[k].inum != 0 ensures r[j].name != r[k].name {
      if j == i {
        assert r[k] == es[k];
      } else if k == i {
        assert r[j] == es[j];
      } else {
        assert r[j] == es[j] && r[k] == es[k];
      }
    }
  }

  lemma NewEntryKeepsDirs(s: Fs, t: Fs, dp: nat, name: string, x: nat)
    requires Inv(s) && dp < |s.inodes| && Live(s.inodes[dp]) && 0 < x < |s.inodes|
    requires s.inodes[x].kind != Free && s.inodes[x].kind != Dir
    requires Lookup(s.inodes[dp].entries, name, 0).None?
    requires t.inodes == s.inodes[dp := s.inodes[dp].(entries := Place(s.inodes[dp].entries, FirstEmpty(s.inodes[dp].entries, 0), Dirent(x, name)))]
    ensures forall d :: 0 <= d < |t.inodes| ==> DirOk(t, d)
  {
    var i := FirstEmpty(s.inodes[dp].entries, 0);
    assert DirOk(s, dp);
    PlaceInDir(s, dp, name, Dirent(x, name));
    forall d | 0 <= d < |t.inodes| ensures DirOk(t, d) {
      assert DirOk(s, d);
      if Live(t.inodes[d]) {
        forall j | 2 <= j < |t.inodes[d].entries| ensures EntryOk(t, d, j) {
          if d != dp || j != i {
            assert EntryOk(s, d, j);
          }
        }
        var p := t.inodes[d].entries[1].inum;
        if d != ROOTINO {
          var k :| 2 <= k < |s.inodes[p].entries| && s.inodes[p].entries[k].inum == d;
          assert t.inodes[p].entries[k].inum == d;
        }
      }
    }
  }

  lemma LinkEndKeepsInv(s: Fs, p: nat, dp: nat, name: string)
    requires Inv(s) && p < |s.pending| && s.pending[p] != 0 && dp < |s.inodes| && Live(s.inodes[dp])
    requires LinkEnd(s, p, dp, name).Done?
    ensures Inv(LinkEnd(s, p, dp, name).value)
  {
    var x := s.pending[p];
    var es := s.inodes[dp].entries;
    if Lookup(es, name, 0).Some? {
      LinkUndoKeepsInv(s, p);
    } else {
      var t := LinkEnd(s, p, dp, name).value;
      PendingUpdate(s.pending, p, 0, x);
      assert CountOk(s, x) && DirOk(s, dp);
      NewEntryKeepsDirs(s, t, dp, name, x);
      PlaceInDir(s, dp, name, Dirent(x, name));
      forall y | 0 < y < |t.inodes| ensures CountOk(t, y) {
        assert CountOk(s, y);
        PendingUpdate(s.pending, p, 0, y);
        NamesInPlace(es, FirstEmpty(es, 0), Dirent(x, name), y);
        CountUpdate(s.inodes, dp, t.inodes[dp], y);
      }
    }
  }

  /** The second half of sys_link keeps the counts right exactly when the directory is still
      linked or has the name already; an entry in a directory that has itself been unlinked is
      one that nobody counts. */
  lemma LinkNeedsLinkedDir(s: Fs, p: nat, dp: nat, name: string)
    requires Inv(s) && p < |s.pending| && s.pending[p] != 0 && dp < |s.inodes| && s.inodes[dp].kind == Dir
    requires LinkEnd(s, p, dp, name).Done?
    ensures Inv(LinkEnd(s, p, dp, name).value) <==> Live(s.inodes[dp]) || Lookup(s.inodes[dp].entries, name, 0).Some?
  {
    if Live(s.inodes[dp]) {
      LinkEndKeepsInv(s, p, dp, name);
    } else if Lookup(s.inodes[dp].entries, name, 0).Some? {
      LinkUndoKeepsInv(s, p);
    } else {
      var x := s.pending[p];
      var t := LinkEnd(s, p, dp, name).value;
      assert CountOk(s, x);
      PendingUpdate(s.pending, p, 0, x);
      CountUpdate(s.inodes, dp, t.inodes[dp], x);
      assert !CountOk(t, x);
    }
  }

  // ---------------------------------------------------------------- create

  /** Nothing names a free inode. */
  lemma FreeIsUnnamed(s: Fs, ip: nat, d: nat)
    requires Inv(s) && 0 < ip < |s.inodes| && s.inodes[ip].kind == Free && d < |s.inodes| && Live(s.inodes[d])
    ensures forall i :: 1 <= i < |s.inodes[d].entries| ==> s.inodes[d].entries[i].inum != ip
  {
    assert DirOk(s, d) && CountOk(s, ip);
    forall i | 1 <= i < |s.inodes[d].entries| ensures s.inodes[d].entries[i].inum != ip {
      if s.inodes[d].entries[i].inum == ip {
        NamedIsCounted(s, d, i, ip);
      }
    }
  }

  /** The two inodes that create writes. */
  predicate Created(s: Fs, t: Fs, dp: nat, name: string, kind: Kind, ip: nat) {
    && dp < |s.inodes| && 0 < ip < |s.inodes| && ip != dp && s.inodes[ip].kind == Free && kind != Free
    && Lookup(s.inodes[dp].entries, name, 0).None?
    && var d := s.inodes[dp];
       t == s.(inodes := s.inodes[ip := NewInode(kind, ip, dp)]
                         [dp := d.(nlink := if kind == Dir then d.nlink + 1 else d.nlink,
                                   entries := Place(d.entries, FirstEmpty(d.entries, 0), Dirent(ip, name)))])
  }

  lemma CreateKeepsOtherDir(s: Fs, t: Fs, dp: nat, name: string, kind: Kind, ip: nat, d: nat)
    requires Inv(s) && Created(s, t, dp, name, kind, ip) && Live(s.inodes[dp]) && d < |s.inodes| && d != dp && d != ip
    ensures DirOk(t, d)
  {
    assert DirOk(s, d) && DirOk(s, dp);
    if Live(t.inodes[d]) {
      FreeIsUnnamed(s, ip, d);
      forall j | 2 <= j < |t.inodes[d].entries| ensures EntryOk(t, d, j) {
        assert EntryOk(s, d, j);
      }
      var p := t.inodes[d].entries[1].inum;
      if d != ROOTINO {
        var k :| 2 <= k < |s.inodes[p].entries| && s.inodes[p].entries[k].inum == d;
        assert t.inodes[p].entries[k].inum == d;
      }
    }
  }

  lemma CreateKeepsParent(s: Fs, t: Fs, dp: nat, name: string, kind: Kind, ip: nat)
    requires Inv(s) && Created(s, t, dp, name, kind, ip) && Live(s.inodes[dp])
    ensures DirOk(t, dp)
  {
    var i := FirstEmpty(s.inodes[dp].entries, 0);
    assert DirOk(s, dp);
    PlaceInDir(s, dp, name, Dirent(ip, name));
    FreeIsUnnamed(s, ip, dp);
    forall j | 2 <= j < |t.inodes[dp].entries| ensures EntryOk(t, dp, j) {
      if j != i {
        assert EntryOk(s, dp, j);
      }
    }
    var p := t.inodes[dp].entries[1].inum;
    if dp != ROOTINO {
      var k :| 2 <= k < |s.inodes[p].entries| && s.inodes[p].entries[k].inum == dp;
      assert t.inodes[p].entries[k].inum == dp;
    }
  }

  lemma CreateKeepsChild(s: Fs, t: Fs, dp: nat, name: string, kind: Kind, ip: nat)
    requires Inv(s) && Created(s, t, dp, name, kind, ip) && Live(s.inodes[dp])
    ensures DirOk(t, ip)
  {
    var i := FirstEmpty(s.inodes[dp].entries, 0);
    assert DirOk(s, dp);
    PlaceInDir(s, dp, name, Dirent(ip, name));
    assert t.inodes[dp].entries[i].inum == ip;
  }

  lemma DotsCount(ip: nat, dp: nat, y: nat)
    ensures NamesIn([Dirent(ip, "."), Dirent(dp, "..")], y) == One(y == dp)
  {
    var dots := [Dirent(ip, "."), Dirent(dp, "..")];
    assert |".."| == 2 && |"."| == 1;
    assert dots[1..] == [Dirent(dp, "..")] && dots[1..][1..] == [];
    assert NamesIn(dots[1..], y) == One(Names(dots[1], y)) + NamesIn([], y);
  }

  lemma CreateCounts(s: Fs, t: Fs, dp: nat, name: string, kind: Kind, ip: nat, y: nat)
    requires Inv(s) && Created(s, t, dp, name, kind, ip) && 0 < y < |s.inodes|
    requires Live(s.inodes[dp]) && name != "."
    ensures Count(t.inodes, y) == Count(s.inodes, y) + One(y == ip) + (if kind == Dir then One(y == dp) else 0)
  {
    var es := s.inodes[dp].entries;
    var n := NewInode(kind, ip, dp);
    CountUpdate(s.inodes, ip, n, y);
    CountUpdate(s.inodes[ip := n], dp, t.inodes[dp], y);
    NamesInPlace(es, FirstEmpty(es, 0), Dirent(ip, name), y);
    if kind == Dir {
      DotsCount(ip, dp, y);
    }
  }

  lemma CreateKeepsInv(s: Fs, dp: nat, name: string, kind: Kind)
    requires Inv(s) && dp < |s.inodes| && Live(s.inodes[dp]) && kind != Free && Create(s, dp, name, kind).Done?
    ensures Inv(Create(s, dp, name, kind).value)
  {
    var t := Create(s, dp, name, kind).value;
    var ip := FirstFree(s.inodes, 1).value;
    assert Created(s, t, dp, name, kind, ip);
    assert DirOk(s, dp);
    PlaceInDir(s, dp, name, Dirent(ip, name));
    forall d | 0 <= d < |t.inodes| ensures DirOk(t, d) {
      if d == dp {
        CreateKeepsParent(s, t, dp, name, kind, ip);
      } else if d == ip {
        CreateKeepsChild(s, t, dp, name, kind, ip);
      } else {
        CreateKeepsOtherDir(s, t, dp, name, kind, ip, d);
      }
    }
    forall y | 0 < y < |t.inodes| ensures CountOk(t, y) {
      assert CountOk(s, y);
      CreateCounts(s, t, dp, name, kind, ip, y);
    }
    NoPendingOnFree(s, ip);
  }

  lemma NoPendingOnFree(s: Fs, ip: nat)
    requires Inv(s) && 0 < ip < |s.inodes| && s.inodes[ip].kind == Free
    ensures forall p :: 0 <= p < |s.pending| ==> s.pending[p] != ip
  {
    forall p | 0 <= p < |s.pending| ensures s.pending[p] != ip {
      assert CountOk(s, ip);
      PendingUpdate(s.pending, p, s.pending[p], ip);
    }
  }

  /** A directory that has been unlinked is on no list of a linked one. */
  lemma DeadIsUnlisted(s: Fs, dp: nat, p: nat)
    requires Inv(s) && 0 < dp < |s.inodes| && s.inodes[dp].nlink == 0 && p < |s.inodes| && Live(s.inodes[p])
    ensures !Listed(s, p, dp)
  {
    assert CountOk(s, dp) && DirOk(s, p);
    forall i | 2 <= i < |s.inodes[p].entries| ensures s.inodes[p].entries[i].inum != dp {
      if s.inodes[p].entries[i].inum == dp {
        NamedIsCounted(s, p, i, dp);
      }
    }
  }

  lemma CreateInDeadDir(s: Fs, t: Fs, dp: nat, name: string, kind: Kind, ip: nat)
    requires Inv(s) && Created(s, t, dp, name, kind, ip) && s.inodes[dp].kind == Dir && s.inodes[dp].nlink == 0 && dp != 0
    ensures !Inv(t)
  {
    if kind == Dir {
      if DirOk(t, dp) {
        var p := t.inodes[dp].entries[1].inum;
        if p != dp && p != ip && Live(s.inodes[p]) {
          DeadIsUnlisted(s, dp, p);
        }
      }
    } else {
      assert CountOk(s, ip);
      CountUpdate(s.inodes, ip, NewInode(kind, ip, dp), ip);
      CountUpdate(s.inodes[ip := NewInode(kind, ip, dp)], dp, t.inodes[dp], ip);
      assert !CountOk(t, ip);
    }
  }

  /** create keeps the counts right exactly when the parent directory is still linked; in a
      directory that has itself been unlinked the new inode's link is one nobody can see. */
  lemma CreateNeedsLinkedParent(s: Fs, dp: nat, name: string, kind: Kind)
    requires Inv(s) && dp < |s.inodes| && s.inodes[dp].kind == Dir && kind != Free && Create(s, dp, name, kind).Done?
    ensures Inv(Create(s, dp, name, kind).value) <==> Live(s.inodes[dp])
  {
    var t := Create(s, dp, name, kind).value;
    var ip := FirstFree(s.inodes, 1).value;
    if Live(s.inodes[dp]) {
      CreateKeepsInv(s, dp, name, kind);
    } else {
      assert CountOk(s, dp);
      CreateInDeadDir(s, t, dp, name, kind, ip);
    }
  }

  // ---------------------------------------------------------------- sys_unlink

  /** What sys_unlink writes when it removes entry off of dp. */
  predicate Unlinked(s: Fs, t: Fs, dp: nat, off: nat, x: nat) {
    && 0 < dp < |s.inodes| && 2 <= off < |s.inodes[dp].entries| && s.inodes[dp].entries[off].inum == x
    && 0 < x < |s.inodes| && x != dp && (s.inodes[x].kind == Dir ==> IsDirEmpty(s.inodes[x].entries))
    && var d := s.inodes[dp];
       t == s.(inodes := s.inodes[dp := d.(nlink := if s.inodes[x].kind == Dir then d.nlink - 1 else d.nlink,
                                           entries := d.entries[off := Dirent(0, "")])]
                         [x := s.inodes[x].(nlink := s.inodes[x].nlink - 1)])
  }

  lemma UnlinkCounts(s: Fs, t: Fs, dp: nat, off: nat, x: nat, y: nat)
    requires Inv(s) && Unlinked(s, t, dp, off, x) && 0 < y < |s.inodes| && Live(s.inodes[dp]) && Live(t.inodes[dp])
    requires s.inodes[x].kind == Dir ==> s.inodes[x].nlink == 1
    ensures Count(t.inodes, y) == Count(s.inodes, y) - One(y == x) - (if s.inodes[x].kind == Dir then One(y == dp) else 0)
  {
    var es := s.inodes[dp].entries;
    assert DirOk(s, dp) && DirOk(s, x) && EntryOk(s, dp, off);
    NamedIsCounted(s, dp, off, x);
    NamesInUpdate(es, off, Dirent(0, ""), y);
    CountUpdate(s.inodes, dp, t.inodes[dp], y);
    CountUpdate(s.inodes[dp := t.inodes[dp]], x, t.inodes[x], y);
    if s.inodes[x].kind == Dir {
      EmptyDirCounts(s, dp, x, y);
    }
  }

  /** Of an empty directory's entries only ".." counts. */
  lemma EmptyDirCounts(s: Fs, dp: nat, x: nat, y: nat)
    requires x < |s.inodes| && DotsOk(s, x) && IsDirEmpty(s.inodes[x].entries) && s.inodes[x].entries[1].inum == dp && y != 0
    ensures NamesIn(s.inodes[x].entries, y) == One(y == dp)
  {
    var es := s.inodes[x].entries;
    assert |".."| == 2 && |"."| == 1;
    if y == dp {
      NamesInOne(es, 1, y);
    } else {
      NamesInZero(es, y);
    }
  }

  lemma UnlinkKeepsDir(s: Fs, t: Fs, dp: nat, off: nat, x: nat, d: nat)
    requires Inv(s) && Unlinked(s, t, dp, off, x) && d < |s.inodes| && Live(s.inodes[dp]) && Live(t.inodes[dp])
    requires s.inodes[x].kind == Dir ==> s.inodes[x].nlink == 1
    ensures DirOk(t, d)
  {
    assert DirOk(s, d) && DirOk(s, dp) && EntryOk(s, dp, off);
    if Live(t.inodes[d]) {
      forall j | 2 <= j < |t.inodes[d].entries| ensures EntryOk(t, d, j) {
        assert EntryOk(s, d, j);
      }
      if d != ROOTINO {
        var p := t.inodes[d].entries[1].inum;
        if s.inodes[x].kind == Dir {
          EmptyHasNoChild(s, d, x);
        }
        var k :| 2 <= k < |s.inodes[p].entries| && s.inodes[p].entries[k].inum == d;
        assert t.inodes[p].entries[k].inum == d;
      }
    }
  }

  /** There is nothing to unlink in a directory that has itself been unlinked. */
  lemma DeadDirRefuses(s: Fs, dp: nat, name: string)
    requires Inv(s) && dp < |s.inodes| && s.inodes[dp].kind == Dir && !Live(s.inodes[dp])
    ensures Unlink(s, dp, name).Refused?
  {
    assert DirOk(s, dp);
  }

  lemma UnlinkKeepsInv(s: Fs, dp: nat, name: string)
    requires Inv(s) && dp < |s.inodes| && s.inodes[dp].kind == Dir && Unlink(s, dp, name).Done?
    ensures Live(s.inodes[dp]) && Inv(Unlink(s, dp, name).value)
  {
    if !Live(s.inodes[dp]) {
      DeadDirRefuses(s, dp, name);
    }
    var t := Unlink(s, dp, name).value;
    var off := Lookup(s.inodes[dp].entries, name, 0).value;
    var x := s.inodes[dp].entries[off].inum;
    assert DirOk(s, dp);
    assert off >= 2 && EntryOk(s, dp, off);
    assert DirOk(s, x);
    assert Unlinked(s, t, dp, off, x);
    if s.inodes[x].kind == Dir {
      EmptyDirHasOneLink(s, dp, off);
      ParentHasTwoLinks(s, dp, x);
    }
    forall d | 0 <= d < |t.inodes| ensures DirOk(t, d) {
      UnlinkKeepsDir(s, t, dp, off, x, d);
    }
    forall y | 0 < y < |t.inodes| ensures CountOk(t, y) {
      assert CountOk(s, y);
      UnlinkCounts(s, t, dp, off, x, y);
    }
  }

  /** The panic "unlink: nlink < 1" is out of reach. */
  lemma UnlinkNeverPanics(s: Fs, dp: nat, name: string)
    requires Inv(s) && dp < |s.inodes| && s.inodes[dp].kind == Dir
    ensures !Unlink(s, dp, name).Panic?
  {
    if !Live(s.inodes[dp]) {
      DeadDirRefuses(s, dp, name);
      return;
    }
    var found := Lookup(s.inodes[dp].entries, name, 0);
    if name != "." && name != ".." && found.Some? {
      var off := found.value;
      var x := s.inodes[dp].entries[off].inum;
      assert DirOk(s, dp);
      assert off >= 2 && EntryOk(s, dp, off);
      NamedIsCounted(s, dp, off, x);
      assert CountOk(s, x);
    }
  }

  // ---------------------------------------------------------------- iput

  lemma ReleaseKeepsInv(s: Fs, x: nat)
    requires Inv(s) && 0 < x < |s.inodes| && s.inodes[x].kind != Free && s.inodes[x].nlink == 0
    ensures Inv(Release(s, x))
  {
    var t := Release(s, x);
    assert CountOk(s, x);
    forall d | 0 <= d < |t.inodes| ensures DirOk(t, d) {
      assert DirOk(s, d);
      if Live(t.inodes[d]) {
        forall j | 2 <= j < |t.inodes[d].entries| ensures EntryOk(t, d, j) {
          assert EntryOk(s, d, j);
          if s.inodes[d].entries[j].inum == x {
            NamedIsCounted(s, d, j, x);
          }
        }
        if d != ROOTINO {
          var p := t.inodes[d].entries[1].inum;
          assert Listed(s, p, d);
        }
      }
    }
    forall y | 0 < y < |t.inodes| ensures CountOk(t, y) {
      assert CountOk(s, y);
      CountUpdate(s.inodes, x, t.inodes[x], y);
    }
  }

  // ---------------------------------------------------------------- runs

  datatype Op =
    | CreateOp(dp: nat, name: string, kind: Kind)
    | LinkBeginOp(p: nat, x: nat)
    | LinkUndoOp(p: nat)
    | LinkEndOp(p: nat, dp: nat, name: string)
    | UnlinkOp(dp: nat, name: string)
    | ReleaseOp(x: nat)

  /** Parents are directories; the two halves of sys_link come in order; iput frees only what
      has no links. */
  predicate Enabled(s: Fs, op: Op)
    requires |s.inodes| > 0
  {
    match op
    case CreateOp(dp, _, kind) => dp < |s.inodes| && s.inodes[dp].kind == Dir && kind != Free
    case LinkBeginOp(p, x) => p < |s.pending| && s.pending[p] == 0 && 0 < x < |s.inodes| && s.inodes[x].kind != Free
    case LinkUndoOp(p) => p < |s.pending| && 0 < s.pending[p] < |s.inodes|
    case LinkEndOp(p, dp, _) => p < |s.pending| && 0 < s.pending[p] < |s.inodes| && dp < |s.inodes| && s.inodes[dp].kind == Dir
    case UnlinkOp(dp, _) => dp < |s.inodes| && s.inodes[dp].kind == Dir
    case ReleaseOp(x) => 0 < x < |s.inodes| && s.inodes[x].kind != Free && s.inodes[x].nlink == 0
  }

  /** The operation makes no entry in a directory that is no longer linked. */
  predicate Counted(s: Fs, op: Op)
    requires |s.inodes| > 0 && Enabled(s, op)
  {
    match op
    case CreateOp(dp, _, _) => Live(s.inodes[dp])
    case LinkEndOp(_, dp, name) => Live(s.inodes[dp]) || Lookup(s.inodes[dp].entries, name, 0).Some?
    case _ => true
  }

  function Apply(s: Fs, op: Op): Outcome<Fs>
    requires |s.inodes| > 0 && Enabled(s, op)
  {
    match op
    case CreateOp(dp, name, kind) => Create(s, dp, name, kind)
    case LinkBeginOp(p, x) => LinkBegin(s, p, x)
    case LinkUndoOp(p) => Done(LinkUndo(s, p))
    case LinkEndOp(p, dp, name) => LinkEnd(s, p, dp, name)
    case UnlinkOp(dp, name) => Unlink(s, dp, name)
    case ReleaseOp(x) => Done(Release(s, x))
  }

  /** A refused operation changes nothing. */
  function After(s: Fs, op: Op): Fs
    requires |s.inodes| > 0 && Enabled(s, op)
  {
    match Apply(s, op)
    case Done(u) => u
    case _ => s
  }

  /** A panic ends the run. */
  ghost predicate Run(s: Fs, ops: seq<Op>, t: Fs)
    decreases |ops|
  {
    if ops == [] then t == s
    else |s.inodes| > 0 && Enabled(s, ops[0]) && !Apply(s, ops[0]).Panic? && Run(After(s, ops[0]), ops[1..], t)
  }

  /** No operation of the run makes an entry that nobody counts. */
  ghost predicate AllCounted(s: Fs, ops: seq<Op>)
    decreases |ops|
  {
    ops != [] ==>
      |s.inodes| > 0 && Enabled(s, ops[0]) && (Apply(s, ops[0]).Done? ==> Counted(s, ops[0])) && AllCounted(After(s, ops[0]), ops[1..])
  }

  /** create and link in an unlinked directory break the counts, and nothing else does. */
  lemma OpKeepsInv(s: Fs, op: Op)
    requires Inv(s) && Enabled(s, op) && Apply(s, op).Done?
    ensures Inv(Apply(s, op).value) <==> Counted(s, op)
  {
    match op
    case CreateOp(dp, name, kind) => CreateNeedsLinkedParent(s, dp, name, kind);
    case LinkBeginOp(p, x) => LinkBeginKeepsInv(s, p, x);
    case LinkUndoOp(p) => LinkUndoKeepsInv(s, p);
    case LinkEndOp(p, dp, name) => LinkNeedsLinkedDir(s, p, dp, name);
    case UnlinkOp(dp, name) => UnlinkKeepsInv(s, dp, name);
    case ReleaseOp(x) => ReleaseKeepsInv(s, x);
  }

  /** The names mkfs is called with: different, and none of them "." or "..". */
  predicate GoodNames(names: seq<string>) {
    && (forall j, k :: 0 <= j < k < |names| ==> names[j] != names[k])
    && (forall k :: 0 <= k < |names| ==> names[k] != "." && names[k] != "..")
  }

  lemma RootCounts(names: seq<string>, x: nat)
    requires GoodNames(names) && x != 0
    ensures NamesIn(RootEntries(names), x) == One(x < 2 + |names|)
  {
    var es := RootEntries(names);
    assert |".."| == 2 && |"."| == 1;
    if x < 2 + |names| {
      NamesInOne(es, x, x);
    } else {
      NamesInZero(es, x);
    }
  }

  lemma RootIsOk(names: seq<string>)
    requires GoodNames(names)
    ensures NamesDiffer(RootEntries(names))
  {
    var es := RootEntries(names);
    assert |".."| == 2 && |"."| == 1;
    forall i, j | 0 <= i < j < |es| ensures es[i].name != es[j].name {
      assert j >= 2 ==> es[j].name == names[j - 2];
      assert i >= 2 ==> es[i].name == names[i - 2];
    }
  }

  /** The image of mkfs has the right counts exactly when its arguments are different names. */
  lemma ImageInv(ninodes: nat, nprocs: nat, names: seq<string>)
    requires ninodes >= 2 + |names|
    ensures Inv(Image(ninodes, nprocs, names)) <==> GoodNames(names)
  {
    var s := Image(ninodes, nprocs, names);
    var es := RootEntries(names);
    assert s.inodes[ROOTINO] == Inode(Dir, 1, es);
    if GoodNames(names) {
      RootIsOk(names);
      forall d | 0 <= d < |s.inodes| ensures DirOk(s, d) {
        assert d == ROOTINO ==> forall i :: 2 <= i < |es| ==> EntryOk(s, d, i);
      }
      forall x | 0 < x < |s.inodes| ensures CountOk(s, x) {
        PendingZero(s.pending, x);
        CountOne(s.inodes, ROOTINO, x);
        RootCounts(names, x);
      }
    } else if Inv(s) {
      assert DirOk(s, ROOTINO);
      forall k | 0 <= k < |names| ensures names[k] != "." && names[k] != ".." {
        assert es[k + 2].name == names[k] && es[0].name != es[k + 2].name && es[1].name != es[k + 2].name;
      }
      forall j, k | 0 <= j < k < |names| ensures names[j] != names[k] {
        assert es[j + 2].name != es[k + 2].name;
      }
    }
  }

  /** Over every sequence of these operations by any number of processes, every count stays
      right, as long as nothing is created in, or linked into, an unlinked directory. */
  lemma {:induction false} LinkCountsAreRight(s: Fs, ops: seq<Op>, t: Fs)
    requires Inv(s) && Run(s, ops, t) && AllCounted(s, ops)
    ensures Inv(t)
    ensures forall x :: 0 < x < |t.inodes| ==> t.inodes[x].nlink == Count(t.inodes, x) + Pending(t.pending, x)
    decreases |ops|
  {
    if ops != [] {
      if Apply(s, ops[0]).Done? {
        OpKeepsInv(s, ops[0]);
      }
      LinkCountsAreRight(After(s, ops[0]), ops[1..], t);
    } else {
      forall x | 0 < x < |t.inodes| ensures t.inodes[x].nlink == Count(t.inodes, x) + Pending(t.pending, x) {
        assert CountOk(t, x);
      }
    }
  }

  /** And so it is from a new file system on. */
  lemma FromImage(ninodes: nat, nprocs: nat, names: seq<string>, ops: seq<Op>, t: Fs)
    requires ninodes >= 2 + |names| && GoodNames(names)
    requires Run(Image(ninodes, nprocs, names), ops, t) && AllCounted(Image(ninodes, nprocs, names), ops)
    ensures forall x :: 0 < x < |t.inodes| ==> t.inodes[x].nlink == Count(t.inodes, x) + Pending(t.pending, x)
  {
    ImageInv(ninodes, nprocs, names);
    LinkCountsAreRight(Image(ninodes, nprocs, names), ops, t);
  }
}
