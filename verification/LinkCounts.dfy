/** Link counts are right in every run: an inode's nlink is the number of entries that name
    it, other than ".", in directories that are still linked, plus the links under way. */
module LinkCounts {
  import opened Basics
  import opened Links

  // ---------------------------------------------------------------- counting

  function One(b: bool): nat {
    if b then 1 else 0
  }

  predicate Names(e: Dirent, x: nat) {
    e.inum == x && e.name != "."
  }

  /** Entries of one directory that name x. */
  function NamesIn(entries: seq<Dirent>, x: nat): nat {
    if entries == [] then 0 else One(Names(entries[0], x)) + NamesIn(entries[1..], x)
  }

  predicate Live(n: Inode) {
    n.kind == Dir && n.nlink > 0
  }

  function Contribution(n: Inode, x: nat): nat {
    if Live(n) then NamesIn(n.entries, x) else 0
  }

  /** Entries of the linked directories that name x. */
  function Count(inodes: seq<Inode>, x: nat): nat {
    if inodes == [] then 0 else Contribution(inodes[0], x) + Count(inodes[1..], x)
  }

  /** Processes inside sys_link with x's count raised. */
  function Pending(pending: seq<nat>, x: nat): nat {
    if pending == [] then 0 else One(pending[0] == x) + Pending(pending[1..], x)
  }

  lemma NamesInUpdate(entries: seq<Dirent>, i: nat, e: Dirent, x: nat)
    requires i < |entries|
    ensures NamesIn(entries[i := e], x) == NamesIn(entries, x) - One(Names(entries[i], x)) + One(Names(e, x))
    ensures NamesIn(entries, x) >= One(Names(entries[i], x))
  {
    if i == 0 {
      assert entries[i := e][1..] == entries[1..];
    } else {
      NamesInUpdate(entries[1..], i - 1, e, x);
      assert entries[i := e][1..] == entries[1..][i - 1 := e];
    }
  }

  lemma NamesInAppend(entries: seq<Dirent>, e: Dirent, x: nat)
    ensures NamesIn(entries + [e], x) == NamesIn(entries, x) + One(Names(e, x))
  {
    if entries != [] {
      NamesInAppend(entries[1..], e, x);
      assert (entries + [e])[1..] == entries[1..] + [e];
    }
  }

  lemma NamesInPlace(entries: seq<Dirent>, i: nat, e: Dirent, x: nat)
    requires i <= |entries| && x != 0 && (i < |entries| ==> entries[i].inum == 0)
    ensures NamesIn(Place(entries, i, e), x) == NamesIn(entries, x) + One(Names(e, x))
  {
    if i < |entries| {
      NamesInUpdate(entries, i, e, x);
    } else {
      NamesInAppend(entries, e, x);
    }
  }

  lemma NamesInZero(entries: seq<Dirent>, x: nat)
    requires forall i :: 0 <= i < |entries| ==> !Names(entries[i], x)
    ensures NamesIn(entries, x) == 0
  {
    if entries != [] {
      NamesInZero(entries[1..], x);
    }
  }

  lemma NamesInOne(entries: seq<Dirent>, i: nat, x: nat)
    requires i < |entries| && Names(entries[i], x) && forall j :: 0 <= j < |entries| && j != i ==> !Names(entries[j], x)
    ensures NamesIn(entries, x) == 1
  {
    if i == 0 {
      NamesInZero(entries[1..], x);
    } else {
      NamesInOne(entries[1..], i - 1, x);
    }
  }

  lemma CountUpdate(inodes: seq<Inode>, d: nat, n: Inode, x: nat)
    requires d < |inodes|
    ensures Count(inodes[d := n], x) == Count(inodes, x) - Contribution(inodes[d], x) + Contribution(n, x)
    ensures Count(inodes, x) >= Contribution(inodes[d], x)
  {
    if d == 0 {
      assert inodes[d := n][1..] == inodes[1..];
    } else {
      CountUpdate(inodes[1..], d - 1, n, x);
      assert inodes[d := n][1..] == inodes[1..][d - 1 := n];
    }
  }

  lemma CountOne(inodes: seq<Inode>, d: nat, x: nat)
    requires d < |inodes| && forall e :: 0 <= e < |inodes| && e != d ==> Contribution(inodes[e], x) == 0
    ensures Count(inodes, x) == Contribution(inodes[d], x)
  {
    if d == 0 {
      CountZero(inodes[1..], x);
    } else {
      CountOne(inodes[1..], d - 1, x);
    }
  }

  lemma CountZero(inodes: seq<Inode>, x: nat)
    requires forall e :: 0 <= e < |inodes| ==> Contribution(inodes[e], x) == 0
    ensures Count(inodes, x) == 0
  {
    if inodes != [] {
      CountZero(inodes[1..], x);
    }
  }

  lemma PendingUpdate(pending: seq<nat>, p: nat, y: nat, x: nat)
    requires p < |pending|
    ensures Pending(pending[p := y], x) == Pending(pending, x) - One(pending[p] == x) + One(y == x)
    ensures Pending(pending, x) >= One(pending[p] == x)
  {
    if p == 0 {
      assert pending[p := y][1..] == pending[1..];
    } else {
      PendingUpdate(pending[1..], p - 1, y, x);
      assert pending[p := y][1..] == pending[1..][p - 1 := y];
    }
  }

  // ---------------------------------------------------------------- invariant

  predicate CountOk(s: Fs, x: nat)
    requires x < |s.inodes|
  {
    && s.inodes[x].nlink == Count(s.inodes, x) + Pending(s.pending, x)
    && (s.inodes[x].kind == Free ==> s.inodes[x].nlink == 0)
  }

  predicate NamesDiffer(entries: seq<Dirent>) {
    forall i, j :: 0 <= i < j < |entries| && entries[i].inum != 0 && entries[j].inum != 0 ==> entries[i].name != entries[j].name
  }

  /** "." and ".." come first, and only the root is its own parent. */
  predicate DotsOk(s: Fs, d: nat)
    requires d < |s.inodes|
  {
    var es := s.inodes[d].entries;
    && |es| >= 2 && es[0] == Dirent(d, ".") && es[1].name == ".." && 0 < es[1].inum < |s.inodes|
    && NamesDiffer(es) && (es[1].inum == d <==> d == ROOTINO)
  }

  /** Entry i of d is good: it names an inode, and a directory only as its parent, once. */
  predicate EntryOk(s: Fs, d: nat, i: nat)
    requires d < |s.inodes| && i < |s.inodes[d].entries|
  {
    var x := s.inodes[d].entries[i].inum;
    x != 0 ==>
      && x < |s.inodes| && s.inodes[x].kind != Free
      && (s.inodes[x].kind == Dir ==>
            && x != ROOTINO && Live(s.inodes[x]) && |s.inodes[x].entries| >= 2 && s.inodes[x].entries[1].inum == d
            && forall j :: 2 <= j < |s.inodes[d].entries| && j != i ==> s.inodes[d].entries[j].inum != x)
  }

  /** Some entry of p names d. */
  predicate Listed(s: Fs, p: nat, d: nat)
    requires p < |s.inodes|
  {
    exists i :: 2 <= i < |s.inodes[p].entries| && s.inodes[p].entries[i].inum == d
  }

  /** Nothing but "." and "..". */
  predicate Bare(entries: seq<Dirent>) {
    |entries| >= 2 && entries[0].name == "." && entries[1].name == ".." && IsDirEmpty(entries)
  }

  /** A directory that is no longer linked is bare. */
  predicate DirOk(s: Fs, d: nat)
    requires d < |s.inodes|
  {
    if Live(s.inodes[d]) then
      && DotsOk(s, d)
      && (forall i :: 2 <= i < |s.inodes[d].entries| ==> EntryOk(s, d, i))
      && (d != ROOTINO ==> var p := s.inodes[d].entries[1].inum; Live(s.inodes[p]) && Listed(s, p, d))
    else s.inodes[d].kind == Dir ==> Bare(s.inodes[d].entries)
  }

  predicate Inv(s: Fs) {
    && |s.inodes| > ROOTINO && Live(s.inodes[ROOTINO]) && s.inodes[0] == Inode(Free, 0, [])
    && (forall p :: 0 <= p < |s.pending| ==> s.pending[p] < |s.inodes| && s.inodes[s.pending[p]].kind != Dir)
    && (forall x :: 0 < x < |s.inodes| ==> CountOk(s, x))
    && (forall d :: 0 <= d < |s.inodes| ==> DirOk(s, d))
  }

  // ---------------------------------------------------------------- consequences

  /** An entry of a linked directory other than "." counts. */
  lemma NamedIsCounted(s: Fs, d: nat, i: nat, x: nat)
    requires 0 < d < |s.inodes| && Live(s.inodes[d]) && DotsOk(s, d) && 1 <= i < |s.inodes[d].entries|
    requires s.inodes[d].entries[i].inum == x != 0
    ensures Names(s.inodes[d].entries[i], x) && Contribution(s.inodes[d], x) >= 1 && Count(s.inodes, x) >= 1
  {
    var es := s.inodes[d].entries;
    assert es[0].name != es[i].name;
    NamesInUpdate(es, i, es[i], x);
    CountUpdate(s.inodes, d, s.inodes[d], x);
  }

  lemma CountTwo(inodes: seq<Inode>, a: nat, b: nat, x: nat)
    requires a < |inodes| && b < |inodes| && a != b
    ensures Count(inodes, x) >= Contribution(inodes[a], x) + Contribution(inodes[b], x)
  {
    CountUpdate(inodes, a, Inode(Free, 0, []), x);
    CountUpdate(inodes[a := Inode(Free, 0, [])], b, Inode(Free, 0, []), x);
  }

  /** No linked directory has an empty directory as its parent. */
  lemma EmptyHasNoChild(s: Fs, d: nat, x: nat)
    requires Inv(s) && d < |s.inodes| && x < |s.inodes| && Live(s.inodes[d]) && Live(s.inodes[x])
    requires IsDirEmpty(s.inodes[x].entries) && x != ROOTINO
    ensures |s.inodes[d].entries| >= 2 && s.inodes[d].entries[1].inum != x
  {
    assert DirOk(s, d) && d != 0;
    var p := s.inodes[d].entries[1].inum;
    if d != ROOTINO {
      var i :| 2 <= i < |s.inodes[p].entries| && s.inodes[p].entries[i].inum == d;
    }
  }

  lemma EmptyDirNamedHere(s: Fs, dp: nat, off: nat, e: nat)
    requires Inv(s) && dp < |s.inodes| && Live(s.inodes[dp]) && 2 <= off < |s.inodes[dp].entries| && e < |s.inodes|
    requires var x := s.inodes[dp].entries[off].inum;
      0 < x < |s.inodes| && s.inodes[x].kind == Dir && IsDirEmpty(s.inodes[x].entries)
    ensures var x := s.inodes[dp].entries[off].inum; Contribution(s.inodes[e], x) == One(e == dp)
  {
    var x := s.inodes[dp].entries[off].inum;
    assert DirOk(s, dp) && EntryOk(s, dp, off);
    var es := s.inodes[e].entries;
    if Live(s.inodes[e]) {
      assert DirOk(s, e);
      EmptyHasNoChild(s, e, x);
      forall i | 0 <= i < |es| && Names(es[i], x) ensures e == dp && i == off {
        assert i >= 2;
        assert EntryOk(s, e, i);
      }
      if e == dp {
        NamedIsCounted(s, dp, off, x);
        NamesInOne(es, off, x);
      } else {
        NamesInZero(es, x);
      }
    }
  }

  /** A directory that sys_unlink may remove has link count one. */
  lemma EmptyDirHasOneLink(s: Fs, dp: nat, off: nat)
    requires Inv(s) && dp < |s.inodes| && Live(s.inodes[dp]) && 2 <= off < |s.inodes[dp].entries|
    requires var x := s.inodes[dp].entries[off].inum;
      0 < x < |s.inodes| && s.inodes[x].kind == Dir && IsDirEmpty(s.inodes[x].entries)
    ensures s.inodes[s.inodes[dp].entries[off].inum].nlink == 1
  {
    var x := s.inodes[dp].entries[off].inum;
    forall e | 0 <= e < |s.inodes| ensures Contribution(s.inodes[e], x) == One(e == dp) {
      EmptyDirNamedHere(s, dp, off, e);
    }
    CountOne(s.inodes, dp, x);
    assert CountOk(s, x);
    NoDirPending(s, x);
  }

  lemma NoDirPending(s: Fs, x: nat)
    requires x < |s.inodes| && s.inodes[x].kind == Dir
    requires forall p :: 0 <= p < |s.pending| ==> s.pending[p] < |s.inodes| && s.inodes[s.pending[p]].kind != Dir
    ensures Pending(s.pending, x) == 0
  {
    PendingZero(s.pending, x);
  }

  lemma PendingZero(pending: seq<nat>, x: nat)
    requires forall p :: 0 <= p < |pending| ==> pending[p] != x
    ensures Pending(pending, x) == 0
  {
    if pending != [] {
      PendingZero(pending[1..], x);
    }
  }

  /** A directory with a child directory x is linked at least twice. */
  lemma ParentHasTwoLinks(s: Fs, dp: nat, x: nat)
    requires Inv(s) && dp < |s.inodes| && x < |s.inodes| && Live(s.inodes[dp]) && Live(s.inodes[x]) && x != dp
    requires |s.inodes[x].entries| >= 2 && s.inodes[x].entries[1].inum == dp && IsDirEmpty(s.inodes[x].entries)
    ensures s.inodes[dp].nlink >= 2
  {
    assert DirOk(s, dp) && DirOk(s, x) && CountOk(s, dp);
    NamedIsCounted(s, x, 1, dp);
    if dp == ROOTINO {
      NamedIsCounted(s, dp, 1, dp);
      CountTwo(s.inodes, dp, x, dp);
    } else {
      var p := s.inodes[dp].entries[1].inum;
      assert DirOk(s, p);
      var i :| 2 <= i < |s.inodes[p].entries| && s.inodes[p].entries[i].inum == dp;
      NamedIsCounted(s, p, i, dp);
      CountTwo(s.inodes, p, x, dp);
    }
  }
}
