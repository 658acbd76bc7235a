/** Runs that go through a directory which has been unlinked while a process is in it. */
module LinkStale {
  import opened Basics
  import opened Links
  import opened LinkCounts
  import opened LinkRuns

  // ---------------------------------------------------------------- searches

  lemma {:induction false} FirstFreeIs(inodes: seq<Inode>, i: nat, r: nat)
    requires i <= r < |inodes| && inodes[r].kind == Free && forall j :: i <= j < r ==> inodes[j].kind != Free
    ensures FirstFree(inodes, i) == Some(r)
    decreases r - i
  {
    if i < r {
      FirstFreeIs(inodes, i + 1, r);
    }
  }

  lemma {:induction false} LookupIs(es: seq<Dirent>, name: string, i: nat, r: nat)
    requires i <= r < |es| && es[r].inum != 0 && es[r].name == name && forall j :: i <= j < r ==> es[j].name != name
    ensures Lookup(es, name, i) == Some(r)
    decreases r - i
  {
    if i < r {
      LookupIs(es, name, i + 1, r);
    }
  }

  /** Where a new name goes in a directory without empty entries. */
  lemma NewName(es: seq<Dirent>, name: string)
    requires forall j :: 0 <= j < |es| ==> es[j].inum != 0 && es[j].name != name
    ensures Lookup(es, name, 0).None? && FirstEmpty(es, 0) == |es|
  {
  }

  // ---------------------------------------------------------------- steps of the runs

  function Dots(ip: nat, dp: nat): seq<Dirent> {
    [Dirent(ip, "."), Dirent(dp, "..")]
  }

  lemma CreateIs(s: Fs, dp: nat, name: string, kind: Kind, ip: nat)
    requires 0 < dp < |s.inodes| && 0 < ip < |s.inodes| && |s.inodes[dp].entries| < MAXENTRIES
    requires s.inodes[ip].kind == Free && forall j :: 1 <= j < ip ==> s.inodes[j].kind != Free
    requires forall j :: 0 <= j < |s.inodes[dp].entries| ==> s.inodes[dp].entries[j].inum != 0 && s.inodes[dp].entries[j].name != name
    ensures Create(s, dp, name, kind) == Done(s.(inodes := s.inodes[ip := NewInode(kind, ip, dp)]
      [dp := Inode(s.inodes[dp].kind, s.inodes[dp].nlink + if kind == Dir then 1 else 0, s.inodes[dp].entries + [Dirent(ip, name)])]))
  {
    FirstFreeIs(s.inodes, 1, ip);
    NewName(s.inodes[dp].entries, name);
  }

  lemma RemoveIs(s: Fs, dp: nat, name: string, off: nat, x: nat)
    requires 0 < dp < |s.inodes| && 0 < x < |s.inodes| && x != dp && off < |s.inodes[dp].entries| && s.inodes[dp].entries[off] == Dirent(x, name)
    requires name != "." && name != ".." && forall j :: 0 <= j < off ==> s.inodes[dp].entries[j].name != name
    requires s.inodes[x].kind == Dir && s.inodes[x].nlink == 1 && IsDirEmpty(s.inodes[x].entries)
    ensures Unlink(s, dp, name) == Done(s.(inodes :=
      s.inodes[dp := s.inodes[dp].(nlink := s.inodes[dp].nlink - 1, entries := s.inodes[dp].entries[off := Dirent(0, "")])]
              [x := s.inodes[x].(nlink := 0)]))
  {
    LookupIs(s.inodes[dp].entries, name, 0, off);
  }

  /** One step more. */
  lemma Extended(s: Fs, op: Op, u: Fs, ops: seq<Op>, t: Fs)
    requires |s.inodes| > 0 && Enabled(s, op) && Apply(s, op) == Done(u) && Counted(s, op) && Run(u, ops, t) && AllCounted(u, ops)
    ensures Run(s, [op] + ops, t) && AllCounted(s, [op] + ops)
  {
    assert ([op] + ops)[1..] == ops;
  }

  lemma Letters()
    ensures "a" != "." && "a" != ".." && "b" != "." && "b" != ".."
  {
    assert "a"[0] == 'a' && "b"[0] == 'b' && "."[0] == '.' && ".."[0] == '.';
  }

  /** The root directory and the two inodes behind it. */
  predicate Looks(s: Fs, root: Inode, two: Inode, three: Inode) {
    |s.inodes| >= 4 && s.inodes[1] == root && s.inodes[2] == two && s.inodes[3] == three
  }

  function Blank(): Inode {
    Inode(Free, 0, [])
  }

  // ---------------------------------------------------------------- create and link

  /** A directory "a" is made and removed. */
  function MadeAndRemoved(): seq<Op> {
    [CreateOp(ROOTINO, "a", Dir), UnlinkOp(ROOTINO, "a")]
  }

  /** The root directory with a file. */
  function RootOfOne(): seq<Dirent> {
    Dots(ROOTINO, ROOTINO) + [Dirent(2, "f")]
  }

  lemma ImageOfOne(s: Fs)
    requires s == Image(5, 1, ["f"])
    ensures Looks(s, Inode(Dir, 1, RootOfOne()), Inode(File, 1, []), Blank()) && s.inodes[4] == Blank() && s.pending == [0] && Inv(s)
  {
    assert "f"[0] == 'f' && "."[0] == '.' && ".."[0] == '.';
    ImageInv(5, 1, ["f"]);
    assert RootEntries(["f"]) == RootOfOne();
  }

  lemma MakeA(s: Fs) returns (t: Fs)
    requires |s.inodes| == 5 && Looks(s, Inode(Dir, 1, RootOfOne()), Inode(File, 1, []), Blank()) && s.inodes[4] == Blank()
    ensures Create(s, ROOTINO, "a", Dir) == Done(t) && |t.inodes| == 5 && t.inodes[4] == Blank() && t.pending == s.pending
    ensures Looks(t, Inode(Dir, 2, RootOfOne() + [Dirent(3, "a")]), Inode(File, 1, []), Inode(Dir, 1, Dots(3, ROOTINO)))
  {
    Letters();
    assert "f"[0] == 'f' && "a"[0] == 'a';
    CreateIs(s, ROOTINO, "a", Dir, 3);
    t := Create(s, ROOTINO, "a", Dir).value;
  }

  lemma RemoveA(s: Fs) returns (t: Fs)
    requires |s.inodes| == 5 && s.inodes[4] == Blank()
    requires Looks(s, Inode(Dir, 2, RootOfOne() + [Dirent(3, "a")]), Inode(File, 1, []), Inode(Dir, 1, Dots(3, ROOTINO)))
    ensures Unlink(s, ROOTINO, "a") == Done(t) && |t.inodes| == 5 && t.inodes[4] == Blank() && t.pending == s.pending
    ensures Looks(t, Inode(Dir, 1, RootOfOne() + [Dirent(0, "")]), Inode(File, 1, []), Inode(Dir, 0, Dots(3, ROOTINO)))
  {
    Letters();
    assert "f"[0] == 'f' && "a"[0] == 'a';
    RemoveIs(s, ROOTINO, "a", 3, 3);
    t := Unlink(s, ROOTINO, "a").value;
  }

  lemma Removed() returns (s: Fs)
    ensures Run(Image(5, 1, ["f"]), MadeAndRemoved(), s) && Inv(s) && |s.inodes| == 5 && s.inodes[4] == Blank() && s.pending == [0]
    ensures Looks(s, Inode(Dir, 1, RootOfOne() + [Dirent(0, "")]), Inode(File, 1, []), Inode(Dir, 0, Dots(3, ROOTINO)))
  {
    var i := Image(5, 1, ["f"]);
    ImageOfOne(i);
    var t := MakeA(i);
    s := RemoveA(t);
    Extended(t, UnlinkOp(ROOTINO, "a"), s, [], s);
    Extended(i, CreateOp(ROOTINO, "a", Dir), t, [UnlinkOp(ROOTINO, "a")], s);
    LinkCountsAreRight(i, MadeAndRemoved(), s);
  }

  /** A process whose current directory has been removed creates a file in it: the file's link is
      not counted. */
  lemma CreateInUnlinkedDir() returns (s: Fs)
    ensures Run(Image(5, 1, ["f"]), MadeAndRemoved(), s) && Inv(s) && |s.inodes| == 5 && s.inodes[3].kind == Dir
    ensures Create(s, 3, "b", File).Done? && !Inv(Create(s, 3, "b", File).value)
  {
    s := Removed();
    Letters();
    CreateIs(s, 3, "b", File, 4);
    CreateNeedsLinkedParent(s, 3, "b", File);
  }

  /** Or it links a file there. */
  lemma LinkInUnlinkedDir() returns (s: Fs, t: Fs)
    ensures Run(Image(5, 1, ["f"]), MadeAndRemoved(), s) && |s.inodes| == 5 && |s.pending| == 1
    ensures LinkBegin(s, 0, 2) == Done(t) && Inv(t) && |t.inodes| == 5 && t.pending == [2] && t.inodes[3].kind == Dir
    ensures LinkEnd(t, 0, 3, "b").Done? && !Inv(LinkEnd(t, 0, 3, "b").value)
  {
    s := Removed();
    t := LinkBegin(s, 0, 2).value;
    LinkBeginKeepsInv(s, 0, 2);
    Letters();
    NewName(t.inodes[3].entries, "b");
    LinkNeedsLinkedDir(t, 0, 3, "b");
  }

  // ---------------------------------------------------------------- ".."

  function RootWithA(): Inode {
    Inode(Dir, 2, Dots(ROOTINO, ROOTINO) + [Dirent(2, "a")])
  }

  lemma EmptyImage(s: Fs)
    requires s == Image(4, 1, [])
    ensures |s.inodes| == 4 && Looks(s, Inode(Dir, 1, Dots(ROOTINO, ROOTINO)), Blank(), Blank()) && Inv(s)
  {
    ImageInv(4, 1, []);
    assert RootEntries([]) == Dots(ROOTINO, ROOTINO);
  }

  lemma FirstDir(s: Fs) returns (t: Fs)
    requires |s.inodes| == 4 && Looks(s, Inode(Dir, 1, Dots(ROOTINO, ROOTINO)), Blank(), Blank())
    ensures Create(s, ROOTINO, "a", Dir) == Done(t) && |t.inodes| == 4 && Looks(t, RootWithA(), Inode(Dir, 1, Dots(2, ROOTINO)), Blank())
  {
    Letters();
    CreateIs(s, ROOTINO, "a", Dir, 2);
    t := Create(s, ROOTINO, "a", Dir).value;
  }

  lemma SecondDir(s: Fs) returns (t: Fs)
    requires |s.inodes| == 4 && Looks(s, RootWithA(), Inode(Dir, 1, Dots(2, ROOTINO)), Blank())
    ensures Create(s, 2, "b", Dir) == Done(t) && |t.inodes| == 4
    ensures Looks(t, RootWithA(), Inode(Dir, 2, Dots(2, ROOTINO) + [Dirent(3, "b")]), Inode(Dir, 1, Dots(3, 2)))
  {
    Letters();
    CreateIs(s, 2, "b", Dir, 3);
    t := Create(s, 2, "b", Dir).value;
  }

  lemma SecondGone(s: Fs) returns (t: Fs)
    requires |s.inodes| == 4
    requires Looks(s, RootWithA(), Inode(Dir, 2, Dots(2, ROOTINO) + [Dirent(3, "b")]), Inode(Dir, 1, Dots(3, 2)))
    ensures Unlink(s, 2, "b") == Done(t) && |t.inodes| == 4
    ensures Looks(t, RootWithA(), Inode(Dir, 1, Dots(2, ROOTINO) + [Dirent(0, "")]), Inode(Dir, 0, Dots(3, 2)))
  {
    Letters();
    RemoveIs(s, 2, "b", 2, 3);
    t := Unlink(s, 2, "b").value;
  }

  lemma FirstGone(s: Fs) returns (t: Fs)
    requires |s.inodes| == 4
    requires Looks(s, RootWithA(), Inode(Dir, 1, Dots(2, ROOTINO) + [Dirent(0, "")]), Inode(Dir, 0, Dots(3, 2)))
    ensures Unlink(s, ROOTINO, "a") == Done(t) && |t.inodes| == 4 && t.inodes[1].kind == Dir
    ensures t.inodes[2].kind == Dir && t.inodes[2].nlink == 0 && t.inodes[3] == Inode(Dir, 0, Dots(3, 2))
  {
    Letters();
    RemoveIs(s, ROOTINO, "a", 2, 2);
    t := Unlink(s, ROOTINO, "a").value;
  }

  function BothGone(): seq<Op> {
    [UnlinkOp(2, "b"), UnlinkOp(ROOTINO, "a"), ReleaseOp(2)]
  }

  lemma Gone(s: Fs) returns (t: Fs)
    requires |s.inodes| == 4
    requires Looks(s, RootWithA(), Inode(Dir, 2, Dots(2, ROOTINO) + [Dirent(3, "b")]), Inode(Dir, 1, Dots(3, 2)))
    ensures Run(s, BothGone(), t) && AllCounted(s, BothGone())
    ensures |t.inodes| == 4 && t.inodes[2].kind == Free && t.inodes[3] == Inode(Dir, 0, Dots(3, 2))
  {
    var s1 := SecondGone(s);
    var s2 := FirstGone(s1);
    t := Release(s2, 2);
    Extended(s2, ReleaseOp(2), t, [], t);
    Extended(s1, UnlinkOp(ROOTINO, "a"), s2, [ReleaseOp(2)], t);
    Extended(s, UnlinkOp(2, "b"), s1, [UnlinkOp(ROOTINO, "a"), ReleaseOp(2)], t);
    assert BothGone() == [UnlinkOp(2, "b")] + [UnlinkOp(ROOTINO, "a"), ReleaseOp(2)];
  }

  /** A directory "b" is made in a directory "a", and then both go. */
  function MadeAndGone(): seq<Op> {
    [CreateOp(ROOTINO, "a", Dir)] + ([CreateOp(2, "b", Dir)] + BothGone())
  }

  lemma StaleRun(i: Fs) returns (s: Fs)
    requires |i.inodes| == 4 && Looks(i, Inode(Dir, 1, Dots(ROOTINO, ROOTINO)), Blank(), Blank())
    ensures Run(i, MadeAndGone(), s) && AllCounted(i, MadeAndGone())
    ensures |s.inodes| == 4 && s.inodes[2].kind == Free && s.inodes[3] == Inode(Dir, 0, Dots(3, 2))
  {
    var s1 := FirstDir(i);
    var s2 := SecondDir(s1);
    s := Gone(s2);
    Extended(s1, CreateOp(2, "b", Dir), s2, BothGone(), s);
    Extended(i, CreateOp(ROOTINO, "a", Dir), s1, [CreateOp(2, "b", Dir)] + BothGone(), s);
  }

  /** A directory "b" is made in a directory "a", both are removed while a process is in "b", and
      the last reference to "a" goes. The counts are right all the way; yet ".." of "b" names an
      inode that is free. */
  lemma StaleDotDot() returns (s: Fs)
    ensures Run(Image(4, 1, []), MadeAndGone(), s) && Inv(s) && |s.inodes| == 4
    ensures s.inodes[3].kind == Dir && s.inodes[3].entries == [Dirent(3, "."), Dirent(2, "..")] && s.inodes[2].kind == Free
  {
    var i := Image(4, 1, []);
    EmptyImage(i);
    s := StaleRun(i);
    LinkCountsAreRight(i, MadeAndGone(), s);
  }
}
