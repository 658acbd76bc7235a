/** What create, sys_link and sys_unlink do to the names: when they succeed, and which name leads
    where afterwards. */
module LinkOps {
  import opened Basics
  import opened Links
  import opened LinkCounts
  import opened LinkRuns

  /** A directory with these entries has `name` for inode x. */
  predicate Has(es: seq<Dirent>, name: string, x: nat) {
    x != 0 && exists k :: 0 <= k < |es| && es[k].inum == x && es[k].name == name
  }

  predicate Leads(s: Fs, d: nat, name: string, x: nat) {
    d < |s.inodes| && Has(s.inodes[d].entries, name, x)
  }

  /** Some used entry has the name. */
  predicate Taken(es: seq<Dirent>, name: string) {
    exists k :: 0 <= k < |es| && es[k].inum != 0 && es[k].name == name
  }

  /** There is an entry to fill, or the directory can get one more. */
  predicate CanGrow(es: seq<Dirent>) {
    |es| < MAXENTRIES || exists k :: 0 <= k < |es| && es[k].inum == 0
  }

  /** Not a directory, or one with nothing behind the first two entries. */
  predicate Removable(s: Fs, x: nat) {
    x < |s.inodes| && (s.inodes[x].kind == Dir ==> forall i :: 2 <= i < |s.inodes[x].entries| ==> s.inodes[x].entries[i].inum == 0)
  }

  // ---------------------------------------------------------------- entries

  lemma LookupFinds(es: seq<Dirent>, name: string)
    ensures Lookup(es, name, 0).Some? <==> Taken(es, name)
    ensures Lookup(es, name, 0).Some? ==> Has(es, name, es[Lookup(es, name, 0).value].inum)
  {
  }

  lemma HasPlace(es: seq<Dirent>, i: nat, e: Dirent, name: string, x: nat)
    requires i <= |es| && (i < |es| ==> es[i].inum == 0) && e.inum != 0
    ensures Has(Place(es, i, e), name, x) <==> Has(es, name, x) || (name == e.name && x == e.inum)
  {
    var r := Place(es, i, e);
    if Has(es, name, x) {
      var k :| 0 <= k < |es| && es[k].inum == x && es[k].name == name;
      assert r[k] == es[k];
    }
    assert r[i] == e;
  }

  lemma HasErase(es: seq<Dirent>, off: nat, name: string, x: nat)
    requires off < |es| && es[off].inum != 0 && NamesDiffer(es)
    ensures Has(es[off := Dirent(0, "")], name, x) <==> Has(es, name, x) && name != es[off].name
  {
    var r := es[off := Dirent(0, "")];
    if Has(es, name, x) && name != es[off].name {
      var k :| 0 <= k < |es| && es[k].inum == x && es[k].name == name;
      assert r[k] == es[k];
    }
  }

  // ---------------------------------------------------------------- sys_unlink

  lemma UnlinkDoneIff(s: Fs, dp: nat, name: string)
    requires Inv(s) && dp < |s.inodes| && Live(s.inodes[dp])
    ensures !Unlink(s, dp, name).Done? ==> Unlink(s, dp, name).Refused?
    ensures Unlink(s, dp, name).Done? <==> name != "." && name != ".." && exists x :: Leads(s, dp, name, x) && Removable(s, x)
  {
    var es := s.inodes[dp].entries;
    UnlinkNeverPanics(s, dp, name);
    LookupFinds(es, name);
    assert DirOk(s, dp);
    if Lookup(es, name, 0).Some? && name != "." && name != ".." {
      var off := Lookup(es, name, 0).value;
      assert off >= 2 && EntryOk(s, dp, off);
      var x := es[off].inum;
      assert Leads(s, dp, name, x);
      forall y: nat | Leads(s, dp, name, y) ensures y == x {
      }
    }
  }

  /** From s to t, name has gone from dp, and every other name leads where it did. */
  ghost predicate Unnamed(s: Fs, t: Fs, dp: nat, name: string) {
    forall d: nat, n: string, y: nat :: Leads(t, d, n, y) <==> Leads(s, d, n, y) && !(d == dp && n == name)
  }

  /** Afterwards the name is gone, every other name of every directory leads where it did, the
      inode it named has one link less, and for a directory so has the parent. */
  lemma UnlinkDoes(s: Fs, dp: nat, name: string, x: nat)
    requires Inv(s) && dp < |s.inodes| && Live(s.inodes[dp]) && Unlink(s, dp, name).Done? && Leads(s, dp, name, x)
    ensures var t := Unlink(s, dp, name).value;
      && |t.inodes| == |s.inodes| && t.pending == s.pending && Unnamed(s, t, dp, name) && x < |s.inodes| && x != dp
      && t.inodes[x].nlink == s.inodes[x].nlink - 1
      && t.inodes[dp].nlink == s.inodes[dp].nlink - (if s.inodes[x].kind == Dir then 1 else 0)
      && (forall y :: 0 <= y < |s.inodes| ==> t.inodes[y].kind == s.inodes[y].kind)
      && (forall y :: 0 <= y < |s.inodes| && y != x && y != dp ==> t.inodes[y] == s.inodes[y])
  {
    var t := Unlink(s, dp, name).value;
    var es := s.inodes[dp].entries;
    var off := Lookup(es, name, 0).value;
    assert DirOk(s, dp) && off >= 2 && EntryOk(s, dp, off) && es[off].inum == x;
    assert DirOk(s, x);
    forall d: nat, n: string, y: nat ensures Leads(t, d, n, y) <==> Leads(s, d, n, y) && !(d == dp && n == name) {
      if d == dp {
        HasErase(es, off, n, y);
      } else if d < |s.inodes| {
        assert t.inodes[d].entries == s.inodes[d].entries;
      }
    }
  }

  // ---------------------------------------------------------------- create

  lemma {:induction false} FirstFreeFinds(inodes: seq<Inode>, i: nat)
    requires i <= |inodes|
    ensures FirstFree(inodes, i).Some? <==> exists j :: i <= j < |inodes| && inodes[j].kind == Free
    ensures FirstFree(inodes, i).Some? ==> forall j :: i <= j < FirstFree(inodes, i).value ==> inodes[j].kind != Free
    decreases |inodes| - i
  {
    if i < |inodes| && inodes[i].kind != Free {
      FirstFreeFinds(inodes, i + 1);
    }
  }

  lemma EmptyFinds(es: seq<Dirent>)
    requires |es| <= MAXENTRIES
    ensures FirstEmpty(es, 0) < MAXENTRIES <==> CanGrow(es)
  {
  }

  /** create succeeds if and only if the name is new, an inode is free and the directory can grow;
      it is refused if and only if the name is there. */
  lemma CreateDoneIff(s: Fs, dp: nat, name: string, kind: Kind)
    requires dp < |s.inodes| && |s.inodes[dp].entries| <= MAXENTRIES
    ensures Create(s, dp, name, kind).Refused? <==> Taken(s.inodes[dp].entries, name)
    ensures Create(s, dp, name, kind).Done? <==>
      !Taken(s.inodes[dp].entries, name) && CanGrow(s.inodes[dp].entries) && exists ip :: 1 <= ip < |s.inodes| && s.inodes[ip].kind == Free
  {
    LookupFinds(s.inodes[dp].entries, name);
    FirstFreeFinds(s.inodes, 1);
    EmptyFinds(s.inodes[dp].entries);
  }

  /** From s to t, the name leads to ip in dp, a new directory ip has "." and "..", and every other
      name of another directory leads where it did. */
  ghost predicate Named(s: Fs, t: Fs, dp: nat, name: string, kind: Kind, ip: nat) {
    && (forall d: nat, n: string, y: nat :: d != ip ==> (Leads(t, d, n, y) <==> Leads(s, d, n, y) || (d == dp && n == name && y == ip)))
    && (forall n: string, y: nat :: Leads(t, ip, n, y) <==> kind == Dir && ((n == "." && y == ip) || (n == ".." && y == dp)))
  }

  lemma DotsLead(ip: nat, dp: nat, name: string, y: nat)
    requires ip != 0 && dp != 0
    ensures Has([Dirent(ip, "."), Dirent(dp, "..")], name, y) <==> (name == "." && y == ip) || (name == ".." && y == dp)
  {
    var es := [Dirent(ip, "."), Dirent(dp, "..")];
    assert es[0] == Dirent(ip, ".") && es[1] == Dirent(dp, "..");
  }

  /** Then the name leads to the lowest free inode, which is of that kind and has one link; every
      other name of another directory leads where it did; and a new directory names itself and its
      parent, which gets one link more. */
  lemma CreateDoes(s: Fs, dp: nat, name: string, kind: Kind) returns (ip: nat)
    requires 0 < dp < |s.inodes| && s.inodes[dp].kind != Free && Create(s, dp, name, kind).Done?
    ensures 1 <= ip < |s.inodes| && ip != dp && s.inodes[ip].kind == Free && forall j :: 1 <= j < ip ==> s.inodes[j].kind != Free
    ensures var t := Create(s, dp, name, kind).value;
      && |t.inodes| == |s.inodes| && t.pending == s.pending && Named(s, t, dp, name, kind, ip)
      && t.inodes[ip].kind == kind && t.inodes[ip].nlink == 1
      && t.inodes[dp].kind == s.inodes[dp].kind && t.inodes[dp].nlink == s.inodes[dp].nlink + (if kind == Dir then 1 else 0)
      && (forall y :: 0 <= y < |s.inodes| && y != ip && y != dp ==> t.inodes[y] == s.inodes[y])
  {
    var t := Create(s, dp, name, kind).value;
    var es := s.inodes[dp].entries;
    FirstFreeFinds(s.inodes, 1);
    ip := FirstFree(s.inodes, 1).value;
    forall d: nat, n: string, y: nat | d != ip ensures Leads(t, d, n, y) <==> Leads(s, d, n, y) || (d == dp && n == name && y == ip) {
      if d == dp {
        HasPlace(es, FirstEmpty(es, 0), Dirent(ip, name), n, y);
      } else if d < |s.inodes| {
        assert t.inodes[d] == s.inodes[d];
      }
    }
    forall n: string, y: nat ensures Leads(t, ip, n, y) <==> kind == Dir && ((n == "." && y == ip) || (n == ".." && y == dp)) {
      DotsLead(ip, dp, n, y);
    }
  }

  // ---------------------------------------------------------------- sys_link

  /** The first half is refused exactly for directories, and only raises the count. */
  lemma LinkBeginDoes(s: Fs, p: nat, x: nat)
    requires p < |s.pending| && x < |s.inodes|
    ensures LinkBegin(s, p, x).Refused? <==> s.inodes[x].kind == Dir
    ensures s.inodes[x].kind != Dir ==> LinkBegin(s, p, x).Done? && var t := LinkBegin(s, p, x).value;
      && |t.inodes| == |s.inodes| && |t.pending| == |s.pending| && t.pending[p] == x && t.inodes[x].nlink == s.inodes[x].nlink + 1
      && (forall y :: 0 <= y < |s.inodes| ==> t.inodes[y].kind == s.inodes[y].kind && t.inodes[y].entries == s.inodes[y].entries)
      && (forall y :: 0 <= y < |s.inodes| && y != x ==> t.inodes[y] == s.inodes[y])
      && (forall q :: 0 <= q < |s.pending| && q != p ==> t.pending[q] == s.pending[q])
  {
  }

  /** The second half: if the name is there, the count is taken back and nothing else has changed;
      else, if the directory can grow, the name leads to the inode, every other name leads where it
      did, and no count changes. */
  lemma LinkEndDoes(s: Fs, p: nat, dp: nat, name: string)
    requires p < |s.pending| && 0 < s.pending[p] < |s.inodes| && dp < |s.inodes| && |s.inodes[dp].entries| <= MAXENTRIES
    ensures LinkEnd(s, p, dp, name).Done? <==> Taken(s.inodes[dp].entries, name) || CanGrow(s.inodes[dp].entries)
    ensures LinkEnd(s, p, dp, name).Done? ==> var t, x := LinkEnd(s, p, dp, name).value, s.pending[p];
      && |t.inodes| == |s.inodes| && t.pending == s.pending[p := 0]
      && (forall y :: 0 <= y < |s.inodes| ==> t.inodes[y].kind == s.inodes[y].kind)
      && (forall y :: 0 <= y < |s.inodes| ==>
            t.inodes[y].nlink == s.inodes[y].nlink - if y == x && Taken(s.inodes[dp].entries, name) then 1 else 0)
      && (forall d: nat, n: string, y: nat :: Leads(t, d, n, y) <==>
            Leads(s, d, n, y) || (d == dp && n == name && y == x && !Taken(s.inodes[dp].entries, name)))
  {
    var es := s.inodes[dp].entries;
    LookupFinds(es, name);
    EmptyFinds(es);
    if LinkEnd(s, p, dp, name).Done? {
      var t, x := LinkEnd(s, p, dp, name).value, s.pending[p];
      forall d: nat, n: string, y: nat ensures Leads(t, d, n, y) <==> Leads(s, d, n, y) || (d == dp && n == name && y == x && !Taken(es, name)) {
        if d == dp && !Taken(es, name) {
          HasPlace(es, FirstEmpty(es, 0), Dirent(x, name), n, y);
        } else if d < |s.inodes| {
          assert t.inodes[d].entries == s.inodes[d].entries;
        }
      }
    }
  }

  /** The undo path lowers the count and nothing else. */
  lemma LinkUndoDoes(s: Fs, p: nat)
    requires p < |s.pending| && s.pending[p] < |s.inodes|
    ensures var t, x := LinkUndo(s, p), s.pending[p];
      && |t.inodes| == |s.inodes| && t.pending == s.pending[p := 0] && t.inodes[x].nlink == s.inodes[x].nlink - 1
      && (forall y :: 0 <= y < |s.inodes| ==> t.inodes[y].kind == s.inodes[y].kind && t.inodes[y].entries == s.inodes[y].entries)
      && (forall y :: 0 <= y < |s.inodes| && y != x ==> t.inodes[y] == s.inodes[y])
  {
  }

  // ---------------------------------------------------------------- iput

  /** Releasing an inode frees it, and leaves the others alone. */
  lemma ReleaseDoes(s: Fs, x: nat)
    requires x < |s.inodes|
    ensures var t := Release(s, x);
      && |t.inodes| == |s.inodes| && t.pending == s.pending && t.inodes[x].kind == Free && t.inodes[x].nlink == 0
      && (forall n: string, y: nat :: !Leads(t, x, n, y)) && (forall y :: 0 <= y < |s.inodes| && y != x ==> t.inodes[y] == s.inodes[y])
  {
  }
}
