/** Directories and link counts: dirlookup and dirlink of fs.c; create, sys_link, sys_unlink
    and isdirempty of sysfile.c. Inode numbers index `inodes`; 0 marks an empty entry. */
module Links {
  import opened Basics

  /** MAXFILE * BSIZE / sizeof(struct dirent). */
  const MAXENTRIES := 4480

  datatype Kind = Free | Dir | File | Dev
  datatype Dirent = Dirent(inum: nat, name: string)
  datatype Inode = Inode(kind: Kind, nlink: int, entries: seq<Dirent>)

  /** pending[p] is the inode whose count process p has raised in sys_link and for which it
      has neither written the entry nor undone the increment; 0 for none. */
  datatype Fs = Fs(inodes: seq<Inode>, pending: seq<nat>)

  // ---------------------------------------------------------------- directory contents

  /** dirlookup: the first entry in use with this name, from index i on. */
  function Lookup(entries: seq<Dirent>, name: string, i: nat): (r: Option<nat>)
    requires i <= |entries|
    ensures r.Some? ==> i <= r.value < |entries| && entries[r.value].inum != 0 && entries[r.value].name == name
    ensures r.None? ==> forall j :: i <= j < |entries| && entries[j].inum != 0 ==> entries[j].name != name
    decreases |entries| - i
  {
    if i == |entries| then None
    else if entries[i].inum != 0 && entries[i].name == name then Some(i)
    else Lookup(entries, name, i + 1)
  }

  /** The first empty entry from index i on, or the end. */
  function FirstEmpty(entries: seq<Dirent>, i: nat): (r: nat)
    requires i <= |entries|
    ensures i <= r <= |entries| && (r < |entries| ==> entries[r].inum == 0)
    ensures forall j :: i <= j < r ==> entries[j].inum != 0
    decreases |entries| - i
  {
    if i == |entries| || entries[i].inum == 0 then i else FirstEmpty(entries, i + 1)
  }

  function Place(entries: seq<Dirent>, i: nat, e: Dirent): seq<Dirent>
    requires i <= |entries|
  {
    if i < |entries| then entries[i := e] else entries + [e]
  }

  datatype Outcome<+T> = Done(value: T) | Refused | Panic

  /** dirlink: refused when the name exists, a panic when the directory cannot grow. */
  function Dirlink(entries: seq<Dirent>, name: string, inum: nat): Outcome<seq<Dirent>> {
    if Lookup(entries, name, 0).Some? then Refused
    else if FirstEmpty(entries, 0) == MAXENTRIES then Panic
    else Done(Place(entries, FirstEmpty(entries, 0), Dirent(inum, name)))
  }

  predicate IsDirEmpty(entries: seq<Dirent>) {
    forall i :: 2 <= i < |entries| ==> entries[i].inum == 0
  }

  method DirLookup(entries: seq<Dirent>, name: string) returns (r: Option<nat>)
    ensures r == Lookup(entries, name, 0)
  {
    var off := 0;
    while off < |entries|
      invariant 0 <= off <= |entries| && Lookup(entries, name, 0) == Lookup(entries, name, off)
    {
      if entries[off].inum != 0 && entries[off].name == name {
        return Some(off);
      }
      off := off + 1;
    }
    return None;
  }

  method DirLink(entries: seq<Dirent>, name: string, inum: nat) returns (r: Outcome<seq<Dirent>>)
    ensures r == Dirlink(entries, name, inum)
  {
    var found := DirLookup(entries, name);
    if found.Some? {
      return Refused;
    }
    var off := 0;
    while off < |entries| && entries[off].inum != 0
      invariant 0 <= off <= |entries| && FirstEmpty(entries, 0) == FirstEmpty(entries, off)
    {
      off := off + 1;
    }
    if off == MAXENTRIES {
      return Panic;
    }
    return Done(Place(entries, off, Dirent(inum, name)));
  }

  method DirIsEmpty(entries: seq<Dirent>) returns (r: bool)
    ensures r == IsDirEmpty(entries)
  {
    var off := 2;
    while off < |entries|
      invariant 2 <= off && forall i :: 2 <= i < off && i < |entries| ==> entries[i].inum == 0
    {
      if entries[off].inum != 0 {
        return false;
      }
      off := off + 1;
    }
    return true;
  }

  // ---------------------------------------------------------------- operations

  /** ialloc: the first free inode from number i on. */
  function FirstFree(inodes: seq<Inode>, i: nat): (r: Option<nat>)
    requires i <= |inodes|
    ensures r.Some? ==> i <= r.value < |inodes| && inodes[r.value].kind == Free
    decreases |inodes| - i
  {
    if i == |inodes| then None else if inodes[i].kind == Free then Some(i) else FirstFree(inodes, i + 1)
  }

  /** The new inode that create fills in. */
  function NewInode(kind: Kind, ip: nat, dp: nat): Inode {
    Inode(kind, 1, if kind == Dir then [Dirent(ip, "."), Dirent(dp, "..")] else [])
  }

  /** create in the locked directory dp. Refused is the case of an existing name. */
  function Create(s: Fs, dp: nat, name: string, kind: Kind): Outcome<Fs>
    requires dp < |s.inodes| && 0 < |s.inodes|
  {
    var d := s.inodes[dp];
    if Lookup(d.entries, name, 0).Some? then Refused
    else
      match FirstFree(s.inodes, 1)
      case None => Panic
      case Some(ip) =>
        match Dirlink(d.entries, name, ip)
        case Done(entries) =>
          var d' := d.(nlink := if kind == Dir then d.nlink + 1 else d.nlink, entries := entries);
          Done(s.(inodes := s.inodes[ip := NewInode(kind, ip, dp)][dp := d']))
        case _ => Panic
  }

  /** The first half of sys_link by process p: raise the count of x; directories are refused. */
  function LinkBegin(s: Fs, p: nat, x: nat): Outcome<Fs>
    requires p < |s.pending| && x < |s.inodes|
  {
    if s.inodes[x].kind == Dir then Refused
    else Done(s.(inodes := s.inodes[x := s.inodes[x].(nlink := s.inodes[x].nlink + 1)], pending := s.pending[p := x]))
  }

  /** The undo path of sys_link. */
  function LinkUndo(s: Fs, p: nat): Fs
    requires p < |s.pending| && s.pending[p] < |s.inodes|
  {
    var x := s.pending[p];
    s.(inodes := s.inodes[x := s.inodes[x].(nlink := s.inodes[x].nlink - 1)], pending := s.pending[p := 0])
  }

  /** The second half of sys_link: write the entry into dp, or undo. */
  function LinkEnd(s: Fs, p: nat, dp: nat, name: string): Outcome<Fs>
    requires p < |s.pending| && s.pending[p] < |s.inodes| && dp < |s.inodes|
  {
    match Dirlink(s.inodes[dp].entries, name, s.pending[p])
    case Done(entries) => Done(s.(inodes := s.inodes[dp := s.inodes[dp].(entries := entries)], pending := s.pending[p := 0]))
    case Refused => Done(LinkUndo(s, p))
    case Panic => Panic
  }

  /** sys_unlink of a name in the locked directory dp. */
  function Unlink(s: Fs, dp: nat, name: string): Outcome<Fs>
    requires dp < |s.inodes|
  {
    var d := s.inodes[dp];
    if name == "." || name == ".." then Refused
    else
      match Lookup(d.entries, name, 0)
      case None => Refused
      case Some(off) =>
        var x := d.entries[off].inum;
        if x >= |s.inodes| || s.inodes[x].nlink < 1 then Panic
        else if s.inodes[x].kind == Dir && !IsDirEmpty(s.inodes[x].entries) then Refused
        else
          var d' := d.(nlink := if s.inodes[x].kind == Dir then d.nlink - 1 else d.nlink, entries := d.entries[off := Dirent(0, "")]);
          var inodes := s.inodes[dp := d'];
          Done(s.(inodes := inodes[x := inodes[x].(nlink := inodes[x].nlink - 1)]))
  }

  /** iput's freeing of an inode without links and references. */
  function Release(s: Fs, x: nat): Fs
    requires x < |s.inodes|
  {
    s.(inodes := s.inodes[x := Inode(Free, 0, [])])
  }

  /** The entries of mkfs's root directory: the files have the inodes from 2 on. */
  function RootEntries(names: seq<string>): (es: seq<Dirent>)
    ensures |es| == 2 + |names| && es[0] == Dirent(ROOTINO, ".") && es[1] == Dirent(ROOTINO, "..")
    ensures forall k :: 2 <= k < |es| ==> es[k] == Dirent(k, names[k - 2])
  {
    if names == [] then [Dirent(ROOTINO, "."), Dirent(ROOTINO, "..")]
    else RootEntries(names[..|names| - 1]) + [Dirent(|names| + 1, names[|names| - 1])]
  }

  /** mkfs: a root directory, and the files it is called with. */
  function Image(ninodes: nat, nprocs: nat, names: seq<string>): Fs
    requires ninodes >= 2 + |names|
  {
    Fs(seq(ninodes, i => if i == ROOTINO then Inode(Dir, 1, RootEntries(names))
                         else if 2 <= i < 2 + |names| then Inode(File, 1, []) else Inode(Free, 0, [])),
       seq(nprocs, _ => 0))
  }
}
