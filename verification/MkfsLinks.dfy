/** The root directory that mkfs writes, read back byte by byte, is the directory that the link
    counts start from. */
module MkfsLinks {
  import opened Basics
  import opened Fs
  import M = Mkfs
  import L = Links

  function NameOf(f: M.File): (name: string)
    ensures |name| == |f.name| && forall i :: 0 <= i < |name| ==> name[i] as int == f.name[i]
  {
    seq(|f.name|, i requires 0 <= i < |f.name| => f.name[i] as char)
  }

  function NamesOf(files: seq<M.File>): (names: seq<string>)
    ensures |names| == |files| && forall k :: 0 <= k < |names| ==> names[k] == NameOf(files[k])
  {
    seq(|files|, k requires 0 <= k < |files| => NameOf(files[k]))
  }

  /** A name that mkfs neither cuts off nor ends early. */
  predicate Short(f: M.File) {
    |f.name| <= M.DIRSIZ && forall k :: 0 <= k < |f.name| ==> f.name[k] != 0
  }

  // ---------------------------------------------------------------- reading a directory

  /** The characters up to the first zero, as strncmp sees them. */
  function Decoded(bytes: seq<byte>): string {
    if bytes == [] || bytes[0] == 0 then [] else [bytes[0] as char] + Decoded(bytes[1..])
  }

  /** struct dirent, from its bytes. */
  function EntryOf(e: seq<byte>): L.Dirent
    requires |e| == M.DIRENT
  {
    L.Dirent(e[0] as int + 256 * e[1] as int, Decoded(e[2..]))
  }

  /** The bytes of the j-th entry of the root directory. */
  function RootBytes(st: St, j: nat): (e: seq<byte>)
    requires Sized(st) && ROOTINO < |st.inodes| && M.DIRENT * (j + 1) <= MAXFILE * BSIZE
    ensures |e| == M.DIRENT && forall k :: 0 <= k < M.DIRENT ==> e[k] == M.RootByte(st, j, k)
  {
    seq(M.DIRENT, k requires 0 <= k < M.DIRENT => M.RootByte(st, j, k))
  }

  /** The first n entries of the root directory. */
  function RootDir(st: St, n: nat): (es: seq<L.Dirent>)
    requires Sized(st) && ROOTINO < |st.inodes| && M.DIRENT * n <= MAXFILE * BSIZE
    ensures |es| == n && forall j :: 0 <= j < n ==> es[j] == EntryOf(RootBytes(st, j))
  {
    seq(n, j requires 0 <= j < n => EntryOf(RootBytes(st, j)))
  }

  // ---------------------------------------------------------------- what it reads

  lemma {:induction false} DecodedIs(bytes: seq<byte>, name: string)
    requires |name| <= |bytes| && (forall k :: 0 <= k < |name| ==> bytes[k] != 0 && name[k] as int == bytes[k])
    requires |name| < |bytes| ==> bytes[|name|] == 0
    ensures Decoded(bytes) == name
    decreases |name|
  {
    if name != [] {
      DecodedIs(bytes[1..], name[1..]);
      assert name == [name[0]] + name[1..];
    }
  }

  /** The name of the j-th entry of L.RootEntries. */
  function NameAt(files: seq<M.File>, j: nat): string
    requires j < 2 + |files|
  {
    if j == 0 then "." else if j == 1 then ".." else NameOf(files[j - 2])
  }

  lemma EntryIs(e: seq<byte>, num: nat, bytes: seq<byte>, name: string)
    requires |e| == M.DIRENT && num < 65536 && e[0] == num % 256 && e[1] == num / 256 % 256
    requires forall k :: 2 <= k < M.DIRENT ==> e[k] == if k - 2 < |bytes| then bytes[k - 2] else 0
    requires |name| == |bytes| <= M.DIRSIZ && forall k :: 0 <= k < |name| ==> name[k] as int == bytes[k] != 0
    ensures EntryOf(e) == L.Dirent(num, name)
  {
    var b := e[2..];
    forall k | 0 <= k < M.DIRSIZ ensures b[k] == if k < |bytes| then bytes[k] else 0 {
      assert b[k] == e[k + 2];
    }
    DecodedIs(b, name);
  }

  lemma NameReads(files: seq<M.File>, j: nat)
    requires j < 2 + |files| && (forall k :: 0 <= k < |files| ==> Short(files[k]))
    ensures var name, bytes := NameAt(files, j), M.Name(files, j);
      |name| == |bytes| <= M.DIRSIZ && forall k :: 0 <= k < |name| ==> name[k] as int == bytes[k] != 0
  {
    assert "."[0] == 46 as char && ".."[0] == 46 as char && ".."[1] == 46 as char;
    if j >= 2 {
      assert Short(files[j - 2]);
    }
  }

  lemma EntryReads(st: St, files: seq<M.File>, j: nat)
    requires M.Finished(st, files) && j < 2 + |files| && (forall k :: 0 <= k < |files| ==> Short(files[k]))
    ensures EntryOf(RootBytes(st, j)) == L.Dirent(M.Number(j), NameAt(files, j))
  {
    assert M.HasEntry(st, j, M.Number(j), M.Name(files, j));
    NameReads(files, j);
    EntryIs(RootBytes(st, j), M.Number(j), M.Name(files, j), NameAt(files, j));
  }

  lemma FreeBehind(st: St, n: nat, j: nat)
    requires Sized(st) && ROOTINO < |st.inodes| && M.ZerosFrom(st, ROOTINO, M.DIRENT * n) && n <= j && M.DIRENT * (j + 1) <= MAXFILE * BSIZE
    ensures EntryOf(RootBytes(st, j)).inum == 0
  {
    assert M.RootByte(st, j, 0) == 0 && M.RootByte(st, j, 1) == 0;
  }

  /** Reading the root directory of a finished image gives exactly the directory that
      Links.Image starts from, and only free entries behind it. */
  lemma RootIsImage(st: St, files: seq<M.File>)
    requires M.Finished(st, files) && forall k :: 0 <= k < |files| ==> Short(files[k])
    ensures RootDir(st, 2 + |files|) == L.RootEntries(NamesOf(files))
    ensures forall j :: 2 + |files| <= j && M.DIRENT * (j + 1) <= MAXFILE * BSIZE ==> EntryOf(RootBytes(st, j)).inum == 0
  {
    var es := L.RootEntries(NamesOf(files));
    var dir := RootDir(st, 2 + |files|);
    forall j | 0 <= j < 2 + |files| ensures dir[j] == es[j] {
      EntryReads(st, files, j);
    }
    forall j | 2 + |files| <= j && M.DIRENT * (j + 1) <= MAXFILE * BSIZE ensures EntryOf(RootBytes(st, j)).inum == 0 {
      FreeBehind(st, 2 + |files|, j);
    }
  }
}
