/** Giving back the blocks of a file: itrunc. */
module FsTrunc {
  import opened Fs

  /** The owners that are left when inode i has none. */
  ghost function Without(owner: map<nat, (nat, nat)>, i: nat): (r: map<nat, (nat, nat)>)
    ensures forall b :: b in r <==> b in owner && owner[b].0 != i
    ensures forall b :: b in r ==> r[b] == owner[b]
  {
    map b | b in owner && owner[b].0 != i :: owner[b]
  }

  /** Block b belongs to one of the places of inode i that are done: the addresses below lo
      and the words of the indirect block below hi. */
  predicate Done(owner: map<nat, (nat, nat)>, i: nat, lo: nat, hi: nat, b: nat) {
    b in owner && owner[b].0 == i && (owner[b].1 < lo || NDIRECT < owner[b].1 <= NDIRECT + hi)
  }

  /** The bits of the blocks that are done are clear and the others are as they were. */
  ghost predicate Cleared(before: seq<bool>, after: seq<bool>, owner: map<nat, (nat, nat)>, i: nat, lo: nat, hi: nat) {
    |after| == |before| && forall b :: 0 <= b < |before| ==> after[b] == (before[b] && !Done(owner, i, lo, hi, b))
  }

  /** The next place: its block is in use, and belongs to no place done before. */
  lemma NextIsInUse(st: St, nmeta: nat, owner: map<nat, (nat, nat)>, bitmap: seq<bool>, i: nat, lo: nat, hi: nat, x: nat)
    requires Inv(st, nmeta, owner, {}) && i < |st.inodes| && x < NSLOTS && Addr(st, i, x) != 0
    requires Cleared(st.bitmap, bitmap, owner, i, lo, hi) && lo <= x && (NDIRECT < x ==> lo <= NDIRECT && NDIRECT + hi < x)
    ensures Addr(st, i, x) < |bitmap| && bitmap[Addr(st, i, x)]
    ensures owner[Addr(st, i, x)] == (i, x)
  {
  }

  lemma ClearNext(st: St, nmeta: nat, owner: map<nat, (nat, nat)>, bitmap: seq<bool>, bitmap': seq<bool>,
                  i: nat, lo: nat, hi: nat, x: nat, lo': nat, hi': nat)
    requires Inv(st, nmeta, owner, {}) && i < |st.inodes| && x < NSLOTS
    requires Cleared(st.bitmap, bitmap, owner, i, lo, hi)
    requires (x == lo && lo' == lo + 1 && hi' == hi) || (x == NDIRECT + 1 + hi && lo' == lo && hi' == hi + 1)
    requires if Addr(st, i, x) == 0 then bitmap' == bitmap else Addr(st, i, x) < |bitmap| && bitmap' == bitmap[Addr(st, i, x) := false]
    ensures Cleared(st.bitmap, bitmap', owner, i, lo', hi')
  {
    forall b | 0 <= b < |bitmap| ensures bitmap'[b] == (st.bitmap[b] && !Done(owner, i, lo', hi', b)) {
      if b in owner && owner[b] == (i, x) {
        assert Addr(st, i, x) == b;
      }
    }
  }

  /** An inode that owned no indirect block owned no block through it. */
  lemma NoIndirectNoWords(st: St, nmeta: nat, owner: map<nat, (nat, nat)>, bitmap: seq<bool>, i: nat)
    requires Inv(st, nmeta, owner, {}) && i < |st.inodes| && st.inodes[i].addrs[NDIRECT] == 0
    requires Cleared(st.bitmap, bitmap, owner, i, NDIRECT, 0)
    ensures Cleared(st.bitmap, bitmap, owner, i, NDIRECT + 1, NINDIRECT)
  {
    forall b | 0 <= b < |bitmap| ensures Done(owner, i, NDIRECT + 1, NINDIRECT, b) == Done(owner, i, NDIRECT, 0, b) {
    }
  }

  function NoAddrs(): (r: seq<nat>)
    ensures |r| == NDIRECT + 1 && forall k :: 0 <= k < |r| ==> r[k] == 0
  {
    seq(NDIRECT + 1, _ => 0)
  }

  /** The file system when inode i has been emptied. */
  function Emptied(st: St, i: nat, bitmap: seq<bool>): St
    requires i < |st.inodes|
  {
    St(bitmap, st.blocks, st.inodes[i := Inode(0, NoAddrs())])
  }

  /** Exactly the blocks of inode i are free again, nobody else's. */
  lemma TruncKeepsInv(st: St, nmeta: nat, owner: map<nat, (nat, nat)>, bitmap: seq<bool>, i: nat)
    requires Inv(st, nmeta, owner, {}) && i < |st.inodes| && Cleared(st.bitmap, bitmap, owner, i, NDIRECT + 1, NINDIRECT)
    ensures var t := Emptied(st, i, bitmap); Inv(t, nmeta, Without(owner, i), {}) && SameShape(st, t) && OthersSame(st, t, i)
    ensures forall b :: 0 <= b < |bitmap| ==> bitmap[b] == (st.bitmap[b] && !(b in owner && owner[b].0 == i))
  {
    var t := Emptied(st, i, bitmap);
    assert Sized(t);
    forall j, y | 0 <= j < |st.inodes| && 0 <= y < NSLOTS ensures Addr(t, j, y) == if j == i then 0 else Addr(st, j, y) {
    }
  }
}
