/** pipe.c: the ring buffer with its 32-bit counters, and the readers and writers around it.
    A step of the system is what one process does between taking p->lock and either going to
    sleep or returning. */
module Pipe {
  import opened Basics

  const PIPESIZE := 512
  const WRAP := 0x1_0000_0000

  // ---------------------------------------------------------------- ring

  datatype Ring = Ring(data: seq<byte>, nread: nat, nwrite: nat)

  predicate Full(r: Ring) {
    r.nwrite == (r.nread + PIPESIZE) % WRAP
  }

  predicate Empty(r: Ring) {
    r.nread == r.nwrite
  }

  function PutOne(r: Ring, b: byte): Ring
    requires |r.data| == PIPESIZE
  {
    r.(data := r.data[r.nwrite % PIPESIZE := b], nwrite := (r.nwrite + 1) % WRAP)
  }

  /** pipewrite's copying: bytes go in until the ring is full or they are all in. */
  function PutSome(r: Ring, src: seq<byte>): (res: (Ring, nat))
    requires |r.data| == PIPESIZE
    ensures res.1 <= |src| && |res.0.data| == PIPESIZE
    decreases |src|
  {
    if src == [] || Full(r) then (r, 0)
    else var rest := PutSome(PutOne(r, src[0]), src[1..]); (rest.0, rest.1 + 1)
  }

  /** piperead's copying: at most n bytes come out. */
  function TakeSome(r: Ring, n: nat): (res: (Ring, seq<byte>))
    requires |r.data| == PIPESIZE
    ensures |res.1| <= n && |res.0.data| == PIPESIZE
    decreases n
  {
    if n == 0 || Empty(r) then (r, [])
    else
      var rest := TakeSome(r.(nread := (r.nread + 1) % WRAP), n - 1);
      (rest.0, [r.data[r.nread % PIPESIZE]] + rest.1)
  }

  /** The ring stands for the accepted bytes that are not delivered yet. The counters are the
      lengths modulo 2^32. */
  ghost predicate Holds(r: Ring, accepted: seq<byte>, delivered: seq<byte>) {
    && |r.data| == PIPESIZE && |delivered| <= |accepted| <= |delivered| + PIPESIZE
    && delivered <= accepted
    && r.nread == |delivered| % WRAP && r.nwrite == |accepted| % WRAP
    && forall k :: |delivered| <= k < |accepted| ==> r.data[k % PIPESIZE] == accepted[k]
  }

  lemma WrapAdd(x: nat, d: nat)
    requires d <= PIPESIZE
    ensures (x % WRAP + d) % WRAP == (x + d) % WRAP
    ensures (x % WRAP) % PIPESIZE == x % PIPESIZE
  {
    var q := x / WRAP;
    assert x == q * WRAP + x % WRAP;
  }

  /** The counter tests mean what they say although the counters wrap around. */
  lemma CounterTests(r: Ring, accepted: seq<byte>, delivered: seq<byte>)
    requires Holds(r, accepted, delivered)
    ensures Full(r) <==> |accepted| == |delivered| + PIPESIZE
    ensures Empty(r) <==> |accepted| == |delivered|
  {
    WrapAdd(|delivered|, PIPESIZE);
    var d := |accepted| - |delivered|;
    WrapAdd(|delivered|, d);
    SmallGap(|delivered| % WRAP, d, PIPESIZE);
    SmallGap(|delivered| % WRAP, d, 0);
  }

  lemma SmallGap(x: nat, d: nat, e: nat)
    requires x < WRAP && d <= PIPESIZE && e <= PIPESIZE
    ensures (x + d) % WRAP == (x + e) % WRAP <==> d == e
  {
  }

  lemma PutOneHolds(r: Ring, accepted: seq<byte>, delivered: seq<byte>, b: byte)
    requires Holds(r, accepted, delivered) && !Full(r)
    ensures Holds(PutOne(r, b), accepted + [b], delivered)
  {
    CounterTests(r, accepted, delivered);
    WrapAdd(|accepted|, 1);
    forall k | |delivered| <= k < |accepted| ensures k % PIPESIZE != |accepted| % PIPESIZE {
      NotAgain(k, |accepted|);
    }
  }

  lemma NotAgain(k: nat, m: nat)
    requires k < m < k + PIPESIZE
    ensures k % PIPESIZE != m % PIPESIZE
  {
  }

  lemma {:induction false} PutSomeHolds(r: Ring, accepted: seq<byte>, delivered: seq<byte>, src: seq<byte>)
    requires Holds(r, accepted, delivered)
    ensures var (r', k) := PutSome(r, src);
      && Holds(r', accepted + src[..k], delivered)
      && (k == |src| || Full(r')) && (Full(r) ==> k == 0)
    decreases |src|
  {
    if src != [] && !Full(r) {
      PutOneHolds(r, accepted, delivered, src[0]);
      PutSomeHolds(PutOne(r, src[0]), accepted + [src[0]], delivered, src[1..]);
      var (r', k) := PutSome(PutOne(r, src[0]), src[1..]);
      assert accepted + [src[0]] + src[1..][..k] == accepted + src[..k + 1];
    } else {
      assert accepted + src[..0] == accepted;
    }
  }

  lemma TakeOneHolds(r: Ring, accepted: seq<byte>, delivered: seq<byte>)
    requires Holds(r, accepted, delivered) && !Empty(r)
    ensures |delivered| < |accepted| && r.data[r.nread % PIPESIZE] == accepted[|delivered|]
    ensures Holds(r.(nread := (r.nread + 1) % WRAP), accepted, delivered + [accepted[|delivered|]])
  {
    CounterTests(r, accepted, delivered);
    WrapAdd(|delivered|, 1);
  }

  lemma {:induction false} TakeSomeHolds(r: Ring, accepted: seq<byte>, delivered: seq<byte>, n: nat)
    requires Holds(r, accepted, delivered)
    ensures var (r', bytes) := TakeSome(r, n);
      && Holds(r', accepted, delivered + bytes)
      && (|bytes| == n || Empty(r')) && (Empty(r) ==> bytes == []) && (!Empty(r) && n > 0 ==> !Full(r'))
    decreases n
  {
    if n > 0 && !Empty(r) {
      TakeOneHolds(r, accepted, delivered);
      var r1, b := r.(nread := (r.nread + 1) % WRAP), accepted[|delivered|];
      TakeSomeHolds(r1, accepted, delivered + [b], n - 1);
      var (r', bytes) := TakeSome(r1, n - 1);
      assert delivered + [b] + bytes == delivered + ([b] + bytes);
      CounterTests(r', accepted, delivered + ([b] + bytes));
    } else {
      assert delivered + [] == delivered;
    }
  }
}
