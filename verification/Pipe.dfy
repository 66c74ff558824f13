/** The pipe of src/pipe.c: a ring of PIPESIZE bytes with 32-bit counters that wrap around. */
module Pipe {

  const PIPESIZE := 512

  type Byte = bv8

  /** A counter as the machine keeps it. */
  function Wrap(n: nat): (r: nat)
    ensures r < 0x1_0000_0000
  {
    n % 0x1_0000_0000
  }

  /** The unsigned difference of two counters. */
  function Count(nread: nat, nwrite: nat): nat
    requires nread < 0x1_0000_0000
  {
    (nwrite + 0x1_0000_0000 - nread) % 0x1_0000_0000
  }

  /** The bytes in the ring, as the code finds them. */
  function Contents(data: seq<Byte>, nread: nat, nwrite: nat): (r: seq<Byte>)
    requires |data| == 512 && nread < 0x1_0000_0000
    ensures |r| == Count(nread, nwrite)
  {
    seq(Count(nread, nwrite), k requires 0 <= k => data[Wrap(nread + k) % 512])
  }

  // Counters that wrap compare as counters that do not, and find the same slot.
  lemma CountersWrap(r: nat, w: nat)
    requires r <= w <= r + 512
    ensures Wrap(r) == Wrap(w) <==> r == w
    ensures Wrap(w) == Wrap(Wrap(r) + 512) <==> w == r + 512
    ensures Count(Wrap(r), Wrap(w)) == w - r
  {
  }

  lemma SlotWraps(r: nat, k: nat)
    ensures Wrap(Wrap(r) + k) % 512 == (r + k) % 512
  {
    assert 0x1_0000_0000 == 512 * 8388608;
  }

  lemma SameSlot(n: nat)
    ensures Wrap(n) % 512 == n % 512
  {
    SlotWraps(n, 0);
  }

  lemma NextWraps(n: nat)
    ensures Wrap(Wrap(n) + 1) == Wrap(n + 1)
  {
  }

  /** nread and nwrite count the bytes taken and put; slot k % 512 holds the byte put as number k. */
  ghost predicate Inv(data: seq<Byte>, nread: nat, nwrite: nat, put: seq<Byte>, taken: seq<Byte>) {
    && |data| == 512 && |taken| <= |put| <= |taken| + 512
    && nread == Wrap(|taken|) && nwrite == Wrap(|put|)
    && taken == put[..|taken|]
    && forall k | |taken| <= k < |put| :: data[k % 512] == put[k]
  }

  /** What was read, followed by what is in the ring, is what was written. */
  lemma Fifo(data: seq<Byte>, nread: nat, nwrite: nat, put: seq<Byte>, taken: seq<Byte>)
    requires Inv(data, nread, nwrite, put, taken)
    ensures taken + Contents(data, nread, nwrite) == put
    ensures |Contents(data, nread, nwrite)| <= PIPESIZE
  {
    CountersWrap(|taken|, |put|);
    var c := Contents(data, nread, nwrite);
    forall k | 0 <= k < |c| ensures c[k] == put[|taken| + k] {
      SlotWraps(|taken|, k);
    }
  }

  lemma PutKeeps(data: seq<Byte>, nread: nat, nwrite: nat, put: seq<Byte>, taken: seq<Byte>, b: Byte)
    requires Inv(data, nread, nwrite, put, taken) && nwrite != Wrap(nread + 512)
    ensures Inv(data[nwrite % 512 := b], nread, Wrap(nwrite + 1), put + [b], taken)
  {
    hide Wrap;
    var r, w := |taken|, |put|;
    CountersWrap(r, w);
    SameSlot(w);
    NextWraps(w);
    forall k | r <= k < w ensures k % 512 != w % 512 {
      SlotsDiffer(k, w);
    }
  }

  lemma SlotsDiffer(k: nat, w: nat)
    requires k < w < k + 512
    ensures k % 512 != w % 512
  {
  }

  lemma GetKeeps(data: seq<Byte>, nread: nat, nwrite: nat, put: seq<Byte>, taken: seq<Byte>)
    requires Inv(data, nread, nwrite, put, taken) && nread != nwrite
    ensures Inv(data, Wrap(nread + 1), nwrite, put, taken + [data[nread % 512]])
    ensures |taken| < |put|
  {
    hide Wrap;
    CountersWrap(|taken|, |put|);
    SameSlot(|taken|);
    NextWraps(|taken|);
  }

  datatype Status = Done | Sleeps | Failed

  class PipeBuffer {
    const data: array<Byte>
    var nread: nat
    var nwrite: nat
    var readopen: bool
    var writeopen: bool
    ghost var put: seq<Byte>
    ghost var taken: seq<Byte>

    ghost predicate Valid()
      reads this, data
    {
      Inv(data[..], nread, nwrite, put, taken)
    }

    constructor ()
      ensures Valid() && put == taken == [] && readopen && writeopen && fresh(data)
    {
      data := new Byte[512](_ => 0);
      nread, nwrite, readopen, writeopen := 0, 0, true, true;
      put, taken := [], [];
    }

    /** The writer of addr, at byte i and holding the lock, goes on until it is done, has to sleep
        with the ring full, or gives up because nobody can read or it was killed. */
    method Write(addr: seq<Byte>, i: nat, killed: bool) returns (j: nat, r: Status)
      requires Valid() && i <= |addr|
      modifies this`nwrite, this`put, data
      ensures Valid() && i <= j <= |addr| && put == old(put) + addr[i..j]
      ensures r.Done? <==> j == |addr|
      ensures !r.Done? ==> |put| == |taken| + PIPESIZE && (r.Failed? <==> !readopen || killed)
    {
      j := i;
      while j < |addr|
        invariant i <= j <= |addr| && Valid() && put == old(put) + addr[i..j]
      {
        CountersWrap(|taken|, |put|);
        if nwrite == Wrap(nread + 512) {
          return j, if !readopen || killed then Failed else Sleeps;
        }
        PutKeeps(data[..], nread, nwrite, put, taken, addr[j]);
        ghost var was := data[..];
        data[nwrite % 512] := addr[j];
        assert data[..] == was[nwrite % 512 := addr[j]];
        nwrite := Wrap(nwrite + 1);
        put := put + [addr[j]];
        j := j + 1;
      }
      r := Done;
    }

    /** A reader of up to n bytes, holding the lock, takes what there is; with the ring empty and
        writers left it has to sleep, or gives up if it was killed. */
    method Read(n: int, killed: bool) returns (bytes: seq<Byte>, r: Status)
      requires Valid()
      modifies this`nread, this`taken
      ensures Valid() && taken == old(taken) + bytes
      ensures |bytes| <= if n < 0 then 0 else n
      ensures !r.Done? <==> old(|taken| == |put|) && writeopen
      ensures !r.Done? ==> bytes == [] && (r.Failed? <==> killed)
      ensures r.Done? ==> |bytes| == n || |taken| == |put| || n < 0
    {
      bytes := [];
      CountersWrap(|taken|, |put|);
      if nread == nwrite && writeopen {
        return [], if killed then Failed else Sleeps;
      }
      var i := 0;
      while i < n
        invariant Valid() && |bytes| == i && (i <= n || i == 0) && taken == old(taken) + bytes
      {
        CountersWrap(|taken|, |put|);
        if nread == nwrite {
          break;
        }
        GetKeeps(data[..], nread, nwrite, put, taken);
        var b := data[nread % 512];
        bytes := bytes + [b];
        taken := taken + [b];
        nread := Wrap(nread + 1);
        i := i + 1;
      }
      r := Done;
    }

    /** Closes one end; the pipe is freed when both are closed. */
    method Close(writable: bool) returns (freed: bool)
      requires Valid()
      modifies this`readopen, this`writeopen
      ensures Valid() && (freed <==> !readopen && !writeopen)
      ensures writeopen == (old(writeopen) && !writable) && readopen == (old(readopen) && writable)
    {
      if writable {
        writeopen := false;
      } else {
        readopen := false;
      }
      freed := !readopen && !writeopen;
    }
  }

  // ----- interleavings -----

  datatype Op = Put(b: Byte) | Get

  datatype State = State(data: seq<Byte>, nread: nat, nwrite: nat)

  predicate Enabled(s: State, op: Op) {
    match op
    case Put(_) => s.nwrite != Wrap(s.nread + 512)
    case Get => s.nread != s.nwrite
  }

  function Step(s: State, op: Op): State
    requires |s.data| == 512
  {
    match op
    case Put(b) => s.(data := s.data[s.nwrite % 512 := b], nwrite := Wrap(s.nwrite + 1))
    case Get => s.(nread := Wrap(s.nread + 1))
  }

  function Written(ops: seq<Op>): seq<Byte> {
    if ops == [] then []
    else Written(ops[..|ops| - 1]) + match ops[|ops| - 1] { case Put(b) => [b] case Get => [] }
  }

  function Fetched(ss: seq<State>, ops: seq<Op>): seq<Byte>
    requires |ss| == |ops| + 1 && forall i | 0 <= i < |ss| :: |ss[i].data| == 512
  {
    if ops == [] then []
    else
      var n := |ops| - 1;
      Fetched(ss[..n + 1], ops[..n]) + match ops[n] { case Put(_) => [] case Get => [ss[n].data[ss[n].nread % 512]] }
  }

  ghost predicate Run(ss: seq<State>, ops: seq<Op>) {
    && |ss| == |ops| + 1 && (forall i | 0 <= i < |ss| :: |ss[i].data| == 512)
    && ss[0].nread == ss[0].nwrite == 0
    && forall i | 0 <= i < |ops| :: Enabled(ss[i], ops[i]) && ss[i + 1] == Step(ss[i], ops[i])
  }

  lemma {:induction false} RunKeeps(ss: seq<State>, ops: seq<Op>)
    requires Run(ss, ops)
    ensures var s := ss[|ops|]; Inv(s.data, s.nread, s.nwrite, Written(ops), Fetched(ss, ops))
    decreases |ops|
  {
    if ops != [] {
      var n := |ops| - 1;
      RunKeeps(ss[..n + 1], ops[..n]);
      var s := ss[n];
      assert Enabled(s, ops[n]) && ss[n + 1] == Step(s, ops[n]);
      var put, taken := Written(ops[..n]), Fetched(ss[..n + 1], ops[..n]);
      match ops[n]
      case Put(b) =>
        PutKeeps(s.data, s.nread, s.nwrite, put, taken, b);
        assert taken + [] == taken;
      case Get =>
        GetKeeps(s.data, s.nread, s.nwrite, put, taken);
        assert put + [] == put;
    }
  }

  /** However readers and writers interleave and however often the counters wrap: the bytes read,
      followed by the bytes in the ring, are the bytes written. */
  lemma {:induction false} RunFifo(ss: seq<State>, ops: seq<Op>)
    requires Run(ss, ops)
    ensures var s := ss[|ops|];
      && s.nread < 0x1_0000_0000
      && Fetched(ss, ops) + Contents(s.data, s.nread, s.nwrite) == Written(ops)
      && |Contents(s.data, s.nread, s.nwrite)| <= PIPESIZE
  {
    RunKeeps(ss, ops);
    var s := ss[|ops|];
    Fifo(s.data, s.nread, s.nwrite, Written(ops), Fetched(ss, ops));
  }
}
