/**
 pipe.c: the ring buffer with its two free-running 32-bit counters.  The ghost
 fields `stored` and `got` are all bytes ever written and ever read.
 */
module Pipe {
  import opened Types

  const PIPESIZE := 512

  datatype WriteResult = Done | MustSleep | Failed
  datatype ReadResult = Got(bytes: seq<byte>) | Empty | Interrupted

  /** The counters wrap, and the ring index does not notice, because PIPESIZE divides 2^32. */
  lemma WrapIndex(n: nat)
    ensures n % UINT % PIPESIZE == n % PIPESIZE
  {
    var q := n / UINT;
    assert n == UINT * q + n % UINT;
    assert UINT * q == PIPESIZE * (8388608 * q);
  }

  /** Comparing wrapped counters compares the real ones, as long as they are within PIPESIZE of each other. */
  lemma WrapCompare(r: nat, w: nat)
    requires r <= w <= r + PIPESIZE
    ensures r % UINT == w % UINT <==> r == w
    ensures w % UINT == (r % UINT + PIPESIZE) % UINT <==> w == r + PIPESIZE
    ensures (w % UINT - r % UINT) % UINT == w - r
  {
  }

  class Pipe {
    const data: array<byte>
    var nread: nat
    var nwrite: nat
    var readopen: bool
    var writeopen: bool
    ghost var stored: seq<byte>
    ghost var got: seq<byte>

    /** Bytes read are a prefix of the bytes stored, and the ring holds the rest. */
    ghost predicate Valid()
      reads this, data
    {
      && data.Length == PIPESIZE
      && |got| <= |stored| <= |got| + PIPESIZE
      && nread == |got| % UINT && nwrite == |stored| % UINT
      && got == stored[..|got|]
      && forall k :: |got| <= k < |stored| ==> data[k % PIPESIZE] == stored[k]
    }

    /** What makes a reader, and a writer with bytes left, go to sleep. */
    ghost predicate ReaderWaits()
      reads this
    {
      |got| == |stored| && writeopen
    }

    ghost predicate WriterWaits()
      reads this
    {
      |stored| == |got| + PIPESIZE && readopen
    }

    /** The pipe part of `pipealloc`. */
    constructor ()
      ensures Valid() && readopen && writeopen && stored == [] && got == [] && fresh(data)
    {
      data := new byte[PIPESIZE](_ => 0);
      readopen, writeopen := true, true;
      nwrite, nread := 0, 0;
      stored, got := [], [];
    }

    /** p->data[p->nwrite++ % PIPESIZE] = b, with room. */
    method Put(b: byte)
      requires Valid() && |stored| < |got| + PIPESIZE
      modifies this`nwrite, this`stored, data
      ensures Valid() && stored == old(stored) + [b]
    {
      WrapIndex(|stored|);
      ghost var n, r, was := |stored|, |got|, stored;
      data[nwrite % PIPESIZE] := b;
      nwrite := (nwrite + 1) % UINT;
      stored := stored + [b];
      forall k | r <= k < n ensures k % PIPESIZE != n % PIPESIZE {
        Apart(k, n);
      }
    }

    /** p->data[p->nread++ % PIPESIZE], not empty. */
    method Take() returns (b: byte)
      requires Valid() && |got| < |stored|
      modifies this`nread, this`got
      ensures Valid() && b == stored[|old(got)|] && got == old(got) + [b]
    {
      WrapIndex(|got|);
      b := data[nread % PIPESIZE];
      nread := (nread + 1) % UINT;
      got := got + [b];
    }

    /** `pipewrite` from byte i on, up to where it returns or sleeps: bytes go in, in order, while there is room. */
    method WriteUntilBlocked(addr: seq<byte>, i0: nat, killed: bool) returns (r: WriteResult, i: nat)
      requires Valid() && i0 <= |addr|
      modifies this`nwrite, this`stored, data
      ensures Valid() && i0 <= i <= |addr| && stored == old(stored) + addr[i0..i]
      ensures r.Done? <==> i == |addr|
      ensures !r.Done? ==> |stored| == |got| + PIPESIZE
      ensures r.Failed? <==> i < |addr| && (!readopen || killed)
      ensures r.MustSleep? ==> WriterWaits()
    {
      i := i0;
      while i < |addr|
        invariant Valid() && i0 <= i <= |addr| && stored == old(stored) + addr[i0..i]
      {
        WrapCompare(|got|, |stored|);
        if nwrite == (nread + PIPESIZE) % UINT {
          return if !readopen || killed then Failed else MustSleep, i;
        }
        Put(addr[i]);
        i := i + 1;
      }
      return Done, i;
    }

    /** `piperead` from the test of its wait loop: nothing yet, or up to n bytes, the oldest unread ones. */
    method ReadOnce(n: nat, killed: bool) returns (r: ReadResult)
      requires Valid()
      modifies this`nread, this`got
      ensures Valid()
      ensures r.Got? <==> !old(ReaderWaits())
      ensures !r.Got? ==> got == old(got) && (r.Interrupted? <==> killed)
      ensures r.Got? ==> got == old(got) + r.bytes
      ensures r.Got? ==> |r.bytes| == if n < |stored| - |old(got)| then n else |stored| - |old(got)|
    {
      WrapCompare(|got|, |stored|);
      if nread == nwrite && writeopen {
        return if killed then Interrupted else Empty;
      }
      var bytes: seq<byte> := [];
      var i := 0;
      while i < n
        invariant Valid() && 0 <= i <= n && |bytes| == i && got == old(got) + bytes
      {
        WrapCompare(|got|, |stored|);
        if nread == nwrite {
          break;
        }
        var b := Take();
        bytes := bytes + [b];
        i := i + 1;
      }
      WrapCompare(|got|, |stored|);
      return Got(bytes);
    }

    /** `pipeclose` under the lock: whoever waits at the other end need wait no longer, nothing else changes, and the
        page is released by the second end to close. */
    method Close(writable: bool) returns (released: bool)
      requires Valid()
      modifies this`readopen, this`writeopen
      ensures Valid()
      ensures if writable then !ReaderWaits() && (WriterWaits() <==> old(WriterWaits()))
              else !WriterWaits() && (ReaderWaits() <==> old(ReaderWaits()))
      ensures writeopen == (old(writeopen) && !writable) && readopen == (old(readopen) && writable)
      ensures released <==> if writable then !old(readopen) else !old(writeopen)
    {
      if writable {
        writeopen := false;
      } else {
        readopen := false;
      }
      released := !readopen && !writeopen;
    }
  }

  lemma Apart(k: nat, n: nat)
    requires k < n < k + PIPESIZE
    ensures k % PIPESIZE != n % PIPESIZE
  {
  }
}
