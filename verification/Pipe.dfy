/**
 * The ring buffer of pipe.c, with its 32-bit counters. A method is what one process does between taking
 * p->lock, or waking up with it, and giving it up; so any order of calls is an interleaving of readers and writers.
 */
module Pipe {
  import opened LittleEndian

  const PIPESIZE := 512

  /** Why a process gives up the lock: it is done, it returns -1, or it sleeps. */
  datatype End = Done | Broken | Asleep

  /** Counter value k as the 32-bit field holds it. */
  function Wrap(k: nat): uint32 { k % U32 }

  function Inc(x: uint32): uint32 { Wrap(x + 1) }

  /** The test of pipewrite for a full pipe. */
  predicate Full(nread: uint32, nwrite: uint32) { nwrite == Wrap(nread + PIPESIZE) }

  /** Byte k of the stream lives at index k modulo PIPESIZE. */
  function Slot(k: nat): (i: nat)
    ensures i < PIPESIZE
  {
    k % PIPESIZE
  }

  /** A wrapped counter still picks the right slot, because PIPESIZE divides 2^32. */
  lemma {:induction false} WrapSlot(k: nat)
    ensures Wrap(k) % PIPESIZE == Slot(k)
    ensures Inc(Wrap(k)) == Wrap(k + 1)
  {
    var q := k / U32;
    assert k == q * U32 + k % U32;
    assert k == (q * (U32 / PIPESIZE)) * PIPESIZE + k % U32;
  }

  /** Within a backlog of PIPESIZE the wrapped counters decide full and empty correctly. */
  lemma {:induction false} WrapTests(r: nat, w: nat)
    requires r <= w <= r + PIPESIZE
    ensures Full(Wrap(r), Wrap(w)) <==> w == r + PIPESIZE
    ensures Wrap(r) == Wrap(w) <==> r == w
  {
  }

  /** Two bytes less than PIPESIZE apart have different slots. */
  lemma {:induction false} SlotsDiffer(j: nat, k: nat)
    requires j < k < j + PIPESIZE
    ensures Slot(j) != Slot(k)
  {
  }

  class Pipe {
    const data: array<byte>
    var nread: uint32
    var nwrite: uint32
    var readopen: bool
    var writeopen: bool
    /** All bytes ever stored and all ever delivered, in order. */
    ghost var stored: seq<byte>
    ghost var delivered: seq<byte>

    ghost predicate Valid()
      reads this, data
    {
      && data.Length == PIPESIZE && delivered <= stored && |stored| <= |delivered| + PIPESIZE
      && nwrite == Wrap(|stored|) && nread == Wrap(|delivered|)
      && forall k: nat :: |delivered| <= k < |stored| ==> data[Slot(k)] == stored[k]
    }

    constructor ()
      ensures Valid() && stored == [] && delivered == [] && readopen && writeopen && fresh(data)
    {
      data := new byte[PIPESIZE];
      nread, nwrite, readopen, writeopen := 0, 0, true, true;
      stored, delivered := [], [];
    }

    /** p->data[p->nwrite++ % PIPESIZE] = b. */
    method Store(b: byte)
      requires Valid() && |stored| < |delivered| + PIPESIZE
      modifies this`nwrite, this`stored, data
      ensures Valid() && stored == old(stored) + [b]
    {
      hide Slot, Wrap, Inc, Full;
      ghost var w := |stored|;
      WrapSlot(w);
      data[nwrite % PIPESIZE] := b;
      nwrite := Inc(nwrite);
      stored := stored + [b];
      forall k: nat | |delivered| <= k < |stored|
        ensures data[Slot(k)] == stored[k]
      {
        if k < w {
          SlotsDiffer(k, w);
        }
      }
    }

    /** addr[i] = p->data[p->nread++ % PIPESIZE]. */
    method Fetch() returns (b: byte)
      requires Valid() && |delivered| < |stored|
      modifies this`nread, this`delivered
      ensures Valid() && delivered == old(delivered) + [b]
    {
      hide Slot, Wrap, Inc, Full;
      WrapSlot(|delivered|);
      b := data[nread % PIPESIZE];
      nread := Inc(nread);
      assert b == stored[|delivered|];
      delivered := delivered + [b];
    }

    /** pipewrite from byte i on, until it returns or sleeps at byte j. */
    method Write(addr: seq<byte>, i: nat, killed: bool) returns (end: End, j: nat)
      requires Valid() && i <= |addr|
      modifies this`nwrite, this`stored, data
      ensures Valid() && i <= j <= |addr| && stored == old(stored) + addr[i..j]
      ensures j == i + Min(|addr| - i, |delivered| + PIPESIZE - |old(stored)|)
      ensures end.Done? <==> j == |addr|
      ensures end.Asleep? <==> j < |addr| && readopen && !killed
    {
      hide Slot, Wrap, Inc, Full;
      j := i;
      end := Done;
      while j < |addr| && end.Done?
        invariant Valid() && i <= j <= |addr| && stored == old(stored) + addr[i..j]
        invariant !end.Done? ==> j < |addr| && |stored| == |delivered| + PIPESIZE
        invariant end.Broken? ==> !readopen || killed
        invariant end.Asleep? ==> readopen && !killed
        decreases |addr| - j, end.Done?
      {
        WrapTests(|delivered|, |stored|);
        if Full(nread, nwrite) {
          end := if !readopen || killed then Broken else Asleep;
        } else {
          Store(addr[j]);
          assert addr[i..j + 1] == addr[i..j] + [addr[j]];
          j := j + 1;
        }
      }
    }

    /** piperead, until it returns with bytes or gives up the lock without any. */
    method Read(n: nat, killed: bool) returns (end: End, bytes: seq<byte>)
      requires Valid()
      modifies this`nread, this`delivered
      ensures Valid() && delivered == old(delivered) + bytes
      ensures end.Done? ==> |bytes| == Min(n, |stored| - |old(delivered)|)
      ensures !end.Done? <==> |old(delivered)| == |stored| && writeopen
      ensures !end.Done? ==> bytes == [] && (end.Broken? <==> killed)
    {
      hide Slot, Wrap, Inc, Full;
      bytes := [];
      end := Done;
      WrapTests(|delivered|, |stored|);
      if nread == nwrite && writeopen {
        end := if killed then Broken else Asleep;
      } else {
        var i := 0;
        while i < n && nread != nwrite
          invariant Valid() && i == |bytes| <= n && delivered == old(delivered) + bytes
        {
          WrapTests(|delivered|, |stored|);
          var b := Fetch();
          bytes := bytes + [b];
          i := i + 1;
        }
        WrapTests(|delivered|, |stored|);
      }
    }

    /** pipeclose. The page is freed once both ends are closed. */
    method Close(writable: bool) returns (freed: bool)
      requires Valid()
      modifies this`readopen, this`writeopen
      ensures Valid() && (freed <==> !readopen && !writeopen)
      ensures writeopen == (old(writeopen) && !writable) && readopen == (old(readopen) && writable)
    {
      if writable {
        writeopen := false;
      } else {
        readopen := false;
      }
      freed := !readopen && !writeopen;
    }
  }
}
