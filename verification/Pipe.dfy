/**
 pipe.c. p->lock is held between sleep points, so each method below is one
 stretch from taking the lock to sleeping or returning; any number of readers
 and writers call them in any order.
 */
module Pipe {
  import opened Base
  import opened Bytes

  const PIPESIZE: nat := 512

  datatype Outcome = Finished | Sleeps | Failed

  /** The ring index of byte k. */
  lemma RingIndex(k: nat)
    ensures k % WRAP % PIPESIZE == k % PIPESIZE
  {
    assert k == k / WRAP * WRAP + k % WRAP;
    assert k / WRAP * WRAP == k / WRAP * 0x80_0000 * PIPESIZE;
    SameRemainder(k / WRAP * 0x80_0000, k % WRAP);
  }

  lemma SameRemainder(a: nat, b: nat)
    ensures (a * 512 + b) % 512 == b % 512
  {
    var q := b / 512;
    assert a * 512 + b == (a + q) * 512 + b % 512;
  }

  /** Two bytes in flight never share a cell. */
  lemma CellsDiffer(j: nat, k: nat)
    requires j < k < j + PIPESIZE
    ensures j % PIPESIZE != k % PIPESIZE
  {
  }

  class PipeBuf {
    const data: array<byte>
    var nread: word
    var nwrite: word
    var readopen: bool
    var writeopen: bool
    ghost var sent: seq<byte>        // every byte accepted, in order
    ghost var got: seq<byte>         // every byte delivered, in order

    /** Delivered bytes are a prefix of accepted ones, and those between, at most PIPESIZE, are in the ring. */
    ghost predicate Valid()
      reads this, data
    {
      && data.Length == PIPESIZE && |got| <= |sent| <= |got| + PIPESIZE && got == sent[..|got|]
      && nread == |got| % WRAP && nwrite == |sent| % WRAP
      && forall k :: |got| <= k < |sent| ==> data[k % PIPESIZE] == sent[k]
    }

    constructor ()
      ensures Valid() && sent == got == [] && readopen && writeopen && fresh(data)
    {
      data := new byte[PIPESIZE];
      readopen, writeopen, nwrite, nread := true, true, 0, 0;
      sent, got := [], [];
    }

    /** The test for a full ring works across the counters' wrap-around. */
    lemma FullTest()
      requires Valid()
      ensures nwrite == (nread + PIPESIZE) % WRAP <==> |sent| == |got| + PIPESIZE
      ensures nread == nwrite <==> |sent| == |got|
    {
      var a, b := |got| / WRAP, |sent| / WRAP;
      assert |sent| == b * WRAP + nwrite && |got| == a * WRAP + nread;
      assert b == a || b == a + 1;
    }

    /** pipewrite from byte i on, until it is done, must sleep, or fails. */
    method Write(addr: seq<byte>, start: nat, killed: bool) returns (i: nat, out: Outcome)
      requires Valid() && start <= |addr|
      modifies this, data
      ensures Valid() && start <= i <= |addr| && sent == old(sent) + addr[start..i] && got == old(got)
      ensures readopen == old(readopen) && writeopen == old(writeopen)
      ensures out.Finished? <==> i == |addr|
      ensures got <= sent && |sent| <= |got| + PIPESIZE
      ensures !out.Finished? ==> |sent| == |got| + PIPESIZE && (out.Failed? <==> !readopen || killed)
    {
      i := start;
      assert addr[start..start] == [];
      while i < |addr|
        invariant Valid() && start <= i <= |addr| && sent == old(sent) + addr[start..i] && got == old(got)
        invariant readopen == old(readopen) && writeopen == old(writeopen)
      {
        FullTest();
        if nwrite == (nread + PIPESIZE) % WRAP {
          return i, if !readopen || killed then Failed else Sleeps;
        }
        Put(addr[i]);
        assert addr[start..i + 1] == addr[start..i] + [addr[i]];
        i := i + 1;
      }
      out := Finished;
    }

    method Put(b: byte)
      requires Valid() && |sent| < |got| + PIPESIZE
      modifies `nwrite, `sent, data
      ensures Valid() && sent == old(sent) + [b] && got == old(got)
    {
      RingIndex(|sent|);
      forall k | |got| <= k < |sent| ensures k % PIPESIZE != |sent| % PIPESIZE {
        CellsDiffer(k, |sent|);
      }
      data[nwrite % PIPESIZE] := b;
      NextCount(|sent|);
      nwrite := (nwrite + 1) % WRAP;
      sent := sent + [b];
    }

    method Take() returns (b: byte)
      requires Valid() && |got| < |sent|
      modifies `nread, `got
      ensures Valid() && got == old(got) + [b] && sent == old(sent) && b == sent[|old(got)|]
    {
      RingIndex(|got|);
      b := data[nread % PIPESIZE];
      NextCount(|got|);
      nread := (nread + 1) % WRAP;
      got := got + [b];
    }

    /** piperead: sleeps on an empty open pipe, else delivers the next bytes in order, as many as asked for and there. */
    method Read(n: nat, killed: bool) returns (addr: seq<byte>, out: Outcome)
      requires Valid()
      modifies this
      ensures Valid() && sent == old(sent) && got == old(got) + addr && readopen == old(readopen)
      ensures writeopen == old(writeopen)
      ensures out.Finished? <==> old(|got| < |sent|) || !writeopen
      ensures !out.Finished? ==> addr == [] && (out.Failed? <==> killed)
      ensures out.Finished? ==> |addr| == if n < |sent| - |old(got)| then n else |sent| - |old(got)|
      ensures got <= sent && addr == sent[|old(got)|..|old(got)| + |addr|]
    {
      addr := [];
      FullTest();
      if nread == nwrite && writeopen {
        return [], if killed then Failed else Sleeps;
      }
      var i := 0;
      while i < n
        invariant 0 <= i <= n && Valid() && sent == old(sent) && got == old(got) + addr && |addr| == i
        invariant addr == sent[|old(got)|..|old(got)| + i]
        invariant readopen == old(readopen) && writeopen == old(writeopen)
      {
        FullTest();
        if nread == nwrite {
          break;
        }
        var b := Take();
        addr := addr + [b];
        i := i + 1;
      }
      out := Finished;
    }

    /** pipeclose drops one end; what is in flight stays. */
    method Close(writable: bool)
      requires Valid()
      modifies `readopen, `writeopen
      ensures Valid() && sent == old(sent) && got == old(got)
      ensures if writable then !writeopen && readopen == old(readopen) else !readopen && writeopen == old(writeopen)
    {
      if writable {
        writeopen := false;
      } else {
        readopen := false;
      }
    }
  }

  lemma NextCount(k: nat)
    ensures (k % WRAP + 1) % WRAP == (k + 1) % WRAP
  {
  }
}
