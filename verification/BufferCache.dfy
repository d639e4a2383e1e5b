/**
 bio.c: a fixed pool of buffers on a doubly linked ring, most recently released
 first.  Buffers are named by their index in bcache.buf and the list head by
 HEAD, so `next` and `prev` are the C pointers.  One method is one critical
 section under bcache.lock, plus the acquiresleep that follows it.
 */
module BufferCache {
  import opened Base
  import opened Bytes
  import opened RedoLog

  const HEAD: nat := NBUF      // &bcache.head
  const ROOTDEV: nat := 1

  datatype Buf = Buf(dev: nat, blockno: nat, valid: bool, dirty: bool, refcnt: nat, locked: bool, data: Block)

  // ----- the ring -----

  /** Position i of the cycle head, ring[0], ..., ring[n-1], head. */
  function At(ring: seq<nat>, i: nat): nat
    requires i <= |ring| + 1
  {
    if i == 0 || i == |ring| + 1 then HEAD else ring[i - 1]
  }

  ghost predicate Linked(ring: seq<nat>, next: seq<nat>, prev: seq<nat>) {
    && |next| == |prev| == NBUF + 1
    && (forall i :: 0 <= i <= NBUF ==> next[i] <= NBUF && prev[i] <= NBUF)
    && (forall i :: 0 <= i < |ring| ==> ring[i] < NBUF)
    && Distinct(ring)
    && forall i {:trigger At(ring, i)} :: 0 <= i <= |ring| ==> next[At(ring, i)] == At(ring, i + 1) && prev[At(ring, i + 1)] == At(ring, i)
  }

  /** The ring holds every buffer. */
  ghost predicate Complete(ring: seq<nat>) {
    forall b: nat :: b < NBUF ==> b in ring
  }

  /** The four assignments that put b at the front. */
  lemma PushFront(ring: seq<nat>, next: seq<nat>, prev: seq<nat>, b: nat)
    requires Linked(ring, next, prev) && b < NBUF && b !in ring
    ensures Linked([b] + ring, next[b := next[HEAD]][HEAD := b], prev[b := HEAD][next[HEAD] := b])
  {
    var r, n, p := [b] + ring, next[b := next[HEAD]][HEAD := b], prev[b := HEAD][next[HEAD] := b];
    assert next[HEAD] == At(ring, 1) by { assert At(ring, 0) == HEAD; }
    forall i | 0 <= i <= |r| ensures n[At(r, i)] == At(r, i + 1) && p[At(r, i + 1)] == At(r, i) {
      if i >= 2 { assert At(r, i) == At(ring, i - 1) && At(r, i + 1) == At(ring, i); }
    }
  }

  function Without(ring: seq<nat>, k: nat): seq<nat>
    requires k < |ring|
  {
    ring[..k] + ring[k + 1..]
  }

  lemma WithoutKeeps(ring: seq<nat>, k: nat)
    requires k < |ring| && Complete(ring)
    ensures Complete([ring[k]] + Without(ring, k))
  {
    forall c: nat | c < NBUF ensures c in [ring[k]] + Without(ring, k) {
      assert c in ring;
      var j :| 0 <= j < |ring| && ring[j] == c;
      if j != k { assert Without(ring, k)[if j < k then j else j - 1] == c; }
    }
  }

  /** The two assignments that take ring[k] out. */
  lemma Unlink(ring: seq<nat>, next: seq<nat>, prev: seq<nat>, k: nat)
    requires Linked(ring, next, prev) && k < |ring|
    ensures var b := ring[k];
            Linked(Without(ring, k), next[prev[b] := next[b]], prev[next[b] := prev[b]])
  {
    var b, r := ring[k], Without(ring, k);
    assert b == At(ring, k + 1) && prev[b] == At(ring, k) && next[b] == At(ring, k + 2);
    var n, p := next[prev[b] := next[b]], prev[next[b] := prev[b]];
    forall i | 0 <= i <= |r| ensures n[At(r, i)] == At(r, i + 1) && p[At(r, i + 1)] == At(r, i) {
      if i < k {
        assert At(r, i) == At(ring, i) && At(r, i + 1) == At(ring, i + 1);
      } else if i == k {
        assert At(r, i) == At(ring, k) && At(r, i + 1) == At(ring, k + 2);
      } else {
        assert At(r, i) == At(ring, i + 1) && At(r, i + 1) == At(ring, i + 2);
      }
    }
  }

  /** brelse's six assignments, in order. */
  lemma MoveLinks(ring: seq<nat>, next: seq<nat>, prev: seq<nat>, k: nat)
    requires Linked(ring, next, prev) && k < |ring|
    ensures var b := ring[k];
            var p1 := prev[next[b] := prev[b]];
            && p1[b] <= NBUF
            && var n1 := next[p1[b] := next[b]];
               var n2 := n1[b := n1[HEAD]];
               Linked([b] + Without(ring, k), n2[HEAD := b], p1[b := HEAD][n2[HEAD] := b])
  {
    var b := ring[k];
    assert b == At(ring, k + 1) && prev[b] == At(ring, k) && next[b] == At(ring, k + 2);
    Unlink(ring, next, prev, k);
    PushFront(Without(ring, k), next[prev[b] := next[b]], prev[next[b] := prev[b]], b);
  }

  /** Stamping the moved buffer with the current time keeps the ring in order of release. */
  lemma WithoutOrder(ring: seq<nat>, k: nat, stamp: seq<nat>, clock: nat)
    requires k < |ring| && |stamp| == NBUF && Distinct(ring)
    requires forall i :: 0 <= i < |ring| ==> ring[i] < NBUF
    requires forall i, j :: 0 <= i < j < |ring| ==> stamp[ring[j]] < stamp[ring[i]]
    requires forall i :: 0 <= i < NBUF ==> stamp[i] < clock
    ensures var r, s := [ring[k]] + Without(ring, k), stamp[ring[k] := clock];
            && (forall i :: 0 <= i < |r| ==> r[i] < NBUF)
            && forall i, j :: 0 <= i < j < |r| ==> s[r[j]] < s[r[i]]
  {
  }

  // ----- what the cache says is on the disk -----

  predicate Is(x: Buf, dev: nat, blockno: nat) {
    x.dev == dev && x.blockno == blockno
  }

  predicate Holds(x: Buf, b: nat) {
    x.dev == ROOTDEV && x.blockno == b && x.valid
  }

  ghost predicate Unique(buf: seq<Buf>) {
    forall i, j :: 0 <= i < j < |buf| && buf[i].dev != 0 && buf[i].dev == buf[j].dev ==> buf[i].blockno != buf[j].blockno
  }

  /** A clean buffer nobody holds is a copy of the disk. */
  ghost predicate Coherent(buf: seq<Buf>, disk: Disk) {
    forall i :: 0 <= i < |buf| && buf[i].valid ==>
      && buf[i].dev == ROOTDEV && buf[i].blockno < |disk|
      && (!buf[i].dirty && !buf[i].locked ==> buf[i].data == disk[buf[i].blockno])
  }

  /** The logical disk: a cached block's contents are its buffer's. */
  ghost function ViewAt(buf: seq<Buf>, disk: Disk, b: nat): Block
    requires b < |disk|
  {
    if exists i :: 0 <= i < |buf| && Holds(buf[i], b) then
      var i :| 0 <= i < |buf| && Holds(buf[i], b); buf[i].data
    else disk[b]
  }

  ghost function View(buf: seq<Buf>, disk: Disk): Disk {
    seq(|disk|, b requires 0 <= b < |disk| => ViewAt(buf, disk, b))
  }

  lemma ViewCached(buf: seq<Buf>, disk: Disk, i: nat)
    requires Unique(buf) && i < |buf| && buf[i].valid && buf[i].dev == ROOTDEV && buf[i].blockno < |disk|
    ensures View(buf, disk)[buf[i].blockno] == buf[i].data
  {
    assert Holds(buf[i], buf[i].blockno);
  }

  lemma ViewMissing(buf: seq<Buf>, disk: Disk, b: nat)
    requires b < |disk| && forall i :: 0 <= i < |buf| ==> !Holds(buf[i], b)
    ensures View(buf, disk)[b] == disk[b]
  {
  }

  /**
   Replacing buffer i by x, and perhaps the disk under it, keeps the logical
   disk: a block the buffer stops holding must be on the disk, a block it starts
   holding must be a copy of the disk, and a block it goes on holding keeps its data.
   */
  lemma KeepsView(buf: seq<Buf>, disk: Disk, i: nat, x: Buf, disk': Disk)
    requires i < |buf| && Unique(buf) && Unique(buf[i := x]) && |disk| == |disk'|
    requires forall b :: 0 <= b < |disk| ==> Holds(buf[i], b) || disk'[b] == disk[b]
    requires forall b :: 0 <= b < |disk| && Holds(buf[i], b) ==> buf[i].data == if Holds(x, b) then x.data else disk'[b]
    requires forall b :: 0 <= b < |disk| && Holds(x, b) && !Holds(buf[i], b) ==>
               x.data == disk[b] && forall k :: 0 <= k < |buf| ==> !Holds(buf[k], b)
    ensures View(buf[i := x], disk') == View(buf, disk)
  {
    var buf' := buf[i := x];
    forall b: nat | b < |disk| ensures View(buf', disk')[b] == View(buf, disk)[b] {
      if Holds(buf[i], b) {
        ViewCached(buf, disk, i);
        if Holds(x, b) {
          ViewCached(buf', disk', i);
        } else {
          ViewMissing(buf', disk', b);
        }
      } else if Holds(x, b) {
        ViewCached(buf', disk', i);
        ViewMissing(buf, disk, b);
      } else if k :| 0 <= k < |buf| && Holds(buf[k], b) {
        assert buf'[k] == buf[k];
        ViewCached(buf, disk, k);
        ViewCached(buf', disk', k);
      } else {
        ViewMissing(buf, disk, b);
        ViewMissing(buf', disk', b);
      }
    }
  }

  /** New data in a cached block changes that block of the logical disk and no other. */
  lemma FillView(buf: seq<Buf>, disk: Disk, i: nat, data: Block)
    requires i < |buf| && Unique(buf) && Holds(buf[i], buf[i].blockno) && buf[i].blockno < |disk|
    ensures View(buf[i := buf[i].(data := data)], disk) == View(buf, disk)[buf[i].blockno := data]
  {
    var buf' := buf[i := buf[i].(data := data)];
    forall b: nat | b < |disk| ensures View(buf', disk)[b] == View(buf, disk)[buf[i].blockno := data][b] {
      if b == buf[i].blockno {
        ViewCached(buf', disk, i);
      } else if k :| 0 <= k < |buf| && Holds(buf[k], b) {
        assert buf'[k] == buf[k];
        ViewCached(buf, disk, k);
        ViewCached(buf', disk, k);
      } else {
        ViewMissing(buf, disk, b);
        ViewMissing(buf', disk, b);
      }
    }
  }

  /** Free to be recycled: unreferenced and not pinned by the log. */
  predicate Recyclable(x: Buf) {
    x.refcnt == 0 && !x.dirty
  }

  /** bget finds a buffer: the block is cached, or some buffer may be recycled. */
  ghost predicate CanGet(buf: seq<Buf>, dev: nat, blockno: nat) {
    exists i: nat :: i < |buf| && (Is(buf[i], dev, blockno) || Recyclable(buf[i]))
  }

  class Cache {
    var disk: Disk
    ghost var trace: seq<Write>      // every block write issued, oldest first
    var buf: seq<Buf>
    var next: seq<nat>
    var prev: seq<nat>
    ghost var ring: seq<nat>
    ghost var stamp: seq<nat>        // when each buffer was last put at the front
    ghost var clock: nat

    ghost predicate Valid()
      reads this
    {
      Sound() && Coherent(buf, disk)
    }

    /** Everything but the agreement of clean buffers with the disk. */
    ghost predicate Sound()
      reads this
    {
      && |buf| == NBUF && RingValid()
      && Unique(buf)
      && forall i :: 0 <= i < NBUF && buf[i].locked ==> buf[i].refcnt > 0
    }

    /** The ring is a permutation of all buffers, most recently released first. */
    ghost predicate RingValid()
      reads `next, `prev, `ring, `stamp, `clock
    {
      && |stamp| == NBUF
      && Linked(ring, next, prev) && Complete(ring)
      && (forall i, j :: 0 <= i < j < |ring| ==> stamp[ring[j]] < stamp[ring[i]])
      && (forall i :: 0 <= i < NBUF ==> stamp[i] < clock)
    }

    ghost function Logical(): Disk
      reads this
    {
      View(buf, disk)
    }

    /** binit: an empty ring, then each buffer pushed to the front. */
    constructor (disk: Disk)
      ensures Valid() && this.disk == disk && Logical() == disk && trace == []
      ensures forall i :: 0 <= i < NBUF ==> Recyclable(buf[i])
    {
      this.disk := disk;
      trace := [];
      buf := seq(NBUF, _ => Buf(0, 0, false, false, 0, false, ZeroBlock));
      next := seq(NBUF + 1, _ => HEAD);
      prev := seq(NBUF + 1, _ => HEAD);
      ring := [];
      stamp := seq(NBUF, i => i);
      clock := NBUF;
      new;
      var b := 0;
      while b < NBUF
        invariant b <= NBUF
        invariant Linked(ring, next, prev) && |ring| == b
        invariant forall i :: 0 <= i < b ==> ring[i] == b - 1 - i
        invariant this.disk == disk && trace == [] && clock == NBUF
        invariant buf == seq(NBUF, _ => Buf(0, 0, false, false, 0, false, ZeroBlock))
        invariant stamp == seq(NBUF, i => i)
      {
        PushFront(ring, next, prev, b);
        next := next[b := next[HEAD]];
        prev := prev[b := HEAD];
        prev := prev[next[HEAD] := b];
        next := next[HEAD := b];
        ring := [b] + ring;
        b := b + 1;
      }
      forall c: nat | c < NBUF ensures c in ring { assert ring[NBUF - 1 - c] == c; }
      assert Logical() == disk;
    }

    /** bget's forward scan: the buffer that caches the block, or HEAD when none does. */
    method Lookup(dev: nat, blockno: nat) returns (b: nat)
      requires Valid()
      ensures b <= NBUF
      ensures if b < NBUF then Is(buf[b], dev, blockno)
              else forall i: nat :: i < NBUF ==> !Is(buf[i], dev, blockno)
    {
      hide Unique; hide Coherent;
      ghost var k := 1;
      assert At(ring, 0) == HEAD;
      b := next[HEAD];
      while b != HEAD && !(buf[b].dev == dev && buf[b].blockno == blockno)
        invariant 1 <= k <= |ring| + 1 && b == (if k <= |ring| then ring[k - 1] else HEAD)
        invariant forall i :: 0 <= i < k - 1 ==> !Is(buf[ring[i]], dev, blockno)
        decreases |ring| + 1 - k
      {
        assert b == At(ring, k);
        k := k + 1;
        b := next[b];
      }
      if b == HEAD {
        forall i: nat | i < NBUF ensures !Is(buf[i], dev, blockno) { assert i in ring; }
      }
    }

    /** bget's backward scan: the least recently released recyclable buffer, or HEAD when there is none. */
    method Victim() returns (b: nat)
      requires Valid()
      ensures b <= NBUF
      ensures if b < NBUF
              then Recyclable(buf[b]) && forall i: nat :: i < NBUF && Recyclable(buf[i]) ==> stamp[b] <= stamp[i]
              else forall i: nat :: i < NBUF ==> !Recyclable(buf[i])
    {
      hide Unique; hide Coherent;
      ghost var k := |ring|;
      assert At(ring, |ring| + 1) == HEAD && At(ring, |ring|) == prev[HEAD];
      b := prev[HEAD];
      while b != HEAD && !(buf[b].refcnt == 0 && !buf[b].dirty)
        invariant 0 <= k <= |ring| && b == (if k > 0 then ring[k - 1] else HEAD)
        invariant forall i :: k <= i < |ring| ==> !Recyclable(buf[ring[i]])
        decreases k
      {
        assert b == At(ring, k) && At(ring, k - 1) == prev[b];
        k := k - 1;
        b := prev[b];
      }
      forall i: nat | i < NBUF && Recyclable(buf[i]) ensures b < NBUF && stamp[b] <= stamp[i] {
        assert i in ring;
        var j :| 0 <= j < |ring| && ring[j] == i;
        assert j < k;
      }
    }

    /** bget: the cached buffer, or else the least recently released one that may be recycled. */
    method Bget(dev: nat, blockno: nat) returns (ok: bool, b: nat)
      requires Valid() && dev != 0
      requires forall i: nat :: i < NBUF && Is(buf[i], dev, blockno) ==> !buf[i].locked
      modifies this`buf
      ensures Valid() && Logical() == old(Logical())
      ensures ok <==> CanGet(old(buf), dev, blockno)
      ensures !ok ==> buf == old(buf)
      ensures ok ==> b < NBUF
      ensures ok ==>
                if Is(old(buf)[b], dev, blockno)
                then buf == old(buf)[b := old(buf)[b].(refcnt := old(buf)[b].refcnt + 1, locked := true)]
                else
                  && (forall i: nat :: i < NBUF ==> !Is(old(buf)[i], dev, blockno))
                  && Recyclable(old(buf)[b])
                  && (forall i: nat :: i < NBUF && Recyclable(old(buf)[i]) ==> stamp[b] <= stamp[i])
                  && buf == old(buf)[b := Buf(dev, blockno, false, false, 1, true, old(buf)[b].data)]
    {
      b := Lookup(dev, blockno);
      ok := true;
      if b != HEAD {
        buf := buf[b := buf[b].(refcnt := buf[b].refcnt + 1, locked := true)];
      } else {
        b := Victim();
        if b == HEAD {
          ok := false;   // panic("bget: no buffers")
          return;
        }
        buf := buf[b := Buf(dev, blockno, false, false, 1, true, buf[b].data)];
      }
      KeepsView(old(buf), disk, b, buf[b], disk);
    }

    /** bread: a locked buffer with the block's logical contents; the logical disk is unchanged. */
    method Bread(blockno: nat) returns (ok: bool, b: nat)
      requires Valid() && blockno < |disk|
      requires forall i: nat :: i < NBUF && Is(buf[i], ROOTDEV, blockno) ==> !buf[i].locked
      modifies this`buf
      ensures Valid() && Logical() == old(Logical())
      ensures ok <==> CanGet(old(buf), ROOTDEV, blockno)
      ensures !ok ==> buf == old(buf)
      ensures ok ==>
        && b < NBUF && Holds(buf[b], blockno) && buf[b].locked
        && buf[b].data == Logical()[blockno]
        && (if Is(old(buf)[b], ROOTDEV, blockno)
            then buf[b].refcnt == old(buf)[b].refcnt + 1 && buf[b].dirty == old(buf)[b].dirty
            else Recyclable(old(buf)[b]) && buf[b].refcnt == 1 && !buf[b].dirty)
        && (!buf[b].dirty ==> buf[b].data == disk[blockno])
        && buf == old(buf)[b := buf[b]]
    {
      hide RingValid; hide ViewAt; hide CanGet;
      ok, b := Bget(ROOTDEV, blockno);
      if !ok { return; }
      if !buf[b].valid {
        // iderw: not dirty, so read
        label beforeRead:
        buf := buf[b := buf[b].(data := disk[blockno], valid := true)];
        KeepsView(old@beforeRead(buf), disk, b, buf[b], disk);
      }
      ViewCached(buf, disk, b);
    }

    /** memmove into b->data by the holder of the buffer. */
    method Fill(b: nat, data: Block)
      requires Valid() && b < NBUF && buf[b].locked && buf[b].valid
      modifies this`buf
      ensures Valid()
      ensures buf == old(buf)[b := old(buf)[b].(data := data)]
      ensures Logical() == old(Logical())[buf[b].blockno := data]
    {
      buf := buf[b := buf[b].(data := data)];
      FillView(old(buf), disk, b, data);
    }

    /** bwrite: the buffer's block reaches the disk and the buffer is clean. */
    method Bwrite(b: nat)
      requires Valid() && b < NBUF && buf[b].locked && buf[b].valid
      modifies this`buf, this`disk, this`trace
      ensures Valid()
      ensures disk == old(disk)[old(buf)[b].blockno := old(buf)[b].data]
      ensures trace == old(trace) + [Write(old(buf)[b].blockno, old(buf)[b].data)]
      ensures buf == old(buf)[b := old(buf)[b].(dirty := false)]
      ensures Logical() == old(Logical())
    {
      // iderw: dirty, so write, then mark valid and clean
      disk := disk[buf[b].blockno := buf[b].data];
      trace := trace + [Write(buf[b].blockno, buf[b].data)];
      buf := buf[b := buf[b].(dirty := false)];
      KeepsView(old(buf), old(disk), b, buf[b], disk);
    }

    /** log_write's B_DIRTY: pins the buffer. */
    method Pin(b: nat)
      requires Valid() && b < NBUF && buf[b].locked
      modifies this`buf
      ensures Valid()
      ensures buf == old(buf)[b := old(buf)[b].(dirty := true)]
      ensures Logical() == old(Logical())
    {
      buf := buf[b := buf[b].(dirty := true)];
      KeepsView(old(buf), disk, b, buf[b], disk);
    }

    /** The pointer surgery of brelse: b becomes the most recently released buffer. */
    method MoveToFront(b: nat)
      requires RingValid() && b < NBUF
      modifies `next, `prev, `ring, `stamp, `clock
      ensures RingValid()
      ensures exists k: nat :: k < |old(ring)| && old(ring)[k] == b && ring == [b] + Without(old(ring), k)
      ensures stamp == old(stamp)[b := old(clock)]
    {
      assert b in ring;
      ghost var k: nat :| k < |ring| && ring[k] == b;
      MoveLinks(ring, next, prev, k);
      WithoutKeeps(ring, k);
      WithoutOrder(ring, k, stamp, clock);
      prev := prev[next[b] := prev[b]];
      next := next[prev[b] := next[b]];
      next := next[b := next[HEAD]];
      prev := prev[b := HEAD];
      prev := prev[next[HEAD] := b];
      next := next[HEAD := b];
      ring := [b] + Without(ring, k);
      stamp := stamp[b := clock];
      clock := clock + 1;
    }

    /**
     brelse: unlock; the last reference moves the buffer to the front of the ring.
     The cache stays coherent exactly when a change has been written or logged.
     */
    method Brelse(b: nat)
      requires Valid() && b < NBUF && buf[b].locked && buf[b].valid
      modifies `buf, `next, `prev, `ring, `stamp, `clock
      ensures Sound() && Logical() == old(Logical())
      ensures Valid() <==> old(buf)[b].dirty || old(buf)[b].data == disk[old(buf)[b].blockno]
      ensures buf == old(buf)[b := old(buf)[b].(refcnt := old(buf)[b].refcnt - 1, locked := false)]
      ensures stamp == if old(buf)[b].refcnt == 1 then old(stamp)[b := old(clock)] else old(stamp)
      ensures forall i :: 0 <= i < NBUF && i != b && old(buf)[b].refcnt == 1 ==> stamp[i] < stamp[b]
    {
      buf := buf[b := buf[b].(locked := false, refcnt := buf[b].refcnt - 1)];
      KeepsView(old(buf), disk, b, buf[b], disk);
      if !buf[b].dirty && Coherent(buf, disk) { assert buf[b].valid; }
      if buf[b].refcnt == 0 {
        MoveToFront(b);
      }
    }
  }
}
