/**
 The buffer cache as one process uses it between its breads and brelses: which
 buffers it holds, which buffers other processes hold or wait for, which blocks
 the log has pinned, and the logical disk.
 */
module CacheSession {
  import opened Base
  import opened Bytes
  import opened RedoLog
  import opened BufferCache

  ghost function DirtyBlocks(buf: seq<Buf>): set<nat> {
    set i | 0 <= i < |buf| && buf[i].dirty :: buf[i].blockno
  }

  /** The pinned buffers are exactly those of the logged blocks. */
  ghost predicate Pins(buf: seq<Buf>, s: set<nat>) {
    && (forall i :: 0 <= i < |buf| && buf[i].dirty ==> buf[i].valid && buf[i].dev == ROOTDEV)
    && DirtyBlocks(buf) == s
  }

  /** The references other processes have to a buffer: of which block, how many, and whether one holds the lock. */
  datatype Ref = Ref(block: nat, count: nat, locked: bool)

  /** The running process holds exactly the buffers in H, and the others have exactly the references in O. */
  ghost predicate Held(buf: seq<Buf>, H: map<nat, nat>, O: map<nat, Ref>) {
    && (forall i :: i in H ==> 0 <= i < |buf| && Holds(buf[i], H[i]))
    && (forall i :: i in O ==> 0 <= i < |buf| && Is(buf[i], ROOTDEV, O[i].block) && O[i].count > 0)
    && (forall i :: i in O && O[i].locked ==> i !in H)
    && (forall i :: 0 <= i < |buf| ==> References(buf[i], i in H, if i in O then O[i] else Ref(0, 0, false)))
  }

  predicate References(x: Buf, mine: bool, other: Ref) {
    && x.refcnt == (if mine then 1 else 0) + other.count
    && (x.locked <==> mine || other.locked)
  }

  ghost function OtherBlocks(O: map<nat, Ref>): set<nat> {
    set i | i in O :: O[i].block
  }

  /** The blocks whose buffers cannot be recycled. */
  ghost function BusyBlocks(buf: seq<Buf>): set<nat> {
    set i | 0 <= i < |buf| && !Recyclable(buf[i]) :: buf[i].blockno
  }

  ghost predicate BusyOnRoot(buf: seq<Buf>) {
    Unique(buf) && forall i :: 0 <= i < |buf| && !Recyclable(buf[i]) ==> buf[i].dev == ROOTDEV
  }

  /** Distinct busy buffers hold distinct blocks, so one more busy buffer is one more block. */
  lemma BusyStep(buf: seq<Buf>)
    requires buf != [] && BusyOnRoot(buf)
    ensures var rest, last := buf[..|buf| - 1], buf[|buf| - 1];
            && BusyOnRoot(rest)
            && |BusyBlocks(buf)| == |BusyBlocks(rest)| + if Recyclable(last) then 0 else 1
  {
    var rest, last := buf[..|buf| - 1], buf[|buf| - 1];
    assert forall i :: 0 <= i < |rest| ==> rest[i] == buf[i];
    assert BusyBlocks(buf) == BusyBlocks(rest) + if Recyclable(last) then {} else {last.blockno};
    assert !Recyclable(last) ==> last.blockno !in BusyBlocks(rest);
  }

  /** As many blocks as buffers are busy exactly when every buffer is. */
  lemma {:induction false} BusyCount(buf: seq<Buf>)
    requires BusyOnRoot(buf)
    ensures |BusyBlocks(buf)| <= |buf|
    ensures |BusyBlocks(buf)| == |buf| <==> forall i :: 0 <= i < |buf| ==> !Recyclable(buf[i])
  {
    if buf == [] {
      assert BusyBlocks(buf) == {};
    } else {
      BusyStep(buf);
      BusyCount(buf[..|buf| - 1]);
    }
  }

  /** The busy blocks are those pinned, those held and those other processes refer to. */
  lemma BusyIs(buf: seq<Buf>, H: map<nat, nat>, O: map<nat, Ref>, s: set<nat>)
    requires Held(buf, H, O) && Pins(buf, s) && Unique(buf)
    ensures BusyOnRoot(buf) && BusyBlocks(buf) == s + H.Values + OtherBlocks(O)
  {
    forall i | 0 <= i < |buf| && !Recyclable(buf[i])
      ensures buf[i].dev == ROOTDEV && buf[i].blockno in s + H.Values + OtherBlocks(O)
    {
      if buf[i].dirty {
        assert buf[i].blockno in DirtyBlocks(buf);
      } else if i in H {
        assert H[i] in H.Values;
      } else {
        assert i in O;
      }
    }
    forall b | b in H.Values ensures b in BusyBlocks(buf) {
      var i :| i in H && H[i] == b;
      assert !Recyclable(buf[i]);
    }
    forall b | b in OtherBlocks(O) ensures b in BusyBlocks(buf) {
      var i :| i in O && O[i].block == b;
      assert !Recyclable(buf[i]);
    }
    forall b | b in s ensures b in BusyBlocks(buf) {
      var i :| 0 <= i < |buf| && buf[i].dirty && buf[i].blockno == b;
      assert !Recyclable(buf[i]);
    }
  }

  /** Changing one buffer changes only its own contribution. */
  lemma PinsUpdate(buf: seq<Buf>, s: set<nat>, i: nat, x: Buf)
    requires i < |buf| && Pins(buf, s) && Unique(buf)
    requires x.dirty ==> x.valid && x.dev == ROOTDEV
    ensures Pins(buf[i := x], (if buf[i].dirty then s - {buf[i].blockno} else s) + (if x.dirty then {x.blockno} else {}))
  {
    var t := (if buf[i].dirty then s - {buf[i].blockno} else s) + (if x.dirty then {x.blockno} else {});
    var buf' := buf[i := x];
    forall b | b in t ensures b in DirtyBlocks(buf') {
      if x.dirty && b == x.blockno {
        assert buf'[i] == x;
      } else {
        var j :| 0 <= j < |buf| && buf[j].dirty && buf[j].blockno == b;
        assert buf'[j] == buf[j];
      }
    }
    forall b | b in DirtyBlocks(buf') ensures b in t {
      var j :| 0 <= j < |buf'| && buf'[j].dirty && buf'[j].blockno == b;
      if j != i { assert buf[j].dirty && buf[j].blockno in s; }
    }
  }

  /** A file-system buffer is dirty exactly when its block is pinned. */
  lemma PinnedBuffer(buf: seq<Buf>, s: set<nat>, i: nat)
    requires Unique(buf) && Pins(buf, s) && i < |buf| && buf[i].dev == ROOTDEV
    ensures buf[i].dirty <==> buf[i].blockno in s
  {
    if !buf[i].dirty && buf[i].blockno in s {
      var j :| 0 <= j < |buf| && buf[j].dirty && buf[j].blockno == buf[i].blockno;
      assert false;
    }
  }

  /** bget finds a buffer for block b exactly when the block is busy already or some buffer is not. */
  lemma Available(buf: seq<Buf>, H: map<nat, nat>, O: map<nat, Ref>, s: set<nat>, b: nat)
    requires Unique(buf) && Held(buf, H, O) && Pins(buf, s)
    ensures CanGet(buf, ROOTDEV, b) <==>
            b in s + H.Values + OtherBlocks(O) || |s + H.Values + OtherBlocks(O)| < |buf|
  {
    hide Held; hide Pins; hide OtherBlocks;
    BusyIs(buf, H, O, s);
    BusyCount(buf);
    if b in BusyBlocks(buf) {
      var j :| 0 <= j < |buf| && !Recyclable(buf[j]) && buf[j].blockno == b;
      assert Is(buf[j], ROOTDEV, b);
    } else if |BusyBlocks(buf)| < |buf| {
      var j :| 0 <= j < |buf| && Recyclable(buf[j]);
    } else {
      forall j: nat | j < |buf| ensures !Is(buf[j], ROOTDEV, b) && !Recyclable(buf[j]) {
        assert buf[j].blockno in BusyBlocks(buf);
      }
    }
  }

  ghost predicate NotLocked(H: map<nat, nat>, O: map<nat, Ref>, b: nat) {
    && (forall i :: i in H ==> H[i] != b)
    && (forall i :: i in O && O[i].locked ==> O[i].block != b)
  }

  /** A buffer found for such a block is not locked. */
  lemma Unlocked(buf: seq<Buf>, H: map<nat, nat>, O: map<nat, Ref>, b: nat, i: nat)
    requires Held(buf, H, O) && NotLocked(H, O, b) && i < |buf| && (Is(buf[i], ROOTDEV, b) || Recyclable(buf[i]))
    ensures i !in H && !buf[i].locked && (i in O ==> !O[i].locked)
  {
    assert References(buf[i], i in H, if i in O then O[i] else Ref(0, 0, false));
  }

  lemma HeldAt(buf: seq<Buf>, H: map<nat, nat>, O: map<nat, Ref>, i: nat)
    requires Held(buf, H, O) && i in H
    ensures i < |buf| && Holds(buf[i], H[i]) && buf[i].locked && buf[i].refcnt > 0
  {
    assert References(buf[i], i in H, if i in O then O[i] else Ref(0, 0, false));
  }

  /** bread's effect on who holds what and what is pinned. */
  lemma GetKeeps(buf: seq<Buf>, H: map<nat, nat>, O: map<nat, Ref>, s: set<nat>, i: nat, x: Buf)
    requires Unique(buf) && Held(buf, H, O) && Pins(buf, s) && i < |buf| && i !in H && (i in O ==> !O[i].locked)
    requires x.valid && x.dev == ROOTDEV && x.locked
    requires if Is(buf[i], ROOTDEV, x.blockno) then x.refcnt == buf[i].refcnt + 1 && x.dirty == buf[i].dirty
             else Recyclable(buf[i]) && x.refcnt == 1 && !x.dirty
    ensures Held(buf[i := x], H[i := x.blockno], O) && Pins(buf[i := x], s)
  {
    PinsUpdate(buf, s, i, x);
    if x.dirty { assert x.blockno in DirtyBlocks(buf); }
    assert i in O ==> Is(buf[i], ROOTDEV, x.blockno);
  }

  /** brelse's. */
  lemma PutKeeps(buf: seq<Buf>, H: map<nat, nat>, O: map<nat, Ref>, s: set<nat>, i: nat)
    requires Unique(buf) && Held(buf, H, O) && Pins(buf, s) && i in H
    ensures buf[i].refcnt > 0
    ensures var buf' := buf[i := buf[i].(refcnt := buf[i].refcnt - 1, locked := false)];
            Held(buf', H - {i}, O) && Pins(buf', s)
  {
    PinsUpdate(buf, s, i, buf[i].(refcnt := buf[i].refcnt - 1, locked := false));
    if buf[i].dirty { assert buf[i].blockno in DirtyBlocks(buf); }
  }

  /** New data and a new dirty bit in a held buffer. */
  lemma EditKeeps(buf: seq<Buf>, H: map<nat, nat>, O: map<nat, Ref>, s: set<nat>, i: nat, data: Block, dirty: bool)
    requires Unique(buf) && Held(buf, H, O) && Pins(buf, s) && i in H
    ensures var buf' := buf[i := buf[i].(data := data, dirty := dirty)];
            Held(buf', H, O) && Pins(buf', if dirty then s + {buf[i].blockno} else s - {buf[i].blockno})
  {
    PinnedBuffer(buf, s, i);
    PinsUpdate(buf, s, i, buf[i].(data := data, dirty := dirty));
    if dirty && buf[i].dirty { assert s - {buf[i].blockno} + {buf[i].blockno} == s + {buf[i].blockno}; }
  }

  /** Taking one buffer and giving it back. */
  lemma TakeAndReturn(held: map<nat, nat>, i: nat, b: nat)
    requires i !in held
    ensures held[i := b] - {i} == held
  {
  }

  lemma SwapPair(i: nat, a: nat, j: nat, b: nat)
    requires i != j
    ensures map[i := a, j := b] == map[j := b, i := a]
  {
  }

  datatype Store = Store(disk: Disk, trace: seq<Write>, logical: Disk)

  /** Block writes that reach the disk and that the logical disk shows. */
  ghost function Issue(s: Store, ws: seq<Write>): Store {
    Store(Apply(s.disk, ws), s.trace + ws, Apply(s.logical, ws))
  }

  lemma IssueBoth(s: Store, a: seq<Write>, b: seq<Write>)
    ensures Issue(Issue(s, a), b) == Issue(s, a + b)
  {
    ApplyConcat(s.disk, a, b);
    ApplyConcat(s.logical, a, b);
  }

  lemma IssueNone(s: Store)
    ensures Issue(s, []) == s
  {
    assert s.trace + [] == s.trace;
  }

  lemma IssueOne(s: Store, w: Write)
    requires w.block < |s.disk| && w.block < |s.logical|
    ensures Issue(s, [w]) == Store(s.disk[w.block := w.data], s.trace + [w], s.logical[w.block := w.data])
  {
    ApplyOne(s.disk, w);
    ApplyOne(s.logical, w);
  }

  class Session {
    const cache: Cache
    ghost var held: map<nat, nat>      // buffer held -> its block
    ghost var others: map<nat, Ref>    // buffers other processes hold or wait for
    ghost var pinned: set<nat>         // blocks whose buffers are dirty
    ghost var store: Store

    ghost predicate Valid()
      reads this, cache
    {
      && cache.Valid()
      && Held(cache.buf, held, others) && Pins(cache.buf, pinned)
      && store == Store(cache.disk, cache.trace, cache.Logical())
      && (forall b :: b in pinned ==> b < |store.logical|)
    }

    constructor (cache: Cache)
      requires cache.Valid() && forall i :: 0 <= i < NBUF ==> Recyclable(cache.buf[i])
      ensures Valid() && this.cache == cache && held == map[] && others == map[] && pinned == {}
    {
      this.cache, held, others, pinned := cache, map[], map[], {};
      store := Store(cache.disk, cache.trace, cache.Logical());
      assert DirtyBlocks(cache.buf) == {};
    }

    /** The contents of a held buffer are its block's logical contents. */
    method Data(i: nat) returns (data: Block)
      requires Valid() && i in held
      ensures held[i] < |store.logical| && data == store.logical[held[i]]
    {
      data := cache.buf[i].data;
      ViewCached(cache.buf, cache.disk, i);
    }

    /** Nobody has the block's buffer locked, so acquiresleep does not wait. */
    ghost predicate Unheld(b: nat)
      reads `held, `others
    {
      NotLocked(held, others, b)
    }

    /** The blocks whose buffers cannot be recycled. */
    ghost function Busy(): set<nat>
      reads `held, `others, `pinned
    {
      pinned + held.Values + OtherBlocks(others)
    }

    /** A block that is neither pinned nor held is the same in the cache's view and on the disk. */
    lemma Clean(b: nat)
      requires Valid() && b < |store.logical| && b !in pinned && Unheld(b)
      ensures store.logical[b] == store.disk[b]
    {
      if i :| 0 <= i < NBUF && Holds(cache.buf[i], b) {
        ViewCached(cache.buf, cache.disk, i);
        PinnedBuffer(cache.buf, pinned, i);
      } else {
        ViewMissing(cache.buf, cache.disk, b);
      }
    }

    /** bread: fails exactly when the block is not busy and every buffer is. */
    method Get(b: nat) returns (ok: bool, i: nat)
      requires Valid() && b < |store.logical| && Unheld(b)
      modifies `held, cache`buf
      ensures Valid() && unchanged(`pinned, `store, `others)
      ensures ok <==> b in old(Busy()) || |old(Busy())| < NBUF
      ensures if ok then i !in old(held) && held == old(held)[i := b] else held == old(held)
      ensures ok && b !in pinned ==> store.logical[b] == store.disk[b]
    {
      hide Held; hide Pins; hide Cache.RingValid;
      hide OtherBlocks; hide Coherent; hide CanGet; hide NotLocked;
      ghost var buf0 := cache.buf;
      Available(buf0, held, others, pinned, b);
      forall j: nat | j < NBUF && Is(buf0[j], ROOTDEV, b) ensures !buf0[j].locked {
        Unlocked(buf0, held, others, b, j);
      }
      ok, i := cache.Bread(b);
      if ok {
        Unlocked(buf0, held, others, b, i);
        GetKeeps(buf0, held, others, pinned, i, cache.buf[i]);
        PinnedBuffer(cache.buf, pinned, i);
        held := held[i := b];
      }
    }

    /** brelse of a buffer that is pinned or unchanged. */
    method Put(i: nat)
      requires Valid() && i in held
      requires held[i] < |store.logical| && (held[i] in pinned || store.logical[held[i]] == store.disk[held[i]])
      modifies `held, cache`buf, cache`next, cache`prev, cache`ring, cache`stamp, cache`clock
      ensures Valid() && unchanged(`pinned, `store, `others)
      ensures held == old(held) - {i}
    {
      hide Held; hide Pins; hide Cache.RingValid;
      hide View;
      ghost var buf0 := cache.buf;
      HeldAt(buf0, held, others, i);
      ViewCached(buf0, cache.disk, i);
      PinnedBuffer(buf0, pinned, i);
      cache.Brelse(i);
      PutKeeps(buf0, held, others, pinned, i);
      held := held - {i};
    }

    /** memmove and bwrite: the block is on the disk and no longer pinned. */
    method Save(i: nat, data: Block)
      requires Valid() && i in held
      modifies `pinned, `store, cache`buf, cache`disk, cache`trace
      ensures Valid() && unchanged(`held, `others) && held[i] < |old(store).logical|
      ensures pinned == old(pinned) - {held[i]}
      ensures store == Issue(old(store), [Write(held[i], data)])
      ensures store.disk == old(store).disk[held[i] := data] && store.logical == old(store).logical[held[i] := data]
    {
      hide Held; hide Pins; hide Cache.RingValid;
      ghost var buf0 := cache.buf;
      HeldAt(buf0, held, others, i);
      cache.Fill(i, data);
      cache.Bwrite(i);
      EditKeeps(buf0, held, others, pinned, i, data, false);
      assert cache.buf == buf0[i := buf0[i].(data := data, dirty := false)];
      pinned := pinned - {held[i]};
      IssueOne(store, Write(held[i], data));
      store := Store(cache.disk, cache.trace, cache.Logical());
    }

    /** memmove into the buffer and log_write's B_DIRTY: only the logical disk changes. */
    method EditAndPin(i: nat, data: Block)
      requires Valid() && i in held
      modifies `pinned, `store, cache`buf
      ensures Valid() && unchanged(`held, `others) && held[i] < |old(store).logical|
      ensures pinned == old(pinned) + {held[i]}
      ensures store == old(store).(logical := old(store).logical[held[i] := data])
    {
      hide Held; hide Pins; hide Cache.RingValid;
      ghost var buf0 := cache.buf;
      HeldAt(buf0, held, others, i);
      cache.Fill(i, data);
      cache.Pin(i);
      EditKeeps(buf0, held, others, pinned, i, data, true);
      assert cache.buf == buf0[i := buf0[i].(data := data, dirty := true)];
      pinned := pinned + {held[i]};
      store := Store(cache.disk, cache.trace, cache.Logical());
    }

    /** Both breads of a copy whose second block is busy, or that finds the cache idle. */
    method GetPair(a: nat, b: nat) returns (ok: bool, i: nat, j: nat)
      requires Valid() && held == map[] && a < |store.logical| && b < |store.logical| && a != b
      requires Unheld(a) && Unheld(b) && a !in Busy() && (b in Busy() || Busy() == {})
      modifies `held, cache`buf
      ensures Valid() && unchanged(`pinned, `store, `others)
      ensures ok <==> |old(Busy())| < NBUF
      ensures if ok then i != j && held == map[i := a, j := b] == map[j := b, i := a] else held == map[]
      ensures ok && a !in pinned ==> store.logical[a] == store.disk[a]
      ensures ok && b !in pinned ==> store.logical[b] == store.disk[b]
    {
      hide Valid; hide OtherBlocks;
      j := 0;
      ok, i := Get(a);
      if !ok { return; }
      assert held.Values == {a};
      ok, j := Get(b);
      SwapPair(i, a, j, b);
      assert held == map[i := a, j := b];
    }

    /** Both brelses. */
    method PutPair(i: nat, j: nat, ghost a: nat, ghost b: nat)
      requires Valid() && i != j && held == map[i := a, j := b]
      requires a < |store.logical| && (a in pinned || store.logical[a] == store.disk[a])
      requires b < |store.logical| && (b in pinned || store.logical[b] == store.disk[b])
      modifies `held, cache`buf, cache`next, cache`prev, cache`ring, cache`stamp, cache`clock
      ensures Valid() && unchanged(`pinned, `store, `others)
      ensures held == map[]
    {
      hide Valid;
      assert map[i := a, j := b] - {i} == map[j := b];
      Put(i);
      assert map[j := b] - {j} == map[];
      Put(j);
    }
  }
}
