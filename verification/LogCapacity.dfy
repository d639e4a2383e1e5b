/**
 What the capacity of the log area means for commit: the headers begin_op and
 log_write can reach are transactions the redo log is atomic for if the area is
 larger than LOGSIZE.  With a smaller one commit damages the block behind it, and
 with exactly LOGSIZE blocks it finds every buffer pinned.
 */
module LogCapacity {
  import opened Base
  import opened Bytes
  import opened RedoLog
  import opened BufferCache
  import opened CacheSession
  import opened Log
  import P = LogProtocol

  /** With more than LOGSIZE log blocks, every header that can be reached is a good transaction. */
  lemma ReachableIsGood(L: Layout, d: Disk, r: P.Run, vals: seq<Block>)
    requires L.size > LOGSIZE && L.start + L.size <= |d| <= 0x1_0000_0000
    requires P.IsRun(L.size, r) && |vals| == |P.Last(r).header|
    requires forall i :: 0 <= i < |vals| ==> P.Last(r).header[i] < |d| && Home(L, P.Last(r).header[i])
    ensures GoodTxn(L, d, P.Last(r).header, vals)
  {
    hide P.IsRun;
    P.HeaderBound(L.size, r);
  }

  lemma RestKeeps(start: nat, d: Disk, lh: seq<nat>, vals: seq<Block>, h: Block, h': Block, b: nat)
    requires |lh| == |vals| && b < |d| && b !in lh && b != start
    ensures Apply(d, [Write(start, h)] + HomeWrites(lh, vals) + [Write(start, h')])[b] == d[b]
  {
    hide Apply;
    var a, m, z := [Write(start, h)], HomeWrites(lh, vals), [Write(start, h')];
    ApplyConcat(d, a + m, z);
    ApplyConcat(d, a, m);
    ApplyFrame(d, a, b);
    ApplyFrame(Apply(d, a), m, b);
    ApplyFrame(Apply(Apply(d, a), m), z, b);
  }

  /** The log copy of a block one past the area lands in the home block there. */
  lemma LogWritesPast(L: Layout, d: Disk, lh: seq<nat>, vals: seq<Block>)
    requires 0 < L.size == |lh| == |vals| <= LOGSIZE && Words(lh)
    requires L.start + L.size < |d| && L.start + L.size !in lh
    ensures Apply(d, CommitWrites(L, d[L.start], lh, vals))[L.start + L.size] == vals[L.size - 1]
  {
    hide PutHeader; hide Apply; hide HomeWrites;
    var h := PutHeader(d[L.start], lh);
    var head := LogWrites(L, vals);
    var rest := [Write(L.start, h)] + HomeWrites(lh, vals) + [Write(L.start, PutHeader(h, []))];
    assert CommitWrites(L, d[L.start], lh, vals) == head + rest;
    ApplyConcat(d, head, rest);
    ApplyHits(d, head, L.size - 1);
    RestKeeps(L.start, Apply(d, head), lh, vals, h, PutHeader(h, []), L.start + L.size);
  }

  /**
   With 2 to LOGSIZE - 1 log blocks three operations within their budgets reach
   a header of distinct home blocks, none of them the block behind the log area,
   whose commit overwrites that block although nothing stops or panics: there
   are buffers enough, and the disk is then neither all old nor all new.
   */
  lemma OverfullCommit(L: Layout, d: Disk, v: Block) returns (r: P.Run, vals: seq<Block>)
    requires 2 <= L.size < LOGSIZE && L.start + 2 * L.size < |d| <= 0x1_0000_0000
    requires v != d[L.start + L.size]
    ensures P.IsRun(L.size, r) && !P.Last(r).panicked
    ensures var lh := P.Last(r).header;
      && |lh| == |vals| == L.size && Words(lh) && Distinct(lh) && |Elems(lh)| < NBUF
      && (forall i :: 0 <= i < |lh| ==> lh[i] < |d| && Home(L, lh[i]))
      && var x := Apply(d, CommitWrites(L, d[L.start], lh, vals));
         !AllOld(L, d, x) && !AllNew(L, d, lh, vals, x)
  {
    hide P.Next; hide P.Init; hide CommitWrites; hide Apply;
    var b := L.start + L.size;
    r := P.Overfill(L.size, b + 1);
    var lh := P.Last(r).header;
    vals := seq(L.size, _ => v);
    assert b !in lh;
    ElemsCount(lh);
    LogWritesPast(L, d, lh, vals);
    assert Home(L, b);
  }

  lemma FullSubset(s: set<nat>, t: set<nat>)
    requires s <= t && |t| <= |s|
    ensures t == s
  {
    assert t == s + (t - s);
  }

  lemma NotElem(lh: seq<nat>, b: nat)
    requires b !in lh
    ensures b !in Elems(lh)
  {
  }

  /** A header of NBUF blocks pins every buffer, and no process can bread another block, such as one of the log. */
  lemma AllPinned(buf: seq<Buf>, H: map<nat, nat>, O: map<nat, Ref>, lh: seq<nat>, b: nat)
    requires |buf| == NBUF && Unique(buf) && Held(buf, H, O) && Pins(buf, Elems(lh))
    requires Distinct(lh) && |lh| == NBUF && b !in lh
    ensures !CanGet(buf, ROOTDEV, b)
  {
    hide Held; hide Pins; hide CanGet; hide OtherBlocks; hide BusyBlocks; hide Unique; hide Elems; hide BusyOnRoot;
    NotElem(lh, b);
    var s, busy := Elems(lh), Elems(lh) + H.Values + OtherBlocks(O);
    ElemsCount(lh);
    BusyIs(buf, H, O, s);
    BusyCount(buf);
    FullSubset(s, busy);
    Available(buf, H, O, s, b);
  }

  /** With mkfs's LOGSIZE log blocks the header that does not fit is such a header. */
  lemma OverfullMkfs(base: nat) returns (r: P.Run)
    ensures P.IsRun(LOGSIZE, r) && !P.Last(r).panicked
    ensures P.Last(r).header == seq(LOGSIZE, i => base + i) && |Elems(P.Last(r).header)| == NBUF
  {
    hide P.Next; hide P.Init;
    r := P.Overfill(LOGSIZE, base);
    ElemsCount(P.Last(r).header);
  }
}
