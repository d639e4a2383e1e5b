/** file.c: reading and writing through an open file, one transaction per chunk. */
module File {
  import opened Base
  import opened Bytes
  import opened FsLayout
  import opened SlotMap
  import opened FileContent
  import opened FileSystem
  import R = RedoLog

  lemma SpliceTwice(s: seq<byte>, off: nat, d1: seq<byte>, d2: seq<byte>)
    requires off <= |s|
    ensures Splice(Splice(s, off, d1), off + |d1|, d2) == Splice(s, off, d1 + d2)
  {
  }

  lemma SplicedTrans(b0: seq<Block>, i0: seq<Inode>, b1: seq<Block>, i1: seq<Inode>, b2: seq<Block>, i2: seq<Inode>,
                     j: nat, off: nat, d1: seq<byte>, d2: seq<byte>)
    requires j < |i0| && j < |i1| && j < |i2| && Spliced(b0, i0, b1, i1, j, off, d1)
    requires Spliced(b1, i1, b2, i2, j, off + |d1|, d2)
    ensures Spliced(b0, i0, b2, i2, j, off, d1 + d2)
  {
    hide Content;
    SpliceTwice(Content(b0, i0, j), off, d1, d2);
  }

  /** All files but j keep their contents. */
  ghost predicate OthersKeep(b0: seq<Block>, i0: seq<Inode>, b1: seq<Block>, i1: seq<Inode>, j: nat) {
    |i1| == |i0| && forall q: nat :: q < |i0| && q != j ==> SameContent(b0, i0, b1, i1, q)
  }

  lemma OthersKeepTrans(b0: seq<Block>, i0: seq<Inode>, b1: seq<Block>, i1: seq<Inode>, b2: seq<Block>,
                        i2: seq<Inode>, j: nat)
    requires OthersKeep(b0, i0, b1, i1, j) && OthersKeep(b1, i1, b2, i2, j)
    ensures OthersKeep(b0, i0, b2, i2, j)
  {
    hide Content;
    forall q: nat | q < |i0| && q != j ensures SameContent(b0, i0, b2, i2, q) {
      assert SameContent(b0, i0, b1, i1, q) && SameContent(b1, i1, b2, i2, q);
    }
  }

  class OpenFile {
    const fs: Fs
    const ip: nat
    const writable: bool
    var off: word

    constructor (fs: Fs, ip: nat, writable: bool)
      requires fs.Valid() && ip < |fs.inode| && fs.inode[ip].typ != T_DEV
      ensures Open() && this.fs == fs && this.ip == ip && this.writable == writable && off == 0
    {
      this.fs, this.ip, this.writable, off := fs, ip, writable, 0;
    }

    ghost predicate Open()
      reads this, fs
    {
      fs.Valid() && ip < |fs.inode| && fs.inode[ip].typ != T_DEV
    }

    /**
     One chunk of filewrite: begin_op, writei at the offset, end_op.  It logs at most MAXOPBLOCKS
     blocks, all above the log, and its log_writes, in order, take the old blocks to the new ones.
     */
    method WriteChunk(data: seq<byte>) returns (ok: bool, r: int, ghost op: set<nat>)
      requires Open() && 0 < |data| <= CHUNK
      modifies this, fs
      ensures |op| <= MAXOPBLOCKS
      ensures !WriteRefused(old(fs.inode[ip]).size, old(off), |data|) ==>
                (ok <==> Affordable(fs.sb, old(fs.blocks), old(fs.inode), ip, old(off), |data|))
      ensures !ok ==> fs.Stuck() && !WriteRefused(old(fs.inode[ip]).size, old(off), |data|)
      ensures ok ==> Open() && |fs.inode| == |old(fs.inode)|
      ensures ok ==> fs.blocks == R.Apply(old(fs.blocks), fs.trace) && op == WriteSet(fs.trace)
      ensures ok ==> forall c :: c in op ==> fs.sb.inodestart <= c < fs.sb.size
      ensures ok && WriteRefused(old(fs.inode[ip]).size, old(off), |data|) ==>
                r == -1 && off == old(off) && fs.blocks == old(fs.blocks) && fs.inode == old(fs.inode) && fs.trace == []
      ensures ok && !WriteRefused(old(fs.inode[ip]).size, old(off), |data|) ==>
                && r == |data| && off == old(off) + r <= fs.inode[ip].size
                && Spliced(old(fs.blocks), old(fs.inode), fs.blocks, fs.inode, ip, old(off), data)
                && OthersKeep(old(fs.blocks), old(fs.inode), fs.blocks, fs.inode, ip)
                && TookBy(fs.sb, old(fs.blocks), old(fs.inode), old(fs.owner), fs.blocks, fs.inode, fs.owner, ip, old(off), |data|, op)
      ensures ok && WriteRefused(old(fs.inode[ip]).size, old(off), |data|) ==> fs.owner == old(fs.owner)
    {
      hide Fs.Valid; hide Spliced; hide SameContent; hide Did; hide Wrote; hide TookBy; hide Affordable;
      hide OthersKeep;
      ghost var size := fs.inode[ip].size;
      fs.logged, fs.trace := {}, [];
      ok, r, op := fs.Writei(ip, data, off);
      assert {} + op == op;
      DidAll(old(fs.blocks), fs.blocks, fs.logged, fs.trace);
      if ok && !WriteRefused(size, off, |data|) {
        WroteFacts(old(fs.blocks), old(fs.inode), fs.blocks, fs.inode, ip, off, data);
        TookFacts(fs.sb, old(fs.blocks), old(fs.inode), old(fs.owner), fs.blocks, fs.inode, fs.owner, ip, off, |data|, op);
      } else if ok {
        NoneTaken(fs.trace);
      }
      if ok && r > 0 {
        off := off + r;
      }
      if !ok { op := {}; }
    }

    /**
     filewrite on an inode. It writes all of src when that fits, and else as many whole chunks of it
     as fit; each chunk is one operation that logs at most MAXOPBLOCKS blocks, and the operations, one
     after the other, make the new blocks. It panics exactly when the free blocks do not cover what it writes.
     */
    method Filewrite(src: seq<byte>)
      returns (ok: bool, r: int, ghost done: nat, ghost txns: seq<seq<R.Write>>)
      requires Open() && |src| < 0x8000_0000
      modifies this, fs
      ensures forall k :: 0 <= k < |txns| ==> |WriteSet(txns[k])| <= MAXOPBLOCKS
      ensures ok <==> !writable || Payable(fs.sb, old(fs.blocks), old(fs.inode), ip, old(off), |src|)
      ensures !ok ==> fs.Stuck()
      ensures ok && writable ==> done == FitLength(old(off), old(fs.inode[ip]).size, |src|)
      ensures ok && writable && done < |src| && old(off) > old(fs.inode[ip]).size ==> done == 0
      ensures ok && writable && done < |src| && old(off) <= old(fs.inode[ip]).size ==>
                && done % CHUNK == 0
                && old(off) + done <= LIMIT < old(off) + if done + CHUNK < |src| then done + CHUNK else |src|
      ensures ok && !writable ==> done == 0 && txns == []
      ensures ok ==> r == if writable && done == |src| then |src| else -1
      ensures ok ==> Open() && done <= |src| && off == old(off) + done && fs.blocks == ApplyAll(old(fs.blocks), txns)
      ensures ok && writable ==> |txns| == Chunks(done) + if done < |src| then 1 else 0
      ensures ok ==> OthersKeep(old(fs.blocks), old(fs.inode), fs.blocks, fs.inode, ip)
      ensures ok && done > 0 ==> Spliced(old(fs.blocks), old(fs.inode), fs.blocks, fs.inode, ip, old(off), src[..done])
      ensures ok && done == 0 ==> fs.blocks == old(fs.blocks) && fs.inode == old(fs.inode)
    {
      hide Fs.Valid; hide Spliced; hide SameContent; hide OthersKeep; hide Affordable; hide R.Apply; hide WriteSet;
      hide Fs.Stuck; hide TookBy; hide Payable; hide FitLength; hide WriteRefused; hide Chunks; hide Stored; hide Reached;
      hide Owned; hide ApplyAll;
      txns, done := [], 0;
      var i, n := 0, |src|;
      ghost var b0, i0, o0, off0, size0 := fs.blocks, fs.inode, fs.owner, off, fs.inode[ip].size;
      StoredNone(fs, ip, off, src);
      if !writable {
        StoredFacts(b0, i0, o0, fs.blocks, fs.inode, fs.owner, ip, off0, src, i);
        return true, -1, done, txns;
      }
      while i < n
        invariant 0 <= i <= n && done == i && Open() && off == off0 + i && |fs.inode| == |i0|
        invariant Stored(b0, i0, o0, fs.blocks, fs.inode, fs.owner, ip, off0, src, i)
        invariant Reached(off0, size0, n, i) && |txns| == Chunks(i) && fs.blocks == ApplyAll(b0, txns)
        invariant forall k :: 0 <= k < |txns| ==> |WriteSet(txns[k])| <= MAXOPBLOCKS
        decreases n - i
      {
        var n1 := if n - i > CHUNK then CHUNK else n - i;
        ghost var b1, i1, o1, op := fs.blocks, fs.inode, fs.owner, {};
        ValidParts(fs);
        StoredFacts(b0, i0, o0, b1, i1, o1, ip, off0, src, i);
        NextChunk(off0, size0, fs.inode[ip].size, n, i, n1);
        ok, r, op := WriteChunk(src[i..i + n1]);
        if !ok {
          StoredFails(fs.sb, b0, i0, o0, b1, i1, o1, ip, off0, src, i, n1);
          return;
        }
        ApplyAllMore(b0, txns, fs.trace);
        txns := txns + [fs.trace];
        if r < 0 {
          break;
        }
        StoredMore(fs.sb, b0, i0, o0, b1, i1, o1, fs.blocks, fs.inode, fs.owner, ip, off0, src, i, n1, op);
        i := i + r;
        done := i;
      }
      ok, r := true, if i == n then n else -1;
      ValidParts(fs);
      FitLengthIs(off0, size0, n);
      StoredFacts(b0, i0, o0, fs.blocks, fs.inode, fs.owner, ip, off0, src, i);
      StoredAll(fs.sb, b0, i0, o0, fs.blocks, fs.inode, fs.owner, ip, off0, src, i);
    }
  }

  // ----- how much filewrite writes -----

  /** All of n bytes at off when they fit in a file of this size, else as many whole chunks as fit, none past its end. */
  function FitLength(off: nat, size: nat, n: nat): nat {
    if off > size || off > LIMIT then 0
    else if off + n <= LIMIT then n
    else (LIMIT - off) / CHUNK * CHUNK
  }

  /** It is the longest that ends with n or with a whole chunk. */
  lemma FitLengthIs(off: nat, size: nat, n: nat)
    ensures var f := FitLength(off, size, n);
      && f <= n && (f == n || f % CHUNK == 0) && (f > 0 ==> off <= size && off + f <= LIMIT) && (off > size ==> f == 0)
      && (f < n && off <= size <= LIMIT ==> off + f <= LIMIT < off + if f + CHUNK < n then f + CHUNK else n)
  {
  }

  /** The free blocks cover what is written. */
  ghost predicate Payable(sb: Superblock, blocks: seq<Block>, ino: seq<Inode>, i: nat, off: nat, n: nat) {
    i < |ino| && (FitLength(off, ino[i].size, n) == 0 || Affordable(sb, blocks, ino, i, off, FitLength(off, ino[i].size, n)))
  }

  /** The least number of chunks that hold n bytes. */
  function Chunks(n: nat): (k: nat)
    ensures n <= k * CHUNK && (k > 0 ==> (k - 1) * CHUNK < n)
  {
    (n + CHUNK - 1) / CHUNK
  }

  /** The loop has written i bytes and may go on. */
  ghost predicate Reached(off: nat, size: nat, n: nat, i: nat) {
    i <= n && (i > 0 ==> off <= size && off + i <= LIMIT) && (i < n ==> i % CHUNK == 0)
  }

  /** What the next chunk finds, and what is left if it does not fit. */
  lemma NextChunk(off: nat, size: nat, size1: word, n: nat, i: nat, n1: nat)
    requires Reached(off, size, n, i) && i < n && n1 == (if n - i > CHUNK then CHUNK else n - i) && size <= LIMIT
    requires off + i < 0x1_0000_0000 && (i == 0 ==> size1 == size) && (i > 0 ==> off + i <= size1)
    ensures 0 < n1 <= CHUNK
    ensures if WriteRefused(size1, off + i, n1) then i == FitLength(off, size, n) < n
            else Reached(off, size, n, i + n1) && i + n1 <= FitLength(off, size, n) && Chunks(i + n1) == Chunks(i) + 1
  {
  }

  function ApplyAll(b: seq<Block>, txns: seq<seq<R.Write>>): seq<Block> {
    if txns == [] then b else R.Apply(ApplyAll(b, txns[..|txns| - 1]), txns[|txns| - 1])
  }

  lemma ApplyAllMore(b: seq<Block>, txns: seq<seq<R.Write>>, w: seq<R.Write>)
    ensures ApplyAll(b, txns + [w]) == R.Apply(ApplyAll(b, txns), w)
  {
    hide R.Apply;
    assert (txns + [w])[..|txns|] == txns;
  }

  lemma ValidParts(fs: Fs)
    requires fs.Valid()
    ensures Owned(fs.sb, fs.blocks, fs.inode, fs.owner, {})
    ensures forall j: nat :: j < |fs.inode| ==> |fs.inode[j].addrs| == NDIRECT + 1 && fs.inode[j].size <= LIMIT
  {
    hide Owned; hide DiskInode; hide DataAddr;
    forall j: nat | j < |fs.inode| ensures |fs.inode[j].addrs| == NDIRECT + 1 && fs.inode[j].size <= LIMIT {
      assert OnDisk(fs.sb, fs.blocks, fs.inode, j);
    }
  }

  /** The first i bytes of src have been written at off. */
  ghost predicate Stored(b0: seq<Block>, i0: seq<Inode>, o0: map<nat, Slot>, b1: seq<Block>, i1: seq<Inode>,
                          o1: map<nat, Slot>, j: nat, off: nat, src: seq<byte>, i: nat)
  {
    && j < |i0| == |i1| && i <= |src| && |i0[j].addrs| == NDIRECT + 1 && OthersKeep(b0, i0, b1, i1, j)
    && if i == 0 then b1 == b0 && i1 == i0 && o1 == o0
       else && off + i <= i1[j].size && Spliced(b0, i0, b1, i1, j, off, src[..i])
            && Spent(b0, i0, o0, b1, i1, o1, j, off, i)
  }

  lemma StoredNone(fs: Fs, j: nat, off: nat, src: seq<byte>)
    requires fs.Valid() && j < |fs.inode|
    ensures Stored(fs.blocks, fs.inode, fs.owner, fs.blocks, fs.inode, fs.owner, j, off, src, 0)
    ensures Reached(off, fs.inode[j].size, |src|, 0) && Chunks(0) == 0 && ApplyAll(fs.blocks, []) == fs.blocks
    ensures Owned(fs.sb, fs.blocks, fs.inode, fs.owner, {})
    ensures fs.inode[j].size <= LIMIT && |fs.inode[j].addrs| == NDIRECT + 1
  {
    hide Fs.Valid; hide OthersKeep; hide Owned;
    ValidParts(fs);
    OthersKeepRefl(fs.sb, fs.blocks, fs.inode, j, fs);
  }

  lemma StoredFacts(b0: seq<Block>, i0: seq<Inode>, o0: map<nat, Slot>, b1: seq<Block>, i1: seq<Inode>,
                     o1: map<nat, Slot>, j: nat, off: nat, src: seq<byte>, i: nat)
    requires Stored(b0, i0, o0, b1, i1, o1, j, off, src, i)
    ensures OthersKeep(b0, i0, b1, i1, j)
    ensures if i == 0 then b1 == b0 && i1 == i0
            else off + i <= i1[j].size && Spliced(b0, i0, b1, i1, j, off, src[..i])
  {
    hide OthersKeep; hide Spliced; hide Spent;
  }

  lemma StoredMore(sb: Superblock, b0: seq<Block>, i0: seq<Inode>, o0: map<nat, Slot>, b1: seq<Block>, i1: seq<Inode>,
                    o1: map<nat, Slot>, b2: seq<Block>, i2: seq<Inode>, o2: map<nat, Slot>, j: nat, off: nat,
                    src: seq<byte>, i: nat, m: nat, op: set<nat>)
    requires Stored(b0, i0, o0, b1, i1, o1, j, off, src, i) && 0 < m && i + m <= |src| && off <= LIMIT
    requires |i2| == |i1| && off + i + m <= i2[j].size && OthersKeep(b1, i1, b2, i2, j)
    requires Spliced(b1, i1, b2, i2, j, off + i, src[i..i + m])
    requires TookBy(sb, b1, i1, o1, b2, i2, o2, j, off + i, m, op)
    ensures Stored(b0, i0, o0, b2, i2, o2, j, off, src, i + m)
  {
    hide OthersKeep; hide Spliced; hide Spent; hide TookBy;
    OthersKeepTrans(b0, i0, b1, i1, b2, i2, j);
    SpentMore(sb, b0, i0, o0, b1, i1, o1, b2, i2, o2, j, off, i, m, op);
    SplicedMore(b0, i0, b1, i1, b2, i2, j, off, src, i, m);
  }

  /** n bytes at off have been written, and their empty slots filled from unowned blocks. */
  ghost predicate Spent(b0: seq<Block>, i0: seq<Inode>, o0: map<nat, Slot>, b1: seq<Block>, i1: seq<Inode>,
                        o1: map<nat, Slot>, i: nat, off: nat, n: nat)
  {
    && i < |i0| == |i1| && |i0[i].addrs| == |i1[i].addrs| == NDIRECT + 1 && off + n <= LIMIT
    && Filled(Slots(b0, i0, i), Slots(b1, i1, i), Fills(Slots(b0, i0, i), off, n), o0)
    && o0.Keys <= o1.Keys && |o1| == |o0| + |Fills(Slots(b0, i0, i), off, n)|
  }

  lemma FillsSplit(s0: seq<word>, s1: seq<word>, off: nat, n: nat, m: nat, o0: map<nat, Slot>)
    requires Proper(s0) && Proper(s1) && off + n + m <= LIMIT && m > 0 && Filled(s0, s1, Fills(s0, off, n), o0)
    ensures Fills(s0, off, n + m) == Fills(s0, off, n) + Fills(s1, off + n, m)
    ensures |Fills(s0, off, n + m)| == |Fills(s0, off, n)| + |Fills(s1, off + n, m)|
  {
    hide Wanted; hide Filled; hide Proper;
    RangeEnd(off, n);
    RangeEnd(off + n, m);
    RangeEnd(off, n + m);
    Meeting(off, n, m);
    WantedSplit(s0, s1, off / BSIZE, off / BSIZE + Touched(off, n), (off + n) / BSIZE, (off + n) / BSIZE + Touched(off + n, m), o0);
  }

  lemma Meeting(off: nat, n: nat, m: nat)
    requires m > 0
    ensures var lo, hi, lo', hi' := off / BSIZE, off / BSIZE + Touched(off, n), (off + n) / BSIZE, (off + n) / BSIZE + Touched(off + n, m);
            lo <= lo' <= hi <= hi' && lo' < hi' && off / BSIZE + Touched(off, n + m) == hi'
  {
  }

  lemma SpentNone(b: seq<Block>, ino: seq<Inode>, o: map<nat, Slot>, i: nat, off: nat)
    requires i < |ino| && |ino[i].addrs| == NDIRECT + 1 && off <= LIMIT
    ensures Spent(b, ino, o, b, ino, o, i, off, 0)
  {
    hide SlotVal;
    RangeEnd(off, 0);
  }

  lemma SpentStep(sb: Superblock, b0: seq<Block>, i0: seq<Inode>, o0: map<nat, Slot>, b1: seq<Block>, i1: seq<Inode>,
                  o1: map<nat, Slot>, b2: seq<Block>, i2: seq<Inode>, o2: map<nat, Slot>, i: nat, off: nat, n: nat,
                  m: nat, op: set<nat>)
    requires Spent(b0, i0, o0, b1, i1, o1, i, off, n) && TookBy(sb, b1, i1, o1, b2, i2, o2, i, off + n, m, op) && m > 0
    ensures Spent(b0, i0, o0, b2, i2, o2, i, off, n + m)
  {
    hide Slots; hide Fills; hide Filled; hide Proper; hide LoggedBy; hide Cost;
    SlotsProper(b0, i0, i);
    SlotsProper(b1, i1, i);
    FillsSplit(Slots(b0, i0, i), Slots(b1, i1, i), off, n, m, o0);
    FilledTwice(Slots(b0, i0, i), Slots(b1, i1, i), Slots(b2, i2, i), Fills(Slots(b0, i0, i), off, n),
                Fills(Slots(b1, i1, i), off + n, m), o0, o1);
  }

  lemma SpentMore(sb: Superblock, b0: seq<Block>, i0: seq<Inode>, o0: map<nat, Slot>, b1: seq<Block>, i1: seq<Inode>,
                  o1: map<nat, Slot>, b2: seq<Block>, i2: seq<Inode>, o2: map<nat, Slot>, i: nat, off: nat, n: nat,
                  m: nat, op: set<nat>)
    requires i < |i0| && |i0[i].addrs| == NDIRECT + 1 && off <= LIMIT && m > 0
    requires if n == 0 then b1 == b0 && i1 == i0 && o1 == o0 else Spent(b0, i0, o0, b1, i1, o1, i, off, n)
    requires TookBy(sb, b1, i1, o1, b2, i2, o2, i, off + n, m, op)
    ensures Spent(b0, i0, o0, b2, i2, o2, i, off, n + m)
  {
    hide Spent; hide TookBy;
    if n == 0 { SpentNone(b0, i0, o0, i, off); }
    SpentStep(sb, b0, i0, o0, b1, i1, o1, b2, i2, o2, i, off, n, m, op);
  }

  /** After n bytes, m more can be paid for exactly when n + m could at the start. */
  lemma SpentAffords(sb: Superblock, b0: seq<Block>, i0: seq<Inode>, o0: map<nat, Slot>, b1: seq<Block>, i1: seq<Inode>,
                     o1: map<nat, Slot>, i: nat, off: nat, n: nat, m: nat)
    requires Owned(sb, b0, i0, o0, {}) && Owned(sb, b1, i1, o1, {}) && Spent(b0, i0, o0, b1, i1, o1, i, off, n)
    requires m > 0 && off + n + m <= LIMIT
    ensures Affordable(sb, b1, i1, i, off + n, m) <==> Affordable(sb, b0, i0, i, off, n + m)
  {
    hide Owned; hide Slots; hide Fills; hide Filled; hide Proper; hide FreeBlocks;
    SlotsProper(b0, i0, i);
    SlotsProper(b1, i1, i);
    FillsSplit(Slots(b0, i0, i), Slots(b1, i1, i), off, n, m, o0);
    FreeCount(sb, b0, i0, o0, {});
    FreeCount(sb, b1, i1, o1, {});
  }

  lemma AffordsLess(sb: Superblock, b: seq<Block>, ino: seq<Inode>, i: nat, off: nat, n: nat, m: nat)
    requires Affordable(sb, b, ino, i, off, m) && n <= m
    ensures Affordable(sb, b, ino, i, off, n)
  {
    hide Slots; hide FreeBlocks; hide Wanted;
    RangeEnd(off, n);
    RangeEnd(off, m);
    TouchedMore(off, n, m);
    SlotsProper(b, ino, i);
    WantedGrows(Slots(b, ino, i), off / BSIZE, off / BSIZE + Touched(off, n), off / BSIZE + Touched(off, m));
  }

  lemma StoredFails(sb: Superblock, b0: seq<Block>, i0: seq<Inode>, o0: map<nat, Slot>, b1: seq<Block>, i1: seq<Inode>,
                     o1: map<nat, Slot>, j: nat, off: nat, src: seq<byte>, i: nat, m: nat)
    requires Owned(sb, b0, i0, o0, {}) && Owned(sb, b1, i1, o1, {}) && Stored(b0, i0, o0, b1, i1, o1, j, off, src, i)
    requires m > 0 && i + m <= FitLength(off, i0[j].size, |src|) && !Affordable(sb, b1, i1, j, off + i, m)
    ensures !Payable(sb, b0, i0, j, off, |src|)
  {
    hide Owned; hide Spent; hide Affordable; hide FitLength; hide OthersKeep; hide Spliced;
    var f := FitLength(off, i0[j].size, |src|);
    FitLengthIs(off, i0[j].size, |src|);
    if i == 0 { SpentNone(b0, i0, o0, j, off); }
    SpentAffords(sb, b0, i0, o0, b1, i1, o1, j, off, i, m);
    if Affordable(sb, b0, i0, j, off, f) {
      AffordsLess(sb, b0, i0, j, off, i + m, f);
    }
  }

  lemma StoredAll(sb: Superblock, b0: seq<Block>, i0: seq<Inode>, o0: map<nat, Slot>, b1: seq<Block>, i1: seq<Inode>,
                   o1: map<nat, Slot>, j: nat, off: nat, src: seq<byte>, i: nat)
    requires Owned(sb, b0, i0, o0, {}) && Owned(sb, b1, i1, o1, {}) && Stored(b0, i0, o0, b1, i1, o1, j, off, src, i)
    requires Reached(off, i0[j].size, |src|, i) && (i == |src| || i == FitLength(off, i0[j].size, |src|))
    ensures i == FitLength(off, i0[j].size, |src|) && Payable(sb, b0, i0, j, off, |src|)
  {
    hide Owned; hide Slots; hide Fills; hide Filled; hide FreeBlocks; hide OthersKeep; hide Spliced;
    FitLengthIs(off, i0[j].size, |src|);
    if i > 0 {
      FreeCount(sb, b0, i0, o0, {});
      FreeCount(sb, b1, i1, o1, {});
    }
  }

  lemma SplicedMore(b0: seq<Block>, i0: seq<Inode>, b1: seq<Block>, i1: seq<Inode>, b2: seq<Block>, i2: seq<Inode>,
                    j: nat, off: nat, src: seq<byte>, i: nat, m: nat)
    requires j < |i0| && j < |i1| && j < |i2| && i + m <= |src|
    requires if i == 0 then b1 == b0 && i1 == i0 else Spliced(b0, i0, b1, i1, j, off, src[..i])
    requires Spliced(b1, i1, b2, i2, j, off + i, src[i..i + m])
    ensures Spliced(b0, i0, b2, i2, j, off, src[..i + m])
  {
    hide Spliced;
    assert src[..i] + src[i..i + m] == src[..i + m];
    if i > 0 {
      SplicedTrans(b0, i0, b1, i1, b2, i2, j, off, src[..i], src[i..i + m]);
    } else {
      assert src[..0 + m] == src[0..m];
    }
  }

  lemma DidAll(b0: seq<Block>, b1: seq<Block>, l1: set<nat>, t1: seq<R.Write>)
    requires Did(b0, {}, [], b1, l1, t1)
    ensures b1 == R.Apply(b0, t1) && l1 == WriteSet(t1)
  {
    assert t1[0..] == t1;
    assert l1 == {} + WriteSet(t1);
  }

  lemma NoneTaken(t: seq<R.Write>)
    requires WriteSet(t) == {}
    ensures t == []
  {
    if t != [] { FirstIn(t); }
  }

  lemma FirstIn(t: seq<R.Write>)
    requires t != []
    ensures t[0].block in WriteSet(t)
  {
  }

  lemma TookFacts(sb: Superblock, b0: seq<Block>, i0: seq<Inode>, o0: map<nat, Slot>, b1: seq<Block>, i1: seq<Inode>,
                  o1: map<nat, Slot>, i: nat, off: nat, n: nat, touched: set<nat>)
    requires TookBy(sb, b0, i0, o0, b1, i1, o1, i, off, n, touched) && n <= CHUNK
    ensures |touched| <= MAXOPBLOCKS && forall c :: c in touched ==> sb.inodestart <= c < sb.size
  {
    hide Filled; hide Cost; hide LoggedBy; hide Fills; hide Slots;
    ChunkBound(off, n);
  }

  lemma WroteFacts(b0: seq<Block>, i0: seq<Inode>, b1: seq<Block>, i1: seq<Inode>, j: nat, off: nat, data: seq<byte>)
    requires Wrote(b0, i0, b1, i1, j, off, data)
    ensures j < |i0| == |i1| && Spliced(b0, i0, b1, i1, j, off, data) && OthersKeep(b0, i0, b1, i1, j)
    ensures off + |data| <= i1[j].size && i1[j].typ == i0[j].typ
  {
    SplicedSize(b0, i0, b1, i1, j, off, data);
  }

  lemma SplicedSize(b0: seq<Block>, i0: seq<Inode>, b1: seq<Block>, i1: seq<Inode>, j: nat, off: nat, data: seq<byte>)
    requires j < |i0| && j < |i1| && Spliced(b0, i0, b1, i1, j, off, data)
    ensures off + |data| <= i1[j].size
  {
  }

  lemma OthersKeepRefl(sb: Superblock, b: seq<Block>, i0: seq<Inode>, j: nat, fs: Fs)
    requires fs.Valid() && b == fs.blocks && i0 == fs.inode && sb == fs.sb
    ensures OthersKeep(b, i0, b, i0, j)
  {
    hide Owned; hide DiskInode; hide DataAddr;
    forall q: nat | q < |i0| && q != j ensures SameContent(b, i0, b, i0, q) {
      assert OnDisk(sb, b, i0, q);
    }
  }
}
