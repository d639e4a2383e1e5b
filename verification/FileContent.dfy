/**
 What a write does to files: the bytes of one file are spliced, everything
 already allocated anywhere else keeps its place and its contents.
 */
module FileContent {
  import opened Base
  import opened Bytes
  import opened FsLayout

  const LIMIT: nat := 71680   // MAXFILE * BSIZE

  /** s with data over it from position off on, grown if need be. */
  function Splice(s: seq<byte>, off: nat, data: seq<byte>): (r: seq<byte>)
    requires off <= |s|
    ensures |r| == if off + |data| > |s| then off + |data| else |s|
    ensures forall p :: 0 <= p < |r| ==> r[p] == if off <= p < off + |data| then data[p - off] else s[p]
  {
    s[..off] + data + (if off + |data| < |s| then s[off + |data|..] else [])
  }

  /** memmove into a block. */
  function Patch(b: Block, o: nat, data: seq<byte>): (r: Block)
    requires o + |data| <= BSIZE
    ensures forall p :: 0 <= p < BSIZE ==> r[p] == if o <= p < o + |data| then data[p - o] else b[p]
  {
    b[..o] + data + b[o + |data|..]
  }

  /** data has been written to file i from off on; its size is not updated yet. */
  ghost predicate Written(b0: seq<Block>, i0: seq<Inode>, b1: seq<Block>, i1: seq<Inode>, i: nat, off: nat,
                          data: seq<byte>)
  {
    && |i1| == |i0| && |b1| == |b0| && i < |i0| && off + |data| <= LIMIT
    && (forall j :: 0 <= j < |i0| ==> |i0[j].addrs| == |i1[j].addrs| == NDIRECT + 1)
    && i1 == i0[i := i0[i].(addrs := i1[i].addrs)]
    && (off + |data| <= i0[i].size ==> i1 == i0)
    && (forall bn: nat :: off / BSIZE <= bn < MAXFILE && bn * BSIZE < off + |data| ==> DataAddr(b1, i1, i, bn) != 0)
    && (forall j: nat, bn: nat :: j < |i0| && bn < MAXFILE && DataAddr(b0, i0, j, bn) != 0 ==>
          DataAddr(b1, i1, j, bn) == DataAddr(b0, i0, j, bn))
    && (forall j: nat, p: nat :: j < |i0| && p < LIMIT && Settled(b0, i0, i, off, data, j, p) ==>
          ByteAt(b1, i1, j, p) == if j == i && off <= p < off + |data| then data[p - off] else ByteAt(b0, i0, j, p))
  }

  /** Byte p of file j was allocated before, or is among the written ones. */
  ghost predicate Settled(b0: seq<Block>, i0: seq<Inode>, i: nat, off: nat, data: seq<byte>, j: nat, p: nat)
    requires j < |i0| && |i0[j].addrs| == NDIRECT + 1 && p < LIMIT
  {
    DataAddr(b0, i0, j, p / BSIZE) != 0 || (j == i && off <= p < off + |data|)
  }

  /** One iteration of writei's loop: bmap, then a patch within that block. */
  lemma BlockWritten(sb: Superblock, b0: seq<Block>, i0: seq<Inode>, owner: map<nat, Slot>, b1: seq<Block>,
                     i1: seq<Inode>, i: nat, off: nat, data: seq<byte>, a: nat)
    requires Extended(b0, i0, b1, i1) && Owned(sb, b1, i1, owner, {}) && i < |i0|
    requires i1 == i0[i := i0[i].(addrs := i1[i].addrs)]
    requires 0 < |data| <= BSIZE - off % BSIZE && off + |data| <= LIMIT && Sized(b0, i0, i)
    requires a == DataAddr(b1, i1, i, off / BSIZE) && a != 0 && (DataAddr(b0, i0, i, off / BSIZE) != 0 ==> i1 == i0)
    ensures DataStart(sb) <= a < |b1| && var b2 := b1[a := Patch(b1[a], off % BSIZE, data)];
            Owned(sb, b2, i1, owner, {}) && Written(b0, i0, b2, i1, i, off, data)
  {
    hide BitSet; hide SlotVal; hide DataAddr; hide Owned;
    OwnedShape(sb, b1, i1, owner);
    var bn := off / BSIZE;
    DataAddrOwned(sb, b1, i1, owner, i, bn);
    var b2 := b1[a := Patch(b1[a], off % BSIZE, data)];
    WriteData(sb, b1, i1, owner, i, bn, a, b2[a]);
    forall j: nat, p: nat | j < |i0| && p < LIMIT && Settled(b0, i0, i, off, data, j, p)
      ensures ByteAt(b2, i1, j, p) == if j == i && off <= p < off + |data| then data[p - off] else ByteAt(b0, i0, j, p)
    {
      SameBlock(off, |data|, p);
      if DataAddr(b0, i0, j, p / BSIZE) != 0 { ExtendedBytes(b0, i0, b1, i1, j, p); }
    }
  }

  lemma OwnedShape(sb: Superblock, blocks: seq<Block>, ino: seq<Inode>, owner: map<nat, Slot>)
    requires Owned(sb, blocks, ino, owner, {})
    ensures Shape(sb, blocks, ino)
  {
  }

  lemma SameBlock(off: nat, n: nat, p: nat)
    requires 0 < n <= BSIZE - off % BSIZE
    ensures off <= p < off + n ==> p / BSIZE == off / BSIZE && p % BSIZE == off % BSIZE + (p - off)
    ensures p / BSIZE == off / BSIZE ==> p % BSIZE == off % BSIZE + (p - off)
    ensures forall bn: nat :: off / BSIZE <= bn && bn * BSIZE < off + n ==> bn == off / BSIZE
  {
  }

  lemma WrittenTrans(b0: seq<Block>, i0: seq<Inode>, b1: seq<Block>, i1: seq<Inode>, b2: seq<Block>, i2: seq<Inode>,
                     i: nat, off: nat, d1: seq<byte>, d2: seq<byte>)
    requires Written(b0, i0, b1, i1, i, off, d1) && Written(b1, i1, b2, i2, i, off + |d1|, d2)
    ensures Written(b0, i0, b2, i2, i, off, d1 + d2)
  {
    hide DataAddr; hide ByteAt;
    assert i2 == i0[i := i0[i].(addrs := i2[i].addrs)];
    forall j: nat, p: nat | j < |i0| && p < LIMIT && Settled(b0, i0, i, off, d1 + d2, j, p)
      ensures ByteAt(b2, i2, j, p) == if j == i && off <= p < off + |d1 + d2| then (d1 + d2)[p - off] else ByteAt(b0, i0, j, p)
    {
      BlockOf(off, p);
      assert Settled(b1, i1, i, off + |d1|, d2, j, p);
    }
    forall bn: nat | off / BSIZE <= bn < MAXFILE && bn * BSIZE < off + |d1 + d2| ensures DataAddr(b2, i2, i, bn) != 0 {
      BlockOf(off + |d1|, bn * BSIZE);
    }
  }

  lemma BlockOf(off: nat, p: nat)
    ensures p / BSIZE * BSIZE <= p && (off <= p ==> off / BSIZE <= p / BSIZE) && (p < off ==> p / BSIZE <= off / BSIZE)
  {
  }

  lemma WrittenNothing(b0: seq<Block>, i0: seq<Inode>, i: nat, off: nat)
    requires forall j :: 0 <= j < |i0| ==> |i0[j].addrs| == NDIRECT + 1
    requires i < |i0| && off <= i0[i].size && Sized(b0, i0, i)
    ensures Written(b0, i0, b0, i0, i, off, [])
  {
    hide DataAddr; hide ByteAt;
    assert i0 == i0[i := i0[i].(addrs := i0[i].addrs)];
  }

  // ----- contents -----

  ghost predicate SameContent(b0: seq<Block>, i0: seq<Inode>, b1: seq<Block>, i1: seq<Inode>, j: nat)
    requires j < |i0| && j < |i1|
  {
    && |i0[j].addrs| == |i1[j].addrs| == NDIRECT + 1 && i0[j].size <= LIMIT && i1[j].size <= LIMIT
    && Content(b1, i1, j) == Content(b0, i0, j)
  }

  /** The contents of file j are the old ones with data spliced in at off. */
  ghost predicate Spliced(b0: seq<Block>, i0: seq<Inode>, b1: seq<Block>, i1: seq<Inode>, j: nat, off: nat,
                          data: seq<byte>)
    requires j < |i0| && j < |i1|
  {
    && |i0[j].addrs| == |i1[j].addrs| == NDIRECT + 1 && off <= i0[j].size <= LIMIT && i1[j].size <= LIMIT
    && Content(b1, i1, j) == Splice(Content(b0, i0, j), off, data)
  }

  lemma ExtendedContent(b0: seq<Block>, i0: seq<Inode>, b1: seq<Block>, i1: seq<Inode>, j: nat)
    requires Extended(b0, i0, b1, i1) && j < |i0| && Sized(b0, i0, j)
    ensures Sized(b1, i1, j) && SameContent(b0, i0, b1, i1, j)
  {
    hide DataAddr; hide ByteAt;
    forall p: nat | p < i0[j].size ensures ByteAt(b1, i1, j, p) == ByteAt(b0, i0, j, p) {
      ExtendedBytes(b0, i0, b1, i1, j, p);
    }
    ExtendedSized(b0, i0, b1, i1, j);
    assert Content(b1, i1, j) == Content(b0, i0, j);
  }

  lemma AddrsOnly(b: seq<Block>, ino: seq<Inode>, ino': seq<Inode>, j: nat)
    requires j < |ino| == |ino'| && |ino[j].addrs| == NDIRECT + 1 && ino'[j].addrs == ino[j].addrs
    ensures forall bn: nat :: bn < MAXFILE ==> DataAddr(b, ino', j, bn) == DataAddr(b, ino, j, bn)
    ensures forall p: nat :: p < LIMIT ==> ByteAt(b, ino', j, p) == ByteAt(b, ino, j, p)
  {
    hide GetWord;
  }

  /** With its size brought up to date, the file is its old contents with data spliced in. */
  lemma WrittenContent(b0: seq<Block>, i0: seq<Inode>, b1: seq<Block>, i1: seq<Inode>, i2: seq<Inode>, i: nat,
                       off: nat, data: seq<byte>)
    requires Written(b0, i0, b1, i1, i, off, data) && off <= i0[i].size && Sized(b0, i0, i) && |i2| == |i1|
    requires i2[i] == i1[i].(size := if off + |data| > i0[i].size then off + |data| else i0[i].size)
    ensures Sized(b1, i2, i) && Content(b1, i2, i) == Splice(Content(b0, i0, i), off, data)
  {
    hide DataAddr; hide ByteAt;
    AddrsOnly(b1, i1, i2, i);
    forall p: nat | p < i2[i].size
      ensures ByteAt(b1, i2, i, p) == if off <= p < off + |data| then data[p - off] else ByteAt(b0, i0, i, p)
    {
      assert Settled(b0, i0, i, off, data, i, p);
    }
    assert Content(b1, i2, i) == Splice(Content(b0, i0, i), off, data);
  }

  lemma WrittenOthers(b0: seq<Block>, i0: seq<Inode>, b1: seq<Block>, i1: seq<Inode>, i2: seq<Inode>, i: nat,
                      off: nat, data: seq<byte>, j: nat)
    requires Written(b0, i0, b1, i1, i, off, data) && j < |i0| && j != i && |i2| == |i1| && i2[j] == i1[j]
    requires Sized(b0, i0, j)
    ensures |i2[j].addrs| == NDIRECT + 1 && Sized(b1, i2, j) && SameContent(b0, i0, b1, i2, j)
  {
    hide DataAddr; hide ByteAt;
    AddrsOnly(b1, i1, i2, j);
    forall p: nat | p < i0[j].size ensures ByteAt(b1, i2, j, p) == ByteAt(b0, i0, j, p) {
      assert Settled(b0, i0, i, off, data, j, p);
    }
    assert Content(b1, i2, j) == Content(b0, i0, j);
  }

  // ----- how many blocks a write logs -----

  /** Blocks that [off, off + n) touches. */
  function Touched(off: nat, n: nat): nat {
    if n == 0 then 0 else (off + n - 1) / BSIZE - off / BSIZE + 1
  }

  /** Bound on distinct blocks logged: data, their free-map blocks, the indirect block and its free-map block, the inode. */
  function Cost(off: nat, n: nat): nat {
    if n == 0 then 0 else 2 * Touched(off, n) - (if off % BSIZE != 0 then 1 else 0) + 3
  }

  const CHUNK: nat := 1536      // ((MAXOPBLOCKS - 1 - 1 - 2) / 2) * 512

  /** filewrite's chunk stays within one operation's reservation wherever it starts. */
  lemma ChunkBound(off: nat, n: nat)
    requires n <= CHUNK
    ensures Cost(off, n) <= MAXOPBLOCKS
  {
  }
}
