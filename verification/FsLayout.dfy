/**
 The on-disk structures of fs.c as values: the free map, on-disk inodes, the
 direct and indirect block map, and the invariant that ties them together.
 */
module FsLayout {
  import opened Base
  import opened Bytes

  const NDIRECT: nat := 12
  const NINDIRECT: nat := 128
  const MAXFILE: nat := 140        // NDIRECT + NINDIRECT
  const IPB: nat := 8              // inodes per block

  /** struct superblock */
  datatype Superblock = Superblock(size: nat, nblocks: nat, ninodes: nat, inodestart: nat, bmapstart: nat)

  function DataStart(sb: Superblock): int {
    sb.size - sb.nblocks
  }

  function IBlock(sb: Superblock, i: nat): nat {
    i / IPB + sb.inodestart
  }

  function BBlock(sb: Superblock, b: nat): nat {
    b / BPB + sb.bmapstart
  }

  /** Boot, super block and log below the inode blocks; then the free map; then the data blocks. */
  predicate GoodLayout(sb: Superblock) {
    && 2 <= sb.inodestart
    && sb.inodestart + sb.ninodes / IPB < sb.bmapstart
    && sb.bmapstart + sb.size / BPB < DataStart(sb)
    && sb.nblocks <= sb.size < 0x1_0000_0000
  }

  type half = x: int | 0 <= x < 0x1_0000

  /** struct inode's copy of the on-disk fields; addrs[NDIRECT] is the indirect block. */
  datatype Inode = Inode(typ: half, major: half, minor: half, nlink: half, size: word, addrs: seq<word>)

  // ----- the free map -----

  predicate BitSet(sb: Superblock, blocks: seq<Block>, b: nat)
    requires BBlock(sb, b) < |blocks|
  {
    GetBit(blocks[BBlock(sb, b)], b % BPB)
  }

  function PutBit(sb: Superblock, blocks: seq<Block>, b: nat, on: bool): (r: seq<Block>)
    requires BBlock(sb, b) < |blocks|
    ensures |r| == |blocks|
  {
    blocks[BBlock(sb, b) := SetBit(blocks[BBlock(sb, b)], b % BPB, on)]
  }

  /** Setting one bit changes no other block's bit. */
  lemma PutBitSet(sb: Superblock, blocks: seq<Block>, b: nat, on: bool, c: nat)
    requires BBlock(sb, b) < |blocks| && BBlock(sb, c) < |blocks|
    ensures BitSet(sb, PutBit(sb, blocks, b, on), c) == if c == b then on else BitSet(sb, blocks, c)
  {
    hide GetBit; hide SetBit;
    if BBlock(sb, c) == BBlock(sb, b) {
      SetBitBits(blocks[BBlock(sb, b)], b % BPB, on, c % BPB);
      assert c != b ==> c % BPB != b % BPB;
    }
  }

  // ----- on-disk inodes -----

  /** The sixteen words of a struct dinode. */
  function InodeWords(ip: Inode): seq<word> {
    var w0: word := ip.typ as int + 0x1_0000 * (ip.major as int);
    var w1: word := ip.minor as int + 0x1_0000 * (ip.nlink as int);
    [w0, w1, ip.size] + ip.addrs
  }

  function GetAddrs(b: Block, base: nat): (r: seq<word>)
    requires base + NDIRECT < WORDS
    ensures |r| == NDIRECT + 1 && forall j :: 0 <= j <= NDIRECT ==> r[j] == GetWord(b, base + j)
  {
    seq<word>(NDIRECT + 1, j requires 0 <= j <= NDIRECT => GetWord(b, base + j))
  }

  function GetInode(b: Block, k: nat): Inode
    requires k < IPB
  {
    var w0, w1 := GetWord(b, 16 * k), GetWord(b, 16 * k + 1);
    Inode(w0 % 0x1_0000, w0 / 0x1_0000, w1 % 0x1_0000, w1 / 0x1_0000, GetWord(b, 16 * k + 2),
          GetAddrs(b, 16 * k + 3))
  }

  /** The first n words of ws stored from word base on. */
  function PutWords(b: Block, base: nat, ws: seq<word>, n: nat): (r: Block)
    requires base + |ws| <= WORDS && n <= |ws|
    ensures forall j :: 0 <= j < WORDS ==> GetWord(r, j) == if base <= j < base + n then ws[j - base] else GetWord(b, j)
  {
    if n == 0 then b else SetWord(PutWords(b, base, ws, n - 1), base + n - 1, ws[n - 1])
  }

  function PutInode(b: Block, k: nat, ip: Inode): Block
    requires k < IPB && |ip.addrs| == NDIRECT + 1
  {
    PutWords(b, 16 * k, InodeWords(ip), 16)
  }

  /** iupdate then ilock: the inode reads back, and its neighbours in the block are untouched. */
  lemma InodeRoundTrip(b: Block, k: nat, ip: Inode, j: nat)
    requires k < IPB && j < IPB && |ip.addrs| == NDIRECT + 1
    ensures GetInode(PutInode(b, k, ip), j) == if j == k then ip else GetInode(b, j)
  {
    hide GetWord; hide PutWords; hide GetAddrs;
    var r := PutInode(b, k, ip);
    if j == k {
      assert GetAddrs(r, 16 * k + 3) == ip.addrs;
    } else {
      assert GetAddrs(r, 16 * j + 3) == GetAddrs(b, 16 * j + 3);
    }
  }

  /** Where the fields of inode k lie in its block: 64 bytes an inode, each field lowest byte first. */
  lemma InodeBytes(b: Block, k: nat)
    requires k < IPB
    ensures var ip, at := GetInode(b, k), 64 * k;
      && LittleEndian(b, at, 2) == ip.typ && LittleEndian(b, at + 2, 2) == ip.major
      && LittleEndian(b, at + 4, 2) == ip.minor && LittleEndian(b, at + 6, 2) == ip.nlink
      && LittleEndian(b, at + 8, 4) == ip.size
      && forall j :: 0 <= j <= NDIRECT ==> LittleEndian(b, at + 12 + 4 * j, 4) == ip.addrs[j]
  {
    hide GetWord; hide LittleEndian;
    var ip := GetInode(b, k);
    WordBytes(b, 16 * k);
    WordBytes(b, 16 * k + 1);
    WordBytes(b, 16 * k + 2);
    Halves(b, 64 * k, ip.typ, ip.major);
    Halves(b, 64 * k + 4, ip.minor, ip.nlink);
    forall j | 0 <= j <= NDIRECT ensures LittleEndian(b, 64 * k + 12 + 4 * j, 4) == ip.addrs[j] {
      WordBytes(b, 16 * k + 3 + j);
    }
  }

  function DiskInode(sb: Superblock, blocks: seq<Block>, i: nat): Inode
    requires IBlock(sb, i) < |blocks|
  {
    GetInode(blocks[IBlock(sb, i)], i % IPB)
  }

  // ----- the disk as one stretch of bytes -----

  /** Byte p of the disk. */
  function DiskByte(blocks: seq<Block>, p: nat): byte
    requires p / BSIZE < |blocks|
  {
    blocks[p / BSIZE][p % BSIZE]
  }

  /** The number the n bytes from p on stand for, lowest byte first. */
  function DiskNumber(blocks: seq<Block>, p: nat, n: nat): nat
    requires n > 0 ==> (p + n - 1) / BSIZE < |blocks|
    decreases n
  {
    if n == 0 then 0 else DiskByte(blocks, p) as int + 0x100 * DiskNumber(blocks, p + 1, n - 1)
  }

  lemma {:induction false} InBlock(blocks: seq<Block>, q: nat, at: nat, n: nat)
    requires q < |blocks| && 0 < n && at + n <= BSIZE
    ensures (q * BSIZE + at + n - 1) / BSIZE == q
    ensures DiskNumber(blocks, q * BSIZE + at, n) == LittleEndian(blocks[q], at, n)
    decreases n
  {
    if n > 1 { InBlock(blocks, q, at + 1, n - 1); }
  }

  /** Bit b of the free map is bit b % 8 of byte b / 8 of the map, which starts at block bmapstart. */
  lemma BitOnDisk(sb: Superblock, blocks: seq<Block>, b: nat)
    requires BBlock(sb, b) < |blocks|
    ensures var p := sb.bmapstart * BSIZE + b / 8;
      p / BSIZE < |blocks| && (BitSet(sb, blocks, b) <==> HasBit(DiskByte(blocks, p), b % 8))
  {
    hide HasBit;
    var q, r := b / BPB, b % BPB;
    assert b / 8 == q * BSIZE + r / 8;
    assert sb.bmapstart * BSIZE + b / 8 == (sb.bmapstart + q) * BSIZE + r / 8;
  }

  /** Inode i is at byte 64 i of the inode blocks, which start at block inodestart. */
  lemma InodeOnDisk(sb: Superblock, blocks: seq<Block>, i: nat)
    requires IBlock(sb, i) < |blocks|
    ensures var ip, p := DiskInode(sb, blocks, i), sb.inodestart * BSIZE + 64 * i;
      && (p + 63) / BSIZE < |blocks|
      && DiskNumber(blocks, p, 2) == ip.typ && DiskNumber(blocks, p + 2, 2) == ip.major
      && DiskNumber(blocks, p + 4, 2) == ip.minor && DiskNumber(blocks, p + 6, 2) == ip.nlink
      && DiskNumber(blocks, p + 8, 4) == ip.size
      && forall j :: 0 <= j <= NDIRECT ==> DiskNumber(blocks, p + 12 + 4 * j, 4) == ip.addrs[j]
  {
    hide GetInode; hide DiskNumber; hide LittleEndian;
    var q, k := IBlock(sb, i), i % IPB;
    assert sb.inodestart * BSIZE + 64 * i == q * BSIZE + 64 * k;
    InodeBytes(blocks[q], k);
    InBlock(blocks, q, 64 * k, 2);
    InBlock(blocks, q, 64 * k + 2, 2);
    InBlock(blocks, q, 64 * k + 4, 2);
    InBlock(blocks, q, 64 * k + 6, 2);
    InBlock(blocks, q, 64 * k + 8, 4);
    forall j | 0 <= j <= NDIRECT
      ensures DiskNumber(blocks, q * BSIZE + 64 * k + 12 + 4 * j, 4) == LittleEndian(blocks[q], 64 * k + 12 + 4 * j, 4)
    {
      InBlock(blocks, q, 64 * k + 12 + 4 * j, 4);
    }
  }

  // ----- the block map -----

  /** Everywhere a block number can be stored: slots 0..11 direct, 12 the indirect block, 13.. its entries. */
  datatype Slot = Slot(inum: nat, k: nat)

  const SLOTS: nat := 141

  function SlotVal(blocks: seq<Block>, ino: seq<Inode>, i: nat, k: nat): word
    requires i < |ino| && |ino[i].addrs| == NDIRECT + 1 && k < SLOTS
  {
    if k <= NDIRECT then ino[i].addrs[k]
    else if 0 < ino[i].addrs[NDIRECT] < |blocks| then GetWord(blocks[ino[i].addrs[NDIRECT]], k - NDIRECT - 1)
    else 0
  }

  /** The slot of file block bn. */
  function DataSlot(bn: nat): nat {
    if bn < NDIRECT then bn else bn + 1
  }

  /** The disk block of file block bn, 0 when there is none. */
  function DataAddr(blocks: seq<Block>, ino: seq<Inode>, i: nat, bn: nat): word
    requires i < |ino| && |ino[i].addrs| == NDIRECT + 1 && bn < MAXFILE
  {
    SlotVal(blocks, ino, i, DataSlot(bn))
  }

  ghost predicate Shape(sb: Superblock, blocks: seq<Block>, ino: seq<Inode>) {
    && GoodLayout(sb) && |blocks| == sb.size && |ino| == sb.ninodes
    && forall i :: 0 <= i < |ino| ==> |ino[i].addrs| == NDIRECT + 1
  }

  /**
   Block ownership: every nonzero slot outside `dead` names a data block that
   owner gives to that slot, every owned block is named by its slot, and the
   free map marks exactly the metadata and the owned blocks.
   */
  ghost predicate Owned(sb: Superblock, blocks: seq<Block>, ino: seq<Inode>, owner: map<nat, Slot>, dead: set<Slot>) {
    && Shape(sb, blocks, ino)
    && (forall i: nat, k: nat :: i < |ino| && k < SLOTS && Slot(i, k) !in dead && SlotVal(blocks, ino, i, k) != 0 ==>
          SlotVal(blocks, ino, i, k) in owner && owner[SlotVal(blocks, ino, i, k)] == Slot(i, k))
    && (forall b :: b in owner ==>
          && DataStart(sb) <= b < sb.size && owner[b].inum < |ino| && owner[b].k < SLOTS && owner[b] !in dead
          && SlotVal(blocks, ino, owner[b].inum, owner[b].k) == b)
    && (forall b: nat :: b < sb.size ==> (BitSet(sb, blocks, b) <==> b < DataStart(sb) || b in owner))
  }

  /** Every block below the size of a file is allocated. */
  ghost predicate Sized(blocks: seq<Block>, ino: seq<Inode>, i: nat)
    requires i < |ino| && |ino[i].addrs| == NDIRECT + 1
  {
    && ino[i].size <= MAXFILE * BSIZE
    && forall bn: nat :: bn < MAXFILE && bn * BSIZE < ino[i].size ==> DataAddr(blocks, ino, i, bn) != 0
  }
  // ----- allocation -----

  /** balloc's effect once it has found a clear bit: the bit is set and the block zeroed. */
  function Alloc(sb: Superblock, blocks: seq<Block>, b: nat): (r: seq<Block>)
    requires BBlock(sb, b) < |blocks| && b < |blocks|
    ensures |r| == |blocks|
  {
    PutBit(sb, blocks, b, true)[b := ZeroBlock]
  }

  function SetAddr(ino: seq<Inode>, i: nat, k: nat, b: word): (r: seq<Inode>)
    requires i < |ino| && k < |ino[i].addrs|
    ensures |r| == |ino| && r[i].addrs == ino[i].addrs[k := b] && r[i].size == ino[i].size
    ensures forall j :: 0 <= j < |ino| && j != i ==> r[j] == ino[j]
  {
    ino[i := ino[i].(addrs := ino[i].addrs[k := b])]
  }

  /** A block with a clear bit is a data block nobody owns. */
  lemma FreeIsUnowned(sb: Superblock, blocks: seq<Block>, ino: seq<Inode>, owner: map<nat, Slot>, dead: set<Slot>,
                      b: nat)
    requires Owned(sb, blocks, ino, owner, dead) && b < sb.size && !BitSet(sb, blocks, b)
    ensures DataStart(sb) <= b && b !in owner
  {
  }

  lemma MetaBlocks(sb: Superblock, b: nat)
    requires GoodLayout(sb) && b < sb.size
    ensures BBlock(sb, b) < DataStart(sb) <= sb.size
  {
    assert b / BPB <= sb.size / BPB;
  }

  /** The bits and contents after allocating b. */
  lemma AllocEffect(sb: Superblock, blocks: seq<Block>, b: nat, c: nat)
    requires GoodLayout(sb) && |blocks| == sb.size && DataStart(sb) <= b < sb.size && c < sb.size
    ensures BitSet(sb, Alloc(sb, blocks, b), c) == (c == b || BitSet(sb, blocks, c))
    ensures DataStart(sb) <= c && c != b ==> Alloc(sb, blocks, b)[c] == blocks[c]
    ensures Alloc(sb, blocks, b)[b] == ZeroBlock
  {
    MetaBlocks(sb, b);
    MetaBlocks(sb, c);
    PutBitSet(sb, blocks, b, true, c);
  }

  /** One slot goes from empty to b, one bit is set, everything else about slots and bits stays. */
  ghost predicate SlotFilled(sb: Superblock, blocks: seq<Block>, ino: seq<Inode>, blocks': seq<Block>,
                             ino': seq<Inode>, i: nat, k: nat, b: nat)
  {
    && Shape(sb, blocks, ino) && Shape(sb, blocks', ino')
    && (forall j: nat, q: nat :: j < |ino| && q < SLOTS ==> SlotVal(blocks', ino', j, q) == if j == i && q == k then b else SlotVal(blocks, ino, j, q))
    && (forall c: nat :: c < sb.size ==> (BitSet(sb, blocks', c) <==> c == b || BitSet(sb, blocks, c)))
  }

  lemma SlotFilledOwned(sb: Superblock, blocks: seq<Block>, ino: seq<Inode>, owner: map<nat, Slot>,
                        blocks': seq<Block>, ino': seq<Inode>, i: nat, k: nat, b: nat)
    requires Owned(sb, blocks, ino, owner, {}) && SlotFilled(sb, blocks, ino, blocks', ino', i, k, b)
    requires i < |ino| && k < SLOTS && SlotVal(blocks, ino, i, k) == 0
    requires DataStart(sb) <= b < sb.size && b !in owner
    ensures Owned(sb, blocks', ino', owner[b := Slot(i, k)], {})
  {
    hide SlotVal; hide BitSet;
  }

  /** The indirect block of a file, when it has one, is owned by slot NDIRECT. */
  lemma IndirectOwned(sb: Superblock, blocks: seq<Block>, ino: seq<Inode>, owner: map<nat, Slot>, dead: set<Slot>,
                      j: nat)
    requires Owned(sb, blocks, ino, owner, dead) && j < |ino| && ino[j].addrs[NDIRECT] != 0 && Slot(j, NDIRECT) !in dead
    ensures ino[j].addrs[NDIRECT] in owner && owner[ino[j].addrs[NDIRECT]] == Slot(j, NDIRECT)
    ensures DataStart(sb) <= ino[j].addrs[NDIRECT] < sb.size
  {
    assert SlotVal(blocks, ino, j, NDIRECT) == ino[j].addrs[NDIRECT];
  }

  /** balloc for a direct slot or for the indirect block itself. */
  lemma AllocDirect(sb: Superblock, blocks: seq<Block>, ino: seq<Inode>, owner: map<nat, Slot>, i: nat, k: nat, b: nat)
    requires Owned(sb, blocks, ino, owner, {}) && i < |ino| && k <= NDIRECT && ino[i].addrs[k] == 0
    requires b < sb.size && !BitSet(sb, blocks, b)
    ensures Owned(sb, Alloc(sb, blocks, b), SetAddr(ino, i, k, b), owner[b := Slot(i, k)], {})
    ensures SlotFilled(sb, blocks, ino, Alloc(sb, blocks, b), SetAddr(ino, i, k, b), i, k, b)
  {
    hide GetWord; hide BitSet; hide Alloc;
    FreeIsUnowned(sb, blocks, ino, owner, {}, b);
    var blocks', ino' := Alloc(sb, blocks, b), SetAddr(ino, i, k, b);
    forall j: nat, q: nat | j < |ino| && q < SLOTS
      ensures SlotVal(blocks', ino', j, q) == if j == i && q == k then b else SlotVal(blocks, ino, j, q)
    {
      if q > NDIRECT {
        ZeroWords();
        AllocEffect(sb, blocks, b, b);
        if ino[j].addrs[NDIRECT] != 0 {
          IndirectOwned(sb, blocks, ino, owner, {}, j);
          AllocEffect(sb, blocks, b, ino[j].addrs[NDIRECT]);
        }
      }
    }
    forall c: nat | c < sb.size ensures BitSet(sb, blocks', c) <==> c == b || BitSet(sb, blocks, c) {
      AllocEffect(sb, blocks, b, c);
    }
    SlotFilledOwned(sb, blocks, ino, owner, blocks', ino', i, k, b);
  }

  /** balloc for entry e of the indirect block, followed by storing the entry. */
  function AllocEntryBlocks(sb: Superblock, blocks: seq<Block>, ind: nat, e: nat, b: word): (r: seq<Block>)
    requires BBlock(sb, b) < |blocks| && b < |blocks| && ind < |blocks| && e < NINDIRECT
    ensures |r| == |blocks|
  {
    Alloc(sb, blocks, b)[ind := SetWord(blocks[ind], e, b)]
  }

  lemma AllocEntry(sb: Superblock, blocks: seq<Block>, ino: seq<Inode>, owner: map<nat, Slot>, i: nat, e: nat, b: nat,
                   blocks': seq<Block>)
    requires Owned(sb, blocks, ino, owner, {}) && i < |ino| && e < NINDIRECT
    requires 0 < ino[i].addrs[NDIRECT] < sb.size && SlotVal(blocks, ino, i, NDIRECT + 1 + e) == 0
    requires b < sb.size && BBlock(sb, b) < sb.size && !BitSet(sb, blocks, b)
    requires blocks' == AllocEntryBlocks(sb, blocks, ino[i].addrs[NDIRECT], e, b)
    ensures Owned(sb, blocks', ino, owner[b := Slot(i, NDIRECT + 1 + e)], {})
    ensures SlotFilled(sb, blocks, ino, blocks', ino, i, NDIRECT + 1 + e, b)
    ensures ino[i].addrs[NDIRECT] != b
  {
    hide GetWord; hide BitSet; hide Alloc;
    FreeIsUnowned(sb, blocks, ino, owner, {}, b);
    IndirectOwned(sb, blocks, ino, owner, {}, i);
    MetaBlocks(sb, b);
    var ind := ino[i].addrs[NDIRECT];
    forall j: nat, q: nat | j < |ino| && q < SLOTS
      ensures SlotVal(blocks', ino, j, q) == if j == i && q == NDIRECT + 1 + e then b else SlotVal(blocks, ino, j, q)
    {
      if q > NDIRECT && ino[j].addrs[NDIRECT] != 0 {
        IndirectOwned(sb, blocks, ino, owner, {}, j);
        AllocEffect(sb, blocks, b, ino[j].addrs[NDIRECT]);
      }
    }
    forall c: nat | c < sb.size ensures BitSet(sb, blocks', c) <==> c == b || BitSet(sb, blocks, c) {
      AllocEffect(sb, blocks, b, c);
      MetaBlocks(sb, c);
      SameBitmap(sb, Alloc(sb, blocks, b), blocks', c);
    }
    SlotFilledOwned(sb, blocks, ino, owner, blocks', ino, i, NDIRECT + 1 + e, b);
  }

  lemma SameBitmap(sb: Superblock, blocks: seq<Block>, blocks': seq<Block>, c: nat)
    requires BBlock(sb, c) < |blocks| == |blocks'| && blocks'[BBlock(sb, c)] == blocks[BBlock(sb, c)]
    ensures BitSet(sb, blocks', c) == BitSet(sb, blocks, c)
  {
  }
  // ----- freeing -----

  /** An owned block's bit is set, so bfree never finds it free. */
  lemma OwnedIsSet(sb: Superblock, blocks: seq<Block>, ino: seq<Inode>, owner: map<nat, Slot>, dead: set<Slot>,
                   i: nat, k: nat)
    requires Owned(sb, blocks, ino, owner, dead) && i < |ino| && k < SLOTS && Slot(i, k) !in dead
    requires SlotVal(blocks, ino, i, k) != 0
    ensures DataStart(sb) <= SlotVal(blocks, ino, i, k) < sb.size
    ensures BBlock(sb, SlotVal(blocks, ino, i, k)) < sb.size && BitSet(sb, blocks, SlotVal(blocks, ino, i, k))
    ensures SlotVal(blocks, ino, i, k) in owner && owner[SlotVal(blocks, ino, i, k)] == Slot(i, k)
  {
    hide BitSet; hide SlotVal;
    MetaBlocks(sb, SlotVal(blocks, ino, i, k));
  }

  /** Block b of slot (i, k) is given up: its bit is clear, and its slot is empty or dead. */
  ghost predicate SlotCleared(sb: Superblock, blocks: seq<Block>, ino: seq<Inode>, dead: set<Slot>,
                              blocks': seq<Block>, ino': seq<Inode>, dead': set<Slot>, i: nat, k: nat, b: nat) {
    && Shape(sb, blocks, ino) && Shape(sb, blocks', ino') && dead' <= dead + {Slot(i, k)}
    && (forall j: nat, q: nat :: j < |ino| && q < SLOTS && Slot(j, q) !in dead' ==>
          SlotVal(blocks', ino', j, q) == if (j == i && q == k) || Slot(j, q) in dead then 0 else SlotVal(blocks, ino, j, q))
    && (forall c: nat :: c < sb.size ==> (BitSet(sb, blocks', c) <==> c != b && BitSet(sb, blocks, c)))
  }

  lemma SlotClearedOwned(sb: Superblock, blocks: seq<Block>, ino: seq<Inode>, owner: map<nat, Slot>, dead: set<Slot>,
                         blocks': seq<Block>, ino': seq<Inode>, dead': set<Slot>, i: nat, k: nat, b: nat)
    requires Owned(sb, blocks, ino, owner, dead) && b in owner && owner[b] == Slot(i, k)
    requires SlotCleared(sb, blocks, ino, dead, blocks', ino', dead', i, k, b)
    ensures Owned(sb, blocks', ino', owner - {b}, dead')
  {
    hide SlotVal; hide BitSet;
  }

  lemma FreeEffect(sb: Superblock, blocks: seq<Block>, b: nat, c: nat)
    requires GoodLayout(sb) && |blocks| == sb.size && b < sb.size && BBlock(sb, b) < sb.size && c < sb.size
    ensures BBlock(sb, c) < sb.size
    ensures BitSet(sb, PutBit(sb, blocks, b, false), c) == (c != b && BitSet(sb, blocks, c))
    ensures DataStart(sb) <= c ==> PutBit(sb, blocks, b, false)[c] == blocks[c]
  {
    MetaBlocks(sb, b);
    MetaBlocks(sb, c);
    PutBitSet(sb, blocks, b, false, c);
  }

  /** After clearing a bit, the slots are those of the new inodes over the same indirect blocks. */
  lemma FreeSlots(sb: Superblock, blocks: seq<Block>, ino: seq<Inode>, owner: map<nat, Slot>, dead: set<Slot>,
                  ino': seq<Inode>, b: nat, j: nat, q: nat)
    requires Owned(sb, blocks, ino, owner, dead) && b < sb.size && BBlock(sb, b) < sb.size
    requires Slot(j, NDIRECT) !in dead && j < |ino| == |ino'| && q < SLOTS
    requires |ino'[j].addrs| == NDIRECT + 1
    requires ino'[j].addrs[NDIRECT] == ino[j].addrs[NDIRECT] || ino'[j].addrs[NDIRECT] == 0
    ensures SlotVal(PutBit(sb, blocks, b, false), ino', j, q)
         == if q <= NDIRECT then ino'[j].addrs[q] else if ino'[j].addrs[NDIRECT] == 0 then 0 else SlotVal(blocks, ino, j, q)
  {
    hide BitSet; hide PutBit; hide GetWord;
    if q > NDIRECT && ino'[j].addrs[NDIRECT] != 0 {
      IndirectOwned(sb, blocks, ino, owner, dead, j);
      FreeEffect(sb, blocks, b, ino[j].addrs[NDIRECT]);
    }
  }

  /** The first n entries of file i's indirect block, once their blocks are freed but the entries still there. */
  ghost function Entries(i: nat, n: nat): (r: set<Slot>)
    ensures forall s :: s in r <==> s.inum == i && NDIRECT < s.k <= NDIRECT + n
  {
    if n == 0 then {} else Entries(i, n - 1) + {Slot(i, NDIRECT + n)}
  }

  /** itrunc on one direct block. */
  lemma FreeDirect(sb: Superblock, blocks: seq<Block>, ino: seq<Inode>, owner: map<nat, Slot>, i: nat, k: nat)
    requires Owned(sb, blocks, ino, owner, {}) && i < |ino| && k < NDIRECT && ino[i].addrs[k] != 0
    requires BBlock(sb, ino[i].addrs[k]) < sb.size
    ensures Owned(sb, PutBit(sb, blocks, ino[i].addrs[k], false), SetAddr(ino, i, k, 0), owner - {ino[i].addrs[k] as nat}, {})
  {
    hide BitSet; hide PutBit; hide GetWord;
    var b := ino[i].addrs[k];
    var blocks', ino' := PutBit(sb, blocks, b, false), SetAddr(ino, i, k, 0);
    OwnedIsSet(sb, blocks, ino, owner, {}, i, k);
    forall j: nat, q: nat | j < |ino| && q < SLOTS
      ensures SlotVal(blocks', ino', j, q) == if j == i && q == k then 0 else SlotVal(blocks, ino, j, q)
    {
      FreeSlots(sb, blocks, ino, owner, {}, ino', b, j, q);
    }
    forall c: nat | c < sb.size ensures BitSet(sb, blocks', c) <==> c != b && BitSet(sb, blocks, c) {
      FreeEffect(sb, blocks, b, c);
    }
    SlotClearedOwned(sb, blocks, ino, owner, {}, blocks', ino', {}, i, k, b);
  }

  /** itrunc on entry e of the indirect block: the entry stays behind, dead. */
  lemma FreeEntry(sb: Superblock, blocks: seq<Block>, ino: seq<Inode>, owner: map<nat, Slot>, i: nat, e: nat, b: nat)
    requires i < |ino| && e < NINDIRECT && Owned(sb, blocks, ino, owner, Entries(i, e))
    requires b == SlotVal(blocks, ino, i, NDIRECT + 1 + e) && b != 0 && BBlock(sb, b) < sb.size
    ensures Owned(sb, PutBit(sb, blocks, b, false), ino, owner - {b}, Entries(i, e + 1))
  {
    hide BitSet; hide PutBit; hide GetWord;
    var dead, dead' := Entries(i, e), Entries(i, e + 1);
    var blocks' := PutBit(sb, blocks, b, false);
    OwnedIsSet(sb, blocks, ino, owner, dead, i, NDIRECT + 1 + e);
    forall j: nat, q: nat | j < |ino| && q < SLOTS && Slot(j, q) !in dead'
      ensures SlotVal(blocks', ino, j, q) == SlotVal(blocks, ino, j, q)
    {
      FreeSlots(sb, blocks, ino, owner, dead, ino, b, j, q);
    }
    forall c: nat | c < sb.size ensures BitSet(sb, blocks', c) <==> c != b && BitSet(sb, blocks, c) {
      FreeEffect(sb, blocks, b, c);
    }
    SlotClearedOwned(sb, blocks, ino, owner, dead, blocks', ino, dead', i, NDIRECT + 1 + e, b);
  }

  /** An empty entry may be counted dead. */
  lemma SkipEntry(sb: Superblock, blocks: seq<Block>, ino: seq<Inode>, owner: map<nat, Slot>, i: nat, e: nat)
    requires i < |ino| && e < NINDIRECT && Owned(sb, blocks, ino, owner, Entries(i, e))
    requires SlotVal(blocks, ino, i, NDIRECT + 1 + e) == 0
    ensures Owned(sb, blocks, ino, owner, Entries(i, e + 1))
  {
    hide BitSet; hide SlotVal;
  }

  /** itrunc on the indirect block itself: with it go the dead entries. */
  lemma FreeIndirect(sb: Superblock, blocks: seq<Block>, ino: seq<Inode>, owner: map<nat, Slot>, i: nat, n: nat)
    requires n == NINDIRECT && i < |ino| && Owned(sb, blocks, ino, owner, Entries(i, n))
    requires ino[i].addrs[NDIRECT] != 0 && BBlock(sb, ino[i].addrs[NDIRECT]) < sb.size
    ensures Owned(sb, PutBit(sb, blocks, ino[i].addrs[NDIRECT], false), SetAddr(ino, i, NDIRECT, 0), owner - {ino[i].addrs[NDIRECT] as nat}, {})
  {
    hide BitSet; hide PutBit; hide GetWord; hide Entries;
    var b, dead := ino[i].addrs[NDIRECT], Entries(i, n);
    var blocks', ino' := PutBit(sb, blocks, b, false), SetAddr(ino, i, NDIRECT, 0);
    OwnedIsSet(sb, blocks, ino, owner, dead, i, NDIRECT);
    forall j: nat, q: nat | j < |ino| && q < SLOTS
      ensures SlotVal(blocks', ino', j, q) == if (j == i && q == NDIRECT) || Slot(j, q) in dead then 0 else SlotVal(blocks, ino, j, q)
    {
      FreeSlots(sb, blocks, ino, owner, dead, ino', b, j, q);
    }
    forall c: nat | c < sb.size ensures BitSet(sb, blocks', c) <==> c != b && BitSet(sb, blocks, c) {
      FreeEffect(sb, blocks, b, c);
    }
    SlotClearedOwned(sb, blocks, ino, owner, dead, blocks', ino', {}, i, NDIRECT, b);
  }
  // ----- file contents -----

  /** Byte p of file i. */
  function ByteAt(blocks: seq<Block>, ino: seq<Inode>, i: nat, p: nat): byte
    requires i < |ino| && |ino[i].addrs| == NDIRECT + 1 && p < MAXFILE * BSIZE
  {
    var a := DataAddr(blocks, ino, i, p / BSIZE);
    if a < |blocks| then blocks[a][p % BSIZE] else 0
  }

  /** The contents of file i as a byte sequence. */
  ghost function Content(blocks: seq<Block>, ino: seq<Inode>, i: nat): (r: seq<byte>)
    requires i < |ino| && |ino[i].addrs| == NDIRECT + 1 && ino[i].size <= MAXFILE * BSIZE
    ensures |r| == ino[i].size && forall p :: 0 <= p < |r| ==> r[p] == ByteAt(blocks, ino, i, p)
  {
    seq<byte>(ino[i].size, p requires 0 <= p < ino[i].size => ByteAt(blocks, ino, i, p))
  }

  /** Every allocated file block keeps its address and its contents. */
  ghost predicate Extended(blocks: seq<Block>, ino: seq<Inode>, blocks': seq<Block>, ino': seq<Inode>) {
    && |ino'| == |ino| && |blocks'| == |blocks|
    && (forall j :: 0 <= j < |ino| ==> |ino[j].addrs| == |ino'[j].addrs| == NDIRECT + 1 && ino'[j].size == ino[j].size)
    && forall j: nat, c: nat :: j < |ino| && c < MAXFILE && DataAddr(blocks, ino, j, c) != 0 ==>
         && DataAddr(blocks', ino', j, c) == DataAddr(blocks, ino, j, c) < |blocks|
         && blocks'[DataAddr(blocks, ino, j, c)] == blocks[DataAddr(blocks, ino, j, c)]
  }

  /** A block owned by a file block is neither an indirect block nor unowned. */
  lemma DataAddrOwned(sb: Superblock, blocks: seq<Block>, ino: seq<Inode>, owner: map<nat, Slot>, j: nat, c: nat)
    requires Owned(sb, blocks, ino, owner, {}) && j < |ino| && c < MAXFILE && DataAddr(blocks, ino, j, c) != 0
    ensures DataAddr(blocks, ino, j, c) in owner && owner[DataAddr(blocks, ino, j, c)] == Slot(j, DataSlot(c))
    ensures DataStart(sb) <= DataAddr(blocks, ino, j, c) < sb.size
  {
    hide SlotVal; hide BitSet;
  }

  /** Filling an empty slot extends: only the new block and an indirect block changed. */
  lemma FillExtends(sb: Superblock, blocks: seq<Block>, ino: seq<Inode>, owner: map<nat, Slot>, blocks': seq<Block>,
                    ino': seq<Inode>, i: nat, k: nat, b: nat)
    requires Owned(sb, blocks, ino, owner, {}) && SlotFilled(sb, blocks, ino, blocks', ino', i, k, b)
    requires i < |ino| && k < SLOTS && SlotVal(blocks, ino, i, k) == 0 && b !in owner
    requires forall j :: 0 <= j < |ino| ==> ino'[j].size == ino[j].size
    requires forall c: nat :: c in owner && owner[c].k != NDIRECT ==> c < |blocks| && blocks'[c] == blocks[c]
    ensures Extended(blocks, ino, blocks', ino')
  {
    hide SlotVal; hide BitSet; hide DataAddr;
    forall j: nat, c: nat | j < |ino| && c < MAXFILE && DataAddr(blocks, ino, j, c) != 0
      ensures DataAddr(blocks', ino', j, c) == DataAddr(blocks, ino, j, c) < |blocks|
      ensures blocks'[DataAddr(blocks, ino, j, c)] == blocks[DataAddr(blocks, ino, j, c)]
    {
      DataAddrOwned(sb, blocks, ino, owner, j, c);
      DataAddrIs(blocks, ino, j, c);
      DataAddrIs(blocks', ino', j, c);
    }
  }

  lemma DataAddrIs(blocks: seq<Block>, ino: seq<Inode>, j: nat, c: nat)
    requires j < |ino| && |ino[j].addrs| == NDIRECT + 1 && c < MAXFILE
    ensures DataAddr(blocks, ino, j, c) == SlotVal(blocks, ino, j, DataSlot(c)) && DataSlot(c) < SLOTS
  {
  }

  lemma ExtendedTrans(a: seq<Block>, i0: seq<Inode>, b: seq<Block>, i1: seq<Inode>, c: seq<Block>, i2: seq<Inode>)
    requires Extended(a, i0, b, i1) && Extended(b, i1, c, i2)
    ensures Extended(a, i0, c, i2)
  {
    hide DataAddr;
  }

  /** Extension keeps sizes covered and every byte below them. */
  lemma ExtendedBytes(blocks: seq<Block>, ino: seq<Inode>, blocks': seq<Block>, ino': seq<Inode>, j: nat, p: nat)
    requires Extended(blocks, ino, blocks', ino') && j < |ino| && p < MAXFILE * BSIZE
    requires DataAddr(blocks, ino, j, p / BSIZE) != 0
    ensures ByteAt(blocks', ino', j, p) == ByteAt(blocks, ino, j, p)
  {
    hide DataAddr;
    assert p / BSIZE < MAXFILE;
  }

  lemma ExtendedSized(blocks: seq<Block>, ino: seq<Inode>, blocks': seq<Block>, ino': seq<Inode>, j: nat)
    requires Extended(blocks, ino, blocks', ino') && j < |ino| && Sized(blocks, ino, j)
    ensures Sized(blocks', ino', j)
  {
    hide DataAddr;
  }

  /** Overwriting one file block disturbs no slot, no bit and no other file block. */
  lemma WriteData(sb: Superblock, blocks: seq<Block>, ino: seq<Inode>, owner: map<nat, Slot>, i: nat, bn: nat, a: nat,
                  x: Block)
    requires Owned(sb, blocks, ino, owner, {}) && i < |ino| && bn < MAXFILE && a == DataAddr(blocks, ino, i, bn)
    requires a != 0
    ensures DataStart(sb) <= a < sb.size && Owned(sb, blocks[a := x], ino, owner, {})
    ensures forall j: nat, c: nat :: j < |ino| && c < MAXFILE ==> DataAddr(blocks[a := x], ino, j, c) == DataAddr(blocks, ino, j, c)
    ensures forall j: nat, c: nat :: j < |ino| && c < MAXFILE && DataAddr(blocks, ino, j, c) == a ==> j == i && c == bn
  {
    hide GetWord; hide BitSet;
    DataAddrOwned(sb, blocks, ino, owner, i, bn);
    var blocks' := blocks[a := x];
    forall j: nat, q: nat | j < |ino| && q < SLOTS ensures SlotVal(blocks', ino, j, q) == SlotVal(blocks, ino, j, q) {
      if q > NDIRECT && ino[j].addrs[NDIRECT] != 0 { IndirectOwned(sb, blocks, ino, owner, {}, j); }
    }
    forall c: nat | c < sb.size ensures BBlock(sb, c) < sb.size && BitSet(sb, blocks', c) == BitSet(sb, blocks, c) {
      MetaBlocks(sb, c);
      SameBitmap(sb, blocks, blocks', c);
    }
    forall j: nat, c: nat | j < |ino| && c < MAXFILE && DataAddr(blocks, ino, j, c) == a ensures j == i && c == bn {
      DataAddrOwned(sb, blocks, ino, owner, j, c);
    }
    SameSlotsOwned(sb, blocks, ino, owner, blocks');
  }

  lemma SameSlotsOwned(sb: Superblock, blocks: seq<Block>, ino: seq<Inode>, owner: map<nat, Slot>, blocks': seq<Block>)
    requires Owned(sb, blocks, ino, owner, {}) && |blocks'| == |blocks|
    requires forall j: nat, q: nat :: j < |ino| && q < SLOTS ==> SlotVal(blocks', ino, j, q) == SlotVal(blocks, ino, j, q)
    requires forall c: nat :: c < sb.size ==> BBlock(sb, c) < sb.size && BitSet(sb, blocks', c) == BitSet(sb, blocks, c)
    ensures Owned(sb, blocks', ino, owner, {})
  {
    hide SlotVal; hide BitSet;
  }
}
