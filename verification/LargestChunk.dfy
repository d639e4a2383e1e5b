/**
 Why filewrite's chunk is no larger: a file system whose only free blocks have
 their bits in five different free-map blocks, on which a chunk of one byte more
 logs eleven blocks and an unaligned chunk of the actual size logs ten.
 */
module LargestChunk {
  import opened Base
  import opened Bytes
  import opened FsLayout
  import opened SlotMap
  import opened FileContent
  import opened FileSystem

  // ----- the file system -----

  /** 171 inode blocks from 32 on, 5 free-map blocks from 203 on, data blocks from 4083 on. */
  const SB: Superblock := Superblock(16385, 12302, 1366, 32, 203)

  predicate IsFree(c: nat) {
    c == 4095 || c == 4096 || c == 8192 || c == 12288 || c == 16384
  }

  /** The first twelve data blocks. */
  function FileAddrs(): (r: seq<word>)
    ensures |r| == NDIRECT + 1 && forall k :: 0 <= k <= NDIRECT ==> r[k] == if k < NDIRECT then 4083 + k else 0
  {
    seq<word>(NDIRECT + 1, k requires 0 <= k <= NDIRECT => if k < NDIRECT then 4083 + k else 0)
  }

  /** The first of the nine blocks of filler file j; 455 such files fill the space between two free blocks. */
  function First(j: nat): (r: nat)
    requires 1 <= j <= 1365
    ensures 4096 < r <= 16375
  {
    4096 * ((j - 1) / 455 + 1) + 1 + 9 * ((j - 1) % 455)
  }

  function FillerAddrs(j: nat): (r: seq<word>)
    requires 1 <= j <= 1365
    ensures |r| == NDIRECT + 1 && forall k :: 0 <= k <= NDIRECT ==> r[k] == if k < 9 then First(j) + k else 0
  {
    var f := First(j);
    assert f <= 16375;
    seq<word>(NDIRECT + 1, k requires 0 <= k <= NDIRECT => if k < 9 then f + k else 0)
  }

  /** File 0 has twelve blocks and the given size, files 1 to 1365 nine blocks each. */
  function Ino(size: word, j: nat): (r: Inode)
    ensures |r.addrs| == NDIRECT + 1
  {
    if j == 0 then Inode(2, 0, 0, 1, size, FileAddrs())
    else if j <= 1365 then Inode(2, 0, 0, 1, 9 * BSIZE, FillerAddrs(j))
    else Inode(0, 0, 0, 0, 0, seq<word>(NDIRECT + 1, _ => 0))
  }

  function Inodes(size: word): (r: seq<Inode>)
    ensures |r| == 1366 && forall j :: 0 <= j < 1366 ==> r[j] == Ino(size, j)
  {
    seq(1366, j requires 0 <= j < 1366 => Ino(size, j))
  }

  /** The first k inodes of inode block q. */
  function Packed(size: word, q: nat, k: nat): Block
    requires k <= IPB
  {
    if k == 0 then ZeroBlock else PutInode(Packed(size, q, k - 1), k - 1, Ino(size, IPB * q + k - 1))
  }

  lemma {:induction false} PackedGet(size: word, q: nat, k: nat, j: nat)
    requires j < k <= IPB
    ensures GetInode(Packed(size, q, k), j) == Ino(size, IPB * q + j)
  {
    hide GetInode; hide PutInode; hide Ino;
    InoAddrs(size, IPB * q + k - 1);
    InodeRoundTrip(Packed(size, q, k - 1), k - 1, Ino(size, IPB * q + k - 1), j);
    if j < k - 1 { PackedGet(size, q, k - 1, j); }
  }

  lemma InoAddrs(size: word, j: nat)
    ensures |Ino(size, j).addrs| == NDIRECT + 1
  {
  }

  /** Bits 0 to 4094 set. */
  function FirstMap(): (r: Block)
    ensures forall p :: 0 <= p < BSIZE ==> r[p] == if p == 511 then 127 else 255
  {
    seq<byte>(BSIZE, p => if p == 511 then 127 else 255)
  }

  /** Bits 1 to 4095 set. */
  function OtherMap(): (r: Block)
    ensures forall p :: 0 <= p < BSIZE ==> r[p] == if p == 0 then 254 else 255
  {
    seq<byte>(BSIZE, p => if p == 0 then 254 else 255)
  }

  function Disk(size: word): (r: seq<Block>)
    ensures |r| == 16385
    ensures forall c :: 0 <= c < 16385 ==> r[c] == DiskBlock(size, c)
  {
    seq<Block>(16385, c requires 0 <= c < 16385 => DiskBlock(size, c))
  }

  function DiskBlock(size: word, c: nat): Block {
    if 32 <= c < 203 then Packed(size, c - 32, IPB)
    else if c == 203 then FirstMap()
    else if 204 <= c < 208 then OtherMap()
    else ZeroBlock
  }

  ghost function OwnerOf(c: nat): Slot {
    if c < 4095 then Slot(0, if c < 4083 then 0 else c - 4083)
    else if c % 4096 == 0 then Slot(0, 0)
    else Slot(1 + 455 * (c / 4096 - 1) + (c % 4096 - 1) / 9, (c % 4096 - 1) % 9)
  }

  ghost function Owners(): (r: map<nat, Slot>)
    ensures forall c: nat :: c in r <==> 4083 <= c < 16385 && !IsFree(c)
    ensures forall c: nat :: c in r ==> r[c] == OwnerOf(c)
  {
    map c: nat | 4083 <= c < 16385 && !IsFree(c) :: OwnerOf(c)
  }

  // ----- it is consistent -----

  lemma MapBits(k: nat)
    requires k < 8
    ensures HasBit(255, k) && (HasBit(127, k) <==> k != 7) && (HasBit(254, k) <==> k != 0)
  {
    if k == 0 { } else if k == 1 { } else if k == 2 { } else if k == 3 { }
    else if k == 4 { } else if k == 5 { } else if k == 6 { } else { }
  }

  lemma Bits(size: word, b: nat)
    requires b < 16385
    ensures BBlock(SB, b) < 16385 && (BitSet(SB, Disk(size), b) <==> !IsFree(b))
  {
    hide HasBit; hide Packed;
    MapBits(b % BPB % 8);
    var q := b / BPB;
    assert b == BPB * q + b % BPB && q <= 4;
  }

  /** The k-th block of filler file j is owned by that slot. */
  lemma FillerOwner(j: nat, k: nat)
    requires 1 <= j <= 1365 && k < 9
    ensures First(j) + k in Owners() && OwnerOf(First(j) + k) == Slot(j, k)
  {
    var g, m := (j - 1) / 455 + 1, (j - 1) % 455;
    var c, r := First(j) + k, 9 * m + k;
    assert c == 4096 * g + (1 + r) && 0 < 1 + r < 4096 && 1 <= g <= 3;
    assert c / 4096 == g && c % 4096 == 1 + r;
    assert r / 9 == m && r % 9 == k;
  }

  /** Every owned block above the gaps is a block of the filler file that owns it. */
  lemma OwnerFiller(c: nat)
    requires 4096 < c < 16385 && c % 4096 != 0
    ensures var s := OwnerOf(c); 1 <= s.inum <= 1365 && s.k < 9 && First(s.inum) + s.k == c
  {
    var g, r := c / 4096, c % 4096 - 1;
    var m, k := r / 9, r % 9;
    assert 1 <= g <= 3 && m < 455 && r == 9 * m + k && c == 4096 * g + 1 + r;
    var j := 1 + 455 * (g - 1) + m;
    assert (j - 1) / 455 == g - 1 && (j - 1) % 455 == m;
  }

  /** Slots of the file system: direct blocks only. */
  lemma SlotIs(size: word, i: nat, k: nat)
    requires i < 1366 && k < SLOTS
    ensures SlotVal(Disk(size), Inodes(size), i, k)
         == if i == 0 then (if k < NDIRECT then 4083 + k else 0) else if k < 9 then First(i) + k else 0
  {
    hide Disk; hide First;
    InoAddrs(size, i);
    assert Inodes(size)[i].addrs[NDIRECT] == 0;
  }

  lemma SlotOwned(size: word, i: nat, k: nat)
    requires i < 1366 && k < SLOTS && SlotVal(Disk(size), Inodes(size), i, k) != 0
    ensures var v: nat := SlotVal(Disk(size), Inodes(size), i, k); v in Owners() && Owners()[v] == Slot(i, k)
  {
    hide Disk; hide Inodes; hide SlotVal; hide Owners;
    SlotIs(size, i, k);
    OwnersIs();
    if i > 0 { FillerOwner(i, k); }
  }

  lemma OwnersIs()
    ensures forall c: nat :: c in Owners() <==> 4083 <= c < 16385 && !IsFree(c)
    ensures forall c: nat :: c in Owners() ==> Owners()[c] == OwnerOf(c)
  {
  }

  lemma OwnedSlot(size: word, c: nat)
    requires 4083 <= c < 16385 && !IsFree(c)
    ensures var o := OwnerOf(c); o.inum < 1366 && o.k < SLOTS && SlotVal(Disk(size), Inodes(size), o.inum, o.k) == c
  {
    hide Disk; hide Inodes; hide SlotVal; hide First;
    if c < 4095 {
      SlotIs(size, 0, c - 4083);
    } else {
      OwnerFiller(c);
      SlotIs(size, OwnerOf(c).inum, OwnerOf(c).k);
    }
  }

  lemma IsShape(size: word)
    ensures Shape(SB, Disk(size), Inodes(size))
  {
    hide Disk; hide Ino;
    forall i | 0 <= i < 1366 ensures |Inodes(size)[i].addrs| == NDIRECT + 1 { InoAddrs(size, i); }
    DiskSize(size);
  }

  lemma DiskSize(size: word)
    ensures |Disk(size)| == 16385
  {
  }

  lemma IsOwned(size: word)
    ensures Owned(SB, Disk(size), Inodes(size), Owners(), {})
  {
    hide Disk; hide Inodes; hide SlotVal; hide Owners; hide BitSet; hide OwnerOf; hide Shape; hide IsFree;
    IsShape(size);
    ShapeSizes(SB, Disk(size), Inodes(size));
    OwnersIs();
    forall i: nat, k: nat | i < 1366 && k < SLOTS && SlotVal(Disk(size), Inodes(size), i, k) != 0
      ensures SlotVal(Disk(size), Inodes(size), i, k) in Owners()
      ensures Owners()[SlotVal(Disk(size), Inodes(size), i, k)] == Slot(i, k)
    {
      SlotOwned(size, i, k);
    }
    forall c: nat | c in Owners()
      ensures Owners()[c].inum < 1366 && Owners()[c].k < SLOTS
      ensures SlotVal(Disk(size), Inodes(size), Owners()[c].inum, Owners()[c].k) == c
    {
      OwnedSlot(size, c);
    }
    forall b: nat | b < 16385
      ensures BBlock(SB, b) < 16385 && (BitSet(SB, Disk(size), b) <==> b < DataStart(SB) || b in Owners())
    {
      Bits(size, b);
      FreeIsData(b);
    }
  }

  lemma FreeIsData(b: nat)
    ensures IsFree(b) ==> 4083 <= b < 16385
  {
  }

  lemma ShapeSizes(sb: Superblock, blocks: seq<Block>, ino: seq<Inode>)
    requires Shape(sb, blocks, ino)
    ensures |blocks| == sb.size && |ino| == sb.ninodes && forall i :: 0 <= i < |ino| ==> |ino[i].addrs| == NDIRECT + 1
  {
  }

  lemma IsOnDisk(size: word, j: nat)
    requires j < 1366 && size <= NDIRECT * BSIZE
    ensures OnDisk(SB, Disk(size), Inodes(size), j)
  {
    hide Packed; hide GetInode; hide First; hide SlotVal; hide FillerAddrs;
    InoAddrs(size, j);
    assert 32 <= IBlock(SB, j) < 203 && j == IPB * (j / IPB) + j % IPB;
    PackedGet(size, j / IPB, IPB, j % IPB);
    assert Inodes(size)[j] == Ino(size, j);
    forall bn: nat | bn < MAXFILE && bn * BSIZE < Inodes(size)[j].size
      ensures DataAddr(Disk(size), Inodes(size), j, bn) != 0
    {
      SlotIs(size, j, bn);
    }
  }

  method Make(size: word) returns (fs: Fs)
    requires size <= NDIRECT * BSIZE
    ensures fresh(fs) && fs.Valid() && fs.sb == SB && fs.blocks == Disk(size) && fs.inode == Inodes(size)
    ensures fs.owner == Owners() && |fs.inode| == 1366 && fs.inode[0] == Ino(size, 0)
  {
    hide Owned; hide Disk; hide Owners; hide Ino; hide OnDisk;
    IsOwned(size);
    forall j: nat | j < 1366 ensures OnDisk(SB, Disk(size), Inodes(size), j) { IsOnDisk(size, j); }
    fs := new Fs(SB, Disk(size), Inodes(size), Owners());
  }

  // ----- writing to file 0 -----

  ghost function FreeSet(): (r: set<nat>)
    ensures forall c: nat :: c in r <==> IsFree(c)
    ensures |r| == 5
  {
    {4095, 4096, 8192, 12288, 16384}
  }

  lemma FiveFree(size: word)
    ensures FreeBlocks(SB, Disk(size), SB.size) == FreeSet()
  {
    hide Disk; hide BitSet;
    DiskSize(size);
    forall c: nat ensures c in FreeBlocks(SB, Disk(size), SB.size) <==> c in FreeSet() {
      FreeIsData(c);
      if c < 16385 { Bits(size, c); }
    }
  }

  /** The addresses in the given slots. */
  ghost function Values(s: seq<word>, w: set<nat>): set<nat>
    requires |s| == SLOTS && forall k :: k in w ==> k < SLOTS
  {
    set k | k in w :: s[k] as nat
  }

  ghost function MapsOf(v: set<nat>): set<nat> {
    set c | c in v :: BBlock(SB, c)
  }

  lemma {:induction false} ValuesSize(s: seq<word>, w: set<nat>)
    requires |s| == SLOTS && forall k :: k in w ==> k < SLOTS
    requires forall j, k :: j in w && k in w && s[j] == s[k] ==> j == k
    ensures |Values(s, w)| == |w|
    decreases |w|
  {
    if |w| > 0 {
      var k := PickOne(w);
      ValuesSize(s, w - {k});
      assert Values(s, w) == Values(s, w - {k}) + {s[k] as nat};
      assert s[k] as nat !in Values(s, w - {k});
    }
  }

  ghost function PickOne<T>(s: set<T>): (x: T)
    requires |s| > 0
    ensures x in s
  {
    var y: T :| y in s; y
  }

  /** The bits of different free blocks are in different free-map blocks. */
  lemma {:induction false} MapsSize(v: set<nat>)
    requires v <= FreeSet()
    ensures |MapsOf(v)| == |v|
    decreases |v|
  {
    if |v| > 0 {
      hide FreeSet;
      var c := PickOne(v);
      MapsSize(v - {c});
      assert MapsOf(v) == MapsOf(v - {c}) + {BBlock(SB, c)};
      forall d | d in v - {c} ensures BBlock(SB, d) != BBlock(SB, c) { Apart(c, d); }
      assert BBlock(SB, c) !in MapsOf(v - {c});
    }
  }

  lemma Apart(c: nat, d: nat)
    requires IsFree(c) && IsFree(d) && c != d
    ensures BBlock(SB, c) != BBlock(SB, d)
  {
  }

  lemma ValuesMore(s: seq<word>, w: set<nat>, a: nat, b: nat)
    requires |s| == SLOTS && (forall k :: k in w ==> k < SLOTS) && a < SLOTS && b < SLOTS
    ensures Values(s, w + {a, b}) == Values(s, w) + {s[a] as nat, s[b] as nat}
  {
  }

  lemma MapsMore(v: set<nat>, a: nat, b: nat)
    ensures MapsOf(v + {a, b}) == MapsOf(v) + {BBlock(SB, a), BBlock(SB, b)}
  {
  }

  /** Logged for blocks lo .. hi - 1 when all from NDIRECT on are new and so is the indirect block. */
  lemma {:induction false} FreshMarks(s0: seq<word>, s1: seq<word>, lo: nat, hi: nat)
    requires Proper(s0) && |s1| == SLOTS && s0[NDIRECT] == 0 && NDIRECT - 1 <= lo <= NDIRECT < hi <= MAXFILE
    requires s0[NDIRECT - 1] != 0
    ensures forall k :: k in Wanted(s0, lo, hi) ==> k < SLOTS
    ensures var v := Values(s1, Wanted(s0, lo, hi));
            Marks(SB, s0, s1, lo, hi) == (if lo < NDIRECT then {s1[lo] as nat} else {}) + v + MapsOf(v)
  {
    hide BBlock; hide Values; hide MapsOf;
    WantedSlots(s0, lo, hi);
    WantedSlots(s0, lo, hi - 1);
    var w, v := Wanted(s0, lo, hi - 1), Values(s1, Wanted(s0, lo, hi - 1));
    ValuesMore(s1, w, DataSlot(hi - 1), NDIRECT);
    MapsMore(v, s1[DataSlot(hi - 1)], s1[NDIRECT]);
    if hi - 1 == NDIRECT {
      FirstMarks(s0, s1, lo);
    } else {
      FreshMarks(s0, s1, lo, hi - 1);
    }
  }

  lemma FirstMarks(s0: seq<word>, s1: seq<word>, lo: nat)
    requires |s0| == |s1| == SLOTS && NDIRECT - 1 <= lo <= NDIRECT && s0[NDIRECT - 1] != 0
    ensures Wanted(s0, lo, NDIRECT) == {} && Values(s1, {}) == {} && MapsOf({}) == {}
    ensures Marks(SB, s0, s1, lo, NDIRECT) == if lo < NDIRECT then {s1[lo] as nat} else {}
  {
    if lo < NDIRECT {
      assert Marks(SB, s0, s1, lo, lo) == {};
      assert Wanted(s0, lo, lo) == {};
    }
  }

  /** The slots of file 0 before the write. */
  ghost predicate Before(s: seq<word>) {
    |s| == SLOTS && forall k :: 0 <= k < SLOTS ==> s[k] == if k < NDIRECT then 4083 + k else 0
  }

  lemma BeforeIs(size: word)
    ensures |Inodes(size)[0].addrs| == NDIRECT + 1 && Before(Slots(Disk(size), Inodes(size), 0))
  {
    hide Disk; hide SlotVal;
    forall k: nat | k < SLOTS
      ensures SlotVal(Disk(size), Inodes(size), 0, k) == if k < NDIRECT then 4083 + k else 0
    {
      SlotIs(size, 0, k);
    }
  }

  lemma WantedIs(s: seq<word>, lo: nat, hi: nat)
    requires Before(s) && NDIRECT - 1 <= lo <= NDIRECT < hi <= MAXFILE
    ensures Wanted(s, lo, hi) == Span(NDIRECT, hi - NDIRECT + 1) && |Wanted(s, lo, hi)| == hi - NDIRECT + 1
  {
    hide Wanted; hide Span;
    SpanSize(NDIRECT, hi - NDIRECT + 1);
    SpanIs(NDIRECT, hi - NDIRECT + 1);
    WantedSlots(s, lo, hi);
    forall k: nat | k < SLOTS ensures k in Wanted(s, lo, hi) <==> k in Span(NDIRECT, hi - NDIRECT + 1) {
      WantedIn(s, lo, hi, k);
    }
  }

  lemma SpanIs(lo: nat, n: nat)
    ensures forall c: nat :: c in Span(lo, n) <==> lo <= c < lo + n
  {
  }

  /** Different slots name different blocks, all of them data blocks. */
  ghost predicate Apiece(s: seq<word>) {
    && |s| == SLOTS && (forall j, k :: 0 <= j < SLOTS && 0 <= k < SLOTS && s[j] != 0 && s[j] == s[k] ==> j == k)
    && forall k :: 0 <= k < SLOTS && s[k] != 0 ==> 4083 <= s[k] < 16385
  }

  lemma ApieceIs(blocks: seq<Block>, ino: seq<Inode>, owner: map<nat, Slot>, i: nat)
    requires Owned(SB, blocks, ino, owner, {}) && i < |ino| && |ino[i].addrs| == NDIRECT + 1
    ensures Apiece(Slots(blocks, ino, i))
  {
    hide SlotVal; hide BitSet;
  }

  /** Filling slots takes as many of the free blocks. */
  lemma FreshFree(s0: seq<word>, s1: seq<word>, w: set<nat>)
    requires Filled(s0, s1, w, Owners()) && Apiece(s1)
    ensures Values(s1, w) <= FreeSet() && |Values(s1, w)| == |w|
  {
    hide Owners; hide FreeSet; hide OwnerOf; hide IsFree;
    ValuesSize(s1, w);
    OwnersIs();
    FreeSetIs();
    forall c | c in Values(s1, w) ensures c in FreeSet() { }
  }

  lemma LastDirect(s0: seq<word>, s1: seq<word>, lo: nat, hi: nat)
    requires Before(s0) && NDIRECT - 1 <= lo <= NDIRECT < hi <= MAXFILE
    requires Filled(s0, s1, Wanted(s0, lo, hi), Owners())
    ensures Proper(s0) && s0[NDIRECT] == 0 && s0[NDIRECT - 1] != 0 && |s1| == SLOTS && s1[NDIRECT - 1] == 4094
  {
    hide Wanted; hide Owners;
    WantedIn(s0, lo, hi, NDIRECT - 1);
  }

  /** Each of them brings its own free-map block. */
  lemma Counted(s0: seq<word>, s1: seq<word>, lo: nat, hi: nat)
    requires Before(s0) && Apiece(s1) && NDIRECT - 1 <= lo <= NDIRECT < hi <= MAXFILE
    requires Filled(s0, s1, Wanted(s0, lo, hi), Owners())
    ensures |s0| == |s1| == SLOTS
    ensures |Marks(SB, s0, s1, lo, hi) + {IBlock(SB, 0)}| == (NDIRECT - lo) + 2 * (hi - NDIRECT + 1) + 1
  {
    hide Wanted; hide Marks; hide Owners; hide FreeSet; hide MapsOf; hide Values; hide Filled; hide Apiece; hide Before;
    LastDirect(s0, s1, lo, hi);
    WantedIs(s0, lo, hi);
    WantedSlots(s0, lo, hi);
    FreshMarks(s0, s1, lo, hi);
    FreshFree(s0, s1, Wanted(s0, lo, hi));
    var v := Values(s1, Wanted(s0, lo, hi));
    MapsSize(v);
    Union(v, NDIRECT - lo, {s1[NDIRECT - 1] as nat}, Marks(SB, s0, s1, lo, hi), lo);
  }

  lemma FreeSetIs()
    ensures forall c: nat :: c in FreeSet() <==> IsFree(c)
  {
  }

  lemma Union(v: set<nat>, n: nat, old0: set<nat>, m: set<nat>, lo: nat)
    requires v <= FreeSet() && |MapsOf(v)| == |v| && NDIRECT - 1 <= lo <= NDIRECT && n == NDIRECT - lo
    requires old0 == {4094} && m == (if lo < NDIRECT then old0 else {}) + v + MapsOf(v)
    ensures |m + {IBlock(SB, 0)}| == n + 2 * |v| + 1
  {
    var a, b := if lo < NDIRECT then old0 else {}, MapsOf(v);
    forall c | c in b ensures 203 <= c < 208 { }
    assert a !! v;
    assert (a + v) !! b;
    assert |a + v| == |a| + |v|;
    assert |a + v + b| == |a + v| + |b|;
    assert 32 !in m;
  }

  /** A chunk of one byte more than filewrite's, up to the end of the next block, can take eleven blocks. */
  method ElevenBlocks(src: seq<byte>) returns (ok: bool, r: int, ghost touched: set<nat>)
    requires CHUNK < |src| <= CHUNK + BSIZE
    ensures ok && r == |src| && |touched| == MAXOPBLOCKS + 1
  {
    ok, r, touched := WriteAt(NDIRECT * BSIZE, src, NDIRECT, NDIRECT + 4);
  }

  /** An unaligned chunk of filewrite's size can take all ten. */
  method TenBlocks(src: seq<byte>) returns (ok: bool, r: int, ghost touched: set<nat>)
    requires |src| == CHUNK
    ensures ok && r == |src| && |touched| == MAXOPBLOCKS
  {
    ok, r, touched := WriteAt((NDIRECT - 1) * BSIZE + 1, src, NDIRECT - 1, NDIRECT + 3);
  }

  /** Appends src to file 0 of the given size. */
  method WriteAt(size: word, src: seq<byte>, ghost lo: nat, ghost hi: nat)
    returns (ok: bool, r: int, ghost touched: set<nat>)
    requires NDIRECT - 1 <= lo <= NDIRECT < hi <= NDIRECT + 4 && src != [] && size <= NDIRECT * BSIZE
    requires lo == size / BSIZE && hi == lo + Touched(size, |src|) && size + |src| <= LIMIT
    ensures ok && r == |src| && |touched| == (NDIRECT - lo) + 2 * (hi - NDIRECT + 1) + 1
  {
    hide Disk; hide Inodes; hide Owned; hide OnDisk; hide Wrote; hide Owners; hide Touched; hide Fs.Stuck; hide Did;
    hide TookBy; hide Affordable;
    var fs := Make(size);
    EnoughFree(size, |src|, lo, hi);
    ok, r, touched := fs.Writei(0, src, size);
    TookSize(size, fs.blocks, fs.inode, fs.owner, |src|, touched, lo, hi);
  }

  lemma EnoughFree(size: word, n: nat, lo: nat, hi: nat)
    requires NDIRECT - 1 <= lo <= NDIRECT < hi <= NDIRECT + 4 && size + n <= LIMIT
    requires lo == size / BSIZE && hi == lo + Touched(size, n)
    ensures Affordable(SB, Disk(size), Inodes(size), 0, size, n)
  {
    hide Disk; hide Inodes; hide FreeBlocks; hide FreeSet; hide Slots; hide Touched; hide Fills;
    IsShape(size);
    BeforeIs(size);
    FiveFree(size);
    FreeSetSize();
    FillsIs(Slots(Disk(size), Inodes(size), 0), size, n, lo, hi);
  }

  lemma FillsIs(s: seq<word>, off: nat, n: nat, lo: nat, hi: nat)
    requires Before(s) && NDIRECT - 1 <= lo <= NDIRECT < hi <= MAXFILE && off + n <= LIMIT
    requires lo == off / BSIZE && hi == lo + Touched(off, n)
    ensures |s| == SLOTS && |Fills(s, off, n)| == hi - NDIRECT + 1
  {
    WantedIs(s, lo, hi);
  }

  lemma TookSize(size: word, b1: seq<Block>, i1: seq<Inode>, o1: map<nat, Slot>, n: nat, touched: set<nat>, lo: nat,
                 hi: nat)
    requires NDIRECT - 1 <= lo <= NDIRECT < hi <= MAXFILE && n > 0 && |Inodes(size)| == 1366
    requires Inodes(size)[0].size == size
    requires size + n <= LIMIT && lo == size / BSIZE && hi == lo + Touched(size, n) && Owned(SB, b1, i1, o1, {})
    requires TookBy(SB, Disk(size), Inodes(size), Owners(), b1, i1, o1, 0, size, n, touched)
    ensures |touched| == (NDIRECT - lo) + 2 * (hi - NDIRECT + 1) + 1
  {
    hide Before; hide Apiece; hide Filled; hide Marks; hide Wanted; hide Owners; hide Cost; hide Disk; hide Inodes;
    hide Slots;
    hide Owned; hide Touched;
    BeforeIs(size);
    ApieceIs(b1, i1, o1, 0);
    Counted(Slots(Disk(size), Inodes(size), 0), Slots(b1, i1, 0), lo, hi);
  }

  lemma FreeSetSize()
    ensures |FreeSet()| == 5
  {
  }
}
