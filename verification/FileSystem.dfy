/**
 fs.c: block allocation, the block map, truncation, reading and writing of
 inodes. `blocks` is the disk as bread presents it, that is the logical disk of
 the log layer; changing a block is bread, edit, log_write, brelse.
 */
module FileSystem {
  import opened Base
  import opened Bytes
  import opened FsLayout
  import opened SlotMap
  import opened FileContent
  import R = RedoLog

  ghost predicate HasFree(sb: Superblock, blocks: seq<Block>)
    requires GoodLayout(sb) && |blocks| == sb.size
  {
    exists c: nat :: c < sb.size && Clear(sb, blocks, c)
  }

  /** A block is free exactly when not every data block is owned. */
  lemma FreeIffRoom(sb: Superblock, blocks: seq<Block>, ino: seq<Inode>, owner: map<nat, Slot>)
    requires Owned(sb, blocks, ino, owner, {})
    ensures GoodLayout(sb) && |blocks| == sb.size && |owner| <= sb.nblocks
    ensures HasFree(sb, blocks) <==> |owner| < sb.nblocks
  {
    hide SlotVal; hide BitSet; hide Clear; hide FreeBlocks;
    FreeCount(sb, blocks, ino, owner, {});
    var free := FreeBlocks(sb, blocks, sb.size);
    if HasFree(sb, blocks) {
      var c: nat :| c < sb.size && Clear(sb, blocks, c);
      assert c in free;
    } else {
      assert free == {};
    }
  }

  // ----- the log_writes of an operation -----

  ghost function WriteSet(ws: seq<R.Write>): set<nat> {
    set w | w in ws :: w.block
  }

  /** The log_writes from t0 to t1 took b0 to b1 and added their blocks to l0. */
  ghost predicate Did(b0: seq<Block>, l0: set<nat>, t0: seq<R.Write>, b1: seq<Block>, l1: set<nat>, t1: seq<R.Write>) {
    t0 <= t1 && b1 == R.Apply(b0, t1[|t0|..]) && l1 == l0 + WriteSet(t1[|t0|..])
  }

  lemma DidNothing(b: seq<Block>, l: set<nat>, t: seq<R.Write>)
    ensures Did(b, l, t, b, l, t)
  {
    assert t[|t|..] == [];
    assert l == l + WriteSet([]);
  }

  lemma DidOne(b: seq<Block>, l: set<nat>, t: seq<R.Write>, w: R.Write)
    requires w.block < |b|
    ensures Did(b, l, t, b[w.block := w.data], l + {w.block}, t + [w])
  {
    assert (t + [w])[|t|..] == [w];
    R.ApplyOne(b, w);
    assert WriteSet([w]) == {w.block};
  }

  lemma DidBoth(b0: seq<Block>, l0: set<nat>, t0: seq<R.Write>, b1: seq<Block>, l1: set<nat>, t1: seq<R.Write>,
                b2: seq<Block>, l2: set<nat>, t2: seq<R.Write>)
    requires Did(b0, l0, t0, b1, l1, t1) && Did(b1, l1, t1, b2, l2, t2)
    ensures Did(b0, l0, t0, b2, l2, t2)
  {
    hide R.Apply;
    var x, y := t1[|t0|..], t2[|t1|..];
    assert t2[|t0|..] == x + y;
    R.ApplyConcat(b0, x, y);
    WriteSetBoth(x, y);
  }

  lemma WriteSetBoth(x: seq<R.Write>, y: seq<R.Write>)
    ensures WriteSet(x + y) == WriteSet(x) + WriteSet(y)
  {
  }

  ghost predicate SameBelow(blocks: seq<Block>, blocks': seq<Block>, n: nat) {
    |blocks| == |blocks'| && forall c: nat :: c < n && c < |blocks| ==> blocks'[c] == blocks[c]
  }

  ghost predicate SameFrom(blocks: seq<Block>, blocks': seq<Block>, n: int) {
    |blocks| == |blocks'| && forall c: nat :: n <= c < |blocks| ==> blocks'[c] == blocks[c]
  }

  lemma InodeBlocksBelow(sb: Superblock, blocks: seq<Block>, blocks': seq<Block>, i: nat)
    requires GoodLayout(sb) && |blocks| == sb.size && i < sb.ninodes && SameBelow(blocks, blocks', sb.bmapstart)
    ensures IBlock(sb, i) < sb.bmapstart < sb.size && DiskInode(sb, blocks', i) == DiskInode(sb, blocks, i)
  {
    hide GetInode;
    assert i / IPB <= sb.ninodes / IPB;
  }

  lemma AllocBelow(sb: Superblock, blocks: seq<Block>, b: nat)
    requires GoodLayout(sb) && |blocks| == sb.size && DataStart(sb) <= b < sb.size && BBlock(sb, b) < sb.size
    ensures SameBelow(blocks, Alloc(sb, blocks, b), sb.bmapstart)
  {
  }

  /** Inode j is written through, and its size is covered by blocks. */
  ghost predicate OnDisk(sb: Superblock, blocks: seq<Block>, ino: seq<Inode>, j: nat)
    requires j < |ino|
  {
    IBlock(sb, j) < |blocks| && DiskInode(sb, blocks, j) == ino[j] && |ino[j].addrs| == NDIRECT + 1 && Sized(blocks, ino, j)
  }

  const T_DEV: half := 3

  predicate WriteRefused(size: word, off: word, n: nat) {
    off > size || off + n >= 0x1_0000_0000 || off + n > LIMIT
  }

  /** The empty slots a write of n bytes at off fills. */
  ghost function Fills(s: seq<word>, off: nat, n: nat): set<nat>
    requires |s| == SLOTS && off + n <= LIMIT
  {
    RangeEnd(off, n);
    Wanted(s, off / BSIZE, off / BSIZE + Touched(off, n))
  }

  /** The blocks it logs, apart from the inode's: data, free map, indirect block. */
  ghost function LoggedBy(sb: Superblock, s: seq<word>, s': seq<word>, off: nat, n: nat): set<nat>
    requires |s| == |s'| == SLOTS && off + n <= LIMIT
  {
    RangeEnd(off, n);
    Marks(sb, s, s', off / BSIZE, off / BSIZE + Touched(off, n))
  }

  lemma RangeEnd(off: nat, n: nat)
    requires off + n <= LIMIT
    ensures off / BSIZE + Touched(off, n) <= MAXFILE
  {
  }

  class Fs {
    const sb: Superblock
    var blocks: seq<Block>
    var inode: seq<Inode>             // in-core inodes, by inode number
    ghost var owner: map<nat, Slot>
    ghost var logged: set<nat>        // blocks handed to log_write
    var trace: seq<R.Write>           // the calls of log_write, oldest first

    /** Blocks are owned as the free map says, and every inode is on disk and covers its size. */
    ghost predicate Valid()
      reads `blocks, `inode, `owner
    {
      Owned(sb, blocks, inode, owner, {}) && forall j: nat :: j < |inode| ==> OnDisk(sb, blocks, inode, j)
    }

    /** A file system found on disk, its inodes read in. */
    constructor (sb: Superblock, blocks: seq<Block>, inode: seq<Inode>, ghost owner: map<nat, Slot>)
      requires Owned(sb, blocks, inode, owner, {}) && forall j: nat :: j < |inode| ==> OnDisk(sb, blocks, inode, j)
      ensures Valid() && this.sb == sb && this.blocks == blocks && this.inode == inode && this.owner == owner
      ensures logged == {} && trace == []
    {
      this.sb, this.blocks, this.inode, this.owner, logged, trace := sb, blocks, inode, owner, {}, [];
    }

    /** No free block is left; ownership still holds. */
    ghost predicate Stuck()
      reads `blocks, `inode, `owner
    {
      Owned(sb, blocks, inode, owner, {}) && !HasFree(sb, blocks)
    }

    /** bread, edit, log_write, brelse. */
    method LogWrite(b: nat, data: Block)
      requires b < |blocks|
      modifies `blocks, `logged, `trace
      ensures blocks == old(blocks)[b := data] && logged == old(logged) + {b}
      ensures Did(old(blocks), old(logged), old(trace), blocks, logged, trace)
    {
      DidOne(blocks, logged, trace, R.Write(b, data));
      blocks, logged, trace := blocks[b := data], logged + {b}, trace + [R.Write(b, data)];
    }

    /** The search of balloc: the lowest clear bit, if there is one. */
    method FindFree() returns (found: bool, b: nat)
      requires GoodLayout(sb) && |blocks| == sb.size
      ensures found <==> HasFree(sb, blocks)
      ensures found ==> b < sb.size && Clear(sb, blocks, b) && forall c: nat :: c < b ==> !Clear(sb, blocks, c)
    {
      hide BitSet;
      var base := 0;
      while base < sb.size
        invariant base % BPB == 0
        invariant forall c: nat :: c < base && c < sb.size ==> !Clear(sb, blocks, c)
      {
        MetaBlocks(sb, base);
        var bp := blocks[BBlock(sb, base)];
        var bi := 0;
        while bi < BPB && base + bi < sb.size
          invariant bi <= BPB
          invariant forall c: nat :: c < base + bi && c < sb.size ==> !Clear(sb, blocks, c)
        {
          assert BitSet(sb, blocks, base + bi) == GetBit(bp, bi) by { SameBitmapBlock(base, bi); }
          if !GetBit(bp, bi) {
            assert Clear(sb, blocks, base + bi);
            return true, base + bi;
          }
          bi := bi + 1;
        }
        base := base + BPB;
      }
      return false, 0;
    }

    lemma SameBitmapBlock(base: nat, bi: nat)
      requires GoodLayout(sb) && |blocks| == sb.size && base % BPB == 0 && bi < BPB && base + bi < sb.size
      ensures BBlock(sb, base + bi) == BBlock(sb, base) < |blocks|
      ensures BitSet(sb, blocks, base + bi) == GetBit(blocks[BBlock(sb, base)], bi)
    {
      MetaBlocks(sb, base);
      hide GetBit;
    }

    /** A zeroed block nobody owned; panics exactly when every bit is set. */
    method Balloc() returns (ok: bool, b: nat)
      requires GoodLayout(sb) && |blocks| == sb.size
      requires forall c: nat :: c < sb.size && Clear(sb, blocks, c) ==> DataStart(sb) <= c
      modifies `blocks, `logged, `trace
      ensures ok <==> old(HasFree(sb, blocks))
      ensures ok ==> DataStart(sb) <= b < sb.size && old(Clear(sb, blocks, b)) && forall c: nat :: c < b ==> !old(Clear(sb, blocks, c))
      ensures ok ==> BBlock(sb, b) < sb.size && blocks == Alloc(sb, old(blocks), b) && logged == old(logged) + {BBlock(sb, b), b}
      ensures !ok ==> unchanged(this)
      ensures Did(old(blocks), old(logged), old(trace), blocks, logged, trace)
    {
      hide BitSet; hide Did;
      DidNothing(blocks, logged, trace);
      ok, b := FindFree();
      if ok {
        MetaBlocks(sb, b);
        LogWrite(BBlock(sb, b), SetBit(blocks[BBlock(sb, b)], b % BPB, true));
        ghost var b1, l1, t1 := blocks, logged, trace;
        LogWrite(b, ZeroBlock);
        DidBoth(old(blocks), old(logged), old(trace), b1, l1, t1, blocks, logged, trace);
      }
    }

    /** Panics exactly on a block that is already free. */
    method Bfree(b: nat) returns (ok: bool)
      requires GoodLayout(sb) && |blocks| == sb.size && BBlock(sb, b) < |blocks|
      modifies `blocks, `logged, `trace
      ensures ok <==> old(BitSet(sb, blocks, b))
      ensures ok ==> blocks == PutBit(sb, old(blocks), b, false) && logged == old(logged) + {BBlock(sb, b)}
      ensures !ok ==> blocks == old(blocks) && logged == old(logged)
    {
      var bp := blocks[BBlock(sb, b)];
      ok := GetBit(bp, b % BPB);
      if ok {
        LogWrite(BBlock(sb, b), SetBit(bp, b % BPB, false));
      }
    }

    /** ip->addrs[k] = balloc(): a direct block, or the indirect block itself. */
    method AllocAddr(i: nat, k: nat) returns (ok: bool, b: nat)
      requires Owned(sb, blocks, inode, owner, {}) && i < |inode| && k <= NDIRECT && inode[i].addrs[k] == 0
      modifies this
      ensures ok <==> |old(owner)| < sb.nblocks
      ensures !ok ==> unchanged(this)
      ensures ok ==> Owned(sb, blocks, inode, owner, {}) && Extended(old(blocks), old(inode), blocks, inode)
      ensures ok ==> DataStart(sb) <= b < sb.size && b !in old(owner) && blocks[b] == ZeroBlock && inode == SetAddr(old(inode), i, k, b)
      ensures ok ==> SameBelow(old(blocks), blocks, sb.bmapstart) && logged == old(logged) + {BBlock(sb, b), b}
      ensures ok ==> owner == old(owner)[b := Slot(i, k)]
      ensures ok ==> Slots(blocks, inode, i) == old(Slots(blocks, inode, i))[k := b]
      ensures Did(old(blocks), old(logged), old(trace), blocks, logged, trace)
    {
      hide BitSet; hide SlotVal; hide Alloc; hide HasFree; hide Extended; hide SetAddr; hide Did; hide Slots;
      ClearIsData();
      FreeIffRoom(sb, blocks, inode, owner);
      ok, b := Balloc();
      if ok {
        AllocAddrEffect(sb, old(blocks), old(inode), old(owner), i, k, b);
        inode, owner := SetAddr(inode, i, k, b), owner[b := Slot(i, k)];
      }
    }

    lemma ClearIsData()
      requires Owned(sb, blocks, inode, owner, {})
      ensures forall c: nat :: c < sb.size && Clear(sb, blocks, c) ==> DataStart(sb) <= c
    {
      hide BitSet; hide SlotVal;
    }

    /** a[e] = balloc() in the indirect block ind of file i. */
    method AllocInd(i: nat, e: nat) returns (ok: bool, b: nat)
      requires Owned(sb, blocks, inode, owner, {}) && i < |inode| && e < NINDIRECT
      requires 0 < inode[i].addrs[NDIRECT] < sb.size && SlotVal(blocks, inode, i, NDIRECT + 1 + e) == 0
      modifies `blocks, `logged, `trace, `owner
      ensures ok <==> |old(owner)| < sb.nblocks
      ensures !ok ==> unchanged(this)
      ensures ok ==> Owned(sb, blocks, inode, owner, {}) && Extended(old(blocks), inode, blocks, inode)
      ensures ok ==> DataStart(sb) <= b < sb.size && b !in old(owner) && blocks[b] == ZeroBlock
      ensures ok ==> SameBelow(old(blocks), blocks, sb.bmapstart)
      ensures ok ==> logged == old(logged) + {BBlock(sb, b), b} + {inode[i].addrs[NDIRECT] as nat}
      ensures ok ==> owner == old(owner)[b := Slot(i, NDIRECT + 1 + e)]
      ensures ok ==> Slots(blocks, inode, i) == old(Slots(blocks, inode, i))[NDIRECT + 1 + e := b]
      ensures Did(old(blocks), old(logged), old(trace), blocks, logged, trace)
    {
      hide BitSet; hide SlotVal; hide Alloc; hide HasFree; hide Extended; hide SetWord; hide Did; hide Slots;
      ClearIsData();
      FreeIffRoom(sb, blocks, inode, owner);
      ok, b := Balloc();
      if ok {
        var ind: nat := inode[i].addrs[NDIRECT];
        AllocIndEffect(sb, old(blocks), inode, old(owner), i, e, b);
        ghost var b1, l1, t1 := blocks, logged, trace;
        LogWrite(ind, SetWord(blocks[ind], e, b));
        DidBoth(old(blocks), old(logged), old(trace), b1, l1, t1, blocks, logged, trace);
        owner := owner[b := Slot(i, NDIRECT + 1 + e)];
      }
    }

    /** A direct block, allocated when there is none. */
    method BmapDirect(i: nat, bn: nat) returns (ok: bool, addr: nat)
      requires Owned(sb, blocks, inode, owner, {}) && i < |inode| && bn < NDIRECT
      modifies this
      ensures ok <==> Roomy(sb, old(blocks), old(inode), old(owner), i, bn)
      ensures !ok ==> |owner| == sb.nblocks
      ensures Owned(sb, blocks, inode, owner, {}) && Kept(sb, old(blocks), old(inode), blocks, inode, i)
      ensures ok ==> Bmapped(sb, old(blocks), old(inode), old(owner), old(logged), blocks, inode, owner, logged, i, bn, addr)
      ensures owner == old(owner) ==> unchanged(this)
      ensures Did(old(blocks), old(logged), old(trace), blocks, logged, trace)
    {
      hide BitSet; hide GetWord; hide Extended; hide Did; hide Slots; hide SlotVal; hide SetAddr; hide Owned;
      hide SameBelow;
      hide Bmapped; hide Roomy; hide Kept;
      OwnedShape(sb, blocks, inode, owner);
      KeptRefl(sb, blocks, inode, owner, i);
      DidNothing(blocks, logged, trace);
      FreeIffRoom(sb, blocks, inode, owner);
      SlotsAt(blocks, inode, i, bn);
      ok, addr := true, inode[i].addrs[bn];
      if addr == 0 {
        RoomyOne(sb, blocks, inode, owner, i, bn);
        ok, addr := AllocAddr(i, bn);
        if ok {
          OwnedShape(sb, blocks, inode, owner);
          SetAddrIs(old(inode), i, bn, addr);
          KeptIs(sb, old(blocks), old(inode), blocks, inode, i);
          BmappedDirect(sb, old(blocks), old(inode), old(owner), old(logged), blocks, inode, logged, i, bn, addr);
        }
      } else {
        BmappedNone(sb, blocks, inode, owner, logged, i, bn);
      }
    }

    /** Entry e of the indirect block ind, allocated when empty. */
    method BmapEntry(i: nat, e: nat, ind: nat) returns (ok: bool, addr: nat)
      requires Owned(sb, blocks, inode, owner, {}) && i < |inode| && e < NINDIRECT
      requires 0 < ind == inode[i].addrs[NDIRECT] < sb.size
      modifies `blocks, `logged, `trace, `owner
      ensures ok <==> Roomy(sb, old(blocks), inode, old(owner), i, NDIRECT + e)
      ensures !ok ==> unchanged(this) && |owner| == sb.nblocks
      ensures Owned(sb, blocks, inode, owner, {}) && Kept(sb, old(blocks), inode, blocks, inode, i)
      ensures ok ==> Bmapped(sb, old(blocks), inode, old(owner), old(logged), blocks, inode, owner, logged, i, NDIRECT + e, addr)
      ensures |owner| >= |old(owner)| && (owner == old(owner) ==> unchanged(this))
      ensures Did(old(blocks), old(logged), old(trace), blocks, logged, trace)
    {
      hide BitSet; hide GetWord; hide Extended; hide Did; hide Slots; hide Owned; hide SameBelow; hide SlotVal;
      hide Bmapped; hide Roomy; hide Kept;
      OwnedShape(sb, blocks, inode, owner);
      KeptRefl(sb, blocks, inode, owner, i);
      DidNothing(blocks, logged, trace);
      FreeIffRoom(sb, blocks, inode, owner);
      EntryAt(blocks, inode, i, e);
      ok, addr := true, GetWord(blocks[ind], e);
      if addr == 0 {
        RoomyOne(sb, blocks, inode, owner, i, NDIRECT + e);
        ok, addr := AllocInd(i, e);
        if ok {
          OwnedShape(sb, blocks, inode, owner);
          SameInode(inode, i);
          KeptIs(sb, old(blocks), inode, blocks, inode, i);
          BmappedEntry(sb, old(blocks), inode, old(owner), old(logged), blocks, logged, i, e, addr);
          MoreKeys(old(owner), addr, Slot(i, NDIRECT + 1 + e));
        }
      } else {
        BmappedNone(sb, blocks, inode, owner, logged, i, NDIRECT + e);
      }
    }

    /** The indirect block, allocated when there is none. */
    method EnsureIndirect(i: nat) returns (ok: bool, ind: nat)
      requires Owned(sb, blocks, inode, owner, {}) && i < |inode|
      modifies this
      ensures ok <==> (old(inode[i]).addrs[NDIRECT] == 0 ==> |old(owner)| < sb.nblocks)
      ensures !ok ==> unchanged(this) && |owner| == sb.nblocks
      ensures Owned(sb, blocks, inode, owner, {}) && Kept(sb, old(blocks), old(inode), blocks, inode, i)
      ensures ok ==> i < |inode| && |inode[i].addrs| == NDIRECT + 1 && 0 < ind == inode[i].addrs[NDIRECT] < sb.size
      ensures ok && old(inode[i]).addrs[NDIRECT] != 0 ==> unchanged(this)
      ensures ok && old(inode[i]).addrs[NDIRECT] == 0 ==>
                IndirectMade(sb, old(blocks), old(inode), old(owner), old(logged), blocks, inode, owner, logged, i, ind)
      ensures Did(old(blocks), old(logged), old(trace), blocks, logged, trace)
    {
      hide BitSet; hide GetWord; hide Extended; hide Did; hide Slots; hide Owned; hide SameBelow; hide SlotVal;
      hide SetAddr;
      hide Kept;
      OwnedShape(sb, blocks, inode, owner);
      FreeIffRoom(sb, blocks, inode, owner);
      ok, ind := true, inode[i].addrs[NDIRECT];
      if ind == 0 {
        ok, ind := AllocAddr(i, NDIRECT);
        if ok {
          SetAddrIs(old(inode), i, NDIRECT, ind);
          KeptIs(sb, old(blocks), old(inode), blocks, inode, i);
          return;
        }
      } else {
        IndirectOwned(sb, blocks, inode, owner, {}, i);
      }
      KeptRefl(sb, blocks, inode, owner, i);
      DidNothing(blocks, logged, trace);
    }

    /** The indirect block and then its entry e. */
    method BmapIndirect(i: nat, e: nat) returns (ok: bool, addr: nat)
      requires Owned(sb, blocks, inode, owner, {}) && i < |inode| && e < NINDIRECT
      modifies this
      ensures ok <==> Roomy(sb, old(blocks), old(inode), old(owner), i, NDIRECT + e)
      ensures !ok ==> |owner| == sb.nblocks
      ensures Owned(sb, blocks, inode, owner, {}) && Kept(sb, old(blocks), old(inode), blocks, inode, i)
      ensures ok ==> Bmapped(sb, old(blocks), old(inode), old(owner), old(logged), blocks, inode, owner, logged, i, NDIRECT + e, addr)
      ensures owner == old(owner) ==> unchanged(this)
      ensures Did(old(blocks), old(logged), old(trace), blocks, logged, trace)
    {
      hide BitSet; hide GetWord; hide Did; hide Owned; hide SlotVal; hide IndirectMade; hide Bmapped; hide Roomy;
      hide Kept;
      OwnedShape(sb, blocks, inode, owner);
      ghost var made := inode[i].addrs[NDIRECT] == 0;
      ok, addr := EnsureIndirect(i);
      if !ok {
        NotRoomy(sb, blocks, inode, owner, i, NDIRECT + e);
        return;
      }
      ghost var b1, i1, o1, l1, t1, ind := blocks, inode, owner, logged, trace, addr;
      OwnedShape(sb, blocks, inode, owner);
      ok, addr := BmapEntry(i, e, addr);
      KeptTrans(sb, old(blocks), old(inode), b1, i1, blocks, inode, i);
      DidBoth(old(blocks), old(logged), old(trace), b1, l1, t1, blocks, logged, trace);
      if made {
        RoomyTwo(sb, old(blocks), old(inode), old(owner), old(logged), b1, i1, o1, l1, i, ind, NDIRECT + e);
        if ok {
          BmappedTwo(sb, old(blocks), old(inode), old(owner), old(logged), b1, i1, o1, l1, blocks, inode, owner, logged, i, ind, NDIRECT + e, addr);
        }
        MadeGrows(sb, old(blocks), old(inode), old(owner), old(logged), b1, i1, o1, l1, i, ind);
      }
    }

    /**
     The disk block of file block bn, allocated when there is none.  It panics exactly out of
     range or when the free blocks do not cover the empty slots it has to fill.
     */
    method Bmap(i: nat, bn: nat) returns (ok: bool, addr: nat)
      requires Owned(sb, blocks, inode, owner, {}) && i < |inode|
      modifies this
      ensures ok <==> bn < MAXFILE && Roomy(sb, old(blocks), old(inode), old(owner), i, bn)
      ensures !ok && bn < MAXFILE ==> |owner| == sb.nblocks
      ensures Owned(sb, blocks, inode, owner, {}) && Kept(sb, old(blocks), old(inode), blocks, inode, i)
      ensures ok ==> Bmapped(sb, old(blocks), old(inode), old(owner), old(logged), blocks, inode, owner, logged, i, bn, addr)
      ensures owner == old(owner) ==> unchanged(this)
      ensures Did(old(blocks), old(logged), old(trace), blocks, logged, trace)
    {
      hide Did; hide Owned; hide Bmapped; hide Roomy; hide Kept;
      OwnedShape(sb, blocks, inode, owner);
      if bn < NDIRECT {
        ok, addr := BmapDirect(i, bn);
      } else if bn - NDIRECT < NINDIRECT {
        ok, addr := BmapIndirect(i, bn - NDIRECT);
      } else {
        ok, addr := false, 0;
        KeptRefl(sb, blocks, inode, owner, i);
        DidNothing(blocks, logged, trace);
      }
    }

    /** Writes inode i through to disk; no slot, bit or other inode changes. */
    method Iupdate(i: nat)
      requires Owned(sb, blocks, inode, owner, {}) && i < |inode|
      modifies `blocks, `logged, `trace
      ensures Owned(sb, blocks, inode, owner, {}) && Extended(old(blocks), inode, blocks, inode)
      ensures IBlock(sb, i) < sb.bmapstart && logged == old(logged) + {IBlock(sb, i)}
      ensures forall j: nat :: j < |inode| ==>
                && IBlock(sb, j) < |blocks|
                && DiskInode(sb, blocks, j) == if j == i then inode[i] else DiskInode(sb, old(blocks), j)
      ensures SameFrom(old(blocks), blocks, sb.bmapstart)
      ensures Did(old(blocks), old(logged), old(trace), blocks, logged, trace)
    {
      hide BitSet; hide GetWord; hide PutInode; hide GetInode; hide Extended; hide Did;
      InodeBlocksBelow(sb, blocks, blocks, i);
      ghost var before := blocks;
      LogWrite(IBlock(sb, i), PutInode(blocks[IBlock(sb, i)], i % IPB, inode[i]));
      WriteMeta(sb, before, inode, owner, blocks);
      forall j: nat | j < |inode|
        ensures IBlock(sb, j) < |blocks|
        ensures DiskInode(sb, blocks, j) == if j == i then inode[i] else DiskInode(sb, before, j)
      {
        InodeBlocksBelow(sb, before, before, j);
        InodeRoundTrip(before[IBlock(sb, i)], i % IPB, inode[i], j % IPB);
        assert IBlock(sb, j) == IBlock(sb, i) && j != i ==> j % IPB != i % IPB;
      }
    }

    /** The first loop of itrunc; bfree's check never fires. */
    method TruncDirect(i: nat)
      requires Owned(sb, blocks, inode, owner, {}) && i < |inode|
      modifies this
      ensures Owned(sb, blocks, inode, owner, {}) && i < |inode|
      ensures Truncating(sb, i, NDIRECT, old(blocks), old(inode), old(logged), blocks, inode, logged)
    {
      hide BitSet; hide GetWord; hide PutBit; hide SetAddr; hide Owned; hide Truncating; hide SlotVal;
      var k := 0;
      TruncStart(sb, i, blocks, inode, owner, logged);
      while k < NDIRECT
        invariant k <= NDIRECT && Owned(sb, blocks, inode, owner, {})
        invariant i < |inode| && |inode[i].addrs| == NDIRECT + 1 && |blocks| == sb.size && GoodLayout(sb)
        invariant Truncating(sb, i, k, old(blocks), old(inode), old(logged), blocks, inode, logged)
      {
        var b: nat := inode[i].addrs[k];
        ghost var blocks1, inode1, logged1 := blocks, inode, logged;
        if b != 0 {
          assert SlotVal(blocks, inode, i, k) == b by { SlotIsAddr(blocks, inode, i, k); }
          OwnedIsSet(sb, blocks, inode, owner, {}, i, k);
          FreeDirect(sb, blocks, inode, owner, i, k);
          var ok := Bfree(b);
          inode, owner := SetAddr(inode, i, k, 0), owner - {b};
        }
        TruncStep(sb, i, k, old(blocks), old(inode), old(logged), blocks1, inode1, logged1, blocks, inode, logged);
        k := k + 1;
      }
    }

    /** Frees every block named in the indirect block, then the indirect block. */
    method TruncIndirect(i: nat)
      requires Owned(sb, blocks, inode, owner, {}) && i < |inode|
      modifies this
      ensures Owned(sb, blocks, inode, owner, {}) && |inode| == |old(inode)| && |old(inode)[i].addrs| == NDIRECT + 1
      ensures inode == SetAddr(old(inode), i, NDIRECT, 0) && OnlyBitmap(sb, old(blocks), old(logged), blocks, logged)
    {
      hide BitSet; hide GetWord; hide PutBit; hide SetAddr; hide Owned; hide SlotVal; hide Entries; hide OnlyBitmap;
      TruncStart(sb, i, blocks, inode, owner, logged);
      OnlyBitmapRefl(sb, blocks, logged);
      var ind: nat := inode[i].addrs[NDIRECT];
      if ind == 0 {
        SetAddrSame(inode, i, NDIRECT);
        return;
      }
      SlotIsAddr(blocks, inode, i, NDIRECT);
      OwnedIsSet(sb, blocks, inode, owner, {}, i, NDIRECT);
      var a := blocks[ind];
      var e := 0;
      NoEntries(i);
      while e < NINDIRECT
        invariant e <= NINDIRECT && Owned(sb, blocks, inode, owner, Entries(i, e)) && inode == old(inode)
        invariant |blocks| == sb.size && OnlyBitmap(sb, old(blocks), old(logged), blocks, logged)
      {
        EntryIs(sb, old(blocks), old(logged), blocks, logged, inode, i, e);
        if GetWord(a, e) != 0 {
          var b: nat := GetWord(a, e);
          NotEntry(i, e);
          OwnedIsSet(sb, blocks, inode, owner, Entries(i, e), i, NDIRECT + 1 + e);
          FreeEntry(sb, blocks, inode, owner, i, e, b);
          OnlyBitmapStep(sb, old(blocks), old(logged), blocks, logged, b);
          var ok := Bfree(b);
          owner := owner - {b};
        } else {
          SkipEntry(sb, blocks, inode, owner, i, e);
        }
        e := e + 1;
      }
      IndirectNotEntry(i, e);
      SlotIsAddr(blocks, inode, i, NDIRECT);
      OwnedIsSet(sb, blocks, inode, owner, Entries(i, e), i, NDIRECT);
      FreeIndirect(sb, blocks, inode, owner, i, e);
      OnlyBitmapStep(sb, old(blocks), old(logged), blocks, logged, ind);
      var ok := Bfree(ind);
      inode, owner := SetAddr(inode, i, NDIRECT, 0), owner - {ind};
    }

    /**
     Truncation never panics, gives back every block of file i and only those,
     leaves the other files alone, and ends with the inode on disk.
     */
    method Itrunc(i: nat)
      requires Valid() && i < |inode|
      modifies this
      ensures Valid() && inode == old(inode)[i := old(inode[i]).(size := 0, addrs := inode[i].addrs)]
      ensures forall k :: 0 <= k <= NDIRECT ==> inode[i].addrs[k] == 0
      ensures forall b: nat :: b in old(owner) ==> if old(owner)[b].inum == i then Clear(sb, blocks, b) else b in owner && owner[b] == old(owner)[b]
      ensures forall j: nat :: j < |inode| && j != i ==> SameContent(old(blocks), old(inode), blocks, inode, j)
      ensures forall x :: x in logged ==> x in old(logged) || sb.bmapstart <= x < DataStart(sb) || x == IBlock(sb, i)
    {
      hide BitSet; hide GetWord; hide SetAddr; hide Owned; hide SlotVal; hide OnlyBitmap; hide Truncating;
      hide SameContent; hide Sized; hide DiskInode; hide Extended;
      TruncStart(sb, i, blocks, inode, owner, logged);
      TruncDirect(i);
      ghost var blocks1, inode1, logged1 := blocks, inode, logged;
      TruncIndirect(i);
      TruncBoth(sb, i, old(blocks), old(inode), old(logged), blocks1, inode1, logged1, blocks, inode, logged);
      ghost var blocks2, inode2, logged2 := blocks, inode, logged;
      inode := inode[i := inode[i].(size := 0)];
      SizeKeepsOwned(sb, blocks, inode2, owner, inode, i);
      Iupdate(i);
      TruncEnd(sb, i, old(blocks), old(inode), old(logged), blocks2, inode2, logged2, blocks, inode);
      TruncFreed(sb, i, old(blocks), old(inode), old(owner), blocks, inode, owner);
      forall j: nat | j < |inode|
        ensures OnDisk(sb, blocks, inode, j) && (j != i ==> SameContent(old(blocks), old(inode), blocks, inode, j))
      {
        if j == i {
          TruncSized(sb, blocks, inode, owner, i);
        } else {
          assert OnDisk(sb, old(blocks), old(inode), j);
          OtherFile(sb, old(blocks), old(inode), old(owner), blocks, inode, j);
        }
      }
    }

    /** One block's worth of writei: bmap, then copy into that block and log it. */
    method WriteBlock(i: nat, off: nat, data: seq<byte>) returns (ok: bool, ghost addr: nat)
      requires Owned(sb, blocks, inode, owner, {}) && i < |inode| && Sized(blocks, inode, i)
      requires 0 < |data| <= BSIZE - off % BSIZE && off + |data| <= LIMIT
      modifies this
      ensures ok <==> Roomy(sb, old(blocks), old(inode), old(owner), i, off / BSIZE)
      ensures !ok ==> |owner| == sb.nblocks
      ensures Owned(sb, blocks, inode, owner, {}) && SameBelow(old(blocks), blocks, sb.bmapstart)
      ensures |inode| == |old(inode)| && |inode[i].addrs| == NDIRECT + 1
      ensures ok ==> Written(old(blocks), old(inode), blocks, inode, i, off, data) && Sized(blocks, inode, i)
      ensures ok ==> BlockDone(sb, old(blocks), old(inode), old(owner), old(logged), blocks, inode, owner, logged, i, off / BSIZE, addr)
      ensures Did(old(blocks), old(logged), old(trace), blocks, logged, trace)
    {
      hide BitSet; hide SlotVal; hide Owned; hide DataAddr; hide Written; hide Patch; hide Did; hide Slots;
      hide Extended;
      hide Sized; hide Bmapped; hide BlockDone; hide Roomy; hide Kept; hide SameBelow;
      var a: nat;
      OwnedShape(sb, blocks, inode, owner);
      ok, a := Bmap(i, off / BSIZE);
      addr := a;
      KeptParts(sb, old(blocks), old(inode), blocks, inode, i);
      OwnedShape(sb, blocks, inode, owner);
      if ok {
        ghost var mid, l1, t1 := blocks, logged, trace;
        BmappedAddr(sb, old(blocks), old(inode), old(owner), old(logged), blocks, inode, owner, logged, i, off / BSIZE, a);
        BlockWritten(sb, old(blocks), old(inode), owner, blocks, inode, i, off, data, a);
        ExtendedSized(old(blocks), old(inode), blocks, inode, i);
        var x := Patch(blocks[a], off % BSIZE, data);
        PatchKeeps(sb, blocks, inode, owner, i, off / BSIZE, a, x);
        LogWrite(a, x);
        DidBoth(old(blocks), old(logged), old(trace), mid, l1, t1, blocks, logged, trace);
        BlockIsDone(sb, old(blocks), old(inode), old(owner), old(logged), mid, blocks, inode, owner, l1, logged, i, off / BSIZE, a);
        PatchBelow(sb, old(blocks), mid, a, x);
      }
    }

    /** writei's loop.  It runs out of blocks exactly when there are fewer free ones than slots to fill. */
    method WriteBlocks(i: nat, start: nat, src: seq<byte>) returns (ok: bool, ghost hi: nat)
      requires Owned(sb, blocks, inode, owner, {}) && i < |inode| && Sized(blocks, inode, i)
      requires start <= inode[i].size && start + |src| <= LIMIT
      modifies this
      ensures Owned(sb, blocks, inode, owner, {}) && SameBelow(old(blocks), blocks, sb.bmapstart)
      ensures |inode| == |old(inode)| && |inode[i].addrs| == NDIRECT + 1
      ensures start / BSIZE <= hi == start / BSIZE + Touched(start, |src|) <= MAXFILE
      ensures ok <==> RangeFits(sb, old(blocks), old(inode), old(owner), i, start / BSIZE, hi)
      ensures !ok ==> |owner| == sb.nblocks
      ensures ok ==> Written(old(blocks), old(inode), blocks, inode, i, start, src)
      ensures ok ==> RangeDone(sb, old(blocks), old(inode), old(owner), old(logged), blocks, inode, owner, logged, i, start / BSIZE, hi)
      ensures Did(old(blocks), old(logged), old(trace), blocks, logged, trace)
    {
      hide SlotVal; hide Owned; hide Written; hide Did; hide Sized; hide Touched; hide SameBelow; hide StepLength;
      hide InStep;
      hide RangeDone; hide RangeFits; hide BlockDone; hide Roomy;
      DidNothing(blocks, logged, trace);
      var tot, off, n := 0, start, |src|;
      OwnedShape(sb, blocks, inode, owner);
      WrittenNothing(blocks, inode, i, start);
      SameBelowRefl(blocks, sb.bmapstart);
      FreeIffRoom(sb, blocks, inode, owner);
      ghost var lo := start / BSIZE;
      RangeEnd(start, n);
      hi := lo + Touched(start, n);
      ghost var cur := lo;
      RangeDoneStart(sb, blocks, inode, owner, logged, i, start);
      while tot < n
        invariant 0 <= tot <= n && off == start + tot && (tot < n ==> InStep(start, tot))
        invariant lo <= cur == lo + Touched(start, tot) <= hi
        invariant i < |inode| && |inode| == |old(inode)| && |inode[i].addrs| == NDIRECT + 1
        invariant Owned(sb, blocks, inode, owner, {}) && Sized(blocks, inode, i)
        invariant Written(old(blocks), old(inode), blocks, inode, i, start, src[..tot])
        invariant SameBelow(old(blocks), blocks, sb.bmapstart)
        invariant Did(old(blocks), old(logged), old(trace), blocks, logged, trace)
        invariant RangeDone(sb, old(blocks), old(inode), old(owner), old(logged), blocks, inode, owner, logged, i, lo, cur)
        decreases n - tot
      {
        var m := StepLength(off, n - tot);
        ghost var b1, i1, l1, o1, t1 := blocks, inode, logged, owner, trace;
        LoopStep(start, tot, n);
        ghost var addr: nat;
        ok, addr := WriteBlock(i, off, src[tot..tot + m]);
        SameBelowTrans(old(blocks), b1, blocks, sb.bmapstart);
        DidBoth(old(blocks), old(logged), old(trace), b1, l1, t1, blocks, logged, trace);
        if !ok {
          RangeDoneFails(sb, old(blocks), old(inode), old(owner), old(logged), b1, i1, o1, l1, i, lo, cur, hi);
          return;
        }
        RangeDoneStep(sb, old(blocks), old(inode), old(owner), old(logged), b1, i1, o1, l1, blocks, inode, owner, logged, i, lo, cur, addr);
        WrittenTrans(old(blocks), old(inode), b1, i1, blocks, inode, i, start, src[..tot], src[tot..tot + m]);
        assert src[..tot] + src[tot..tot + m] == src[..tot + m];
        tot, off, cur := tot + m, off + m, cur + 1;
      }
      ok := true;
      FreeIffRoom(sb, blocks, inode, owner);
      RangeDoneRoom(sb, old(blocks), old(inode), old(owner), old(logged), blocks, inode, owner, logged, i, lo, cur);
      assert src[..tot] == src;
    }

    /** The end of writei: a file that grew gets its new size, and its inode is written through. */
    method Grow(i: nat, end: nat, ghost grew: bool)
      requires Owned(sb, blocks, inode, owner, {}) && i < |inode| && |inode[i].addrs| == NDIRECT + 1 && end <= LIMIT
      requires grew <==> end > inode[i].size
      modifies `blocks, `inode, `logged, `trace
      ensures Owned(sb, blocks, inode, owner, {}) && Extended(old(blocks), inode, blocks, inode)
      ensures |inode| == |old(inode)| && |inode[i].addrs| == NDIRECT + 1
      ensures Slots(blocks, inode, i) == old(Slots(blocks, inode, i))
      ensures Resized(sb, old(blocks), old(inode), blocks, inode, i, end, grew)
      ensures logged == old(logged) + if grew then {IBlock(sb, i)} else {}
      ensures grew ==> sb.inodestart <= IBlock(sb, i) < sb.size
      ensures Did(old(blocks), old(logged), old(trace), blocks, logged, trace)
    {
      hide BitSet; hide SlotVal; hide Owned; hide Extended; hide Did; hide Slots; hide DiskInode;
      OwnedShape(sb, blocks, inode, owner);
      if end > inode[i].size {
        ghost var i1 := inode;
        inode := inode[i := inode[i].(size := end)];
        SizeKeepsOwned(sb, blocks, i1, owner, inode, i);
        Iupdate(i);
        SizeKeepsSlots(sb, old(blocks), i1, owner, blocks, inode, i);
      } else {
        ExtendedRefl(sb, blocks, inode, owner);
        DidNothing(blocks, logged, trace);
      }
    }

    /** writei once it has accepted the request. */
    method WriteAll(i: nat, src: seq<byte>, off: word) returns (ok: bool, ghost touched: set<nat>)
      requires Valid() && i < |inode| && !WriteRefused(inode[i].size, off, |src|)
      modifies this
      ensures ok <==> Affordable(sb, old(blocks), old(inode), i, off, |src|)
      ensures ok ==> Valid() && Wrote(old(blocks), old(inode), blocks, inode, i, off, src)
      ensures ok ==> TookBy(sb, old(blocks), old(inode), old(owner), blocks, inode, owner, i, off, |src|, touched)
      ensures ok ==> logged == old(logged) + touched
      ensures !ok ==> Stuck()
      ensures Did(old(blocks), old(logged), old(trace), blocks, logged, trace)
    {
      hide SlotVal; hide Owned; hide Extended; hide HasFree; hide Written; hide Sized; hide SameBelow; hide DiskInode;
      hide Did; hide Wrote; hide TookBy; hide Affordable; hide Resized; hide RangeDone; hide RangeFits; hide Slots;
      hide Touched; hide OnDisk;
      OnDiskParts(sb, blocks, inode, i);
      OwnedShape(sb, blocks, inode, owner);
      ghost var size0 := inode[i].size;
      ghost var hi;
      ok, hi := WriteBlocks(i, off, src);
      AffordableIs(sb, old(blocks), old(inode), old(owner), i, off, |src|);
      FreeIffRoom(sb, blocks, inode, owner);
      if !ok {
        touched := {};
        return;
      }
      ghost var b1, i1, o1, l1, t1 := blocks, inode, owner, logged, trace;
      ghost var grew := src != [] && off + |src| > size0;
      WrittenFacts(old(blocks), old(inode), blocks, inode, i, off, src);
      Grow(i, off + |src|, grew);
      DidBoth(old(blocks), old(logged), old(trace), b1, l1, t1, blocks, logged, trace);
      touched := TookIs(sb, old(blocks), old(inode), old(owner), old(logged), b1, i1, o1, l1, blocks, inode, logged, i, off, |src|, grew);
      WriteEnd(sb, old(blocks), old(inode), b1, i1, blocks, inode, i, off, src);
    }

    /**
     Writes src at off. Refused (-1) exactly past the end, on 32-bit overflow or past the largest
     file; panics exactly when there are fewer free blocks than empty slots to fill. Otherwise the
     file is its old contents with src spliced in, no other file changes, every inode is on disk,
     exactly the wanted slots are filled, with blocks that were free, and the blocks logged are
     exactly those of LoggedBy, and the inode's if the file grew: at most Cost, all above the log.
     */
    method Writei(i: nat, src: seq<byte>, off: word) returns (ok: bool, r: int, ghost touched: set<nat>)
      requires Valid() && i < |inode| && inode[i].typ != T_DEV && |src| < 0x1_0000_0000
      modifies this
      ensures WriteRefused(old(inode[i]).size, off, |src|) ==> ok && r == -1 && unchanged(this) && touched == {}
      ensures !WriteRefused(old(inode[i]).size, off, |src|) ==> (ok <==> Affordable(sb, old(blocks), old(inode), i, off, |src|))
      ensures !WriteRefused(old(inode[i]).size, off, |src|) && ok ==>
                && r == |src| && Valid() && Wrote(old(blocks), old(inode), blocks, inode, i, off, src)
                && TookBy(sb, old(blocks), old(inode), old(owner), blocks, inode, owner, i, off, |src|, touched)
      ensures ok ==> logged == old(logged) + touched
      ensures !ok ==> Stuck()
      ensures Did(old(blocks), old(logged), old(trace), blocks, logged, trace)
    {
      hide Owned; hide Did; hide OnDisk; hide HasFree; hide Wrote; hide TookBy; hide Affordable;
      var n := |src|;
      touched := {};
      assert logged == logged + {};
      DidNothing(blocks, logged, trace);
      OwnedShape(sb, blocks, inode, owner);
      if off > inode[i].size || (off + n) % 0x1_0000_0000 < off {
        return true, -1, {};
      }
      if off + n > LIMIT {
        return true, -1, {};
      }
      ok, touched := WriteAll(i, src, off);
      r := n;
    }

    /** bmap of a block that is mapped changes nothing. */
    method BmapMapped(i: nat, bn: nat) returns (a: nat)
      requires Owned(sb, blocks, inode, owner, {}) && i < |inode| && |inode[i].addrs| == NDIRECT + 1
      requires bn < MAXFILE && DataAddr(blocks, inode, i, bn) != 0
      modifies this
      ensures unchanged(this) && a == DataAddr(blocks, inode, i, bn)
    {
      hide Owned; hide DataAddr; hide Did; hide Bmapped; hide Roomy; hide Kept;
      ghost var b0, i0, o0, l0 := blocks, inode, owner, logged;
      FreeIffRoom(sb, blocks, inode, owner);
      RoomyMapped(sb, blocks, inode, owner, i, bn);
      var ok;
      ok, a := Bmap(i, bn);
      BmappedAddr(sb, b0, i0, o0, l0, blocks, inode, owner, logged, i, bn, a);
    }

    /** Reads the stretch of the contents asked for, clipped to the size; allocates and changes nothing. */
    method Readi(i: nat, start: word, count: word) returns (r: int, dst: seq<byte>)
      requires Valid() && i < |inode| && inode[i].typ != T_DEV
      modifies this
      ensures unchanged(this)
      ensures r == -1 <==> start > inode[i].size || start + count >= 0x1_0000_0000
      ensures r == -1 ==> dst == []
      ensures r != -1 ==> r == |dst| && Stretch(blocks, inode, i, start, count, dst)
    {
      hide BitSet; hide SlotVal; hide Owned; hide Extended; hide DataAddr; hide HasFree; hide Sized; hide SameBelow;
      hide DiskInode; hide ByteAt;
      var n, off: word := count, start;
      dst := [];
      if off > inode[i].size || (off + n) % 0x1_0000_0000 < off {
        return -1, dst;
      }
      if off + n > inode[i].size {
        n := inode[i].size - off;
      }
      assert OnDisk(sb, blocks, inode, i);
      OwnedShape(sb, blocks, inode, owner);
      SizedLimit(sb, blocks, inode, i);
      var tot := 0;
      while tot < n
        invariant 0 <= tot <= n && off == start + tot == start + |dst| && unchanged(this)
        invariant forall p :: 0 <= p < tot ==> dst[p] == ByteAt(blocks, inode, i, start + p)
        decreases n - tot
      {
        OwnedShape(sb, blocks, inode, owner);
        ReadMapped(sb, blocks, inode, i, off);
        var a := BmapMapped(i, off / BSIZE);
        var m := if n - tot < BSIZE - off % BSIZE then n - tot else BSIZE - off % BSIZE;
        ReadBlock(sb, blocks, inode, owner, i, off, m, a);
        dst := dst + blocks[a][off % BSIZE..off % BSIZE + m];
        tot, off := tot + m, off + m;
      }
      r := n;
      StretchIs(sb, blocks, inode, i, start, count, dst);
    }
  }

  lemma ExtendedRefl(sb: Superblock, blocks: seq<Block>, ino: seq<Inode>, owner: map<nat, Slot>)
    requires Owned(sb, blocks, ino, owner, {})
    ensures Extended(blocks, ino, blocks, ino)
  {
    hide BitSet; hide DataAddr; hide SlotVal;
    forall j: nat, c: nat | j < |ino| && c < MAXFILE && DataAddr(blocks, ino, j, c) != 0
      ensures DataAddr(blocks, ino, j, c) < |blocks|
    {
      DataAddrOwned(sb, blocks, ino, owner, j, c);
    }
  }

  lemma AllocAddrEffect(sb: Superblock, blocks: seq<Block>, ino: seq<Inode>, owner: map<nat, Slot>, i: nat, k: nat,
                        b: nat)
    requires Owned(sb, blocks, ino, owner, {}) && i < |ino| && k <= NDIRECT && ino[i].addrs[k] == 0
    requires b < sb.size && BBlock(sb, b) < sb.size && !BitSet(sb, blocks, b)
    ensures Owned(sb, Alloc(sb, blocks, b), SetAddr(ino, i, k, b), owner[b := Slot(i, k)], {})
    ensures Extended(blocks, ino, Alloc(sb, blocks, b), SetAddr(ino, i, k, b))
    ensures b !in owner && Alloc(sb, blocks, b)[b] == ZeroBlock && SameBelow(blocks, Alloc(sb, blocks, b), sb.bmapstart)
    ensures Slots(Alloc(sb, blocks, b), SetAddr(ino, i, k, b), i) == Slots(blocks, ino, i)[k := b]
  {
    hide BitSet; hide GetWord; hide Alloc; hide Extended; hide SlotFilled; hide Slots;
    FreeIsUnowned(sb, blocks, ino, owner, {}, b);
    AllocDirect(sb, blocks, ino, owner, i, k, b);
    AllocEffect(sb, blocks, b, b);
    AllocBelow(sb, blocks, b);
    forall c: nat | c in owner ensures c < |blocks| && Alloc(sb, blocks, b)[c] == blocks[c] {
      AllocEffect(sb, blocks, b, c);
    }
    FillExtends(sb, blocks, ino, owner, Alloc(sb, blocks, b), SetAddr(ino, i, k, b), i, k, b);
    SlotsFilled(sb, blocks, ino, Alloc(sb, blocks, b), SetAddr(ino, i, k, b), i, k, b);
  }

  lemma AllocIndEffect(sb: Superblock, blocks: seq<Block>, ino: seq<Inode>, owner: map<nat, Slot>, i: nat, e: nat,
                       b: nat)
    requires Owned(sb, blocks, ino, owner, {}) && i < |ino| && e < NINDIRECT
    requires 0 < ino[i].addrs[NDIRECT] < sb.size && SlotVal(blocks, ino, i, NDIRECT + 1 + e) == 0
    requires b < sb.size && BBlock(sb, b) < sb.size && !BitSet(sb, blocks, b)
    ensures b !in owner && b != ino[i].addrs[NDIRECT]
    ensures var ind, blocks1 := ino[i].addrs[NDIRECT], Alloc(sb, blocks, b);
            var blocks' := blocks1[ind := SetWord(blocks1[ind], e, b)];
            && Owned(sb, blocks', ino, owner[b := Slot(i, NDIRECT + 1 + e)], {})
            && Extended(blocks, ino, blocks', ino) && SameBelow(blocks, blocks', sb.bmapstart)
            && Slots(blocks', ino, i) == Slots(blocks, ino, i)[NDIRECT + 1 + e := b] && blocks'[b] == ZeroBlock
  {
    hide BitSet; hide GetWord; hide SetWord; hide Alloc; hide Extended; hide SlotVal; hide Slots;
    var ind, blocks1 := ino[i].addrs[NDIRECT], Alloc(sb, blocks, b);
    FreeIsUnowned(sb, blocks, ino, owner, {}, b);
    IndirectOwned(sb, blocks, ino, owner, {}, i);
    AllocEffect(sb, blocks, b, ind);
    AllocBelow(sb, blocks, b);
    var blocks' := blocks1[ind := SetWord(blocks1[ind], e, b)];
    AllocEntry(sb, blocks, ino, owner, i, e, b, blocks');
    forall c: nat | c in owner && owner[c].k != NDIRECT ensures c < |blocks| && blocks'[c] == blocks[c] {
      AllocEffect(sb, blocks, b, c);
    }
    FillExtends(sb, blocks, ino, owner, blocks', ino, i, NDIRECT + 1 + e, b);
    SlotsFilled(sb, blocks, ino, blocks', ino, i, NDIRECT + 1 + e, b);
  }

  // ----- one step of the block map -----

  /** bmap has mapped file block bn to addr: the wanted slots are filled, and nothing else about the map changed. */
  ghost predicate MapStep(s: seq<word>, o: map<nat, Slot>, s': seq<word>, o': map<nat, Slot>, bn: nat, addr: nat) {
    && bn < MAXFILE && |s| == |s'| == SLOTS && Filled(s, s', Want(s, bn), o)
    && o.Keys <= o'.Keys && |o'| == |o| + |Want(s, bn)|
    && addr == s'[DataSlot(bn)] && addr != 0
  }

  /** What bmap itself logs. */
  function MapMarks(sb: Superblock, s: seq<word>, s': seq<word>, bn: nat): set<nat>
    requires |s| == |s'| == SLOTS && bn < MAXFILE
  {
    if s[DataSlot(bn)] != 0 then {} else StepMarks(sb, s, s', bn)
  }

  /** The free blocks cover what bmap has to allocate for file block bn. */
  ghost predicate Roomy(sb: Superblock, blocks: seq<Block>, ino: seq<Inode>, owner: map<nat, Slot>, i: nat, bn: nat) {
    && i < |ino| && |ino[i].addrs| == NDIRECT + 1 && bn < MAXFILE
    && |owner| + |Want(Slots(blocks, ino, i), bn)| <= sb.nblocks
  }

  /** bmap's effect: the step of the block map, the blocks it logs, and a zeroed block if it allocated one. */
  ghost predicate Bmapped(sb: Superblock, b0: seq<Block>, i0: seq<Inode>, o0: map<nat, Slot>, l0: set<nat>,
                          b1: seq<Block>, i1: seq<Inode>, o1: map<nat, Slot>, l1: set<nat>, i: nat, bn: nat, addr: nat)
  {
    && i < |i0| == |i1| && |i0[i].addrs| == |i1[i].addrs| == NDIRECT + 1 && bn < MAXFILE
    && var s, s' := Slots(b0, i0, i), Slots(b1, i1, i);
    && MapStep(s, o0, s', o1, bn, addr) && l1 == l0 + MapMarks(sb, s, s', bn)
    && if s[DataSlot(bn)] != 0 then b1 == b0 && i1 == i0 && o1 == o0 else addr < |b1| && b1[addr] == ZeroBlock
  }

  /** Everything allocated before keeps its place and contents, and only inode i's addresses may have changed. */
  ghost predicate Kept(sb: Superblock, b0: seq<Block>, i0: seq<Inode>, b1: seq<Block>, i1: seq<Inode>, i: nat) {
    && Extended(b0, i0, b1, i1) && SameBelow(b0, b1, sb.bmapstart)
    && i < |i0| == |i1| && |i1[i].addrs| == NDIRECT + 1 && i1 == i0[i := i0[i].(addrs := i1[i].addrs)]
  }

  lemma KeptIs(sb: Superblock, b0: seq<Block>, i0: seq<Inode>, b1: seq<Block>, i1: seq<Inode>, i: nat)
    requires Extended(b0, i0, b1, i1) && SameBelow(b0, b1, sb.bmapstart)
    requires i < |i0| == |i1| && |i1[i].addrs| == NDIRECT + 1 && i1 == i0[i := i0[i].(addrs := i1[i].addrs)]
    ensures Kept(sb, b0, i0, b1, i1, i)
  {
  }

  lemma KeptParts(sb: Superblock, b0: seq<Block>, i0: seq<Inode>, b1: seq<Block>, i1: seq<Inode>, i: nat)
    requires Kept(sb, b0, i0, b1, i1, i)
    ensures Extended(b0, i0, b1, i1) && SameBelow(b0, b1, sb.bmapstart)
    ensures i < |i0| == |i1| && |i1[i].addrs| == NDIRECT + 1 && i1 == i0[i := i0[i].(addrs := i1[i].addrs)]
  {
  }

  lemma KeptRefl(sb: Superblock, blocks: seq<Block>, ino: seq<Inode>, owner: map<nat, Slot>, i: nat)
    requires Owned(sb, blocks, ino, owner, {}) && i < |ino|
    ensures Kept(sb, blocks, ino, blocks, ino, i)
  {
    hide Owned; hide Extended; hide SameBelow;
    OwnedShape(sb, blocks, ino, owner);
    ExtendedRefl(sb, blocks, ino, owner);
    SameBelowRefl(blocks, sb.bmapstart);
    SameInode(ino, i);
  }

  lemma KeptTrans(sb: Superblock, b0: seq<Block>, i0: seq<Inode>, b1: seq<Block>, i1: seq<Inode>, b2: seq<Block>,
                  i2: seq<Inode>, i: nat)
    requires Kept(sb, b0, i0, b1, i1, i) && Kept(sb, b1, i1, b2, i2, i)
    ensures Kept(sb, b0, i0, b2, i2, i)
  {
    hide Extended; hide SameBelow;
    ExtendedTrans(b0, i0, b1, i1, b2, i2);
    SameBelowTrans(b0, b1, b2, sb.bmapstart);
    assert i2 == i0[i := i0[i].(addrs := i2[i].addrs)];
  }

  lemma RoomyOne(sb: Superblock, blocks: seq<Block>, ino: seq<Inode>, owner: map<nat, Slot>, i: nat, bn: nat)
    requires i < |ino| && |ino[i].addrs| == NDIRECT + 1 && bn < MAXFILE && Slots(blocks, ino, i)[DataSlot(bn)] == 0
    requires bn >= NDIRECT ==> ino[i].addrs[NDIRECT] != 0
    ensures Roomy(sb, blocks, ino, owner, i, bn) <==> |owner| < sb.nblocks
  {
    hide SlotVal; hide Slots;
    SlotsProper(blocks, ino, i);
    WantOne(Slots(blocks, ino, i), bn);
  }

  lemma RoomyMapped(sb: Superblock, blocks: seq<Block>, ino: seq<Inode>, owner: map<nat, Slot>, i: nat, bn: nat)
    requires i < |ino| && |ino[i].addrs| == NDIRECT + 1 && bn < MAXFILE && DataAddr(blocks, ino, i, bn) != 0
    requires |owner| <= sb.nblocks
    ensures Roomy(sb, blocks, ino, owner, i, bn)
  {
    hide SlotVal; hide Slots; hide DataAddr;
    SlotsProper(blocks, ino, i);
    FillNone(Slots(blocks, ino, i), owner, bn);
  }

  lemma BmappedNone(sb: Superblock, blocks: seq<Block>, ino: seq<Inode>, owner: map<nat, Slot>, l: set<nat>, i: nat,
                    bn: nat)
    requires i < |ino| && |ino[i].addrs| == NDIRECT + 1 && bn < MAXFILE && Slots(blocks, ino, i)[DataSlot(bn)] != 0
    requires |owner| <= sb.nblocks
    ensures Bmapped(sb, blocks, ino, owner, l, blocks, ino, owner, l, i, bn, Slots(blocks, ino, i)[DataSlot(bn)])
    ensures Roomy(sb, blocks, ino, owner, i, bn)
  {
    hide SlotVal;
    FillNone(Slots(blocks, ino, i), owner, bn);
    assert l == l + {};
  }

  lemma BmappedDirect(sb: Superblock, b0: seq<Block>, i0: seq<Inode>, o0: map<nat, Slot>, l0: set<nat>, b1: seq<Block>,
                      i1: seq<Inode>, l1: set<nat>, i: nat, bn: nat, b: word)
    requires i < |i0| == |i1| && |i0[i].addrs| == |i1[i].addrs| == NDIRECT + 1 && bn < NDIRECT
    requires Slots(b0, i0, i)[bn] == 0 && Slots(b1, i1, i) == Slots(b0, i0, i)[bn := b] && b !in o0 && b != 0
    requires l1 == l0 + {BBlock(sb, b), b as nat} && b < |b1| && b1[b] == ZeroBlock
    ensures Bmapped(sb, b0, i0, o0, l0, b1, i1, o0[b as nat := Slot(i, bn)], l1, i, bn, b)
  {
    hide SlotVal; hide BBlock; hide MapStep;
    FillOne(Slots(b0, i0, i), o0, bn, b, Slot(i, bn));
  }

  lemma BmappedEntry(sb: Superblock, b0: seq<Block>, ino: seq<Inode>, o0: map<nat, Slot>, l0: set<nat>, b1: seq<Block>,
                     l1: set<nat>, i: nat, e: nat, b: word)
    requires i < |ino| && |ino[i].addrs| == NDIRECT + 1 && e < NINDIRECT && ino[i].addrs[NDIRECT] != 0
    requires Slots(b0, ino, i)[NDIRECT + 1 + e] == 0 && Slots(b1, ino, i) == Slots(b0, ino, i)[NDIRECT + 1 + e := b]
    requires b !in o0 && b != 0 && b < |b1| && b1[b] == ZeroBlock
    requires l1 == l0 + {BBlock(sb, b), b as nat} + {ino[i].addrs[NDIRECT] as nat}
    ensures Bmapped(sb, b0, ino, o0, l0, b1, ino, o0[b as nat := Slot(i, NDIRECT + 1 + e)], l1, i, NDIRECT + e, b)
  {
    hide SlotVal; hide BBlock; hide MapStep; hide Slots; hide MapMarks;
    SlotsProper(b0, ino, i);
    FillOne(Slots(b0, ino, i), o0, NDIRECT + e, b, Slot(i, NDIRECT + 1 + e));
    EntryMarks(sb, Slots(b0, ino, i), NDIRECT + e, b);
  }

  /** The indirect block has just been allocated. */
  ghost predicate IndirectMade(sb: Superblock, b0: seq<Block>, i0: seq<Inode>, o0: map<nat, Slot>, l0: set<nat>,
                               b1: seq<Block>, i1: seq<Inode>, o1: map<nat, Slot>, l1: set<nat>, i: nat, ind: nat)
  {
    && i < |i0| == |i1| && |i0[i].addrs| == |i1[i].addrs| == NDIRECT + 1 && 0 < ind < 0x1_0000_0000
    && i0[i].addrs[NDIRECT] == 0 && ind !in o0 && o1 == o0[ind := Slot(i, NDIRECT)]
    && Slots(b1, i1, i) == Slots(b0, i0, i)[NDIRECT := ind] && l1 == l0 + {BBlock(sb, ind), ind}
  }

  lemma NotRoomy(sb: Superblock, blocks: seq<Block>, ino: seq<Inode>, owner: map<nat, Slot>, i: nat, bn: nat)
    requires i < |ino| && |ino[i].addrs| == NDIRECT + 1 && NDIRECT <= bn < MAXFILE && ino[i].addrs[NDIRECT] == 0
    requires |owner| >= sb.nblocks
    ensures !Roomy(sb, blocks, ino, owner, i, bn)
  {
    hide SlotVal; hide Slots;
    SlotsProper(blocks, ino, i);
    var s := Slots(blocks, ino, i);
    WantTwo(s, s[NDIRECT := 1], bn, 1);
  }

  lemma RoomyTwo(sb: Superblock, b0: seq<Block>, i0: seq<Inode>, o0: map<nat, Slot>, l0: set<nat>, b1: seq<Block>,
                 i1: seq<Inode>, o1: map<nat, Slot>, l1: set<nat>, i: nat, ind: nat, bn: nat)
    requires IndirectMade(sb, b0, i0, o0, l0, b1, i1, o1, l1, i, ind) && NDIRECT <= bn < MAXFILE
    ensures Roomy(sb, b1, i1, o1, i, bn) <==> Roomy(sb, b0, i0, o0, i, bn)
  {
    hide SlotVal; hide Slots;
    SlotsProper(b0, i0, i);
    WantTwo(Slots(b0, i0, i), Slots(b1, i1, i), bn, ind);
    MoreKeys(o0, ind, Slot(i, NDIRECT));
  }

  lemma MadeGrows(sb: Superblock, b0: seq<Block>, i0: seq<Inode>, o0: map<nat, Slot>, l0: set<nat>, b1: seq<Block>,
                  i1: seq<Inode>, o1: map<nat, Slot>, l1: set<nat>, i: nat, ind: nat)
    requires IndirectMade(sb, b0, i0, o0, l0, b1, i1, o1, l1, i, ind)
    ensures |o0| < |o1|
  {
    MoreKeys(o0, ind, Slot(i, NDIRECT));
  }

  lemma BmappedTwo(sb: Superblock, b0: seq<Block>, i0: seq<Inode>, o0: map<nat, Slot>, l0: set<nat>, b1: seq<Block>,
                   i1: seq<Inode>, o1: map<nat, Slot>, l1: set<nat>, b2: seq<Block>, i2: seq<Inode>,
                   o2: map<nat, Slot>, l2: set<nat>, i: nat, ind: nat, bn: nat, addr: nat)
    requires IndirectMade(sb, b0, i0, o0, l0, b1, i1, o1, l1, i, ind) && NDIRECT <= bn < MAXFILE
    requires Bmapped(sb, b1, i1, o1, l1, b2, i2, o2, l2, i, bn, addr)
    ensures Bmapped(sb, b0, i0, o0, l0, b2, i2, o2, l2, i, bn, addr)
  {
    hide SlotVal; hide Slots; hide MapStep; hide MapMarks; hide BBlock;
    SlotsProper(b0, i0, i);
    FillTwo(sb, Slots(b0, i0, i), o0, Slots(b1, i1, i), o1, Slots(b2, i2, i), o2, bn, addr, ind, Slot(i, NDIRECT));
  }

  lemma BmappedAddr(sb: Superblock, b0: seq<Block>, i0: seq<Inode>, o0: map<nat, Slot>, l0: set<nat>, b1: seq<Block>,
                    i1: seq<Inode>, o1: map<nat, Slot>, l1: set<nat>, i: nat, bn: nat, addr: nat)
    requires Bmapped(sb, b0, i0, o0, l0, b1, i1, o1, l1, i, bn, addr)
    ensures i < |i0| == |i1| && |i0[i].addrs| == |i1[i].addrs| == NDIRECT + 1 && bn < MAXFILE
    ensures addr == DataAddr(b1, i1, i, bn) && addr != 0
    ensures DataAddr(b0, i0, i, bn) != 0 ==> b1 == b0 && i1 == i0 && o1 == o0
  {
    hide SlotVal; hide Slots; hide DataAddr; hide MapMarks; hide Filled;
    SlotsProper(b0, i0, i);
    SlotsProper(b1, i1, i);
  }

  /** writei's effect on block bn: that of bmap, and the block itself logged. */
  ghost predicate BlockDone(sb: Superblock, b0: seq<Block>, i0: seq<Inode>, o0: map<nat, Slot>, l0: set<nat>,
                            b1: seq<Block>, i1: seq<Inode>, o1: map<nat, Slot>, l1: set<nat>, i: nat, bn: nat, addr: nat)
  {
    && i < |i0| == |i1| && |i0[i].addrs| == |i1[i].addrs| == NDIRECT + 1 && bn < MAXFILE
    && var s, s' := Slots(b0, i0, i), Slots(b1, i1, i);
    && MapStep(s, o0, s', o1, bn, addr) && l1 == l0 + StepMarks(sb, s, s', bn)
  }

  lemma BlockIsDone(sb: Superblock, b0: seq<Block>, i0: seq<Inode>, o0: map<nat, Slot>, l0: set<nat>, mid: seq<Block>,
                    b1: seq<Block>, i1: seq<Inode>, o1: map<nat, Slot>, l: set<nat>, l1: set<nat>, i: nat, bn: nat,
                    addr: nat)
    requires Bmapped(sb, b0, i0, o0, l0, mid, i1, o1, l, i, bn, addr)
    requires Slots(b1, i1, i) == Slots(mid, i1, i) && l1 == l + {addr}
    ensures BlockDone(sb, b0, i0, o0, l0, b1, i1, o1, l1, i, bn, addr)
  {
    hide SlotVal; hide Slots; hide MapMarks; hide StepMarks; hide MapStep;
    MarksAre(sb, Slots(b0, i0, i), o0, Slots(b1, i1, i), o1, bn, addr, l0);
  }

  lemma PatchBelow(sb: Superblock, b0: seq<Block>, mid: seq<Block>, a: nat, x: Block)
    requires SameBelow(b0, mid, sb.bmapstart) && GoodLayout(sb) && DataStart(sb) <= a < |mid|
    ensures SameBelow(b0, mid[a := x], sb.bmapstart)
  {
  }

  // ----- a range of blocks of one file -----

  ghost predicate RangeFits(sb: Superblock, blocks: seq<Block>, ino: seq<Inode>, owner: map<nat, Slot>, i: nat,
                            lo: nat, hi: nat)
  {
    && i < |ino| && |ino[i].addrs| == NDIRECT + 1 && lo <= hi <= MAXFILE
    && |owner| + |Wanted(Slots(blocks, ino, i), lo, hi)| <= sb.nblocks
  }

  ghost predicate RangeDone(sb: Superblock, b0: seq<Block>, i0: seq<Inode>, o0: map<nat, Slot>, l0: set<nat>,
                            b1: seq<Block>, i1: seq<Inode>, o1: map<nat, Slot>, l1: set<nat>, i: nat, lo: nat, hi: nat)
  {
    && i < |i0| == |i1| && |i0[i].addrs| == |i1[i].addrs| == NDIRECT + 1
    && Ranged(sb, Slots(b0, i0, i), o0, l0, Slots(b1, i1, i), o1, l1, lo, hi)
  }

  lemma RangeDoneStart(sb: Superblock, blocks: seq<Block>, ino: seq<Inode>, owner: map<nat, Slot>, l: set<nat>, i: nat,
                       start: nat)
    requires i < |ino| && |ino[i].addrs| == NDIRECT + 1 && start / BSIZE <= MAXFILE
    ensures RangeDone(sb, blocks, ino, owner, l, blocks, ino, owner, l, i, start / BSIZE, start / BSIZE)
    ensures Touched(start, 0) == 0 && InStep(start, 0)
  {
    hide SlotVal; hide Ranged;
    RangeStart(sb, Slots(blocks, ino, i), owner, l, start);
  }

  lemma RangeDoneStep(sb: Superblock, b0: seq<Block>, i0: seq<Inode>, o0: map<nat, Slot>, l0: set<nat>, b1: seq<Block>,
                      i1: seq<Inode>, o1: map<nat, Slot>, l1: set<nat>, b2: seq<Block>, i2: seq<Inode>,
                      o2: map<nat, Slot>, l2: set<nat>, i: nat, lo: nat, bn: nat, addr: nat)
    requires RangeDone(sb, b0, i0, o0, l0, b1, i1, o1, l1, i, lo, bn)
    requires BlockDone(sb, b1, i1, o1, l1, b2, i2, o2, l2, i, bn, addr)
    ensures RangeDone(sb, b0, i0, o0, l0, b2, i2, o2, l2, i, lo, bn + 1)
  {
    hide SlotVal; hide Ranged; hide Slots; hide MapStep; hide StepMarks;
    SlotsProper(b0, i0, i);
    SlotsProper(b1, i1, i);
    RangeStep(sb, Slots(b0, i0, i), o0, l0, Slots(b1, i1, i), o1, l1, Slots(b2, i2, i), o2, l2, lo, bn, addr);
  }

  lemma RangeDoneFails(sb: Superblock, b0: seq<Block>, i0: seq<Inode>, o0: map<nat, Slot>, l0: set<nat>,
                       b1: seq<Block>, i1: seq<Inode>, o1: map<nat, Slot>, l1: set<nat>, i: nat, lo: nat, bn: nat,
                       hi: nat)
    requires RangeDone(sb, b0, i0, o0, l0, b1, i1, o1, l1, i, lo, bn) && bn < hi <= MAXFILE
    requires !Roomy(sb, b1, i1, o1, i, bn)
    ensures !RangeFits(sb, b0, i0, o0, i, lo, hi)
  {
    hide SlotVal; hide Ranged; hide Slots; hide Want; hide Wanted;
    SlotsProper(b0, i0, i);
    RangeFails(sb, Slots(b0, i0, i), o0, l0, Slots(b1, i1, i), o1, l1, lo, bn, hi);
  }

  lemma RangeDoneRoom(sb: Superblock, b0: seq<Block>, i0: seq<Inode>, o0: map<nat, Slot>, l0: set<nat>, b1: seq<Block>,
                      i1: seq<Inode>, o1: map<nat, Slot>, l1: set<nat>, i: nat, lo: nat, hi: nat)
    requires RangeDone(sb, b0, i0, o0, l0, b1, i1, o1, l1, i, lo, hi) && |o1| <= sb.nblocks
    ensures RangeFits(sb, b0, i0, o0, i, lo, hi)
  {
  }

  /** The free blocks cover the empty slots a write of n bytes at off has to fill. */
  ghost predicate Affordable(sb: Superblock, blocks: seq<Block>, ino: seq<Inode>, i: nat, off: nat, n: nat) {
    && i < |ino| && |ino[i].addrs| == NDIRECT + 1 && off + n <= LIMIT
    && |Fills(Slots(blocks, ino, i), off, n)| <= |FreeBlocks(sb, blocks, sb.size)|
  }

  lemma AffordableIs(sb: Superblock, blocks: seq<Block>, ino: seq<Inode>, owner: map<nat, Slot>, i: nat, off: nat,
                     n: nat)
    requires Owned(sb, blocks, ino, owner, {}) && i < |ino| && off + n <= LIMIT
    ensures Affordable(sb, blocks, ino, i, off, n) <==> RangeFits(sb, blocks, ino, owner, i, off / BSIZE, off / BSIZE + Touched(off, n))
  {
    hide Owned; hide FreeBlocks; hide SlotVal; hide Wanted; hide Touched;
    OwnedShape(sb, blocks, ino, owner);
    FreeCount(sb, blocks, ino, owner, {});
    RangeEnd(off, n);
  }

  lemma SlotsAt(blocks: seq<Block>, ino: seq<Inode>, i: nat, k: nat)
    requires i < |ino| && |ino[i].addrs| == NDIRECT + 1 && k <= NDIRECT
    ensures |Slots(blocks, ino, i)| == SLOTS && Slots(blocks, ino, i)[k] == ino[i].addrs[k]
  {
  }

  lemma EntryAt(blocks: seq<Block>, ino: seq<Inode>, i: nat, e: nat)
    requires i < |ino| && |ino[i].addrs| == NDIRECT + 1 && e < NINDIRECT && 0 < ino[i].addrs[NDIRECT] < |blocks|
    ensures |Slots(blocks, ino, i)| == SLOTS
    ensures Slots(blocks, ino, i)[NDIRECT + 1 + e] == SlotVal(blocks, ino, i, NDIRECT + 1 + e)
         == GetWord(blocks[ino[i].addrs[NDIRECT]], e)
  {
    hide GetWord;
  }

  lemma FillNone(s: seq<word>, o: map<nat, Slot>, bn: nat)
    requires |s| == SLOTS && bn < MAXFILE && s[DataSlot(bn)] != 0
    ensures MapStep(s, o, s, o, bn, s[DataSlot(bn)]) && |Want(s, bn)| == 0
  {
  }

  lemma WantOne(s: seq<word>, bn: nat)
    requires |s| == SLOTS && bn < MAXFILE && s[DataSlot(bn)] == 0 && (bn >= NDIRECT ==> s[NDIRECT] != 0)
    ensures Want(s, bn) == {DataSlot(bn)} && |Want(s, bn)| == 1
  {
  }

  lemma FillOne(s: seq<word>, o: map<nat, Slot>, bn: nat, b: word, slot: Slot)
    requires |s| == SLOTS && bn < MAXFILE && s[DataSlot(bn)] == 0 && (bn >= NDIRECT ==> s[NDIRECT] != 0)
    requires b !in o && b != 0
    ensures MapStep(s, o, s[DataSlot(bn) := b], o[b as nat := slot], bn, b)
  {
    WantOne(s, bn);
    MoreKeys(o, b, slot);
  }

  lemma EntryMarks(sb: Superblock, s: seq<word>, bn: nat, b: word)
    requires |s| == SLOTS && NDIRECT <= bn < MAXFILE && s[DataSlot(bn)] == 0 && s[NDIRECT] != 0
    ensures MapMarks(sb, s, s[DataSlot(bn) := b], bn) == {BBlock(sb, b), b as nat} + {s[NDIRECT] as nat}
  {
    hide BBlock;
  }

  lemma MoreKeys(o: map<nat, Slot>, b: nat, slot: Slot)
    requires b !in o
    ensures |o[b := slot]| == |o| + 1 && o.Keys <= o[b := slot].Keys
  {
    assert o[b := slot].Keys == o.Keys + {b};
  }

  /** The indirect block and then its entry. */
  lemma FillTwo(sb: Superblock, s0: seq<word>, o0: map<nat, Slot>, s1: seq<word>, o1: map<nat, Slot>, s2: seq<word>,
                o2: map<nat, Slot>, bn: nat, addr: nat, ind: word, slot: Slot)
    requires Proper(s0) && s0[NDIRECT] == 0 && NDIRECT <= bn < MAXFILE
    requires ind !in o0 && ind != 0 && s1 == s0[NDIRECT := ind] && o1 == o0[ind as nat := slot]
    requires MapStep(s1, o1, s2, o2, bn, addr)
    ensures MapStep(s0, o0, s2, o2, bn, addr)
    ensures MapMarks(sb, s0, s2, bn) == {BBlock(sb, ind), ind as nat} + MapMarks(sb, s1, s2, bn)
  {
    hide BBlock;
    MoreKeys(o0, ind, slot);
    WantTwo(s0, s1, bn, ind);
  }

  lemma WantTwo(s0: seq<word>, s1: seq<word>, bn: nat, ind: word)
    requires Proper(s0) && s0[NDIRECT] == 0 && NDIRECT <= bn < MAXFILE && ind != 0 && s1 == s0[NDIRECT := ind]
    ensures Want(s0, bn) == {DataSlot(bn), NDIRECT} && |Want(s0, bn)| == 2
    ensures Want(s1, bn) == {DataSlot(bn)} && |Want(s1, bn)| == 1
  {
    WantOne(s1, bn);
    assert {DataSlot(bn), NDIRECT} == {DataSlot(bn)} + {NDIRECT};
  }

  lemma SetAddrIs(ino: seq<Inode>, i: nat, k: nat, b: word)
    requires i < |ino| && k < |ino[i].addrs|
    ensures SetAddr(ino, i, k, b) == ino[i := ino[i].(addrs := SetAddr(ino, i, k, b)[i].addrs)]
    ensures |SetAddr(ino, i, k, b)| == |ino| && SetAddr(ino, i, k, b)[i].addrs == ino[i].addrs[k := b]
  {
  }

  lemma SameInode(ino: seq<Inode>, i: nat)
    requires i < |ino|
    ensures ino == ino[i := ino[i].(addrs := ino[i].addrs)]
  {
  }

  /** Overwriting a mapped file block keeps ownership and the slots. */
  lemma PatchKeeps(sb: Superblock, blocks: seq<Block>, ino: seq<Inode>, owner: map<nat, Slot>, i: nat, bn: nat, a: nat,
                   x: Block)
    requires Owned(sb, blocks, ino, owner, {}) && i < |ino| && bn < MAXFILE && a == DataAddr(blocks, ino, i, bn)
    requires a != 0 && |ino[i].addrs| == NDIRECT + 1
    ensures DataStart(sb) <= a < sb.size && |blocks| == sb.size && Owned(sb, blocks[a := x], ino, owner, {})
    ensures Slots(blocks[a := x], ino, i) == Slots(blocks, ino, i)
    ensures Sized(blocks, ino, i) ==> Sized(blocks[a := x], ino, i)
  {
    hide BitSet; hide SlotVal; hide Owned; hide DataAddr; hide Slots;
    OwnedShape(sb, blocks, ino, owner);
    WriteData(sb, blocks, ino, owner, i, bn, a, x);
    SameAddrsSlots(blocks, ino, blocks[a := x], ino, i);
  }

  lemma SameAddrsSlots(b0: seq<Block>, i0: seq<Inode>, b1: seq<Block>, i1: seq<Inode>, i: nat)
    requires i < |i0| == |i1| && |i0[i].addrs| == NDIRECT + 1 && i1[i].addrs == i0[i].addrs
    requires forall c: nat :: c < MAXFILE ==> DataAddr(b1, i1, i, c) == DataAddr(b0, i0, i, c)
    ensures Slots(b1, i1, i) == Slots(b0, i0, i)
  {
    hide GetWord;
    forall k: nat | k < SLOTS ensures SlotVal(b1, i1, i, k) == SlotVal(b0, i0, i, k) {
      if k > NDIRECT { assert DataAddr(b1, i1, i, k - 1) == DataAddr(b0, i0, i, k - 1); }
    }
  }

  lemma MarksAre(sb: Superblock, s: seq<word>, o: map<nat, Slot>, s': seq<word>, o': map<nat, Slot>, bn: nat, a: nat,
                 l: set<nat>)
    requires MapStep(s, o, s', o', bn, a)
    ensures l + MapMarks(sb, s, s', bn) + {a} == l + StepMarks(sb, s, s', bn)
  {
    hide BBlock;
  }

  /** Blocks lo .. hi - 1 have been mapped and written, starting from slots s0, owners o0 and logged blocks l0. */
  ghost predicate Ranged(sb: Superblock, s0: seq<word>, o0: map<nat, Slot>, l0: set<nat>, s: seq<word>,
                         o: map<nat, Slot>, l: set<nat>, lo: nat, hi: nat)
  {
    && lo <= hi <= MAXFILE && |s0| == |s| == SLOTS && Filled(s0, s, Wanted(s0, lo, hi), o0)
    && o0.Keys <= o.Keys && |o| == |o0| + |Wanted(s0, lo, hi)| && l == l0 + Marks(sb, s0, s, lo, hi)
  }

  lemma RangeStart(sb: Superblock, s: seq<word>, o: map<nat, Slot>, l: set<nat>, start: nat)
    requires |s| == SLOTS && start / BSIZE <= MAXFILE
    ensures Ranged(sb, s, o, l, s, o, l, start / BSIZE, start / BSIZE) && Touched(start, 0) == 0 && InStep(start, 0)
  {
    assert l == l + {};
  }

  /** The slots still wanted for block bn are wanted for the whole range, and not counted yet. */
  lemma RangeFails(sb: Superblock, s0: seq<word>, o0: map<nat, Slot>, l0: set<nat>, s: seq<word>, o: map<nat, Slot>,
                   l: set<nat>, lo: nat, bn: nat, hi: nat)
    requires Proper(s0) && bn < hi <= MAXFILE && Ranged(sb, s0, o0, l0, s, o, l, lo, bn)
    ensures |o0| + |Wanted(s0, lo, hi)| >= |o| + |Want(s, bn)|
  {
    hide Wanted; hide Want; hide Filled; hide Marks;
    WantedCount(s0, s, lo, bn, o0);
    WantedGrows(s0, lo, bn + 1, hi);
  }

  lemma {:induction false} WantedGrows(s: seq<word>, lo: nat, a: nat, b: nat)
    requires |s| == SLOTS && lo <= a <= b <= MAXFILE
    ensures |Wanted(s, lo, a)| <= |Wanted(s, lo, b)|
    decreases b
  {
    hide Want;
    if a < b {
      WantedGrows(s, lo, a, b - 1);
      var x, y := Wanted(s, lo, b - 1), Wanted(s, lo, b);
      assert y == x + (y - x);
    }
  }

  lemma RangeStep(sb: Superblock, s0: seq<word>, o0: map<nat, Slot>, l0: set<nat>, s: seq<word>, o: map<nat, Slot>,
                  l: set<nat>, s': seq<word>, o': map<nat, Slot>, l': set<nat>, lo: nat, bn: nat, a: nat)
    requires Proper(s0) && Proper(s) && Ranged(sb, s0, o0, l0, s, o, l, lo, bn) && MapStep(s, o, s', o', bn, a)
    requires l' == l + StepMarks(sb, s, s', bn)
    ensures Ranged(sb, s0, o0, l0, s', o', l', lo, bn + 1)
  {
    hide Wanted; hide Want; hide Filled; hide Marks; hide StepMarks;
    WantedStep(s0, s, s', lo, bn, o0, o);
    MarksStep(sb, s0, s, s', lo, bn, o0, o);
  }

  lemma TouchedMore(start: nat, a: nat, n: nat)
    requires a <= n
    ensures Touched(start, a) <= Touched(start, n)
    ensures 0 < a < n && (start + a) % BSIZE == 0 ==> start / BSIZE + Touched(start, a) == (start + a) / BSIZE
  {
  }

  /** What writei's loop logs stays within Cost, with one block to spare for the inode, and above the log. */
  lemma MarksCost(sb: Superblock, b0: seq<Block>, i0: seq<Inode>, b1: seq<Block>, i1: seq<Inode>,
                  owner: map<nat, Slot>, i: nat, off: nat, n: nat, o0: map<nat, Slot>, l0: set<nat>, l1: set<nat>)
    requires Owned(sb, b1, i1, owner, {}) && i < |i0| == |i1| && |i0[i].addrs| == |i1[i].addrs| == NDIRECT + 1
    requires Sized(b0, i0, i) && off <= i0[i].size && off + n <= LIMIT
    requires Ranged(sb, Slots(b0, i0, i), o0, l0, Slots(b1, i1, i), owner, l1, off / BSIZE, off / BSIZE + Touched(off, n))
    ensures var m := LoggedBy(sb, Slots(b0, i0, i), Slots(b1, i1, i), off, n);
            && |m| + (if n > 0 then 1 else 0) <= Cost(off, n)
            && forall c :: c in m ==> sb.bmapstart <= c < sb.size
  {
    hide Owned; hide Slots; hide Marks; hide Wanted; hide Filled; hide Sized; hide DataAddr; hide SlotVal; hide Cost;
    RangeEnd(off, n);
    OwnedShape(sb, b1, i1, owner);
    var s0, s1, lo, hi := Slots(b0, i0, i), Slots(b1, i1, i), off / BSIZE, off / BSIZE + Touched(off, n);
    SlotsProper(b0, i0, i);
    SlotsProper(b1, i1, i);
    FilledMapped(s0, s1, lo, hi, o0);
    SlotsInRange(sb, b1, i1, owner, i);
    MarksRange(sb, s0, s1, lo, hi);
    if off % BSIZE != 0 {
      PartialBlockMapped(b0, i0, i, off);
    }
    LoggedSize(sb, s0, s1, off, n);
  }

  lemma LoggedSize(sb: Superblock, s0: seq<word>, s1: seq<word>, off: nat, n: nat)
    requires |s0| == |s1| == SLOTS && off + n <= LIMIT
    requires off % BSIZE != 0 ==> off / BSIZE < MAXFILE && s0[DataSlot(off / BSIZE)] != 0
    ensures |LoggedBy(sb, s0, s1, off, n)| + (if n > 0 then 1 else 0) <= Cost(off, n)
  {
    hide Marks;
    RangeEnd(off, n);
    MarksSize(sb, s0, s1, off / BSIZE, off / BSIZE + Touched(off, n));
    if n == 0 {
      NoMarks(sb, s0, s1, off / BSIZE);
    }
  }

  lemma NoMarks(sb: Superblock, s: seq<word>, s': seq<word>, lo: nat)
    requires |s| == |s'| == SLOTS && lo <= MAXFILE
    ensures Marks(sb, s, s', lo, lo) == {}
  {
  }

  lemma SlotsInRange(sb: Superblock, blocks: seq<Block>, ino: seq<Inode>, owner: map<nat, Slot>, i: nat)
    requires Owned(sb, blocks, ino, owner, {}) && i < |ino| && |ino[i].addrs| == NDIRECT + 1
    ensures var s := Slots(blocks, ino, i); forall k :: 0 <= k < SLOTS && s[k] != 0 ==> DataStart(sb) <= s[k] < sb.size
  {
    hide SlotVal; hide BitSet;
  }

  /** Writing the inode back does not touch the slots. */
  lemma SizeKeepsSlots(sb: Superblock, b1: seq<Block>, i1: seq<Inode>, owner: map<nat, Slot>, b2: seq<Block>,
                       i2: seq<Inode>, i: nat)
    requires Owned(sb, b1, i1, owner, {}) && i < |i1| == |i2| && |i1[i].addrs| == NDIRECT + 1
    requires i2[i].addrs == i1[i].addrs && SameFrom(b1, b2, sb.bmapstart)
    ensures Slots(b2, i2, i) == Slots(b1, i1, i)
  {
    hide BitSet; hide GetWord;
    if i1[i].addrs[NDIRECT] != 0 { IndirectOwned(sb, b1, i1, owner, {}, i); }
    forall k: nat | k < SLOTS ensures SlotVal(b2, i2, i, k) == SlotVal(b1, i1, i, k) {
    }
  }

  lemma PutBitFrame(sb: Superblock, blocks: seq<Block>, b: nat)
    requires GoodLayout(sb) && |blocks| == sb.size && b < sb.size && BBlock(sb, b) < sb.size
    ensures SameFrom(blocks, PutBit(sb, blocks, b, false), DataStart(sb))
    ensures SameBelow(blocks, PutBit(sb, blocks, b, false), sb.bmapstart)
    ensures sb.bmapstart <= BBlock(sb, b) < DataStart(sb)
  {
    MetaBlocks(sb, b);
  }

  /** Changing blocks below the free map disturbs no slot, bit or file block. */
  lemma WriteMeta(sb: Superblock, blocks: seq<Block>, ino: seq<Inode>, owner: map<nat, Slot>, blocks': seq<Block>)
    requires Owned(sb, blocks, ino, owner, {}) && SameFrom(blocks, blocks', sb.bmapstart)
    ensures Owned(sb, blocks', ino, owner, {}) && Extended(blocks, ino, blocks', ino)
  {
    hide GetWord; hide BitSet; hide Extended;
    forall j: nat, q: nat | j < |ino| && q < SLOTS ensures SlotVal(blocks', ino, j, q) == SlotVal(blocks, ino, j, q) {
      if q > NDIRECT && ino[j].addrs[NDIRECT] != 0 { IndirectOwned(sb, blocks, ino, owner, {}, j); }
    }
    forall c: nat | c < sb.size ensures BBlock(sb, c) < sb.size && BitSet(sb, blocks', c) == BitSet(sb, blocks, c) {
      MetaBlocks(sb, c);
      SameBitmap(sb, blocks, blocks', c);
    }
    SameSlotsOwned(sb, blocks, ino, owner, blocks');
    SameSlotsExtended(sb, blocks, ino, owner, blocks');
  }

  lemma SameSlotsExtended(sb: Superblock, blocks: seq<Block>, ino: seq<Inode>, owner: map<nat, Slot>,
                          blocks': seq<Block>)
    requires Owned(sb, blocks, ino, owner, {}) && SameFrom(blocks, blocks', DataStart(sb))
    requires forall j: nat, q: nat :: j < |ino| && q < SLOTS ==> SlotVal(blocks', ino, j, q) == SlotVal(blocks, ino, j, q)
    ensures Extended(blocks, ino, blocks', ino)
  {
    hide SlotVal; hide BitSet; hide DataAddr;
    forall j: nat, c: nat | j < |ino| && c < MAXFILE
      ensures DataAddr(blocks', ino, j, c) == DataAddr(blocks, ino, j, c)
      ensures DataAddr(blocks, ino, j, c) != 0 ==> DataStart(sb) <= DataAddr(blocks, ino, j, c) < |blocks|
    {
      DataAddrIs(blocks, ino, j, c);
      DataAddrIs(blocks', ino, j, c);
      if DataAddr(blocks, ino, j, c) != 0 { DataAddrOwned(sb, blocks, ino, owner, j, c); }
    }
  }

  /** What itrunc has done once the first k slots of inode i are gone. */
  ghost predicate Truncating(sb: Superblock, i: nat, k: nat, b0: seq<Block>, i0: seq<Inode>, l0: set<nat>,
                             b1: seq<Block>, i1: seq<Inode>, l1: set<nat>)
  {
    && i < |i0| && i < |i1| && i1 == i0[i := i0[i].(addrs := i1[i].addrs)]
    && |i1[i].addrs| == NDIRECT + 1 && k <= NDIRECT + 1 && (forall q :: 0 <= q < k ==> i1[i].addrs[q] == 0)
    && SameFrom(b0, b1, DataStart(sb)) && SameBelow(b0, b1, sb.bmapstart)
    && (forall x :: x in l1 ==> x in l0 || sb.bmapstart <= x < DataStart(sb))
  }

  lemma TruncStart(sb: Superblock, i: nat, blocks: seq<Block>, ino: seq<Inode>, owner: map<nat, Slot>, l: set<nat>)
    requires Owned(sb, blocks, ino, owner, {}) && i < |ino|
    ensures |ino[i].addrs| == NDIRECT + 1 && |blocks| == sb.size && |ino| == sb.ninodes && GoodLayout(sb)
    ensures Truncating(sb, i, 0, blocks, ino, l, blocks, ino, l)
  {
    hide BitSet; hide SlotVal;
    assert ino == ino[i := ino[i].(addrs := ino[i].addrs)];
  }

  lemma SlotIsAddr(blocks: seq<Block>, ino: seq<Inode>, i: nat, k: nat)
    requires i < |ino| && |ino[i].addrs| == NDIRECT + 1 && k <= NDIRECT
    ensures SlotVal(blocks, ino, i, k) == ino[i].addrs[k]
  {
  }

  lemma TruncStep(sb: Superblock, i: nat, k: nat, b0: seq<Block>, i0: seq<Inode>, l0: set<nat>,
                  b1: seq<Block>, i1: seq<Inode>, l1: set<nat>, b2: seq<Block>, i2: seq<Inode>, l2: set<nat>)
    requires Truncating(sb, i, k, b0, i0, l0, b1, i1, l1) && k <= NDIRECT && GoodLayout(sb) && |b1| == sb.size
    requires if i1[i].addrs[k] == 0 then b2 == b1 && i2 == i1 && l2 == l1
             else && i1[i].addrs[k] < sb.size && BBlock(sb, i1[i].addrs[k]) < sb.size
                  && b2 == PutBit(sb, b1, i1[i].addrs[k], false)
                  && i2 == SetAddr(i1, i, k, 0) && l2 == l1 + {BBlock(sb, i1[i].addrs[k])}
    ensures Truncating(sb, i, k + 1, b0, i0, l0, b2, i2, l2)
  {
    if i1[i].addrs[k] != 0 {
      hide PutBit;
      PutBitFrame(sb, b1, i1[i].addrs[k]);
      assert i2 == i0[i := i0[i].(addrs := i2[i].addrs)];
    }
  }

  /** Only free-map blocks were changed and logged. */
  ghost predicate OnlyBitmap(sb: Superblock, b0: seq<Block>, l0: set<nat>, b1: seq<Block>, l1: set<nat>) {
    && SameFrom(b0, b1, DataStart(sb)) && SameBelow(b0, b1, sb.bmapstart)
    && (forall x :: x in l1 ==> x in l0 || sb.bmapstart <= x < DataStart(sb))
  }

  lemma OnlyBitmapRefl(sb: Superblock, b0: seq<Block>, l0: set<nat>)
    ensures OnlyBitmap(sb, b0, l0, b0, l0)
  {
  }

  lemma OnlyBitmapStep(sb: Superblock, b0: seq<Block>, l0: set<nat>, b1: seq<Block>, l1: set<nat>, b: nat)
    requires OnlyBitmap(sb, b0, l0, b1, l1) && GoodLayout(sb) && |b1| == sb.size && b < sb.size
    requires BBlock(sb, b) < sb.size
    ensures OnlyBitmap(sb, b0, l0, PutBit(sb, b1, b, false), l1 + {BBlock(sb, b)})
  {
    hide PutBit;
    PutBitFrame(sb, b1, b);
  }

  lemma SetAddrSame(ino: seq<Inode>, i: nat, k: nat)
    requires i < |ino| && k < |ino[i].addrs| && ino[i].addrs[k] == 0
    ensures SetAddr(ino, i, k, 0) == ino
  {
    assert ino[i].addrs[k := 0] == ino[i].addrs;
  }

  lemma NoEntries(i: nat)
    ensures Entries(i, 0) == {}
  {
  }

  lemma NotEntry(i: nat, e: nat)
    ensures Slot(i, NDIRECT + 1 + e) !in Entries(i, e)
  {
  }

  lemma IndirectNotEntry(i: nat, e: nat)
    ensures Slot(i, NDIRECT) !in Entries(i, e)
  {
  }

  lemma EntryIs(sb: Superblock, b0: seq<Block>, l0: set<nat>, b1: seq<Block>, l1: set<nat>, ino: seq<Inode>, i: nat,
                e: nat)
    requires OnlyBitmap(sb, b0, l0, b1, l1) && i < |ino| && |ino[i].addrs| == NDIRECT + 1 && e < NINDIRECT
    requires GoodLayout(sb)
    requires DataStart(sb) <= ino[i].addrs[NDIRECT] < |b0|
    ensures SlotVal(b1, ino, i, NDIRECT + 1 + e) == GetWord(b0[ino[i].addrs[NDIRECT]], e)
  {
    hide GetWord;
  }

  lemma TruncBoth(sb: Superblock, i: nat, b0: seq<Block>, i0: seq<Inode>, l0: set<nat>,
                  b1: seq<Block>, i1: seq<Inode>, l1: set<nat>, b2: seq<Block>, i2: seq<Inode>, l2: set<nat>)
    requires Truncating(sb, i, NDIRECT, b0, i0, l0, b1, i1, l1) && OnlyBitmap(sb, b1, l1, b2, l2)
    requires i2 == SetAddr(i1, i, NDIRECT, 0)
    ensures Truncating(sb, i, NDIRECT + 1, b0, i0, l0, b2, i2, l2)
  {
    assert i2 == i0[i := i0[i].(addrs := i2[i].addrs)];
  }

  /** Slots do not depend on sizes. */
  lemma SizeKeepsOwned(sb: Superblock, blocks: seq<Block>, ino: seq<Inode>, owner: map<nat, Slot>, ino': seq<Inode>,
                       i: nat)
    requires Owned(sb, blocks, ino, owner, {}) && i < |ino| == |ino'| && ino' == ino[i := ino[i].(size := ino'[i].size)]
    ensures Owned(sb, blocks, ino', owner, {})
  {
    hide BitSet; hide GetWord;
    forall j: nat, q: nat | j < |ino| && q < SLOTS ensures SlotVal(blocks, ino', j, q) == SlotVal(blocks, ino, j, q) {
    }
    SameSlots(sb, blocks, ino, owner, ino');
  }

  lemma SameSlots(sb: Superblock, blocks: seq<Block>, ino: seq<Inode>, owner: map<nat, Slot>, ino': seq<Inode>)
    requires Owned(sb, blocks, ino, owner, {}) && Shape(sb, blocks, ino')
    requires forall j: nat, q: nat :: j < |ino| && q < SLOTS ==> SlotVal(blocks, ino', j, q) == SlotVal(blocks, ino, j, q)
    ensures Owned(sb, blocks, ino', owner, {})
  {
    hide BitSet; hide SlotVal;
  }

  /** A file whose inode and data blocks are the same has the same block map and contents. */
  lemma OtherFile(sb: Superblock, b0: seq<Block>, i0: seq<Inode>, owner: map<nat, Slot>, b1: seq<Block>,
                  i1: seq<Inode>, j: nat)
    requires Owned(sb, b0, i0, owner, {}) && SameFrom(b0, b1, DataStart(sb)) && j < |i0| && j < |i1| && i1[j] == i0[j]
    ensures forall q: nat :: q < SLOTS ==> SlotVal(b1, i1, j, q) == SlotVal(b0, i0, j, q)
    ensures forall c: nat :: c < MAXFILE ==> DataAddr(b1, i1, j, c) == DataAddr(b0, i0, j, c)
    ensures Sized(b0, i0, j) ==> Sized(b1, i1, j) && SameContent(b0, i0, b1, i1, j)
  {
    hide BitSet; hide GetWord;
    if i0[j].addrs[NDIRECT] != 0 { IndirectOwned(sb, b0, i0, owner, {}, j); }
    if Sized(b0, i0, j) {
      forall p: nat | p < i0[j].size ensures ByteAt(b1, i1, j, p) == ByteAt(b0, i0, j, p) {
        DataAddrOwned(sb, b0, i0, owner, j, p / BSIZE);
      }
      assert Content(b1, i1, j) == Content(b0, i0, j);
    }
  }

  lemma TruncEnd(sb: Superblock, i: nat, b0: seq<Block>, i0: seq<Inode>, l0: set<nat>,
                 b2: seq<Block>, i2: seq<Inode>, l2: set<nat>, b3: seq<Block>, i3: seq<Inode>)
    requires Truncating(sb, i, NDIRECT + 1, b0, i0, l0, b2, i2, l2) && GoodLayout(sb) && |b0| == sb.size
    requires |i0| == sb.ninodes
    requires i3 == i2[i := i2[i].(size := 0)] && SameFrom(b2, b3, sb.bmapstart)
    requires forall j: nat :: j < |i3| && j != i ==> IBlock(sb, j) < |b3| && DiskInode(sb, b3, j) == DiskInode(sb, b2, j)
    ensures i3 == i0[i := i0[i].(size := 0, addrs := i3[i].addrs)] && |i3[i].addrs| == NDIRECT + 1
    ensures (forall k :: 0 <= k <= NDIRECT ==> i3[i].addrs[k] == 0) && SameFrom(b0, b3, DataStart(sb))
    ensures forall j: nat :: j < |i3| && j != i ==> IBlock(sb, j) < |b3| && DiskInode(sb, b3, j) == DiskInode(sb, b0, j)
    ensures forall x :: x in l2 ==> x in l0 || sb.bmapstart <= x < DataStart(sb)
  {
    hide DiskInode;
    assert i3 == i0[i := i0[i].(size := 0, addrs := i3[i].addrs)];
    forall j: nat | j < |i3| && j != i ensures IBlock(sb, j) < |b3| && DiskInode(sb, b3, j) == DiskInode(sb, b0, j) {
      InodeBlocksBelow(sb, b0, b2, j);
    }
  }

  lemma TruncSized(sb: Superblock, blocks: seq<Block>, ino: seq<Inode>, owner: map<nat, Slot>, i: nat)
    requires Owned(sb, blocks, ino, owner, {}) && i < |ino| && ino[i].size == 0
    ensures |ino[i].addrs| == NDIRECT + 1 && Sized(blocks, ino, i)
  {
  }

  lemma TruncFreed(sb: Superblock, i: nat, b0: seq<Block>, i0: seq<Inode>, owner0: map<nat, Slot>, b1: seq<Block>,
                   i1: seq<Inode>, owner1: map<nat, Slot>)
    requires Owned(sb, b0, i0, owner0, {}) && Owned(sb, b1, i1, owner1, {}) && SameFrom(b0, b1, DataStart(sb))
    requires i < |i0| && (forall j: nat :: j < |i0| && j != i ==> i1[j] == i0[j])
    requires forall k :: 0 <= k <= NDIRECT ==> i1[i].addrs[k] == 0
    ensures forall b: nat :: b in owner0 ==> if owner0[b].inum == i then Clear(sb, b1, b) else b in owner1 && owner1[b] == owner0[b]
  {
    hide BitSet; hide GetWord;
    forall b: nat | b in owner0
      ensures if owner0[b].inum == i then Clear(sb, b1, b) else b in owner1 && owner1[b] == owner0[b]
    {
      MetaBlocks(sb, b);
      if owner0[b].inum != i {
        OtherFile(sb, b0, i0, owner0, b1, i1, owner0[b].inum);
        assert SlotVal(b1, i1, owner0[b].inum, owner0[b].k) == b;
      } else if b in owner1 {
        if owner1[b].inum != i { OtherFile(sb, b0, i0, owner0, b1, i1, owner1[b].inum); }
        assert false;
      }
    }
  }

  // ----- counting the logged blocks -----

  lemma SameBelowRefl(b: seq<Block>, n: nat)
    ensures SameBelow(b, b, n)
  {
  }

  lemma SameBelowTrans(a: seq<Block>, b: seq<Block>, c: seq<Block>, n: nat)
    requires SameBelow(a, b, n) && SameBelow(b, c, n)
    ensures SameBelow(a, c, n)
  {
  }

  /** min(n - tot, BSIZE - off % BSIZE) */
  function StepLength(off: nat, left: nat): nat {
    if left < BSIZE - off % BSIZE then left else BSIZE - off % BSIZE
  }

  /** Before each round but the first the loop is at the start of a block. */
  predicate InStep(start: nat, tot: nat) {
    (tot > 0 ==> (start + tot) % BSIZE == 0) && start / BSIZE + Touched(start, tot) == (start + tot) / BSIZE
  }

  lemma LoopStep(start: nat, tot: nat, n: nat)
    requires tot < n && InStep(start, tot)
    ensures var m := StepLength(start + tot, n - tot);
            && 0 < m <= BSIZE - (start + tot) % BSIZE && tot + m <= n
            && start / BSIZE + Touched(start, tot) == (start + tot) / BSIZE
            && Touched(start, tot + m) == Touched(start, tot) + 1 <= Touched(start, n)
            && (tot + m < n ==> InStep(start, tot + m))
  {
    var m := StepLength(start + tot, n - tot);
    TouchedStep(start, tot, m);
    TouchedMore(start, tot + m, n);
  }

  lemma TouchedStep(start: nat, tot: nat, m: nat)
    requires (tot > 0 ==> (start + tot) % BSIZE == 0) && 0 < m <= BSIZE - (start + tot) % BSIZE
    ensures Touched(start, tot + m) == Touched(start, tot) + 1
  {
  }

  /** A block that holds bytes below the size is allocated. */
  lemma PartialBlockMapped(blocks: seq<Block>, ino: seq<Inode>, i: nat, off: nat)
    requires i < |ino| && |ino[i].addrs| == NDIRECT + 1 && Sized(blocks, ino, i) && off <= ino[i].size
    requires off % BSIZE != 0
    ensures off / BSIZE < MAXFILE && DataAddr(blocks, ino, i, off / BSIZE) != 0
  {
    hide DataAddr;
  }

  lemma WrittenFacts(b0: seq<Block>, i0: seq<Inode>, b1: seq<Block>, i1: seq<Inode>, i: nat, off: nat, data: seq<byte>)
    requires Written(b0, i0, b1, i1, i, off, data)
    ensures i < |i1| == |i0| && |b1| == |b0| && i1 == i0[i := i0[i].(addrs := i1[i].addrs)]
    ensures off + |data| <= i0[i].size ==> i1 == i0
  {
  }

  /** The file system after writei's last step: only inode i's size changed, and it is on disk. */
  ghost predicate Resized(sb: Superblock, b1: seq<Block>, i1: seq<Inode>, b2: seq<Block>, i2: seq<Inode>, i: nat,
                          end: nat, grew: bool)
  {
    if grew then
      && i < |i1| && end < 0x1_0000_0000 && i2 == i1[i := i1[i].(size := end)]
      && forall j: nat :: j < |i2| ==> IBlock(sb, j) < |b2| && IBlock(sb, j) < |b1| && DiskInode(sb, b2, j) == if j == i then i2[i] else DiskInode(sb, b1, j)
    else b2 == b1 && i2 == i1
  }

  /** What a write does to the files: src is spliced into file i, the other files keep their contents. */
  ghost predicate Wrote(b0: seq<Block>, i0: seq<Inode>, b1: seq<Block>, i1: seq<Inode>, i: nat, off: nat,
                        src: seq<byte>)
  {
    && i < |i0| == |i1| && |i1[i].addrs| == NDIRECT + 1
    && i1 == i0[i := i0[i].(size := i1[i].size, addrs := i1[i].addrs)]
    && Spliced(b0, i0, b1, i1, i, off, src)
    && (forall j: nat :: j < |i1| && j != i ==> SameContent(b0, i0, b1, i1, j))
    && (off + |src| <= i0[i].size ==> i1 == i0)
  }

  /** What it takes: the slots it fills, from unowned blocks, and the blocks it logs. */
  ghost predicate Took(sb: Superblock, s: seq<word>, o: map<nat, Slot>, size: nat, s': seq<word>, i: nat, off: nat,
                       n: nat, touched: set<nat>)
  {
    && |s| == |s'| == SLOTS && off + n <= LIMIT && Filled(s, s', Fills(s, off, n), o)
    && touched == LoggedBy(sb, s, s', off, n) + (if n > 0 && off + n > size then {IBlock(sb, i)} else {})
    && |touched| <= Cost(off, n) && forall c :: c in touched ==> sb.inodestart <= c < sb.size
  }

  ghost predicate TookBy(sb: Superblock, b0: seq<Block>, i0: seq<Inode>, o0: map<nat, Slot>, b1: seq<Block>,
                         i1: seq<Inode>, o1: map<nat, Slot>, i: nat, off: nat, n: nat, touched: set<nat>)
  {
    && i < |i0| == |i1| && |i0[i].addrs| == |i1[i].addrs| == NDIRECT + 1
    && Took(sb, Slots(b0, i0, i), o0, i0[i].size, Slots(b1, i1, i), i, off, n, touched)
    && o0.Keys <= o1.Keys && |o1| == |o0| + |Fills(Slots(b0, i0, i), off, n)|
  }

  lemma TookIs(sb: Superblock, b0: seq<Block>, i0: seq<Inode>, o0: map<nat, Slot>, l0: set<nat>, b1: seq<Block>,
               i1: seq<Inode>, o1: map<nat, Slot>, l1: set<nat>, b2: seq<Block>, i2: seq<Inode>, l2: set<nat>, i: nat,
               off: nat, n: nat, grew: bool) returns (touched: set<nat>)
    requires off + n <= LIMIT && Owned(sb, b1, i1, o1, {}) && i < |i0| && |i0[i].addrs| == NDIRECT + 1
    requires Sized(b0, i0, i) && off <= i0[i].size
    requires RangeDone(sb, b0, i0, o0, l0, b1, i1, o1, l1, i, off / BSIZE, off / BSIZE + Touched(off, n))
    requires |i2| == |i1| && |i2[i].addrs| == NDIRECT + 1 && Slots(b2, i2, i) == Slots(b1, i1, i)
    requires (grew <==> n > 0 && off + n > i0[i].size) && (grew ==> sb.inodestart <= IBlock(sb, i) < sb.size)
    requires l2 == l1 + if grew then {IBlock(sb, i)} else {}
    ensures TookBy(sb, b0, i0, o0, b2, i2, o1, i, off, n, touched) && l2 == l0 + touched
  {
    hide Owned; hide SlotVal; hide Slots; hide Sized; hide Took; hide Touched; hide Ranged; hide Cost; hide Marks;
    hide IBlock;
    OwnedShape(sb, b1, i1, o1);
    RangeEnd(off, n);
    MarksCost(sb, b0, i0, b1, i1, o1, i, off, n, o0, l0, l1);
    touched := TakenIs(sb, Slots(b0, i0, i), o0, l0, Slots(b1, i1, i), o1, l1, l2, i, i0[i].size, off, n, grew);
    RangedOwners(sb, Slots(b0, i0, i), o0, l0, Slots(b1, i1, i), o1, l1, off, n);
  }

  lemma RangedOwners(sb: Superblock, s0: seq<word>, o0: map<nat, Slot>, l0: set<nat>, s: seq<word>, o: map<nat, Slot>,
                     l: set<nat>, off: nat, n: nat)
    requires off + n <= LIMIT && Ranged(sb, s0, o0, l0, s, o, l, off / BSIZE, off / BSIZE + Touched(off, n))
    ensures o0.Keys <= o.Keys && |o| == |o0| + |Fills(s0, off, n)|
  {
  }

  lemma AddOne(l0: set<nat>, m: set<nat>, l1: set<nat>, l2: set<nat>, grew: bool, b: nat, t: set<nat>)
    requires l1 == l0 + m && l2 == l1 + (if grew then {b} else {}) && t == m + if grew then {b} else {}
    ensures l2 == l0 + t && |t| <= |m| + (if grew then 1 else 0)
  {
    UnionSize(m, {b});
    assert grew || t == m;
  }

  lemma OnDiskParts(sb: Superblock, blocks: seq<Block>, ino: seq<Inode>, j: nat)
    requires j < |ino| && OnDisk(sb, blocks, ino, j)
    ensures |ino[j].addrs| == NDIRECT + 1 && Sized(blocks, ino, j)
  {
  }

  lemma TakenIs(sb: Superblock, s0: seq<word>, o0: map<nat, Slot>, l0: set<nat>, s1: seq<word>, o1: map<nat, Slot>,
                l1: set<nat>, l2: set<nat>, i: nat, size: nat, off: nat, n: nat, grew: bool)
    returns (touched: set<nat>)
    requires off + n <= LIMIT && Ranged(sb, s0, o0, l0, s1, o1, l1, off / BSIZE, off / BSIZE + Touched(off, n))
    requires |LoggedBy(sb, s0, s1, off, n)| + (if n > 0 then 1 else 0) <= Cost(off, n)
    requires forall c :: c in LoggedBy(sb, s0, s1, off, n) ==> sb.inodestart <= c < sb.size
    requires (grew <==> n > 0 && off + n > size) && (grew ==> sb.inodestart <= IBlock(sb, i) < sb.size)
    requires l2 == l1 + if grew then {IBlock(sb, i)} else {}
    ensures Took(sb, s0, o0, size, s1, i, off, n, touched) && l2 == l0 + touched
  {
    hide Filled; hide Marks; hide Wanted; hide Cost; hide IBlock; hide Touched;
    RangeEnd(off, n);
    var m := LoggedBy(sb, s0, s1, off, n);
    touched := m + if grew then {IBlock(sb, i)} else {};
    AddOne(l0, m, l1, l2, grew, IBlock(sb, i), touched);
  }

  /** After writei: every inode is on disk, file i has the spliced contents, the others theirs. */
  lemma WriteEnd(sb: Superblock, b0: seq<Block>, i0: seq<Inode>, b1: seq<Block>, i1: seq<Inode>, b2: seq<Block>,
                 i2: seq<Inode>, i: nat, off: nat, data: seq<byte>)
    requires Shape(sb, b0, i0) && (forall j: nat :: j < |i0| ==> OnDisk(sb, b0, i0, j))
    requires Written(b0, i0, b1, i1, i, off, data) && off <= i0[i].size && SameBelow(b0, b1, sb.bmapstart)
    requires Extended(b1, i2, b2, i2)
    requires Resized(sb, b1, i1, b2, i2, i, off + |data|, data != [] && off + |data| > i0[i].size)
    ensures forall j: nat :: j < |i2| ==> OnDisk(sb, b2, i2, j)
    ensures Wrote(b0, i0, b2, i2, i, off, data)
  {
    hide BitSet; hide SlotVal; hide Extended; hide DataAddr; hide ByteAt; hide SameBelow; hide Splice; hide DiskInode;
    hide Content; hide Sized; hide Written;
    WrittenFacts(b0, i0, b1, i1, i, off, data);
    assert OnDisk(sb, b0, i0, i);
    WrittenContent(b0, i0, b1, i1, i2, i, off, data);
    ExtendedContent(b1, i2, b2, i2, i);
    forall j: nat | j < |i2| ensures OnDisk(sb, b2, i2, j) && (j != i ==> SameContent(b0, i0, b2, i2, j)) {
      assert OnDisk(sb, b0, i0, j);
      InodeBlocksBelow(sb, b0, b1, j);
      if j != i {
        WrittenOthers(b0, i0, b1, i1, i2, i, off, data, j);
        ExtendedContent(b1, i2, b2, i2, j);
      }
    }
    assert i2 == i0[i := i0[i].(size := i2[i].size, addrs := i2[i].addrs)];
  }

  // ----- reading -----

  ghost predicate Stretch(blocks: seq<Block>, ino: seq<Inode>, i: nat, off: nat, n: nat, dst: seq<byte>)
    requires i < |ino|
  {
    && |ino[i].addrs| == NDIRECT + 1 && off <= ino[i].size <= LIMIT
    && dst == Content(blocks, ino, i)[off..if off + n > ino[i].size then ino[i].size else off + n]
  }

  lemma StretchIs(sb: Superblock, blocks: seq<Block>, ino: seq<Inode>, i: nat, off: nat, n: nat, dst: seq<byte>)
    requires i < |ino| && OnDisk(sb, blocks, ino, i) && off <= ino[i].size
    requires |dst| == if off + n > ino[i].size then ino[i].size - off else n
    requires forall p :: 0 <= p < |dst| ==> dst[p] == ByteAt(blocks, ino, i, off + p)
    ensures Stretch(blocks, ino, i, off, n, dst)
  {
    hide ByteAt; hide DiskInode; hide DataAddr;
    var c := Content(blocks, ino, i);
    assert dst == c[off..off + |dst|];
  }

  lemma SizedLimit(sb: Superblock, blocks: seq<Block>, ino: seq<Inode>, i: nat)
    requires i < |ino| && OnDisk(sb, blocks, ino, i)
    ensures ino[i].size <= LIMIT
  {
  }

  /** A position below the size needs no allocation. */
  lemma ReadMapped(sb: Superblock, blocks: seq<Block>, ino: seq<Inode>, i: nat, off: nat)
    requires i < |ino| && OnDisk(sb, blocks, ino, i) && off < ino[i].size
    ensures off / BSIZE < MAXFILE && DataAddr(blocks, ino, i, off / BSIZE) != 0
  {
    hide DataAddr; hide DiskInode;
  }

  lemma ReadBlock(sb: Superblock, blocks: seq<Block>, ino: seq<Inode>, owner: map<nat, Slot>, i: nat, off: nat,
                  m: nat, a: nat)
    requires Owned(sb, blocks, ino, owner, {}) && i < |ino| && 0 < m <= BSIZE - off % BSIZE && off + m <= LIMIT
    requires off / BSIZE < MAXFILE && a == DataAddr(blocks, ino, i, off / BSIZE) && a != 0
    ensures a < |blocks|
    ensures forall p :: off <= p < off + m ==> blocks[a][off % BSIZE..off % BSIZE + m][p - off] == ByteAt(blocks, ino, i, p)
  {
    hide BitSet; hide SlotVal; hide DataAddr; hide Owned;
    OwnedShape(sb, blocks, ino, owner);
    DataAddrOwned(sb, blocks, ino, owner, i, off / BSIZE);
    forall p | off <= p < off + m
      ensures blocks[a][off % BSIZE..off % BSIZE + m][p - off] == ByteAt(blocks, ino, i, p)
    {
      SameBlock(off, m, p);
    }
  }
}
