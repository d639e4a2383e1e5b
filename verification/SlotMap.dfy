/**
 A file's block map as one sequence of slots, and what writing a range of its
 blocks does to it: which empty slots are filled, which blocks are logged for
 that, and how many free blocks it takes.
 */
module SlotMap {
  import opened Base
  import opened Bytes
  import opened FsLayout

  /** Slots 0..11 of file i are its direct blocks, 12 its indirect block, 13.. the entries of that. */
  ghost function Slots(blocks: seq<Block>, ino: seq<Inode>, i: nat): (r: seq<word>)
    requires i < |ino| && |ino[i].addrs| == NDIRECT + 1
    ensures |r| == SLOTS && forall k :: 0 <= k < SLOTS ==> r[k] == SlotVal(blocks, ino, i, k)
  {
    seq<word>(SLOTS, k requires 0 <= k < SLOTS => SlotVal(blocks, ino, i, k))
  }

  /** The entries of a missing indirect block are empty. */
  ghost predicate Proper(s: seq<word>) {
    |s| == SLOTS && (s[NDIRECT] == 0 ==> forall k :: NDIRECT < k < SLOTS ==> s[k] == 0)
  }

  lemma SlotsProper(blocks: seq<Block>, ino: seq<Inode>, i: nat)
    requires i < |ino| && |ino[i].addrs| == NDIRECT + 1
    ensures Proper(Slots(blocks, ino, i)) && Slots(blocks, ino, i)[NDIRECT] == ino[i].addrs[NDIRECT]
    ensures forall bn: nat :: bn < MAXFILE ==> Slots(blocks, ino, i)[DataSlot(bn)] == DataAddr(blocks, ino, i, bn)
  {
    hide GetWord;
  }

  lemma SlotsFilled(sb: Superblock, blocks: seq<Block>, ino: seq<Inode>, blocks': seq<Block>, ino': seq<Inode>, i: nat,
                    k: nat, b: word)
    requires SlotFilled(sb, blocks, ino, blocks', ino', i, k, b) && i < |ino| && k < SLOTS
    ensures Slots(blocks', ino', i) == Slots(blocks, ino, i)[k := b]
  {
    hide SlotVal; hide BitSet;
  }

  /** The slots bmap fills to map file block bn. */
  function Want(s: seq<word>, bn: nat): set<nat>
    requires |s| == SLOTS && bn < MAXFILE
  {
    if s[DataSlot(bn)] != 0 then {}
    else if bn >= NDIRECT && s[NDIRECT] == 0 then {DataSlot(bn), NDIRECT}
    else {DataSlot(bn)}
  }

  /** Exactly the slots of w, all empty before, now name blocks that had no owner. */
  ghost predicate Filled(s: seq<word>, s': seq<word>, w: set<nat>, owner: map<nat, Slot>) {
    && |s'| == |s| == SLOTS && (forall k :: k in w ==> k < SLOTS)
    && forall k :: 0 <= k < SLOTS ==> if k in w then s[k] == 0 && s'[k] != 0 && s'[k] !in owner else s'[k] == s[k]
  }

  /** The blocks bmap and writei log for file block bn. */
  function StepMarks(sb: Superblock, s: seq<word>, s': seq<word>, bn: nat): set<nat>
    requires |s| == |s'| == SLOTS && bn < MAXFILE
  {
    {s'[DataSlot(bn)] as nat}
    + (if s[DataSlot(bn)] != 0 then {} else {BBlock(sb, s'[DataSlot(bn)])})
    + (if s[DataSlot(bn)] != 0 || bn < NDIRECT then {} else {s'[NDIRECT] as nat})
    + (if s[DataSlot(bn)] != 0 || bn < NDIRECT || s[NDIRECT] != 0 then {} else {BBlock(sb, s'[NDIRECT])})
  }

  // ----- a range of file blocks -----

  /** The slots filled by writing file blocks lo .. hi - 1. */
  function Wanted(s: seq<word>, lo: nat, hi: nat): set<nat>
    requires |s| == SLOTS && lo <= hi <= MAXFILE
  {
    if hi == lo then {} else Wanted(s, lo, hi - 1) + Want(s, hi - 1)
  }

  /** The blocks logged by writing them: data, free map, indirect block. */
  function Marks(sb: Superblock, s: seq<word>, s': seq<word>, lo: nat, hi: nat): set<nat>
    requires |s| == |s'| == SLOTS && lo <= hi <= MAXFILE
  {
    if hi == lo then {} else Marks(sb, s, s', lo, hi - 1) + StepMarks(sb, s, s', hi - 1)
  }

  lemma {:induction false} WantedIn(s: seq<word>, lo: nat, hi: nat, k: nat)
    requires Proper(s) && lo <= hi <= MAXFILE && k < SLOTS
    ensures k in Wanted(s, lo, hi) <==>
            s[k] == 0 && if k == NDIRECT then lo < hi && NDIRECT < hi else DataSlot(lo) <= k < DataSlot(hi)
  {
    if lo < hi { WantedIn(s, lo, hi - 1, k); }
  }

  lemma {:induction false} WantedSlots(s: seq<word>, lo: nat, hi: nat)
    requires |s| == SLOTS && lo <= hi <= MAXFILE
    ensures forall k :: k in Wanted(s, lo, hi) ==> k < SLOTS
  {
    if lo < hi { WantedSlots(s, lo, hi - 1); }
  }

  lemma WantedAt(s0: seq<word>, s: seq<word>, lo: nat, bn: nat, owner0: map<nat, Slot>, k: nat)
    requires Proper(s0) && lo <= bn < MAXFILE && k < SLOTS && Filled(s0, s, Wanted(s0, lo, bn), owner0)
    ensures k in Wanted(s0, lo, bn + 1) <==> k in Wanted(s0, lo, bn) || k in Want(s, bn)
    ensures k in Wanted(s0, lo, bn) ==> k !in Want(s, bn)
  {
    hide Wanted;
    WantedIn(s0, lo, bn, k);
    WantedIn(s0, lo, bn + 1, k);
    WantedIn(s0, lo, bn, NDIRECT);
    WantedIn(s0, lo, bn, DataSlot(bn));
  }

  /** The slots wanted for block bn now are the new ones among those wanted from the start. */
  lemma WantedCount(s0: seq<word>, s: seq<word>, lo: nat, bn: nat, owner0: map<nat, Slot>)
    requires Proper(s0) && lo <= bn < MAXFILE && Filled(s0, s, Wanted(s0, lo, bn), owner0)
    ensures Wanted(s0, lo, bn + 1) == Wanted(s0, lo, bn) + Want(s, bn) && Wanted(s0, lo, bn) !! Want(s, bn)
    ensures |Wanted(s0, lo, bn + 1)| == |Wanted(s0, lo, bn)| + |Want(s, bn)|
  {
    hide Wanted;
    var w, w', v := Wanted(s0, lo, bn), Wanted(s0, lo, bn + 1), Want(s, bn);
    forall k: nat | k < SLOTS ensures (k in w' <==> k in w || k in v) && (k in w ==> k !in v) {
      WantedAt(s0, s, lo, bn, owner0, k);
    }
    WantedSlots(s0, lo, bn + 1);
    assert w' == w + v;
    assert w !! v;
    assert |w + v| == |w| + |v|;
  }

  /** One more block: the slots wanted now are the new ones among those wanted from the start. */
  lemma WantedStep(s0: seq<word>, s: seq<word>, s': seq<word>, lo: nat, bn: nat, owner0: map<nat, Slot>,
                   owner: map<nat, Slot>)
    requires Proper(s0) && lo <= bn < MAXFILE
    requires Filled(s0, s, Wanted(s0, lo, bn), owner0) && Filled(s, s', Want(s, bn), owner)
    requires owner0.Keys <= owner.Keys
    ensures Filled(s0, s', Wanted(s0, lo, bn + 1), owner0)
    ensures |Wanted(s0, lo, bn + 1)| == |Wanted(s0, lo, bn)| + |Want(s, bn)|
  {
    hide Wanted;
    WantedCount(s0, s, lo, bn, owner0);
  }

  /** Two ranges that meet or share a block: what the second still wants after the first, and what the first wanted. */
  lemma WantedSplit(s0: seq<word>, s1: seq<word>, lo: nat, hi: nat, lo': nat, hi': nat, owner0: map<nat, Slot>)
    requires Proper(s0) && Proper(s1) && lo <= lo' <= hi <= hi' <= MAXFILE && lo' < hi'
    requires Filled(s0, s1, Wanted(s0, lo, hi), owner0)
    ensures Wanted(s0, lo, hi') == Wanted(s0, lo, hi) + Wanted(s1, lo', hi')
    ensures |Wanted(s0, lo, hi')| == |Wanted(s0, lo, hi)| + |Wanted(s1, lo', hi')|
  {
    hide Wanted;
    var w, w1, w' := Wanted(s0, lo, hi), Wanted(s1, lo', hi'), Wanted(s0, lo, hi');
    forall k: nat | k < SLOTS ensures (k in w' <==> k in w || k in w1) && (k in w ==> k !in w1) {
      WantedIn(s0, lo, hi, k);
      WantedIn(s1, lo', hi', k);
      WantedIn(s0, lo, hi', k);
    }
    WantedSlots(s0, lo, hi);
    WantedSlots(s1, lo', hi');
    WantedSlots(s0, lo, hi');
    assert w' == w + w1;
    assert w !! w1;
    assert |w + w1| == |w| + |w1|;
  }

  lemma FilledTwice(s0: seq<word>, s1: seq<word>, s2: seq<word>, w: set<nat>, v: set<nat>, owner0: map<nat, Slot>,
                    owner1: map<nat, Slot>)
    requires Filled(s0, s1, w, owner0) && Filled(s1, s2, v, owner1) && owner0.Keys <= owner1.Keys
    ensures Filled(s0, s2, w + v, owner0)
  {
  }

  /** File blocks lo .. hi - 1 are mapped. */
  ghost predicate AllMapped(s: seq<word>, lo: nat, hi: nat)
    requires |s| == SLOTS && hi <= MAXFILE
  {
    forall bn: nat :: lo <= bn < hi ==> s[DataSlot(bn)] != 0
  }

  lemma FilledMapped(s0: seq<word>, s: seq<word>, lo: nat, hi: nat, owner0: map<nat, Slot>)
    requires Proper(s0) && lo <= hi <= MAXFILE && Filled(s0, s, Wanted(s0, lo, hi), owner0)
    ensures AllMapped(s, lo, hi)
  {
    hide Wanted;
    forall bn: nat | lo <= bn < hi ensures s[DataSlot(bn)] != 0 {
      WantedIn(s0, lo, hi, DataSlot(bn));
    }
  }

  /** Filling further slots does not change what was logged for the blocks mapped already. */
  lemma {:induction false} MarksSame(sb: Superblock, s0: seq<word>, s: seq<word>, s': seq<word>, lo: nat, hi: nat)
    requires |s0| == |s'| == SLOTS && Proper(s) && lo <= hi <= MAXFILE && AllMapped(s, lo, hi)
    requires forall k :: 0 <= k < SLOTS && s[k] != 0 ==> s'[k] == s[k]
    ensures Marks(sb, s0, s', lo, hi) == Marks(sb, s0, s, lo, hi)
  {
    if lo < hi {
      MarksSame(sb, s0, s, s', lo, hi - 1);
      assert s[DataSlot(hi - 1)] != 0;
    }
  }

  /** Once writing has made the indirect block, that block's free-map block is among those logged. */
  lemma IndirectMarked(sb: Superblock, s0: seq<word>, s: seq<word>, lo: nat, hi: nat, owner0: map<nat, Slot>)
    requires Proper(s0) && lo <= hi <= MAXFILE && Filled(s0, s, Wanted(s0, lo, hi), owner0)
    requires s0[NDIRECT] == 0 && s[NDIRECT] != 0
    ensures BBlock(sb, s[NDIRECT]) in Marks(sb, s0, s, lo, hi)
  {
    hide Wanted; hide BBlock;
    WantedIn(s0, lo, hi, NDIRECT);
    assert s0[DataSlot(hi - 1)] == 0;
    assert BBlock(sb, s[NDIRECT]) in StepMarks(sb, s0, s, hi - 1);
  }

  /** One more block: what was logged so far and what is logged for it are what is logged from the start. */
  lemma MarksStep(sb: Superblock, s0: seq<word>, s: seq<word>, s': seq<word>, lo: nat, bn: nat,
                  owner0: map<nat, Slot>, owner: map<nat, Slot>)
    requires Proper(s0) && Proper(s) && lo <= bn < MAXFILE
    requires Filled(s0, s, Wanted(s0, lo, bn), owner0) && Filled(s, s', Want(s, bn), owner)
    ensures Marks(sb, s0, s', lo, bn + 1) == Marks(sb, s0, s, lo, bn) + StepMarks(sb, s, s', bn)
  {
    hide Wanted; hide BBlock; hide Marks;
    FilledMapped(s0, s, lo, bn, owner0);
    MarksSame(sb, s0, s, s', lo, bn);
    MarksUnfold(sb, s0, s', lo, bn);
    WantedIn(s0, lo, bn, DataSlot(bn));
    WantedIn(s0, lo, bn, NDIRECT);
    if s0[NDIRECT] == 0 && s[NDIRECT] != 0 { IndirectMarked(sb, s0, s, lo, bn, owner0); }
  }

  lemma MarksUnfold(sb: Superblock, s: seq<word>, s': seq<word>, lo: nat, bn: nat)
    requires |s| == |s'| == SLOTS && lo <= bn < MAXFILE
    ensures Marks(sb, s, s', lo, bn + 1) == Marks(sb, s, s', lo, bn) + StepMarks(sb, s, s', bn)
  {
  }

  // ----- how many blocks are logged -----

  lemma UnionSize(a: set<nat>, b: set<nat>)
    ensures |a + b| <= |a| + |b|
  {
    assert a + b == a + (b - a);
  }

  /** What is logged apart from the indirect block and its free-map block. */
  function DataMarks(sb: Superblock, s: seq<word>, s': seq<word>, lo: nat, hi: nat): set<nat>
    requires |s| == |s'| == SLOTS && lo <= hi <= MAXFILE
  {
    if hi == lo then {}
    else
      var k := DataSlot(hi - 1);
      DataMarks(sb, s, s', lo, hi - 1) + if s[k] != 0 then {s'[k] as nat} else {s'[k] as nat, BBlock(sb, s'[k])}
  }

  lemma {:induction false} DataMarksSize(sb: Superblock, s: seq<word>, s': seq<word>, lo: nat, hi: nat)
    requires |s| == |s'| == SLOTS && lo <= hi <= MAXFILE
    ensures |DataMarks(sb, s, s', lo, hi)| <= 2 * (hi - lo) - if lo < hi && s[DataSlot(lo)] != 0 then 1 else 0
  {
    hide BBlock;
    if lo < hi {
      DataMarksSize(sb, s, s', lo, hi - 1);
      var k := DataSlot(hi - 1);
      UnionSize(DataMarks(sb, s, s', lo, hi - 1), if s[k] != 0 then {s'[k] as nat} else {s'[k] as nat, BBlock(sb, s'[k])});
      UnionSize({s'[k] as nat}, {BBlock(sb, s'[k])});
      assert {s'[k] as nat} + {BBlock(sb, s'[k])} == {s'[k] as nat, BBlock(sb, s'[k])};
    }
  }

  lemma {:induction false} MarksSplit(sb: Superblock, s: seq<word>, s': seq<word>, lo: nat, hi: nat)
    requires |s| == |s'| == SLOTS && lo <= hi <= MAXFILE
    ensures Marks(sb, s, s', lo, hi) <= DataMarks(sb, s, s', lo, hi) + {s'[NDIRECT] as nat} + {BBlock(sb, s'[NDIRECT])}
  {
    hide BBlock;
    if lo < hi { MarksSplit(sb, s, s', lo, hi - 1); }
  }

  lemma MarksSize(sb: Superblock, s: seq<word>, s': seq<word>, lo: nat, hi: nat)
    requires |s| == |s'| == SLOTS && lo <= hi <= MAXFILE
    ensures |Marks(sb, s, s', lo, hi)| <= 2 * (hi - lo) + 2 - if lo < hi && s[DataSlot(lo)] != 0 then 1 else 0
  {
    hide Marks; hide DataMarks; hide BBlock;
    var d, i, m := DataMarks(sb, s, s', lo, hi), {s'[NDIRECT] as nat}, {BBlock(sb, s'[NDIRECT])};
    MarksSplit(sb, s, s', lo, hi);
    DataMarksSize(sb, s, s', lo, hi);
    UnionSize(d, i);
    UnionSize(d + i, m);
    var x := Marks(sb, s, s', lo, hi);
    assert d + i + m == x + (d + i + m - x);
  }

  /** Everything logged lies in the free map or among the data blocks. */
  lemma {:induction false} MarksRange(sb: Superblock, s: seq<word>, s': seq<word>, lo: nat, hi: nat)
    requires GoodLayout(sb) && |s| == SLOTS && Proper(s') && lo <= hi <= MAXFILE && AllMapped(s', lo, hi)
    requires forall k :: 0 <= k < SLOTS && s'[k] != 0 ==> DataStart(sb) <= s'[k] < sb.size
    ensures forall c :: c in Marks(sb, s, s', lo, hi) ==> sb.bmapstart <= c < sb.size
  {
    if lo < hi {
      hide BBlock;
      MarksRange(sb, s, s', lo, hi - 1);
      assert s'[DataSlot(hi - 1)] != 0;
      MapBlock(sb, s'[DataSlot(hi - 1)]);
      if s'[NDIRECT] != 0 { MapBlock(sb, s'[NDIRECT]); }
    }
  }

  lemma MapBlock(sb: Superblock, b: nat)
    requires GoodLayout(sb) && DataStart(sb) <= b < sb.size
    ensures sb.bmapstart <= BBlock(sb, b) < DataStart(sb)
  {
    MetaBlocks(sb, b);
  }

  // ----- how many blocks are free -----

  ghost predicate Clear(sb: Superblock, blocks: seq<Block>, c: nat) {
    BBlock(sb, c) < |blocks| && !BitSet(sb, blocks, c)
  }

  /** The blocks below n with a clear bit. */
  ghost function FreeBlocks(sb: Superblock, blocks: seq<Block>, n: nat): (r: set<nat>)
    ensures forall c: nat :: c in r <==> c < n && Clear(sb, blocks, c)
  {
    if n == 0 then {} else FreeBlocks(sb, blocks, n - 1) + if Clear(sb, blocks, n - 1) then {n - 1} else {}
  }

  function Span(lo: nat, n: nat): (r: set<nat>)
    ensures forall c :: c in r <==> lo <= c < lo + n
  {
    if n == 0 then {} else Span(lo, n - 1) + {lo + n - 1}
  }

  lemma {:induction false} SpanSize(lo: nat, n: nat)
    ensures |Span(lo, n)| == n
  {
    if n > 0 { SpanSize(lo, n - 1); }
  }

  lemma ClearIff(sb: Superblock, blocks: seq<Block>, ino: seq<Inode>, owner: map<nat, Slot>, dead: set<Slot>, c: nat)
    requires Owned(sb, blocks, ino, owner, dead)
    ensures 0 <= DataStart(sb) && (c in owner ==> DataStart(sb) <= c < sb.size)
    ensures c < sb.size && Clear(sb, blocks, c) <==> DataStart(sb) <= c < sb.size && c !in owner
  {
    hide SlotVal; hide BitSet;
    if c < sb.size { MetaBlocks(sb, c); }
  }

  /** Every data block is owned or free, and not both. */
  lemma FreeCount(sb: Superblock, blocks: seq<Block>, ino: seq<Inode>, owner: map<nat, Slot>, dead: set<Slot>)
    requires Owned(sb, blocks, ino, owner, dead)
    ensures |FreeBlocks(sb, blocks, sb.size)| + |owner| == sb.nblocks
  {
    hide Owned; hide Clear; hide FreeBlocks; hide Span;
    ClearIff(sb, blocks, ino, owner, dead, 0);
    var free, data := FreeBlocks(sb, blocks, sb.size), Span(DataStart(sb), sb.nblocks);
    forall c: nat ensures c in free <==> c in data && c !in owner { ClearIff(sb, blocks, ino, owner, dead, c); }
    forall c: nat | c in owner ensures c in data { ClearIff(sb, blocks, ino, owner, dead, c); }
    assert free + owner.Keys == data;
    assert free !! owner.Keys;
    SpanSize(DataStart(sb), sb.nblocks);
    assert |free + owner.Keys| == |free| + |owner.Keys|;
  }
}
