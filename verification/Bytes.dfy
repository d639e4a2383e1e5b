/**
 Disk blocks as byte sequences, with the two views the file system takes of a
 block: an array of little-endian 32-bit words (log header, indirect block,
 on-disk inode) and an array of bits (free map).
 */
module Bytes {
  import opened Base

  const BSIZE: nat := 512
  const WORDS: nat := 128      // BSIZE / sizeof(uint)
  const BPB: nat := 4096       // bits per block

  type byte = x: int | 0 <= x < 256

  type Block = b: seq<byte> | |b| == 512 witness seq(512, i => 0)

  function Zeros(n: nat): (r: seq<byte>)
    ensures |r| == n && forall i :: 0 <= i < n ==> r[i] == 0
  {
    seq(n, i => 0)
  }

  const ZeroBlock: Block := Zeros(512)

  /** The i-th 32-bit word of a block. */
  function GetWord(b: Block, i: nat): word
    requires i < WORDS
  {
    b[4 * i] as int + 0x100 * (b[4 * i + 1] as int) + 0x1_0000 * (b[4 * i + 2] as int) + 0x100_0000 * (b[4 * i + 3] as int)
  }

  /** Stores a word; it can be read back, and no other word changes. */
  function SetWord(b: Block, i: nat, w: word): (r: Block)
    requires i < WORDS
    ensures GetWord(r, i) == w
    ensures forall j: nat :: j < WORDS && j != i ==> GetWord(r, j) == GetWord(b, j)
    ensures forall j: nat :: j < BSIZE && j / 4 != i ==> r[j] == b[j]
  {
    var q1: nat := w / 0x100;
    var q2 := q1 / 0x100;
    var q3 := q2 / 0x100;
    var r := b[4 * i := w % 0x100][4 * i + 1 := q1 % 0x100][4 * i + 2 := q2 % 0x100][4 * i + 3 := q3];
    assert forall j: nat :: j < BSIZE && j / 4 != i ==> r[j] == b[j];
    r
  }

  lemma ZeroWords()
    ensures forall j: nat :: j < WORDS ==> GetWord(ZeroBlock, j) == 0
  {
  }

  /** 1 << k. */
  function Mask(k: nat): nat {
    if k == 0 then 1 else 2 * Mask(k - 1)
  }

  /** (x & (1 << k)) != 0 */
  predicate HasBit(x: nat, k: nat) {
    if k == 0 then x % 2 == 1 else HasBit(x / 2, k - 1)
  }

  /** Adding a clear bit's mask, or removing a set bit's, changes that bit and no other. */
  lemma {:induction false} FlipBit(x: nat, k: nat, j: nat)
    ensures !HasBit(x, k) ==> HasBit(x + Mask(k), j) == (j == k || HasBit(x, j))
    ensures HasBit(x, k) ==> Mask(k) <= x && HasBit(x - Mask(k), j) == (j != k && HasBit(x, j))
  {
    if k > 0 {
      assert (x + Mask(k)) / 2 == x / 2 + Mask(k - 1);
      FlipBit(x / 2, k - 1, if j == 0 then 0 else j - 1);
      if HasBit(x, k) {
        assert (x - Mask(k)) / 2 == x / 2 - Mask(k - 1);
      }
    } else if j > 0 {
      assert !HasBit(x, 0) ==> (x + 1) / 2 == x / 2;
      assert HasBit(x, 0) ==> (x - 1) / 2 == x / 2;
    }
  }

  /** A bit that is clear can be added without leaving its width. */
  lemma {:induction false} FlipFits(x: nat, k: nat, w: nat)
    requires k < w && x < Mask(w) && !HasBit(x, k)
    ensures x + Mask(k) < Mask(w)
  {
    if k > 0 { FlipFits(x / 2, k - 1, w - 1); }
  }

  /** Bit k of a free-map block. */
  predicate GetBit(b: Block, k: nat)
    requires k < BPB
  {
    HasBit(b[k / 8], k % 8)
  }

  /** x with bit k set or cleared. */
  function WithBit(x: byte, k: nat, on: bool): byte
    requires k < 8
  {
    if HasBit(x, k) == on then x
    else if on then assert Mask(8) == 256; FlipFits(x, k, 8); x as int + Mask(k)
    else FlipBit(x, k, k); x as int - Mask(k)
  }

  function SetBit(b: Block, k: nat, on: bool): Block
    requires k < BPB
  {
    b[k / 8 := WithBit(b[k / 8], k % 8, on)]
  }

  /** Setting or clearing one bit of a free-map block changes that bit and no other. */
  lemma SetBitBits(b: Block, k: nat, on: bool, j: nat)
    requires k < BPB && j < BPB
    ensures GetBit(SetBit(b, k, on), j) == if j == k then on else GetBit(b, j)
  {
    FlipBit(b[k / 8], k % 8, j % 8);
  }

  /** The number the n bytes from at on stand for, lowest byte first. */
  function LittleEndian(b: Block, at: nat, n: nat): nat
    requires at + n <= BSIZE
    decreases n
  {
    if n == 0 then 0 else b[at] as int + 0x100 * LittleEndian(b, at + 1, n - 1)
  }

  /** Word i of a block is stored in four bytes, lowest first. */
  lemma WordBytes(b: Block, i: nat)
    requires i < WORDS
    ensures GetWord(b, i) == LittleEndian(b, 4 * i, 4)
  {
    assert LittleEndian(b, 4 * i + 3, 1) == b[4 * i + 3] as int;
    assert LittleEndian(b, 4 * i + 2, 2) == b[4 * i + 2] as int + 0x100 * (b[4 * i + 3] as int);
  }

  /** Two half words make a word. */
  lemma Halves(b: Block, at: nat, lo: nat, hi: nat)
    requires at + 4 <= BSIZE && lo < 0x1_0000 && LittleEndian(b, at, 4) == lo + 0x1_0000 * hi
    ensures LittleEndian(b, at, 2) == lo && LittleEndian(b, at + 2, 2) == hi
  {
    assert LittleEndian(b, at, 4) == b[at] as int + 0x100 * LittleEndian(b, at + 1, 3);
    assert LittleEndian(b, at + 1, 3) == b[at + 1] as int + 0x100 * LittleEndian(b, at + 2, 2);
    assert LittleEndian(b, at, 2) == b[at] as int + 0x100 * LittleEndian(b, at + 1, 1);
    assert LittleEndian(b, at + 1, 1) == b[at + 1] as int;
  }

  function Digit(x: nat, k: nat): nat {
    if HasBit(x, k) then 1 else 0
  }

  lemma DigitShift(x: nat, k: nat)
    requires k > 0
    ensures Digit(x, k) == Digit(x / 2, k - 1)
  {
  }

  /** A number below 16 by its bits, and a byte by its two halves: bit k is worth 1 << k. */
  lemma FourBits(x: nat)
    requires x < 16
    ensures x == Digit(x, 0) + 2 * Digit(x, 1) + 4 * Digit(x, 2) + 8 * Digit(x, 3)
  {
    hide HasBit;
    DigitShift(x, 1);
    DigitShift(x, 2);
    DigitShift(x, 3);
    DigitShift(x / 2, 1);
    DigitShift(x / 2, 2);
    DigitShift(x / 2 / 2, 1);
    FirstDigit(x);
    FirstDigit(x / 2);
    FirstDigit(x / 2 / 2);
    FirstDigit(x / 2 / 2 / 2);
  }

  lemma FirstDigit(x: nat)
    ensures Digit(x, 0) == x % 2
  {
  }

  lemma EightBits(x: byte)
    ensures x == Digit(x, 0) + 2 * Digit(x, 1) + 4 * Digit(x, 2) + 8 * Digit(x, 3)
               + 16 * Digit(x, 4) + 32 * Digit(x, 5) + 64 * Digit(x, 6) + 128 * Digit(x, 7)
  {
    hide Digit;
    var a, b, c, d := x / 2, x / 2 / 2, x / 2 / 2 / 2, x / 2 / 2 / 2 / 2;
    FourBits(d);
    FirstDigit(x);
    FirstDigit(a);
    FirstDigit(b);
    FirstDigit(c);
    ShiftFour(x, 4);
    ShiftFour(x, 5);
    ShiftFour(x, 6);
    ShiftFour(x, 7);
    DigitShift(x, 1);
    DigitShift(x, 2);
    DigitShift(a, 1);
    DigitShift(x, 3);
    DigitShift(a, 2);
    DigitShift(b, 1);
  }

  lemma ShiftFour(x: nat, k: nat)
    requires k >= 4
    ensures Digit(x, k) == Digit(x / 2 / 2 / 2 / 2, k - 4)
  {
    hide Digit;
    DigitShift(x, k);
    DigitShift(x / 2, k - 1);
    DigitShift(x / 2 / 2, k - 2);
    DigitShift(x / 2 / 2 / 2, k - 3);
  }

  /** Below k bits set, none above. */
  lemma {:induction false} LowBits(k: nat, j: nat)
    ensures 0 <= Mask(k) - 1 && (HasBit(Mask(k) - 1, j) <==> j < k)
    decreases k
  {
    if k > 0 {
      LowBits(k - 1, j);
      LowClear(k - 1, k - 1);
      FlipBit(Mask(k - 1) - 1, k - 1, j);
    } else {
      NoBits(j);
    }
  }

  lemma {:induction false} NoBits(j: nat)
    ensures !HasBit(0, j)
  {
    if j > 0 { NoBits(j - 1); }
  }

  lemma {:induction false} LowClear(k: nat, j: nat)
    requires k <= j
    ensures Mask(k) >= 1 && !HasBit(Mask(k) - 1, j)
    decreases k
  {
    if k == 0 {
      NoBits(j);
    } else {
      LowClear(k - 1, j - 1);
      assert (Mask(k) - 1) / 2 == Mask(k - 1) - 1;
    }
  }

  /** A free-map block with the first n bits set, byte by byte: full bytes, then one that is partly full, then zeros. */
  ghost predicate FirstBits(b: Block, n: nat) {
    forall p :: 0 <= p < BSIZE ==> b[p] == if p < n / 8 then 255 else if p == n / 8 then Mask(n % 8) - 1 else 0
  }

  lemma FirstBitsAre(b: Block, n: nat, k: nat)
    requires FirstBits(b, n) && k < BPB
    ensures GetBit(b, k) <==> k < n
  {
    hide HasBit; hide Mask;
    var p := k / 8;
    if p < n / 8 {
      LowBits(8, k % 8);
      MaskEight();
    } else if p == n / 8 {
      LowBits(n % 8, k % 8);
    } else {
      NoBits(k % 8);
    }
  }

  lemma MaskEight()
    ensures Mask(8) == 256
  {
  }
}
