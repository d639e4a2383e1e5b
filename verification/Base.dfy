/** What several components share: 32-bit words, the limits of param.h, and sequences without repetition. */
module Base {
  type word = x: int | 0 <= x < 0x1_0000_0000

  const WRAP: nat := 0x1_0000_0000
  const MAXOPBLOCKS: nat := 10
  const LOGSIZE: nat := 30         // MAXOPBLOCKS * 3
  const NBUF: nat := 30            // MAXOPBLOCKS * 3

  predicate Distinct<T(==)>(s: seq<T>) {
    forall i, j :: 0 <= i < j < |s| ==> s[i] != s[j]
  }
}
