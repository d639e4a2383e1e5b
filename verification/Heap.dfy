/**
 umalloc.c: the Kernighan and Ritchie allocator. Addresses count header-sized
 units (8 bytes); ptr and size are the header fields in memory, by address.
 */
module Heap {
  import opened Base

  const UNIT: nat := 8          // sizeof(Header)

  // ----- who owns which unit -----

  /** Unit u lies in block b. */
  predicate In(size: map<int, int>, b: int, u: int) {
    b in size && b <= u < b + size[b]
  }

  /** own maps every unit of core to the one block it lies in; heads are the blocks. */
  ghost predicate Partition(size: map<int, int>, heads: set<int>, own: map<int, int>) {
    && (forall b :: b in heads ==> b in size && size[b] > 0)
    && (forall u :: u in own ==> own[u] in heads && In(size, own[u], u))
    && (forall b, u {:trigger In(size, b, u)} :: b in heads && In(size, b, u) ==> u in own && own[u] == b)
  }

  function Reassign(own: map<int, int>, from: int, to: int): (r: map<int, int>)
    ensures r.Keys == own.Keys && forall u :: u in own ==> r[u] == if own[u] == from then to else own[u]
  {
    map u | u in own :: if own[u] == from then to else own[u]
  }

  /** The units from q on handed to q. */
  function Carve(own: map<int, int>, p: int, q: int): (r: map<int, int>)
    ensures r.Keys == own.Keys && forall u :: u in own ==> r[u] == if own[u] == p && u >= q then q else own[u]
  {
    map u | u in own :: if own[u] == p && u >= q then q else own[u]
  }

  /** own' is own with the n units from at on added, as one block. */
  ghost predicate Extends(own: map<int, int>, at: int, n: nat, own': map<int, int>) {
    && (forall u :: u in own' <==> u in own || at <= u < at + n)
    && (forall u :: u in own' ==> own'[u] == if at <= u < at + n then at else own[u])
  }

  lemma Extend(own: map<int, int>, at: int, n: nat) returns (own': map<int, int>)
    ensures Extends(own, at, n, own')
  {
    own' := own;
    for i := 0 to n
      invariant Extends(own, at, i, own')
    {
      own' := own'[at + i := at];
    }
  }

  /** Two adjoining blocks become one. */
  lemma Join(size: map<int, int>, heads: set<int>, own: map<int, int>, lo: int, hi: int)
    requires Partition(size, heads, own) && lo in heads && hi in heads && lo + size[lo] == hi
    ensures Partition(size[lo := size[lo] + size[hi]], heads - {hi}, Reassign(own, hi, lo))
  {
    var size', own' := size[lo := size[lo] + size[hi]], Reassign(own, hi, lo);
    forall b, u | b in heads - {hi} && In(size', b, u) ensures u in own' && own'[u] == b {
      assert In(size, b, u) || In(size, hi, u);
    }
  }

  /** The last n units of p become a block of their own. */
  lemma Split(size: map<int, int>, heads: set<int>, own: map<int, int>, p: int, n: int)
    requires Partition(size, heads, own) && p in heads && 0 < n < size[p]
    ensures var q := p + size[p] - n; q !in heads && Partition(size[p := size[p] - n][q := n], heads + {q}, Carve(own, p, q))
  {
    var q := p + size[p] - n;
    var size', own' := size[p := size[p] - n][q := n], Carve(own, p, q);
    assert In(size, p, q);
    if q in heads { assert In(size, q, q); }
    forall b, u | b in heads + {q} && In(size', b, u) ensures u in own' && own'[u] == b {
      assert In(size, if b == q then p else b, u);
    }
  }

  /** A block of new core. */
  lemma Grow(size: map<int, int>, heads: set<int>, own: map<int, int>, at: int, n: nat, own': map<int, int>)
    requires Partition(size, heads, own) && n > 0 && (forall u :: u in own ==> u < at) && Extends(own, at, n, own')
    ensures at !in heads && Partition(size[at := n], heads + {at}, own') && forall u :: u in own ==> own[u] != at
  {
    var size' := size[at := n];
    if at in heads { assert In(size, at, at); }
    forall u | u in own' ensures own'[u] in heads + {at} && In(size', own'[u], u) {
      if u in own { assert In(size, own[u], u); }
    }
    forall b, u | b in heads + {at} && In(size', b, u) ensures u in own' && own'[u] == b {
      if b != at { assert In(size, b, u); }
    }
  }

  // ----- the free list -----

  /** base first, then the free blocks in address order, no two touching. */
  ghost predicate Ordered(size: map<int, int>, ring: seq<int>) {
    && (forall k :: 0 <= k < |ring| ==> ring[k] in size)
    && forall j, k :: 0 <= j < k < |ring| ==> ring[j] + size[ring[j]] < ring[k]
  }

  ghost function FreeHeads(ring: seq<int>): (r: set<int>) {
    set k | 1 <= k < |ring| :: ring[k]
  }

  ghost function Drop(ring: seq<int>, k: nat): (r: seq<int>)
    requires k < |ring|
  {
    seq(|ring| - 1, i requires 0 <= i < |ring| - 1 => if i < k then ring[i] else ring[i + 1])
  }

  ghost function Insert(ring: seq<int>, k: nat, b: int): (r: seq<int>)
    requires k <= |ring|
  {
    seq(|ring| + 1, i requires 0 <= i <= |ring| => if i < k then ring[i] else if i == k then b else ring[i - 1])
  }

  ghost predicate Positive(size: map<int, int>, ring: seq<int>) {
    forall k :: 0 <= k < |ring| ==> ring[k] in size && size[ring[k]] >= 0
  }

  lemma DropOrdered(size: map<int, int>, ring: seq<int>, k: nat)
    requires Ordered(size, ring) && k < |ring|
    ensures Ordered(size, Drop(ring, k))
  {
  }

  lemma DropHeads(ring: seq<int>, k: nat)
    requires Distinct(ring) && 0 < k < |ring|
    ensures FreeHeads(Drop(ring, k)) == FreeHeads(ring) - {ring[k]}
  {
    var r := Drop(ring, k);
    forall b | b in FreeHeads(ring) - {ring[k]} ensures b in FreeHeads(r) {
      var i :| 1 <= i < |ring| && ring[i] == b;
      assert r[if i < k then i else i - 1] == b;
    }
    forall b | b in FreeHeads(r) ensures b in FreeHeads(ring) - {ring[k]} {
      var i :| 1 <= i < |r| && r[i] == b;
      assert ring[if i < k then i else i + 1] == b;
    }
  }

  lemma InsertOrdered(size: map<int, int>, ring: seq<int>, k: nat, b: int)
    requires Ordered(size, ring) && Positive(size, ring) && 0 < k <= |ring| && b in size && size[b] > 0
    requires ring[k - 1] + size[ring[k - 1]] < b && (k < |ring| ==> b + size[b] < ring[k])
    ensures Ordered(size, Insert(ring, k, b))
  {
    forall i | 0 <= i < k ensures ring[i] + size[ring[i]] < b {
    }
    forall i | k <= i < |ring| ensures b + size[b] < ring[i] {
    }
  }

  lemma InsertHeads(ring: seq<int>, k: nat, b: int)
    requires 0 < k <= |ring|
    ensures FreeHeads(Insert(ring, k, b)) == FreeHeads(ring) + {b}
  {
    var r := Insert(ring, k, b);
    forall c | c in FreeHeads(ring) ensures c in FreeHeads(r) {
      var i :| 1 <= i < |ring| && ring[i] == c;
      assert r[if i < k then i else i + 1] == c;
    }
    assert r[k] == b;
    forall c | c in FreeHeads(r) && c != b ensures c in FreeHeads(ring) {
      var i :| 1 <= i < |r| && r[i] == c;
      assert ring[if i < k then i else i - 1] == c;
    }
  }

  // ----- the pointers -----

  function Succ(k: nat, n: nat): nat {
    if k + 1 < n then k + 1 else 0
  }

  ghost predicate Link(ptr: map<int, int>, ring: seq<int>, k: nat)
    requires k < |ring|
  {
    ring[k] in ptr && ptr[ring[k]] == ring[Succ(k, |ring|)]
  }

  /** The pointers lead round the ring, except perhaps from position j. */
  ghost predicate LinkedBut(ptr: map<int, int>, ring: seq<int>, j: int) {
    forall k: nat :: k < |ring| && k != j ==> Link(ptr, ring, k)
  }

  ghost predicate Linked(ptr: map<int, int>, ring: seq<int>) {
    LinkedBut(ptr, ring, -1)
  }

  /** Skipping ring[j + 1]. */
  lemma SkipNext(ptr: map<int, int>, ring: seq<int>, j: nat, b: int)
    requires Linked(ptr, ring) && Distinct(ring) && j + 1 < |ring| && b !in ring
    ensures var r := Drop(ring, j + 1);
            ring[j + 1] in ptr && ptr[ring[j + 1]] == r[Succ(j, |r|)] && LinkedBut(ptr[b := ptr[ring[j + 1]]], r, j)
  {
    var r := Drop(ring, j + 1);
    assert Link(ptr, ring, j + 1);
    var ptr' := ptr[b := ptr[ring[j + 1]]];
    forall k: nat | k < |r| && k != j ensures Link(ptr', r, k) {
      var i := if k < j + 1 then k else k + 1;
      assert ring[i] == r[k] && Link(ptr, ring, i);
    }
  }

  lemma Relink(ptr: map<int, int>, ring: seq<int>, j: nat)
    requires Distinct(ring) && j < |ring| && LinkedBut(ptr, ring, j)
    ensures Linked(ptr[ring[j] := ring[Succ(j, |ring|)]], ring)
  {
    var ptr' := ptr[ring[j] := ring[Succ(j, |ring|)]];
    forall k: nat | k < |ring| ensures Link(ptr', ring, k) {
      assert k != j ==> Link(ptr, ring, k);
    }
  }

  lemma LinkIn(ptr: map<int, int>, ring: seq<int>, j: nat, b: int)
    requires Distinct(ring) && j < |ring| && LinkedBut(ptr, ring, j) && b !in ring && b in ptr
    requires ptr[b] == ring[Succ(j, |ring|)]
    ensures Linked(ptr[ring[j] := b], Insert(ring, j + 1, b))
  {
    var r, ptr' := Insert(ring, j + 1, b), ptr[ring[j] := b];
    forall k: nat | k < |r| ensures Link(ptr', r, k) {
      if k != j && k != j + 1 {
        var i := if k < j then k else k - 1;
        assert ring[i] == r[k] && Link(ptr, ring, i);
      }
    }
  }

  // ----- the heap -----

  /** Free and live blocks partition the core; the free ones lie behind base in order, with gaps. */
  ghost predicate Blocks(base: int, size: map<int, int>, ring: seq<int>, live: set<int>, own: map<int, int>, top: int) {
    && 0 < base < top && |ring| > 0 && ring[0] == base && base in size && size[base] == 0
    && Ordered(size, ring) && Partition(size, FreeHeads(ring) + live, own)
    && FreeHeads(ring) !! live && base !in live
    && (forall u :: u in own ==> base < u < top)
  }

  /** Unit u belongs to a free block. */
  ghost predicate Free(live: set<int>, own: map<int, int>, u: int) {
    u in own && own[u] !in live
  }

  lemma RingFacts(base: int, size: map<int, int>, ring: seq<int>, live: set<int>, own: map<int, int>, top: int)
    requires Blocks(base, size, ring, live, own, top)
    ensures Distinct(ring) && Positive(size, ring) && 0 < base && |ring| > 0 && ring[0] == base
    ensures forall k :: 0 < k < |ring| ==> ring[k] in FreeHeads(ring) && size[ring[k]] > 0 && base < ring[k]
    ensures forall b :: b in live ==> b in size && size[b] > 0 && base < b && b !in ring && b + size[b] <= top
  {
    forall k | 0 < k < |ring| ensures ring[k] in FreeHeads(ring) && size[ring[k]] > 0 && base < ring[k] {
      assert ring[k] in FreeHeads(ring);
    }
    forall b | b in live ensures b in size && size[b] > 0 && base < b && b + size[b] <= top {
      assert In(size, b, b) && In(size, b, b + size[b] - 1);
    }
  }

  /** A live block between two ring members lies in the gap between them. */
  lemma GapOf(base: int, size: map<int, int>, ring: seq<int>, live: set<int>, own: map<int, int>, top: int, j: nat,
              bp: int)
    requires Blocks(base, size, ring, live, own, top) && bp in live && j < |ring| && ring[j] < bp
    requires j + 1 < |ring| ==> bp < ring[j + 1]
    ensures ring[j] + size[ring[j]] <= bp && (j + 1 < |ring| ==> bp + size[bp] <= ring[j + 1])
  {
    RingFacts(base, size, ring, live, own, top);
    assert In(size, bp, bp);
    if j > 0 && bp < ring[j] + size[ring[j]] {
      assert In(size, ring[j], bp);
    }
    if j + 1 < |ring| && ring[j + 1] < bp + size[bp] {
      assert In(size, ring[j + 1], ring[j + 1]) && In(size, bp, ring[j + 1]);
    }
  }

  lemma MergeUp(base: int, size: map<int, int>, ring: seq<int>, live: set<int>, own: map<int, int>, top: int, j: nat,
                bp: int)
    requires Blocks(base, size, ring, live, own, top) && bp in live && j + 1 < |ring| && bp + size[bp] == ring[j + 1]
    ensures Blocks(base, size[bp := size[bp] + size[ring[j + 1]]], Drop(ring, j + 1), live, Reassign(own, ring[j + 1], bp), top)
  {
    hide Partition;
    RingFacts(base, size, ring, live, own, top);
    var nx := ring[j + 1];
    Join(size, FreeHeads(ring) + live, own, bp, nx);
    DropOrdered(size, ring, j + 1);
    DropHeads(ring, j + 1);
    assert FreeHeads(ring) + live - {nx} == FreeHeads(Drop(ring, j + 1)) + live;
    assert Ordered(size[bp := size[bp] + size[nx]], Drop(ring, j + 1));
  }

  lemma PutIn(base: int, size: map<int, int>, ring: seq<int>, live: set<int>, own: map<int, int>, top: int, j: nat,
              bp: int)
    requires Blocks(base, size, ring, live, own, top) && bp in live && j < |ring|
    requires ring[j] + size[ring[j]] < bp && (j + 1 < |ring| ==> bp + size[bp] < ring[j + 1])
    ensures Blocks(base, size, Insert(ring, j + 1, bp), live - {bp}, own, top)
  {
    hide Partition;
    RingFacts(base, size, ring, live, own, top);
    InsertOrdered(size, ring, j + 1, bp);
    InsertHeads(ring, j + 1, bp);
    assert FreeHeads(ring) + live == FreeHeads(Insert(ring, j + 1, bp)) + (live - {bp});
  }

  lemma MergeDown(base: int, size: map<int, int>, ring: seq<int>, live: set<int>, own: map<int, int>, top: int,
                  j: nat, bp: int)
    requires Blocks(base, size, ring, live, own, top) && bp in live && j < |ring|
    requires ring[j] + size[ring[j]] == bp && (j + 1 < |ring| ==> bp + size[bp] < ring[j + 1])
    ensures Blocks(base, size[ring[j] := size[ring[j]] + size[bp]], ring, live - {bp}, Reassign(own, bp, ring[j]), top)
  {
    hide Partition; hide Ordered; hide FreeHeads;
    RingFacts(base, size, ring, live, own, top);
    var p := ring[j];
    Join(size, FreeHeads(ring) + live, own, p, bp);
    assert FreeHeads(ring) + live - {bp} == FreeHeads(ring) + (live - {bp});
    Widen(size, ring, j, size[bp]);
  }

  lemma Widen(size: map<int, int>, ring: seq<int>, j: nat, n: nat)
    requires Ordered(size, ring) && Positive(size, ring) && Distinct(ring) && j < |ring|
    requires j + 1 < |ring| ==> ring[j] + size[ring[j]] + n < ring[j + 1]
    ensures Ordered(size[ring[j] := size[ring[j]] + n], ring)
  {
    var size' := size[ring[j] := size[ring[j]] + n];
    forall i, k | 0 <= i < k < |ring| ensures ring[i] + size'[ring[i]] < ring[k] {
      assert i == j ==> ring[j + 1] <= ring[k];
    }
  }

  /** Steps from ring position i on to position g. */
  function Dist(i: nat, g: nat, n: nat): nat
    requires i < n && g < n
  {
    if g >= i then g - i else n - i + g
  }

  /** The last ring member below bp. */
  lemma Place(base: int, size: map<int, int>, ring: seq<int>, live: set<int>, own: map<int, int>, top: int,
              bp: int) returns (j: nat)
    requires Blocks(base, size, ring, live, own, top) && bp in live
    ensures j < |ring| && ring[j] < bp && (j + 1 < |ring| ==> bp < ring[j + 1])
  {
    RingFacts(base, size, ring, live, own, top);
    j := 0;
    while j + 1 < |ring| && ring[j + 1] < bp
      invariant j < |ring| && ring[j] < bp
    {
      j := j + 1;
    }
  }

  lemma LastBelow(base: int, size: map<int, int>, ring: seq<int>, live: set<int>, own: map<int, int>, top: int, j: nat,
                  bp: int)
    requires Blocks(base, size, ring, live, own, top) && j < |ring| && (j + 1 < |ring| ==> bp < ring[j + 1])
    ensures forall q :: q in ring && q < bp ==> q <= ring[j]
  {
    RingFacts(base, size, ring, live, own, top);
    forall q | q in ring && q < bp ensures q <= ring[j] {
      var k :| 0 <= k < |ring| && ring[k] == q;
      assert k < j ==> ring[k] + size[ring[k]] < ring[j];
    }
  }

  class Allocator {
    const base: int                  // &base
    var ptr: map<int, int>           // s.ptr of the header at an address
    var size: map<int, int>          // s.size of the header at an address
    var freep: int                   // 0 until the first malloc
    ghost var ring: seq<int>         // the free list from base on
    ghost var live: set<int>         // headers of blocks handed out
    ghost var own: map<int, int>     // for each unit of core, the header of its block
    ghost var top: int               // end of the core

    constructor (base: int, end: int)
      requires 0 < base < end
      ensures Valid() && live == {} && own == map[] && top == end
    {
      this.base, ptr, size, freep := base, map[], map[], 0;
      ring, live, own, top := [], {}, map[], end;
    }

    ghost predicate Valid()
      reads this
    {
      if freep == 0 then ring == [] && live == {} && own == map[] && 0 < base < top
      else Blocks(base, size, ring, live, own, top) && Linked(ptr, ring) && freep in ring
    }

    /** The search of free: the ring member behind which bp belongs. */
    method FindPlace(bp: int) returns (p: int, ghost j: nat)
      requires Valid() && bp in live
      ensures j < |ring| && ring[j] == p < bp && (j + 1 < |ring| ==> bp < ring[j + 1])
      ensures p in ring && forall q :: q in ring && q < bp ==> q <= p
    {
      hide Blocks;
      ghost var goal := Place(base, size, ring, live, own, top, bp);
      p := freep;
      j :| 0 <= j < |ring| && ring[j] == freep;
      assert Link(ptr, ring, j);
      AtGoal(base, ptr, size, ring, live, own, top, bp, j, goal);
      while !(bp > p && bp < ptr[p])
        invariant j < |ring| && ring[j] == p && Link(ptr, ring, j)
        invariant Stops(bp, p, ptr[p]) <==> j == goal
        decreases Dist(j, goal, |ring|)
      {
        if p >= ptr[p] && (bp > p || bp < ptr[p]) {
          break;
        }
        p, j := ptr[p], Succ(j, |ring|);
        assert Link(ptr, ring, j);
        AtGoal(base, ptr, size, ring, live, own, top, bp, j, goal);
      }
      LastBelow(base, size, ring, live, own, top, j, bp);
    }

    /** The first half of free's relinking: bp takes in its upper neighbour if they touch, and points past it. */
    method AttachUpper(p: int, bp: int, ghost j: nat)
      requires Blocks(base, size, ring, live, own, top) && Linked(ptr, ring) && bp in live
      requires j < |ring| && p == ring[j] < bp && (j + 1 < |ring| ==> bp < ring[j + 1])
      modifies `ptr, `size, `ring, `own
      ensures Detached(base, ptr, size, ring, live, own, top, j, bp) && ring[j] == p
      ensures own.Keys == old(own).Keys && (forall b :: b in live && b != bp ==> b in size && size[b] == old(size)[b])
      ensures size[bp] >= old(size)[bp] && forall u :: u in own ==> SameOwner(live, old(own)[u], own[u], bp)
    {
      hide Partition; hide Ordered; hide LinkedBut; hide FreeHeads;
      RingFacts(base, size, ring, live, own, top);
      GapOf(base, size, ring, live, own, top, j, bp);
      NextOf(ptr, ring, j);
      if bp + size[bp] == ptr[p] {
        MergeUp(base, size, ring, live, own, top, j, bp);
        SkipNext(ptr, ring, j, bp);
        AfterNext(size, ring, j);
        var nx := ptr[p];
        size, ptr := size[bp := size[bp] + size[nx]], ptr[bp := ptr[nx]];
        ring, own := Drop(ring, j + 1), Reassign(own, nx, bp);
      } else {
        LinkOther(ptr, ring, j, bp, ptr[p]);
        ptr := ptr[bp := ptr[p]];
      }
    }

    /** The second half: bp goes into its lower neighbour if they touch, else into the ring behind it. */
    method AttachLower(p: int, bp: int, ghost j: nat)
      requires Detached(base, ptr, size, ring, live, own, top, j, bp) && p == ring[j]
      modifies this
      ensures Valid() && freep == p && freep != 0 && live == old(live) - {bp} && own.Keys == old(own).Keys
      ensures top == old(top)
      ensures forall b :: b in live ==> b in size && size[b] == old(size)[b]
      ensures forall u :: u in own ==> SameOwner(old(live), old(own)[u], own[u], bp)
      ensures freep in ptr && ptr[freep] in size && freep in size
      ensures size[freep] >= old(size)[bp] || size[ptr[freep]] == old(size)[bp]
    {
      hide Partition; hide Ordered; hide LinkedBut; hide FreeHeads;
      RingFacts(base, size, ring, live, own, top);
      if p + size[p] == bp {
        MergeDown(base, size, ring, live, own, top, j, bp);
        Relink(ptr, ring, j);
        size, ptr := size[p := size[p] + size[bp]], ptr[p := ptr[bp]];
        own := Reassign(own, bp, p);
        assert ring[j] == p;
      } else {
        PutIn(base, size, ring, live, own, top, j, bp);
        LinkIn(ptr, ring, j, bp);
        ptr, ring := ptr[p := bp], Insert(ring, j + 1, bp);
        assert ring[j] == p;
      }
      live, freep := live - {bp}, p;
    }

    /** Gives block ap back; it merges with the free blocks it touches. */
    method FreeBlock(ap: int)
      requires Valid() && ap - 1 in live
      modifies this
      ensures Valid() && freep != 0 && live == old(live) - {ap - 1} && own.Keys == old(own).Keys && top == old(top)
      ensures |own| == |old(own)|
      ensures forall b :: b in live ==> b in size && size[b] == old(size)[b]
      ensures forall u :: Free(live, own, u) <==> Free(old(live), old(own), u) || (u in old(own) && old(own)[u] == ap - 1)
      ensures forall u :: u in own && own[u] in live ==> own[u] == old(own)[u]
      ensures ap - 1 in old(size) && freep in ptr && ptr[freep] in size && freep in size
      ensures size[freep] >= old(size)[ap - 1] || size[ptr[freep]] >= old(size)[ap - 1]
    {
      hide Partition; hide Ordered; hide LinkedBut; hide FreeHeads; hide Blocks;
      var bp := ap - 1;
      RingFacts(base, size, ring, live, own, top);
      ghost var j;
      var p;
      p, j := FindPlace(bp);
      AttachUpper(p, bp, j);
      AttachLower(p, bp, j);
    }

    /** Core of at least nu units from sbrk, freed into the list; brk is sbrk's answer, -1 or above all earlier core. */
    method Morecore(nu: nat, brk: int) returns (p: int)
      requires Valid() && freep != 0 && nu > 0 && (brk == -1 || brk >= top)
      modifies this
      ensures brk == -1 ==> p == 0 && unchanged(this)
      ensures brk != -1 ==> Valid() && p == freep && p != 0 && live == old(live) && top == brk + Chunk(nu)
      ensures brk != -1 ==> Core(old(live), old(own), old(size), live, own, size, true, brk, nu)
      ensures brk != -1 ==> freep in ptr && ptr[freep] in size && freep in size && (size[freep] >= nu || size[ptr[freep]] >= nu)
    {
      hide Partition; hide Ordered; hide LinkedBut; hide FreeHeads; hide Blocks; hide Extends;
      var n := if nu < 4096 then 4096 else nu;
      if brk == -1 {
        return 0;
      }
      var hp := brk;
      ghost var own' := Extend(own, hp, n);
      NewCore(base, size, ring, live, own, top, hp, n, own');
      RingFacts(base, size, ring, live, own, top);
      size := size[hp := n];
      live, own, top := live + {hp}, own', hp + n;
      FreeBlock(hp + 1);
      CoreFreed(old(live), old(own), hp, n, own', live, own);
      p := freep;
    }

    /** The first call links base to itself. */
    method Init(ghost n: nat)
      requires Valid() && n > 0
      modifies this
      ensures Valid() && freep != 0 && live == old(live) && own == old(own) && top == old(top)
      ensures Fits(size, ring, n) <==> old(Fits(size, ring, n))
      ensures SizesKept(live, old(size), size)
    {
      hide Partition; hide Ordered; hide FreeHeads;
      if freep == 0 {
        ptr, freep, size, ring := ptr[base := base], base, size[base := 0], [base];
        OnlyBase(base, ptr, size, top);
      } else {
        RingFacts(base, size, ring, live, own, top);
      }
    }

    /** Cuts nunits off the free block p, its tail if it is larger, and hands them out. */
    method Take(prevp: int, p: int, nunits: nat, ghost pi: nat, ghost idx: nat) returns (r: int)
      requires Valid() && freep != 0 && pi < |ring| && idx < |ring| && idx == Succ(pi, |ring|) && prevp == ring[pi]
      requires p == ring[idx]
      requires p in size && size[p] >= nunits > 0
      modifies this
      ensures Valid() && freep == prevp && top == old(top) && own.Keys == old(own).Keys
      ensures r > 1 && r - 1 !in old(live) && live == old(live) + {r - 1} && r - 1 in size && size[r - 1] == nunits
      ensures SizesKept(old(live), old(size), size)
      ensures forall u :: In(size, r - 1, u) ==> Free(old(live), old(own), u)
      ensures forall u :: Free(live, own, u) <==> Free(old(live), old(own), u) && !In(size, r - 1, u)
    {
      hide Partition; hide Ordered; hide LinkedBut; hide FreeHeads; hide Blocks;
      RingFacts(base, size, ring, live, own, top);
      NotBase(base, size, ring, live, own, top, idx);
      if size[p] == nunits {
        TakeWhole(base, ptr, size, ring, live, own, top, idx);
        ptr := ptr[prevp := ptr[p]];
        ring, live := Drop(ring, idx), live + {p};
        assert ring[pi] == prevp;
        r := p + 1;
      } else {
        TakeTail(base, size, ring, live, own, top, idx, nunits);
        var q := p + (size[p] - nunits);
        size := size[p := size[p] - nunits][q := nunits];
        live, own := live + {q}, Carve(own, p, q);
        r := q + 1;
      }
      freep := prevp;
    }

    /** malloc's loop: from behind freep to the first block that fits, with one morecore if there is none. */
    method Search(nunits: nat, brk: int) returns (prevp: int, p: int, ghost pi: nat, ghost idx: nat, ghost grew: bool)
      requires Valid() && freep != 0 && nunits > 0 && (brk == -1 || brk >= top)
      modifies this
      ensures Valid() && freep != 0 && live == old(live) && (grew <==> !old(Fits(size, ring, nunits)))
      ensures p == 0 ==> grew && brk == -1 && unchanged(this)
      ensures p != 0 ==> (grew ==> brk != -1) && Core(old(live), old(own), old(size), live, own, size, grew, brk, nunits)
      ensures p != 0 ==> pi < |ring| && idx < |ring| && idx == Succ(pi, |ring|) && prevp == ring[pi] && p == ring[idx] && p in size && size[p] >= nunits
      ensures p != 0 && !grew ==> exists f: nat :: f < |ring| && ring[f] == freep && Passed(size, ring, idx, f, nunits)
    {
      hide Partition; hide Ordered; hide LinkedBut; hide FreeHeads; hide Blocks; hide Fits; hide Passed; hide Ahead;
      hide Dist; hide Core; hide Free;
      hide Distinct; hide Positive; hide SizesKept; hide In; hide Link;
      prevp, grew := freep, false;
      ghost var f: nat :| f < |ring| && ring[f] == freep;
      idx, pi := Succ(f, |ring|), f;
      NextOf(ptr, ring, f);
      PassedNone(size, ring, f, nunits);
      CoreSame(base, live, own, size, ring, top, brk, nunits);
      p := ptr[prevp];
      while true
        invariant Valid() && freep != 0 && f < |ring| && ring[f] == freep && live == old(live)
        invariant idx < |ring| && pi < |ring| && ring[idx] == p && ring[pi] == prevp && idx == Succ(pi, |ring|)
        invariant !grew ==> unchanged(this) && Passed(size, ring, idx, f, nunits)
        invariant grew ==> brk != -1 && !old(Fits(size, ring, nunits)) && Ahead(size, ring, idx, f, nunits)
        invariant Core(old(live), old(own), old(size), live, own, size, grew, brk, nunits)
        decreases if grew then 0 else 1, Dist(idx, f, |ring|)
      {
        Here(base, size, ring, live, own, top, idx);
        if size[p] >= nunits {
          if !grew { FitsHere(size, ring, idx, nunits); }
          return;
        }
        if p == freep {
          AllPassed(size, ring, idx, f, nunits, grew);
          p := Morecore(nunits, brk);
          grew := true;
          if p == 0 {
            return;
          }
          f :| f < |ring| && ring[f] == freep;
          idx := f;
          NextOf(ptr, ring, f);
          CoreAhead(size, ring, ptr, f, nunits);
        } else {
          NextOf(ptr, ring, idx);
          OneOn(size, ring, idx, f, nunits, grew);
        }
        prevp, p := p, ptr[p];
        pi, idx := idx, Succ(idx, |ring|);
      }
    }

    /**
     First fit from freep on; sbrk is asked once, exactly when no free block
     fits. The new block's units were free or new, every other live block is
     untouched, and failure leaves the blocks as they were.
     */
    method Malloc(nbytes: nat, brk: int) returns (r: int, ghost grew: bool)
      requires Valid() && nbytes < WRAP && NUnits(nbytes) * UNIT < WRAP / 2 && (brk == -1 || brk >= top)
      modifies this
      ensures Valid()
      ensures grew <==> !old(Fits(size, ring, NUnits(nbytes)))
      ensures r == 0 <==> grew && brk == -1
      ensures |own| == |old(own)| + if grew && r != 0 then Chunk(NUnits(nbytes)) else 0
      ensures r == 0 ==> live == old(live) && own == old(own) && top == old(top) && SizesKept(old(live), old(size), size)
      ensures r != 0 ==> r - 1 !in old(live) && live == old(live) + {r - 1} && r - 1 in size && size[r - 1] == NUnits(nbytes)
      ensures r != 0 ==> LeastUnits(nbytes, size[r - 1])
      ensures r != 0 && grew ==> |own| - |old(own)| == if size[r - 1] < 4096 then 4096 else size[r - 1]
      ensures r != 0 ==> HandedOut(old(live), old(own), old(size), live, own, size, grew, brk, NUnits(nbytes), r - 1)
    {
      hide Partition; hide Ordered; hide LinkedBut; hide FreeHeads; hide Blocks; hide Fits; hide Core; hide NUnits;
      hide HandedOut; hide SizesKept; hide In; hide LeastUnits;
      var nunits := NUnits(nbytes);
      UnitsLeast(nbytes);
      Init(nunits);
      BelowTop(base, size, ring, live, own, top);
      label init:
      ghost var pi: nat, idx: nat;
      var prevp, p;
      prevp, p, pi, idx, grew := Search(nunits, brk);
      if p == 0 {
        return 0, grew;
      }
      ghost var live1, own1, size1 := live, own, size;
      r := Take(prevp, p, nunits, pi, idx);
      CoreTaken(old(live), old(own), old(size), old@init(size), live1, own1, size1, grew, brk, nunits, live, own, size, r - 1);
      HandedOutSize(old(live), old(own), old(size), live, own, size, grew, brk, nunits, r - 1);
    }
  }

  lemma LinkOther(ptr: map<int, int>, ring: seq<int>, j: int, b: int, v: int)
    requires LinkedBut(ptr, ring, j) && b !in ring
    ensures LinkedBut(ptr[b := v], ring, j)
  {
    var ptr' := ptr[b := v];
    forall k: nat | k < |ring| && k != j ensures Link(ptr', ring, k) {
      assert Link(ptr, ring, k);
    }
  }

  /** Freeing may move units from one free block to another, or between bp and a free block. */
  ghost predicate SameOwner(live: set<int>, was: int, now: int, bp: int) {
    (was in live && was != bp) || (now in live && now != bp) ==> now == was
  }

  ghost predicate Detached(base: int, ptr: map<int, int>, size: map<int, int>, ring: seq<int>, live: set<int>,
                           own: map<int, int>, top: int, j: nat, bp: int)
  {
    && Blocks(base, size, ring, live, own, top) && LinkedBut(ptr, ring, j) && bp in live && bp in size && j < |ring|
    && bp in ptr && ptr[bp] == ring[Succ(j, |ring|)]
    && ring[j] + size[ring[j]] <= bp && (j + 1 < |ring| ==> bp + size[bp] < ring[j + 1])
  }

  predicate Stops(bp: int, p: int, next: int) {
    (bp > p && bp < next) || (p >= next && (bp > p || bp < next))
  }

  lemma AtGoal(base: int, ptr: map<int, int>, size: map<int, int>, ring: seq<int>, live: set<int>, own: map<int, int>,
               top: int, bp: int, j: nat, goal: nat)
    requires Blocks(base, size, ring, live, own, top) && bp in live && j < |ring| && Link(ptr, ring, j)
    requires goal < |ring| && ring[goal] < bp && (goal + 1 < |ring| ==> bp < ring[goal + 1])
    ensures Stops(bp, ring[j], ptr[ring[j]]) <==> j == goal
  {
    RingFacts(base, size, ring, live, own, top);
  }

  lemma NextOf(ptr: map<int, int>, ring: seq<int>, j: nat)
    requires Linked(ptr, ring) && j < |ring|
    ensures Link(ptr, ring, j) && LinkedBut(ptr, ring, j) && ring[j] in ptr && ptr[ring[j]] == ring[Succ(j, |ring|)]
  {
  }

  lemma AfterNext(size: map<int, int>, ring: seq<int>, j: nat)
    requires Ordered(size, ring) && j + 1 < |ring|
    ensures Drop(ring, j + 1)[j] == ring[j]
    ensures j + 2 < |ring| ==> ring[j + 1] + size[ring[j + 1]] < Drop(ring, j + 1)[j + 1]
  {
  }

  // ----- malloc -----

  /** What morecore asks sbrk for: the larger of 4096 units and the request. */
  function Chunk(nu: nat): (r: nat)
    ensures r >= 4096 && r >= nu && (r == 4096 || r == nu)
  {
    if nu < 4096 then 4096 else nu
  }

  lemma NewCore(base: int, size: map<int, int>, ring: seq<int>, live: set<int>, own: map<int, int>, top: int, at: int,
                n: nat, own': map<int, int>)
    requires Blocks(base, size, ring, live, own, top) && at >= top && n > 0 && Extends(own, at, n, own')
    ensures at !in ring && at !in live && Blocks(base, size[at := n], ring, live + {at}, own', at + n)
    ensures forall u :: u in own ==> own[u] != at
  {
    hide Partition; hide FreeHeads; hide Ordered;
    Grow(size, FreeHeads(ring) + live, own, at, n, own');
    NotInRing(ring, at);
    assert FreeHeads(ring) + live + {at} == FreeHeads(ring) + (live + {at});
    SizeOther(size, ring, at, n);
  }

  lemma NotInRing(ring: seq<int>, b: int)
    requires |ring| > 0 && b != ring[0] && b !in FreeHeads(ring)
    ensures b !in ring
  {
  }

  lemma SizeOther(size: map<int, int>, ring: seq<int>, b: int, n: int)
    requires Ordered(size, ring) && b !in ring
    ensures Ordered(size[b := n], ring)
  {
  }

  lemma CoreFreed(live0: set<int>, own0: map<int, int>, at: int, n: nat, own1: map<int, int>, live2: set<int>,
                  own2: map<int, int>)
    requires Extends(own0, at, n, own1) && at !in live0 && live2 == live0 + {at} - {at} && own2.Keys == own1.Keys
    requires n > 0
    requires forall u :: u in own0 ==> own0[u] != at
    requires forall u :: Free(live2, own2, u) <==> Free(live0 + {at}, own1, u) || (u in own1 && own1[u] == at)
    ensures live2 == live0
    ensures forall u :: u in own2 <==> u in own0 || at <= u < at + n
    ensures forall u :: Free(live2, own2, u) <==> Free(live0, own0, u) || at <= u < at + n
  {
  }

  function NUnits(nbytes: nat): (r: nat)
    ensures 0 < r
  {
    (nbytes + UNIT - 1) % WRAP / UNIT + 1
  }

  /**
   The count is the least that covers the request and its header; when the rounding wraps around it is
   one, the header alone.
   */
  lemma UnitsLeast(nbytes: nat)
    requires nbytes < WRAP
    ensures LeastUnits(nbytes, NUnits(nbytes))
  {
  }

  predicate LeastUnits(nbytes: nat, n: int) {
    if nbytes <= WRAP - UNIT then (n - 2) * UNIT < nbytes <= (n - 1) * UNIT else n == 1
  }

  /** The units cover the request and its header exactly unless the rounding wraps around. */
  lemma UnitsCover(nbytes: nat)
    requires nbytes < WRAP
    ensures (NUnits(nbytes) - 1) * UNIT >= nbytes <==> nbytes <= WRAP - UNIT
  {
  }

  /** Some free block has n units. */
  ghost predicate Fits(size: map<int, int>, ring: seq<int>, n: nat) {
    exists k :: 0 <= k < |ring| && ring[k] in size && size[ring[k]] >= n
  }

  lemma OnlyBase(base: int, ptr: map<int, int>, size: map<int, int>, top: int)
    requires 0 < base < top && base in size && size[base] == 0 && base in ptr && ptr[base] == base
    ensures Blocks(base, size, [base], {}, map[], top) && Linked(ptr, [base])
  {
    assert FreeHeads([base]) == {};
    assert Link(ptr, [base], 0);
  }

  lemma Here(base: int, size: map<int, int>, ring: seq<int>, live: set<int>, own: map<int, int>, top: int, k: nat)
    requires Blocks(base, size, ring, live, own, top) && k < |ring|
    ensures Distinct(ring) && ring[k] in size && ring[k] > 0
  {
    RingFacts(base, size, ring, live, own, top);
  }

  lemma NotBase(base: int, size: map<int, int>, ring: seq<int>, live: set<int>, own: map<int, int>, top: int, k: nat)
    requires Blocks(base, size, ring, live, own, top) && k < |ring| && ring[k] in size && size[ring[k]] > 0
    ensures k > 0
  {
  }

  lemma TakeWhole(base: int, ptr: map<int, int>, size: map<int, int>, ring: seq<int>, live: set<int>,
                  own: map<int, int>, top: int, k: nat)
    requires Blocks(base, size, ring, live, own, top) && Linked(ptr, ring) && 0 < k < |ring|
    ensures ring[k] in ptr && Blocks(base, size, Drop(ring, k), live + {ring[k]}, own, top)
    ensures Linked(ptr[ring[k - 1] := ptr[ring[k]]], Drop(ring, k))
    ensures ring[k] !in live && Drop(ring, k)[k - 1] == ring[k - 1]
    ensures forall u :: In(size, ring[k], u) ==> Free(live, own, u)
    ensures forall u :: Free(live + {ring[k]}, own, u) <==> Free(live, own, u) && !In(size, ring[k], u)
  {
    hide Ordered; hide LinkedBut;
    RingFacts(base, size, ring, live, own, top);
    DropOrdered(size, ring, k);
    DropHeads(ring, k);
    assert FreeHeads(Drop(ring, k)) + (live + {ring[k]}) == FreeHeads(ring) + live;
    LinkOut(ptr, ring, k);
  }

  lemma LinkOut(ptr: map<int, int>, ring: seq<int>, k: nat)
    requires Linked(ptr, ring) && Distinct(ring) && 0 < k < |ring|
    ensures ring[k] in ptr && Linked(ptr[ring[k - 1] := ptr[ring[k]]], Drop(ring, k))
  {
    assert Link(ptr, ring, k);
    var r, ptr' := Drop(ring, k), ptr[ring[k - 1] := ptr[ring[k]]];
    forall i: nat | i < |r| ensures Link(ptr', r, i) {
      if i != k - 1 {
        var h := if i < k then i else i + 1;
        assert ring[h] == r[i] && Link(ptr, ring, h);
      }
    }
  }

  lemma TakeTail(base: int, size: map<int, int>, ring: seq<int>, live: set<int>, own: map<int, int>, top: int, k: nat,
                 n: nat)
    requires Blocks(base, size, ring, live, own, top) && 0 < k < |ring| && 0 < n < size[ring[k]]
    ensures var p := ring[k]; var q := p + (size[p] - n); var size' := size[p := size[p] - n][q := n];
            && Blocks(base, size', ring, live + {q}, Carve(own, p, q), top) && q !in live && q > base && q !in ring
            && (forall u :: In(size', q, u) ==> Free(live, own, u))
            && (forall u :: Free(live + {q}, Carve(own, p, q), u) <==> Free(live, own, u) && !In(size', q, u))
  {
    hide Ordered; hide Carve;
    RingFacts(base, size, ring, live, own, top);
    var p := ring[k];
    var q := p + (size[p] - n);
    Split(size, FreeHeads(ring) + live, own, p, n);
    NotInRing(ring, q);
    assert FreeHeads(ring) + (live + {q}) == FreeHeads(ring) + live + {q};
    assert forall u :: In(size, p, u) ==> Free(live, own, u);
    Shrink(size, ring, k, n);
    SizeOther(size[p := size[p] - n], ring, q, n);
  }

  lemma Shrink(size: map<int, int>, ring: seq<int>, k: nat, n: nat)
    requires Ordered(size, ring) && Distinct(ring) && k < |ring|
    ensures Ordered(size[ring[k] := size[ring[k]] - n], ring)
  {
  }

  /** The scan from behind f has passed only blocks below n before reaching idx. */
  ghost predicate Passed(size: map<int, int>, ring: seq<int>, idx: nat, f: nat, n: nat)
    requires idx < |ring| && f < |ring|
  {
    forall k: nat :: k < |ring| && Dist(k, f, |ring|) > Dist(idx, f, |ring|) ==> ring[k] in size && size[ring[k]] < n
  }

  /** A block of n units is still to come before the scan is back at f. */
  ghost predicate Ahead(size: map<int, int>, ring: seq<int>, idx: nat, f: nat, n: nat)
    requires idx < |ring| && f < |ring|
  {
    exists g: nat :: g < |ring| && Dist(g, f, |ring|) <= Dist(idx, f, |ring|) && ring[g] in size && size[ring[g]] >= n
  }

  lemma PassedNone(size: map<int, int>, ring: seq<int>, f: nat, n: nat)
    requires f < |ring|
    ensures Passed(size, ring, Succ(f, |ring|), f, n)
  {
  }

  lemma FitsHere(size: map<int, int>, ring: seq<int>, k: nat, n: nat)
    requires k < |ring| && ring[k] in size && size[ring[k]] >= n
    ensures Fits(size, ring, n)
  {
  }

  /** Back at freep without a fit: there was none, and new core cannot have been added yet. */
  lemma AllPassed(size: map<int, int>, ring: seq<int>, idx: nat, f: nat, n: nat, grew: bool)
    requires idx < |ring| && f < |ring| && Distinct(ring) && ring[idx] == ring[f] && ring[idx] in size
    requires size[ring[idx]] < n
    requires if grew then Ahead(size, ring, idx, f, n) else Passed(size, ring, idx, f, n)
    ensures !grew && !Fits(size, ring, n)
  {
    assert idx == f && forall g: nat :: g < |ring| && Dist(g, f, |ring|) == 0 ==> g == f;
  }

  lemma CoreAhead(size: map<int, int>, ring: seq<int>, ptr: map<int, int>, f: nat, n: nat)
    requires f < |ring| && Link(ptr, ring, f) && ring[f] in size && ring[Succ(f, |ring|)] in size
    requires size[ring[f]] >= n || size[ring[Succ(f, |ring|)]] >= n
    ensures Ahead(size, ring, Succ(f, |ring|), f, n)
  {
    var g := if size[ring[f]] >= n then f else Succ(f, |ring|);
    assert Dist(g, f, |ring|) <= Dist(Succ(f, |ring|), f, |ring|);
  }

  lemma OneOn(size: map<int, int>, ring: seq<int>, idx: nat, f: nat, n: nat, grew: bool)
    requires idx < |ring| && f < |ring| && idx != f && ring[idx] in size && size[ring[idx]] < n
    requires if grew then Ahead(size, ring, idx, f, n) else Passed(size, ring, idx, f, n)
    ensures if grew then Ahead(size, ring, Succ(idx, |ring|), f, n) else Passed(size, ring, Succ(idx, |ring|), f, n)
    ensures Dist(Succ(idx, |ring|), f, |ring|) < Dist(idx, f, |ring|)
  {
    if grew {
      var g: nat :| g < |ring| && Dist(g, f, |ring|) <= Dist(idx, f, |ring|) && ring[g] in size && size[ring[g]] >= n;
      assert g != idx && Dist(g, f, |ring|) <= Dist(Succ(idx, |ring|), f, |ring|);
    }
  }

  ghost predicate SizesKept(live: set<int>, size0: map<int, int>, size: map<int, int>) {
    forall b :: b in live ==> b in size0 && b in size && size[b] == size0[b]
  }

  /** The core is the old one, plus the new chunk if there is one, and all of that chunk is free. */
  ghost predicate Core(live0: set<int>, own0: map<int, int>, size0: map<int, int>, live: set<int>, own: map<int, int>,
                       size: map<int, int>, grew: bool, brk: int, n: nat)
  {
    && live == live0 && SizesKept(live0, size0, size)
    && (forall u :: u in own <==> u in own0 || (grew && brk <= u < brk + Chunk(n)))
    && (forall u :: Free(live, own, u) <==> Free(live0, own0, u) || (grew && brk <= u < brk + Chunk(n)))
  }

  /** The units of block h were free or new and are not free now; nothing else changed hands. */
  ghost predicate HandedOut(live0: set<int>, own0: map<int, int>, size0: map<int, int>, live: set<int>,
                            own: map<int, int>, size: map<int, int>, grew: bool, brk: int, n: nat, h: int)
  {
    && SizesKept(live0, size0, size)
    && (forall u :: u in own <==> u in own0 || (grew && brk <= u < brk + Chunk(n)))
    && (forall u :: In(size, h, u) ==> Free(live0, own0, u) || (grew && brk <= u < brk + Chunk(n)))
    && (forall u :: Free(live, own, u) <==> (Free(live0, own0, u) || (grew && brk <= u < brk + Chunk(n))) && !In(size, h, u))
  }

  lemma CoreSame(base: int, live: set<int>, own: map<int, int>, size: map<int, int>, ring: seq<int>, top: int,
                 brk: int, n: nat)
    requires Blocks(base, size, ring, live, own, top)
    ensures Core(live, own, size, live, own, size, false, brk, n)
  {
    RingFacts(base, size, ring, live, own, top);
  }

  lemma CoreTaken(live0: set<int>, own0: map<int, int>, size00: map<int, int>, size0: map<int, int>, live1: set<int>, own1: map<int, int>, size1: map<int, int>, grew: bool, brk: int, n: nat,
                  live: set<int>, own: map<int, int>, size: map<int, int>, h: int)
    requires Core(live0, own0, size0, live1, own1, size1, grew, brk, n) && own.Keys == own1.Keys
    requires SizesKept(live0, size00, size0) && SizesKept(live1, size1, size)
    requires forall u :: Free(live, own, u) <==> Free(live1, own1, u) && !In(size, h, u)
    requires forall u :: In(size, h, u) ==> Free(live1, own1, u)
    ensures HandedOut(live0, own0, size00, live, own, size, grew, brk, n, h)
  {
    hide Free; hide In;
  }

  // ----- conservation -----

  /** The n units from at on. */
  function Stretch(at: int, n: nat): (r: set<int>)
    ensures forall u :: u in r <==> at <= u < at + n
  {
    if n == 0 then {} else Stretch(at, n - 1) + {at + n - 1}
  }

  lemma {:induction false} StretchSize(at: int, n: nat)
    ensures |Stretch(at, n)| == n
  {
    if n > 0 { StretchSize(at, n - 1); }
  }

  ghost function Pick<T>(s: set<T>): (x: T)
    requires s != {}
    ensures x in s
  {
    var y: T :| y in s; y
  }

  /** What the headers of the given blocks say, added up. */
  ghost function TotalSize(size: map<int, int>, heads: set<int>): int
    requires heads <= size.Keys
  {
    if heads == {} then 0 else size[Pick(heads)] + TotalSize(size, heads - {Pick(heads)})
  }

  /** The units of the given blocks. */
  ghost function Within(own: map<int, int>, heads: set<int>): (r: map<int, int>)
    ensures forall u :: u in r <==> u in own && own[u] in heads
    ensures forall u :: u in r ==> r[u] == own[u]
  {
    map u | u in own && own[u] in heads :: own[u]
  }

  lemma WithinPartition(size: map<int, int>, heads: set<int>, own: map<int, int>, some: set<int>)
    requires Partition(size, heads, own) && some <= heads
    ensures Partition(size, some, Within(own, some))
  {
  }

  /** Taking one block out of a partition takes out as many units as its header says. */
  lemma OneLess(size: map<int, int>, heads: set<int>, own: map<int, int>, b: int)
    requires Partition(size, heads, own) && b in heads
    ensures |own| == size[b] + |Within(own, heads - {b})|
  {
    var mine, rest := Stretch(b, size[b]), Within(own, heads - {b});
    forall u | u in own.Keys ensures u in mine + rest.Keys { }
    forall u | u in mine ensures u in own.Keys { assert In(size, b, u); }
    assert own.Keys == mine + rest.Keys;
    assert mine !! rest.Keys by {
      forall u | u in mine ensures u !in rest { assert In(size, b, u); }
    }
    StretchSize(b, size[b]);
    assert |mine + rest.Keys| == |mine| + |rest.Keys|;
  }

  lemma NoneOwned(size: map<int, int>, own: map<int, int>)
    requires Partition(size, {}, own)
    ensures |own| == 0
  {
    assert forall u :: u in own.Keys ==> u in {};
    assert own.Keys == {};
  }

  /** The sizes in the headers add up to the units owned. */
  lemma {:induction false} PartitionTotal(size: map<int, int>, heads: set<int>, own: map<int, int>)
    requires Partition(size, heads, own)
    ensures heads <= size.Keys && TotalSize(size, heads) == |own|
    decreases heads
  {
    if heads == {} {
      NoneOwned(size, own);
    } else {
      var b := Pick(heads);
      WithinPartition(size, heads, own, heads - {b});
      PartitionTotal(size, heads - {b}, Within(own, heads - {b}));
      OneLess(size, heads, own, b);
    }
  }

  /** The sizes of the free list's blocks and of the blocks handed out add up to the core obtained from sbrk. */
  lemma Conservation(base: int, size: map<int, int>, ring: seq<int>, live: set<int>, own: map<int, int>, top: int)
    requires Blocks(base, size, ring, live, own, top)
    ensures FreeHeads(ring) <= size.Keys && live <= size.Keys
    ensures TotalSize(size, FreeHeads(ring)) + TotalSize(size, live) == |own|
  {
    hide TotalSize; hide Ordered; hide FreeHeads;
    TwoParts(size, FreeHeads(ring), live, own);
  }

  lemma TwoParts(size: map<int, int>, free: set<int>, live: set<int>, own: map<int, int>)
    requires Partition(size, free + live, own) && free !! live
    ensures free <= size.Keys && live <= size.Keys
    ensures TotalSize(size, free) + TotalSize(size, live) == |own|
  {
    hide TotalSize; hide Partition;
    WithinPartition(size, free + live, own, free);
    WithinPartition(size, free + live, own, live);
    PartitionTotal(size, free, Within(own, free));
    PartitionTotal(size, live, Within(own, live));
    OwnSplits(size, free, live, own);
  }

  lemma OwnSplits(size: map<int, int>, free: set<int>, live: set<int>, own: map<int, int>)
    requires Partition(size, free + live, own) && free !! live
    ensures |Within(own, free)| + |Within(own, live)| == |own|
  {
    var a, b := Within(own, free).Keys, Within(own, live).Keys;
    forall u | u in own.Keys ensures u in a + b { }
    forall u | u in a + b ensures u in own.Keys { }
    assert a + b == own.Keys;
    assert a !! b;
    assert |a + b| == |a| + |b|;
  }

  lemma BelowTop(base: int, size: map<int, int>, ring: seq<int>, live: set<int>, own: map<int, int>, top: int)
    requires Blocks(base, size, ring, live, own, top)
    ensures forall u :: u in own ==> u < top
  {
  }

  lemma HandedOutSize(live0: set<int>, own0: map<int, int>, size0: map<int, int>, live: set<int>, own: map<int, int>,
                      size: map<int, int>, grew: bool, brk: int, n: nat, h: int)
    requires HandedOut(live0, own0, size0, live, own, size, grew, brk, n, h)
    requires grew ==> forall u :: u in own0 ==> u < brk
    ensures |own| == |own0| + if grew then Chunk(n) else 0
  {
    if grew {
      CoreGrows(own0, own, brk, Chunk(n));
    } else {
      forall u | u in own0.Keys ensures u in own.Keys { }
      forall u | u in own.Keys ensures u in own0.Keys { }
      assert own.Keys == own0.Keys;
    }
  }

  /** Core grows by the chunk sbrk returned. */
  lemma CoreGrows(own0: map<int, int>, own: map<int, int>, at: int, n: nat)
    requires forall u :: u in own0 ==> u < at
    requires forall u :: u in own <==> u in own0 || at <= u < at + n
    ensures |own| == |own0| + n
  {
    StretchSize(at, n);
    assert own.Keys == own0.Keys + Stretch(at, n);
    assert own0.Keys !! Stretch(at, n);
    assert |own0.Keys + Stretch(at, n)| == |own0.Keys| + |Stretch(at, n)|;
  }

  /** No two blocks, free or live, share a unit, and no two free blocks touch. */
  lemma BlocksApart(base: int, size: map<int, int>, ring: seq<int>, live: set<int>, own: map<int, int>, top: int,
                    a: int, b: int)
    requires Blocks(base, size, ring, live, own, top) && a in FreeHeads(ring) + live && b in FreeHeads(ring) + live
    requires a < b
    ensures a in size && a + size[a] <= b && (a in FreeHeads(ring) && b in FreeHeads(ring) ==> a + size[a] < b)
  {
    assert In(size, b, b);
    if a + size[a] > b { assert In(size, a, b); }
    if a in FreeHeads(ring) && b in FreeHeads(ring) {
      RingFacts(base, size, ring, live, own, top);
      var i :| 1 <= i < |ring| && ring[i] == a;
      var j :| 1 <= j < |ring| && ring[j] == b;
      assert i < j;
    }
  }
}
