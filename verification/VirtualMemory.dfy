/** kalloc.c and vm.c: the page allocator and the page tables built from its pages. */
module VirtualMemory {
  import opened Base
  import opened PageTables

  const PHYSTOP: nat := 57344            // page number of 0xE000000
  const JUNK: word := 0x0101_0101

  /** The kernel address of physical page p. */
  function Ptr(p: nat): word
    requires p < PHYSTOP
  {
    KERNBASE + p * PGSIZE
  }

  /** The link to list element k, 0 past the end. */
  ghost function Link(free: seq<nat>, k: nat): int {
    if k < |free| then KERNBASE + free[k] * PGSIZE else 0
  }

  /** The free list runs through the first words of the pages in free. */
  ghost predicate Chained(page: map<nat, Page>, freelist: word, free: seq<nat>) {
    && freelist == Link(free, 0)
    && (forall p :: p in page ==> 0 < p < PHYSTOP)
    && (forall k :: 0 <= k < |free| ==> free[k] in page && page[free[k]][0] == Link(free, k + 1))
    && (forall j, k :: 0 <= j < k < |free| ==> free[j] != free[k])
  }

  /** The pages on the list are those marked free. */
  ghost predicate Listed(owner: map<nat, Use>, free: seq<nat>) {
    forall p :: p in owner ==> (owner[p].Free? <==> p in free)
  }

  lemma EmptyList(page: map<nat, Page>, freelist: word, free: seq<nat>)
    requires Chained(page, freelist, free)
    ensures freelist == 0 <==> free == []
  {
  }

  lemma Pop(page: map<nat, Page>, freelist: word, free: seq<nat>)
    requires Chained(page, freelist, free) && free != []
    ensures free[0] in page && freelist != 0 && (freelist - KERNBASE) / PGSIZE == free[0]
    ensures Chained(page, page[free[0]][0], free[1..]) && free[0] !in free[1..]
  {
    var rest := free[1..];
    forall k | 0 <= k < |rest| ensures rest[k] in page && page[rest[k]][0] == Link(rest, k + 1) {
      assert rest[k] == free[k + 1];
    }
    assert Link(rest, 0) == Link(free, 1);
  }

  lemma Push(page: map<nat, Page>, freelist: word, free: seq<nat>, p: nat, x: Page)
    requires Chained(page, freelist, free) && p in page && p !in free && x[0] == freelist
    ensures p < PHYSTOP && Chained(page[p := x], Ptr(p), [p] + free)
  {
    var page', free' := page[p := x], [p] + free;
    forall k | 0 <= k < |free'| ensures free'[k] in page' && page'[free'[k]][0] == Link(free', k + 1) {
      if k > 0 { assert free'[k] == free[k - 1]; }
      assert Link(free', k + 1) == Link(free, k);
    }
  }

  lemma ChainScratch(page: map<nat, Page>, freelist: word, free: seq<nat>, p: nat, x: Page)
    requires Chained(page, freelist, free) && p in page && p !in free
    ensures Chained(page[p := x], freelist, free)
  {
  }

  datatype Status = Done | OutOfMemory | Panic

  /** Page p, put to use u, is part of the address space of directory d. */
  predicate Belongs(p: nat, u: Use, d: nat) {
    p == d || ((u.Table? || u.User?) && u.dir == d)
  }

  /** Free pages, and the held ones in extra, may have become pages of d; no other use changed. */
  ghost predicate Gains(owner: map<nat, Use>, owner': map<nat, Use>, d: nat, extra: set<nat>) {
    && owner'.Keys == owner.Keys
    && forall p :: p in owner ==>
         || owner'[p] == owner[p]
         || (owner[p].Free? && (owner'[p].Table? || owner'[p].User?) && owner'[p].dir == d)
         || (p in extra && owner[p].Held? && owner'[p].User? && owner'[p].dir == d)
  }

  /** Contents stay, except of free pages and of the directory d and its tables. */
  ghost predicate SamePages(page: map<nat, Page>, owner: map<nat, Use>, page': map<nat, Page>, d: nat) {
    && page'.Keys == page.Keys == owner.Keys
    && forall p :: p in owner && !owner[p].Free? && p != d && !(owner[p].Table? && owner[p].dir == d) ==> page'[p] == page[p]
  }

  /** The entries of pages keep their values, except those of pages from..to of d. */
  ghost predicate SameEntries(page: map<nat, Page>, owner: map<nat, Use>, z: Dying, page': map<nat, Page>, d: nat,
                              from: nat, to: nat)
  {
    forall r :: Seen(owner, z, r) && !(r.dir == d && (r.Table? || from <= r.v < to)) ==> Val(page', r) == Val(page, r)
  }

  /** What an operation that maps pages from..to of d leaves alone. */
  ghost predicate Frame(page: map<nat, Page>, owner: map<nat, Use>, z: Dying, page': map<nat, Page>,
                        owner': map<nat, Use>, d: nat, extra: set<nat>, from: nat, to: nat)
  {
    Gains(owner, owner', d, extra) && SamePages(page, owner, page', d) && SameEntries(page, owner, z, page', d, from, to)
  }

  lemma FrameRefl(page: map<nat, Page>, owner: map<nat, Use>, z: Dying, d: nat, extra: set<nat>, from: nat, to: nat)
    requires Owned(page, owner, z)
    ensures Frame(page, owner, z, page, owner, d, extra, from, to)
  {
  }

  lemma FrameTrans(p0: map<nat, Page>, a: map<nat, Use>, z: Dying, p1: map<nat, Page>, b: map<nat, Use>,
                   p2: map<nat, Page>, c: map<nat, Use>, d: nat, extra: set<nat>, x: nat, y: nat, w: nat)
    requires Frame(p0, a, z, p1, b, d, {}, x, y) && Frame(p1, b, z, p2, c, d, extra, y, w) && x <= y <= w
    ensures Frame(p0, a, z, p2, c, d, extra, x, w)
  {
    hide Val;
    forall r | Seen(a, z, r) ensures Seen(b, z, r) {
    }
  }

  /** Every page off the list has become a page table of d for pages first..last. */
  ghost predicate Paid(page: map<nat, Page>, free: seq<nat>, page': map<nat, Page>, free': seq<nat>, d: nat,
                       first: nat, last: nat)
  {
    && d in page && d in page' && |free'| + Tables(page'[d]) == |free| + Tables(page[d]) && |free'| <= |free|
    && forall i: nat :: i < ENTRIES && !(first / ENTRIES <= i <= last / ENTRIES) ==> page'[d][i] == page[d][i]
  }

  lemma PaidNothing(page: map<nat, Page>, free: seq<nat>, d: nat, first: nat, last: nat)
    requires d in page
    ensures Paid(page, free, page, free, d, first, last)
  {
  }

  lemma PaidTable(page: map<nat, Page>, free: seq<nat>, page': map<nat, Page>, free': seq<nat>, d: nat, v: nat, e: word)
    requires d in page && d in page' && v < VPAGES && !Present(page[d][v / ENTRIES]) && Present(e)
    requires page'[d] == page[d][v / ENTRIES := e]
    requires free != [] && free' == free[1..]
    ensures Paid(page, free, page', free', d, v, v)
  {
    CountSet(page[d], v / ENTRIES, e, |page[d]|);
  }

  lemma PaidMore(p0: map<nat, Page>, f0: seq<nat>, p1: map<nat, Page>, f1: seq<nat>, p2: map<nat, Page>, f2: seq<nat>,
                 d: nat, first: nat, a: nat, last: nat)
    requires Paid(p0, f0, p1, f1, d, first, last) && Paid(p1, f1, p2, f2, d, a, a) && first <= a <= last < VPAGES
    ensures Paid(p0, f0, p2, f2, d, first, last)
    ensures |f2| >= |f1| - 1
  {
    hide Count;
    assert first / ENTRIES <= a / ENTRIES <= last / ENTRIES;
    AtMostOne(p1[d], p2[d], a / ENTRIES, |p1[d]|);
  }

  // ----- what mapping takes -----

  /** Page v of a range from lo on: `each` pages, and a page table if v is the first in its directory entry that needs one. */
  function PageNeed(dir: Page, each: nat, lo: nat, v: nat): nat
    requires v < VPAGES
  {
    each + if (v == lo || v % ENTRIES == 0) && !Present(dir[v / ENTRIES]) then 1 else 0
  }

  /** What mapping pages lo..hi takes off the free list. */
  function Need(dir: Page, each: nat, lo: nat, hi: nat): nat
    requires hi <= VPAGES
    decreases hi
  {
    if hi <= lo then 0 else Need(dir, each, lo, hi - 1) + PageNeed(dir, each, lo, hi - 1)
  }

  ghost predicate NoneMapped(page: map<nat, Page>, d: nat, lo: nat, hi: nat) {
    forall v: nat :: lo <= v < hi ==> !Present(Val(page, User(d, v)))
  }

  /** Pages lo..hi of d can be mapped: none of them is, and n free pages are enough. */
  ghost predicate Enough(page: map<nat, Page>, d: nat, n: nat, each: nat, lo: nat, hi: nat) {
    hi <= VPAGES && d in page && NoneMapped(page, d, lo, hi) && Need(page[d], each, lo, hi) <= n
  }

  /** Page v is the first of the range that is mapped already, and n free pages are enough to get there. */
  ghost predicate HitsAt(page: map<nat, Page>, d: nat, n: nat, each: nat, lo: nat, v: nat) {
    && lo <= v < VPAGES && d in page && NoneMapped(page, d, lo, v) && Present(Val(page, User(d, v)))
    && Need(page[d], each, lo, v) + each <= n
  }

  ghost predicate Hits(page: map<nat, Page>, d: nat, n: nat, each: nat, lo: nat, hi: nat) {
    exists v: nat :: v < hi && HitsAt(page, d, n, each, lo, v)
  }

  /** Page v of d has got its table, made if it was missing, and `each` pages more. */
  ghost predicate Stepped(page: map<nat, Page>, free: seq<nat>, page': map<nat, Page>, free': seq<nat>, d: nat,
                          v: nat, each: nat)
  {
    && d in page && d in page' && v < VPAGES && Present(page'[d][v / ENTRIES])
    && (forall i: nat :: i < ENTRIES && i != v / ENTRIES ==> page'[d][i] == page[d][i])
    && |free'| == |free| - each - if Present(page[d][v / ENTRIES]) then 0 else 1
  }

  /** Pages lo..a of d have been mapped. */
  ghost predicate Spending(page: map<nat, Page>, free: seq<nat>, page': map<nat, Page>, free': seq<nat>, d: nat,
                           each: nat, lo: nat, a: nat)
  {
    && d in page && d in page' && lo <= a <= VPAGES && |free'| == |free| - Need(page[d], each, lo, a)
    && forall i: nat :: i < ENTRIES ==>
         if lo < a && lo / ENTRIES <= i <= (a - 1) / ENTRIES then Present(page'[d][i]) else page'[d][i] == page[d][i]
  }

  lemma SpendingNone(page: map<nat, Page>, free: seq<nat>, d: nat, each: nat, lo: nat)
    requires d in page && lo <= VPAGES
    ensures Spending(page, free, page, free, d, each, lo, lo)
  {
  }

  /** What the next page needs can be seen in the directory as it is now. */
  lemma NextNeed(p0: map<nat, Page>, f0: seq<nat>, p1: map<nat, Page>, f1: seq<nat>, d: nat, each: nat, lo: nat, a: nat)
    requires Spending(p0, f0, p1, f1, d, each, lo, a) && a < VPAGES
    ensures PageNeed(p0[d], each, lo, a) == each + if Present(p1[d][a / ENTRIES]) then 0 else 1
    ensures Need(p0[d], each, lo, a + 1) == Need(p0[d], each, lo, a) + PageNeed(p0[d], each, lo, a)
  {
    hide Present;
    var i := a / ENTRIES;
    if lo < a && a % ENTRIES != 0 {
      assert lo / ENTRIES <= i <= (a - 1) / ENTRIES;
    } else if lo < a {
      assert i > (a - 1) / ENTRIES;
    }
  }

  lemma SpendingMore(p0: map<nat, Page>, f0: seq<nat>, p1: map<nat, Page>, f1: seq<nat>, p2: map<nat, Page>,
                     f2: seq<nat>, d: nat, each: nat, lo: nat, a: nat)
    requires Spending(p0, f0, p1, f1, d, each, lo, a) && Stepped(p1, f1, p2, f2, d, a, each)
    ensures Spending(p0, f0, p2, f2, d, each, lo, a + 1)
  {
    hide Present; hide Need; hide PageNeed;
    NextNeed(p0, f0, p1, f1, d, each, lo, a);
    forall i: nat | i < ENTRIES
      ensures if lo / ENTRIES <= i <= a / ENTRIES then Present(p2[d][i]) else p2[d][i] == p0[d][i]
    {
      TableOrder(lo, a, i);
    }
  }

  lemma TableOrder(lo: nat, a: nat, i: nat)
    requires lo <= a
    ensures lo / ENTRIES <= i <= a / ENTRIES <==> i == a / ENTRIES || (lo < a && lo / ENTRIES <= i <= (a - 1) / ENTRIES)
  {
  }

  lemma {:induction false} NeedGrows(dir: Page, each: nat, lo: nat, a: nat, b: nat)
    requires a <= b <= VPAGES
    ensures Need(dir, each, lo, a) <= Need(dir, each, lo, b)
    decreases b
  {
    hide PageNeed;
    if a < b { NeedGrows(dir, each, lo, a, b - 1); }
  }

  /** Memory ran out at page a. */
  lemma SpendingStuck(p0: map<nat, Page>, f0: seq<nat>, p1: map<nat, Page>, f1: seq<nat>, d: nat, each: nat, lo: nat,
                      a: nat, hi: nat)
    requires Spending(p0, f0, p1, f1, d, each, lo, a) && a < hi <= VPAGES && NoneMapped(p0, d, lo, a)
    requires |f1| < each + if Present(p1[d][a / ENTRIES]) then 0 else 1
    requires Present(Val(p0, User(d, a))) ==> |f1| < each
    ensures !Enough(p0, d, |f0|, each, lo, hi) && !Hits(p0, d, |f0|, each, lo, hi)
  {
    hide Present; hide Need; hide PageNeed; hide Val;
    NextNeed(p0, f0, p1, f1, d, each, lo, a);
    NeedGrows(p0[d], each, lo, a + 1, hi);
    forall v: nat | v < hi ensures !HitsAt(p0, d, |f0|, each, lo, v) {
      if a < v { NeedGrows(p0[d], each, lo, a + 1, v); }
    }
  }

  /** Page a is mapped already. */
  lemma SpendingHit(p0: map<nat, Page>, f0: seq<nat>, p1: map<nat, Page>, f1: seq<nat>, d: nat, each: nat, lo: nat,
                    a: nat, hi: nat)
    requires Spending(p0, f0, p1, f1, d, each, lo, a) && a < hi <= VPAGES && NoneMapped(p0, d, lo, a)
    requires Present(Val(p0, User(d, a))) && |f1| >= each
    ensures !NoneMapped(p0, d, lo, hi) && !Enough(p0, d, |f0|, each, lo, hi) && Hits(p0, d, |f0|, each, lo, hi)
  {
    hide Present; hide Need; hide Val;
    assert HitsAt(p0, d, |f0|, each, lo, a);
  }

  /** All of them are mapped. */
  lemma SpendingDone(p0: map<nat, Page>, f0: seq<nat>, p1: map<nat, Page>, f1: seq<nat>, d: nat, each: nat, lo: nat,
                     hi: nat)
    requires Spending(p0, f0, p1, f1, d, each, lo, hi) && NoneMapped(p0, d, lo, hi)
    ensures Enough(p0, d, |f0|, each, lo, hi) && !Hits(p0, d, |f0|, each, lo, hi)
  {
    hide Present; hide Need; hide Val;
  }

  lemma NothingHit(page: map<nat, Page>, d: nat, n: nat, each: nat, lo: nat, hi: nat)
    requires forall v: nat :: lo <= v < VPAGES ==> Val(page, User(d, v)) == 0
    ensures !Hits(page, d, n, each, lo, hi)
  {
    hide Need; hide Val;
  }

  lemma OnePage(page: map<nat, Page>, d: nat, n: nat, v: nat)
    requires d in page && v < VPAGES
    ensures Enough(page, d, n, 0, v, v + 1) <==> !Present(Val(page, User(d, v))) && (Present(page[d][v / ENTRIES]) || n > 0)
    ensures Hits(page, d, n, 0, v, v + 1) <==> Present(Val(page, User(d, v)))
  {
    hide Present; hide Val;
    assert HitsAt(page, d, n, 0, v, v) <==> Present(Val(page, User(d, v)));
    assert Need(page[d], 0, v, v + 1) == PageNeed(page[d], 0, v, v);
  }

  lemma NoneMappedMore(page: map<nat, Page>, d: nat, lo: nat, a: nat)
    ensures NoneMapped(page, d, lo, lo)
    ensures NoneMapped(page, d, lo, a) && !Present(Val(page, User(d, a))) ==> NoneMapped(page, d, lo, a + 1)
  {
    hide Val; hide Present;
  }

  lemma MapStopped(p0: map<nat, Page>, f0: seq<nat>, p1: map<nat, Page>, f1: seq<nat>, d: nat, lo: nat, a: nat,
                   hi: nat, st: Status)
    requires Spending(p0, f0, p1, f1, d, 0, lo, a) && a < hi <= VPAGES && NoneMapped(p0, d, lo, a) && !st.Done?
    requires st.Panic? <==> Present(Val(p0, User(d, a)))
    requires st.OutOfMemory? ==> !Present(p1[d][a / ENTRIES]) && f1 == []
    ensures !Enough(p0, d, |f0|, 0, lo, hi) && (st.Panic? <==> Hits(p0, d, |f0|, 0, lo, hi))
  {
    hide Spending; hide Enough; hide Hits; hide Present; hide Val; hide NoneMapped;
    if st.Panic? {
      SpendingHit(p0, f0, p1, f1, d, 0, lo, a, hi);
    } else {
      SpendingStuck(p0, f0, p1, f1, d, 0, lo, a, hi);
    }
  }

  // ----- what copying takes -----

  /** n pages, and a page table for every 1024 of them. */
  function CopyNeed(n: nat): nat {
    n + (n + ENTRIES - 1) / ENTRIES
  }

  ghost predicate AllMapped(page: map<nat, Page>, d: nat, hi: nat) {
    forall v: nat :: v < hi ==> Present(Val(page, User(d, v)))
  }

  /** The parent has pages 0..hi, and n free pages are enough for a copy. */
  ghost predicate CopyEnough(page: map<nat, Page>, d: nat, n: nat, hi: nat) {
    AllMapped(page, d, hi) && KERNPAGES + CopyNeed(hi) <= n
  }

  /** The parent lacks a page below hi, and n free pages are enough to get to the first of these. */
  ghost predicate CopyHits(page: map<nat, Page>, d: nat, n: nat, hi: nat) {
    exists v: nat :: v < hi && CopyHitsAt(page, d, n, v)
  }

  ghost predicate CopyHitsAt(page: map<nat, Page>, d: nat, n: nat, v: nat) {
    AllMapped(page, d, v) && !Present(Val(page, User(d, v))) && KERNPAGES + CopyNeed(v) <= n
  }

  lemma AllMappedMore(page: map<nat, Page>, d: nat, a: nat)
    ensures AllMapped(page, d, 0)
    ensures AllMapped(page, d, a) && Present(Val(page, User(d, a))) ==> AllMapped(page, d, a + 1)
  {
    hide Val; hide Present;
  }

  lemma {:induction false} NeedFresh(dir: Page, n: nat)
    requires n <= USERPAGES && forall i: nat :: i < USERPAGES / ENTRIES ==> !Present(dir[i])
    ensures Need(dir, 1, 0, n) == CopyNeed(n)
  {
    hide Present; hide CopyNeed;
    CopyStep(n);
    if n > 0 {
      NeedFresh(dir, n - 1);
      assert (n - 1) / ENTRIES < USERPAGES / ENTRIES;
      CopyStep(n - 1);
    }
  }

  lemma CopyStep(n: nat)
    ensures CopyNeed(0) == 0
    ensures CopyNeed(n + 1) == CopyNeed(n) + 1 + if n % ENTRIES == 0 then 1 else 0
  {
  }

  /** What copying i pages has taken, and what one more takes. */
  lemma CopySpent(p0: map<nat, Page>, f0: seq<nat>, p1: map<nat, Page>, f1: seq<nat>, n: nat, i: nat)
    requires NoUserTables(p0, n) && Spending(p0, f0, p1, f1, n, 1, 0, i) && i <= USERPAGES
    ensures n in p1 && |f1| == |f0| - CopyNeed(i)
    ensures i < USERPAGES ==> CopyNeed(i + 1) == CopyNeed(i) + 1 + if Present(p1[n][i / ENTRIES]) then 0 else 1
  {
    hide Present; hide CopyNeed; hide Need; hide PageNeed;
    NeedFresh(p0[n], i);
    if i < USERPAGES {
      NeedFresh(p0[n], i + 1);
      NextNeed(p0, f0, p1, f1, n, 1, 0, i);
    }
  }

  lemma {:induction false} CopyGrows(a: nat, b: nat)
    requires a <= b
    ensures CopyNeed(a) <= CopyNeed(b)
    decreases b
  {
    hide CopyNeed;
    if a < b {
      CopyGrows(a, b - 1);
      CopyStep(b - 1);
    }
  }

  lemma CopyNothing(page: map<nat, Page>, d: nat, n: nat, hi: nat)
    requires n < KERNPAGES
    ensures !CopyEnough(page, d, n, hi) && !CopyHits(page, d, n, hi)
  {
    hide Val; hide Present; hide CopyNeed;
  }

  lemma CopyLacks(page: map<nat, Page>, d: nat, n: nat, i: nat, hi: nat)
    requires i < hi && AllMapped(page, d, i) && !Present(Val(page, User(d, i))) && KERNPAGES + CopyNeed(i) <= n
    ensures !CopyEnough(page, d, n, hi) && CopyHits(page, d, n, hi)
  {
    hide Val; hide Present; hide CopyNeed;
    assert CopyHitsAt(page, d, n, i);
  }

  lemma CopyStuck(page: map<nat, Page>, d: nat, n: nat, i: nat, hi: nat)
    requires i < hi && AllMapped(page, d, i + 1) && n < KERNPAGES + CopyNeed(i + 1)
    ensures !CopyEnough(page, d, n, hi) && !CopyHits(page, d, n, hi)
  {
    hide Val; hide Present; hide CopyNeed;
    CopyGrows(i + 1, hi);
    forall v: nat | v < hi ensures !CopyHitsAt(page, d, n, v) {
      if i < v { CopyGrows(i + 1, v); }
    }
  }

  lemma CopyAll(page: map<nat, Page>, d: nat, n: nat, hi: nat)
    requires AllMapped(page, d, hi) && KERNPAGES + CopyNeed(hi) <= n
    ensures CopyEnough(page, d, n, hi) && !CopyHits(page, d, n, hi)
  {
    hide Val; hide Present; hide CopyNeed;
  }

  class Memory {
    var page: map<nat, Page>             // the managed pages, by page number
    var freelist: word
    ghost var free: seq<nat>
    ghost var owner: map<nat, Use>

    /** Before kinit: nothing is on the list yet. */
    constructor (page: map<nat, Page>)
      requires forall p :: p in page ==> 0 < p < PHYSTOP
      ensures Valid() && this.page == page && free == [] && owner.Keys == page.Keys
      ensures forall p :: p in owner ==> owner[p] == Held
    {
      this.page, freelist, free := page, 0, [];
      owner := map p | p in page :: Held;
    }

    /** freerange: the pages first..last go on the list one after the other. */
    method Freerange(first: nat, last: nat)
      requires Valid() && first <= last && forall p :: first <= p < last ==> p in owner && owner[p].Held?
      modifies this
      ensures Valid() && owner.Keys == old(owner).Keys
      ensures forall p :: p in owner ==> owner[p] == if first <= p < last then Free else old(owner)[p]
      ensures |free| == |old(free)| + (last - first)
    {
      hide Owned; hide Chained; hide Listed; hide SameBut;
      var p := first;
      while p < last
        invariant first <= p <= last && Valid() && owner.Keys == old(owner).Keys
        invariant forall q :: q in owner ==> owner[q] == if first <= q < p then Free else old(owner)[q]
        invariant |free| == |old(free)| + (p - first)
      {
        KfreeHeld(p, Alive);
        p := p + 1;
      }
    }

    /** The invariant, but for the dead entries of a directory being torn down. */
    ghost predicate Ok(z: Dying)
      reads this
    {
      Chained(page, freelist, free) && Listed(owner, free) && Owned(page, owner, z)
    }

    ghost predicate Valid()
      reads this
    {
      Ok(Alive)
    }

    /** A page off the list; 0 exactly when the list is empty. */
    method Kalloc(ghost z: Dying) returns (p: nat)
      requires Ok(z)
      modifies `freelist, `free, `owner
      ensures Ok(z) && (p == 0 <==> old(free) == []) && (p == 0 ==> unchanged(this))
      ensures p != 0 ==> p in old(owner) && old(owner)[p].Free? && owner == old(owner)[p := Held] && free == old(free)[1..] && p == old(free)[0]
    {
      hide Owned; hide Chained;
      OwnedKeys(page, owner, z);
      EmptyList(page, freelist, free);
      if freelist == 0 {
        return 0;
      }
      Pop(page, freelist, free);
      p := (freelist - KERNBASE) / PGSIZE;
      HoldPage(page, owner, z, p);
      ListedPop(owner, free);
      freelist := page[p][0];
      free, owner := free[1..], owner[p := Held];
    }

    /** Junks page p and puts it at the head of the list. */
    method Kfree(p: nat)
      requires Chained(page, freelist, free) && p in page && p !in free
      modifies `page, `freelist, `free
      ensures Chained(page, freelist, free) && free == [p] + old(free)
      ensures page == old(page)[p := Fill(JUNK)[0 := old(freelist)]]
    {
      Push(page, freelist, free, p, Fill(JUNK)[0 := freelist]);
      page := page[p := Fill(JUNK)];
      page, freelist := page[p := page[p][0 := freelist]], Ptr(p);
      free := [p] + free;
    }

    /** Giving back a page that no page table names. */
    method KfreeHeld(p: nat, ghost z: Dying)
      requires Ok(z) && p in owner && owner[p].Held?
      modifies this
      ensures Ok(z) && owner == old(owner)[p := Free] && free == [p] + old(free) && SameBut(old(page), page, p)
    {
      hide Owned;
      OwnedKeys(page, owner, z);
      Scratch(page, owner, z, p, Fill(JUNK)[0 := freelist], Free);
      ListedPush(owner, free, p);
      Kfree(p);
      owner := owner[p := Free];
    }

    /** The page table for page v of directory d; with alloc, made when missing. 0 when there is none. */
    method Walkpgdir(d: nat, v: nat, alloc: bool, ghost z: Dying) returns (t: nat)
      requires Ok(z) && Seen(owner, z, User(d, v)) && v < VPAGES
      modifies this
      ensures Ok(z) && Seen(owner, z, User(d, v))
      ensures t == 0 <==> !old(Present(page[d][v / ENTRIES])) && (!alloc || old(free) == [])
      ensures t == 0 || old(Present(page[d][v / ENTRIES])) ==> unchanged(this)
      ensures t != 0 ==> t in page && d in page && Present(page[d][v / ENTRIES]) && t == Target(page[d][v / ENTRIES])
      ensures t != 0 ==> owner[t] == Table(d, v / ENTRIES) && Val(page, User(d, v)) == page[t][v % ENTRIES]
      ensures Frame(old(page), old(owner), z, page, owner, d, {}, v, v)
      ensures Paid(old(page), old(free), page, free, d, v, v)
      ensures t != 0 ==> Stepped(old(page), old(free), page, free, d, v, 0)
    {
      hide Owned; hide Chained; hide Listed; hide Tables;
      OwnedKeys(page, owner, z);
      PaidNothing(page, free, d, v, v);
      var pde := page[d][v / ENTRIES];
      if Present(pde) {
        t := Target(pde);
        TableOf(page, owner, z, d, v / ENTRIES);
        InPage(page, freelist, free, owner, z, t);
      } else if !alloc {
        t := 0;
      } else {
        t := Kalloc(z);
        if t != 0 {
          InPage(page, freelist, free, owner, z, t);
          MakeTable(d, v, t, z);
          PaidTable(old(page), old(free), page, free, d, v, Entry(t, 7));
        }
      }
    }

    /** memset(pgtab, 0) and *pde = V2P(pgtab) | PTE_P | PTE_W | PTE_U */
    method MakeTable(d: nat, v: nat, t: nat, ghost z: Dying)
      requires Ok(z) && Seen(owner, z, User(d, v)) && v < VPAGES && t in owner && owner[t].Held? && t in page
      requires d in page
      requires !Present(page[d][v / ENTRIES]) && t < PHYSTOP
      modifies `page, `owner
      ensures Ok(z) && Seen(owner, z, User(d, v)) && page.Keys == old(page).Keys
      ensures owner == old(owner)[t := Table(d, v / ENTRIES)]
      ensures Present(page[d][v / ENTRIES]) && t == Target(page[d][v / ENTRIES])
      ensures Val(page, User(d, v)) == page[t][v % ENTRIES]
      ensures forall p :: p in page && p != t && p != d ==> page[p] == old(page)[p]
      ensures SameEntries(old(page), old(owner), z, page, d, v, v)
      ensures page[d] == old(page)[d][v / ENTRIES := Entry(t, 7)]
    {
      hide Owned; hide Chained; hide Listed; hide Val;
      var i, e := v / ENTRIES, Entry(t, 7);
      ghost var page1 := page[t := Fill(0)][d := page[d][i := e]];
      NotFree(page, freelist, free, owner, z, t);
      NotFree(page, freelist, free, owner, z, d);
      NewTable(page, owner, z, d, i, t, e, page1);
      ChainScratch(page, freelist, free, t, Fill(0));
      ChainScratch(page[t := Fill(0)], freelist, free, d, page[d][i := e]);
      ListedKeeps(owner, free, t, Table(d, i));
      page := page[t := Fill(0)];
      page := page[d := page[d][i := e]];
      assert page == page1;
      owner := owner[t := Table(d, i)];
      TableVal(page, d, v, t);
    }

    /** *pte = pa | perm | PTE_P; a user page changes hands with it. */
    method SetEntry(d: nat, v: nat, ppn: nat, perm: nat, t: nat, ghost user: bool, ghost z: Dying)
      requires Ok(z) && v < VPAGES && Seen(owner, z, User(d, v)) && ppn < VPAGES && perm < PGSIZE
      requires if user then v < USERPAGES && ppn in owner && owner[ppn].Held? else v >= USERPAGES
      requires d in page && t in page && Present(page[d][v / ENTRIES]) && t == Target(page[d][v / ENTRIES])
      requires !Present(page[t][v % ENTRIES])
      modifies `page, `owner
      ensures Ok(z) && Seen(owner, z, User(d, v)) && Val(page, User(d, v)) == Entry(ppn, perm)
      ensures Frame(old(page), old(owner), z, page, owner, d, if user then {ppn} else {}, v, v + 1)
      ensures user ==> owner == old(owner)[ppn := User(d, v)]
      ensures !user ==> owner == old(owner)
      ensures d in page && page[d] == old(page)[d]
    {
      hide Owned; hide Chained; hide Listed; hide Val; hide Present; hide Target;
      var e := Entry(ppn, perm);
      ghost var page1 := page[t := page[t][v % ENTRIES := e]];
      OwnedKeys(page, owner, z);
      TableWrite(page, owner, z, d, v, t, e, page1);
      NotFree(page, freelist, free, owner, z, t);
      ChainScratch(page, freelist, free, t, page[t][v % ENTRIES := e]);
      if user {
        MapUser(page, owner, z, d, v, t, e, page1, ppn);
        ListedKeeps(owner, free, ppn, User(d, v));
      } else {
        MapKernel(page, owner, z, d, v, t, e, page1);
      }
      page := page[t := page[t][v % ENTRIES := e]];
      if user {
        owner := owner[ppn := User(d, v)];
      }
    }

    /** One round of mappages: the entry of page v, its table made if need be. */
    method MapPage(d: nat, v: nat, ppn: nat, perm: nat, ghost user: bool, ghost z: Dying) returns (st: Status)
      requires Ok(z) && v < VPAGES && Seen(owner, z, User(d, v)) && ppn < VPAGES && perm < PGSIZE
      requires if user then v < USERPAGES && ppn in owner && owner[ppn].Held? else v >= USERPAGES
      modifies this
      ensures Ok(z) && Seen(owner, z, User(d, v))
      ensures st.Panic? <==> old(Present(Val(page, User(d, v))))
      ensures st.OutOfMemory? <==> !old(Present(page[d][v / ENTRIES])) && old(free) == []
      ensures !st.Done? ==> unchanged(this)
      ensures st.Done? ==> Val(page, User(d, v)) == Entry(ppn, perm) && (user ==> ppn in owner && owner[ppn] == User(d, v))
      ensures Frame(old(page), old(owner), z, page, owner, d, if user then {ppn} else {}, v, v + 1)
      ensures Paid(old(page), old(free), page, free, d, v, v)
      ensures st.Done? ==> Stepped(old(page), old(free), page, free, d, v, 0)
    {
      hide Owned; hide Chained; hide Listed; hide Val; hide Present; hide Target; hide Frame; hide Tables;
      OwnedKeys(page, owner, z);
      PaidNothing(page, free, d, v, v);
      FrameRefl(page, owner, z, d, if user then {ppn} else {}, v, v + 1);
      if !Present(page[d][v / ENTRIES]) { NoTable(page, d, v); }
      var t := Walkpgdir(d, v, true, z);
      if t == 0 {
        return OutOfMemory;
      }
      WalkedEntry(old(page), old(owner), z, page, owner, d, v, ppn);
      if Present(page[t][v % ENTRIES]) {
        return Panic;
      }
      ghost var page1, owner1 := page, owner;
      SetEntry(d, v, ppn, perm, t, user, z);
      FrameTrans(old(page), old(owner), z, page1, owner1, page, owner, d, if user then {ppn} else {}, v, v, v + 1);
      st := Done;
    }

    /**
     mappages, with va and va + size - 1 already rounded down to pages first and
     last: maps them to the physical pages from base on. It stops early exactly when
     the free pages do not cover the missing page tables or a page is mapped already.
     */
    method Mappages(d: nat, first: nat, last: nat, base: nat, perm: nat, ghost user: bool,
                    ghost z: Dying) returns (st: Status)
      requires Ok(z) && d in owner && owner[d] == Dir && z.Alive? && perm < PGSIZE
      requires first <= last < VPAGES && base + (last - first) < VPAGES
      requires if user then first == last < USERPAGES && base in owner && owner[base].Held? else first >= USERPAGES
      modifies this
      ensures Ok(z) && d in owner && owner[d] == Dir
      ensures st.Done? ==> MapsTo(page, d, first, last + 1, base, perm)
      ensures st.Done? <==> Enough(old(page), d, |old(free)|, 0, first, last + 1)
      ensures st.Panic? <==> Hits(old(page), d, |old(free)|, 0, first, last + 1)
      ensures st.OutOfMemory? ==> free == []
      ensures user ==> (st.Done? ==> base in owner && owner[base] == User(d, first)) && (!st.Done? ==> unchanged(this))
      ensures Frame(old(page), old(owner), z, page, owner, d, if user then {base} else {}, first, last + 1)
      ensures Paid(old(page), old(free), page, free, d, first, last)
      ensures st.OutOfMemory? ==> exists v :: first <= v <= last && d in page && !Present(page[d][v / ENTRIES])
      ensures user && st.Done? ==> Stepped(old(page), old(free), page, free, d, first, 0)
    {
      hide Owned; hide Chained; hide Listed; hide Val; hide Present; hide Target; hide Frame; hide Entry; hide MapsTo;
      hide Paid; hide Spending; hide Stepped; hide Enough; hide Hits;
      OwnedKeys(page, owner, z);
      PaidNothing(page, free, d, first, last);
      SpendingNone(page, free, d, 0, first);
      var a := first;
      ghost var extra: set<nat> := if user then {base} else {};
      FrameRefl(page, owner, z, d, {}, first, first);
      MapsNothing(page, d, first, base, perm);
      while true
        invariant first <= a <= last && Ok(z) && d in owner && owner[d] == Dir
        invariant user ==> a == first && unchanged(this)
        invariant Frame(old(page), old(owner), z, page, owner, d, {}, first, a)
        invariant MapsTo(page, d, first, a, base, perm)
        invariant NoneMapped(old(page), d, first, a)
        invariant Paid(old(page), old(free), page, free, d, first, last)
        invariant Spending(old(page), old(free), page, free, d, 0, first, a)
        decreases last - a
      {
        ghost var page1, owner1, free1 := page, owner, free;
        st := MapPage(d, a, base + (a - first), perm, user, z);
        FrameTrans(old(page), old(owner), z, page1, owner1, page, owner, d, extra, first, a, a + 1);
        FrameEntry(old(page), old(owner), z, page1, owner1, d, first, a);
        PaidMore(old(page), old(free), page1, free1, page, free, d, first, a, last);
        if !st.Done? {
          OwnedKeys(page, owner, z);
          MapStopped(old(page), old(free), page, free, d, first, a, last + 1, st);
          FrameWiden(old(page), old(owner), z, page, owner, d, extra, first, a + 1, last + 1);
          return;
        }
        MapsOneMore(page1, owner1, z, page, owner, d, extra, first, a, base, perm);
        SpendingMore(old(page), old(free), page1, free1, page, free, d, 0, first, a);
        if a == last {
          SpendingDone(old(page), old(free), page, free, d, 0, first, last + 1);
          return;
        }
        a := a + 1;
      }
    }

    /** Frees the page behind a present entry and zeroes the entry. */
    method UnmapPage(d: nat, v: nat, t: nat, ghost z: Dying)
      requires Ok(z) && v < USERPAGES && Seen(owner, z, User(d, v)) && d in page && Present(page[d][v / ENTRIES])
      requires t == Target(page[d][v / ENTRIES])
      requires t in page && Present(page[t][v % ENTRIES])
      modifies this
      ensures Ok(z) && Target(old(page)[t][v % ENTRIES]) in old(owner) && t in old(owner) && page.Keys == old(page).Keys
      ensures var p := Target(old(page)[t][v % ENTRIES]);
              && old(owner)[p] == User(d, v) && old(owner)[t] == Table(d, v / ENTRIES) && owner == old(owner)[p := Free] && free == [p] + old(free)
              && (forall q :: q in page && q != p && q != t ==> page[q] == old(page)[q])
      ensures Val(page, User(d, v)) == 0
      ensures forall r :: Seen(old(owner), z, r) && r != User(d, v) ==> Val(page, r) == Val(old(page), r)
    {
      hide Owned; hide Chained; hide Listed; hide Val; hide Present; hide Target;
      OwnedKeys(page, owner, z);
      var p := Target(page[t][v % ENTRIES]);
      ghost var x := Fill(JUNK)[0 := freelist];
      EntryTarget(page, owner, z, d, v, t);
      NotFree(page, freelist, free, owner, z, p);
      ghost var page1 := page[p := x][t := page[t][v % ENTRIES := 0]];
      UnmapUser(page, owner, z, d, v, t, p, x, page1);
      ListedPush(owner, free, p);
      NotFree(page, freelist, free, owner, z, t);
      Kfree(p);
      ChainScratch(page, freelist, free, t, page[t][v % ENTRIES := 0]);
      page := page[t := page[t][v % ENTRIES := 0]];
      assert page == page1;
      owner := owner[p := Free];
    }

    /**
     Frees the user pages between the two sizes. Skipping whole 4 MB stretches
     without a page table frees the same pages in the same order as looking at
     every page.
     */
    method Deallocuvm(d: nat, oldsz: word, newsz: word) returns (r: word)
      requires Valid() && d in owner && owner[d] == Dir && oldsz <= KERNBASE
      modifies this
      ensures Valid() && d in owner && owner[d] == Dir && r == if newsz >= oldsz then oldsz else newsz
      ensures newsz >= oldsz ==> unchanged(this)
      ensures newsz < oldsz ==> Unmapped(old(page), old(owner), page, owner, d, Up(newsz), Up(oldsz))
      ensures newsz < oldsz ==> free == Scan(old(page), d, Up(newsz), Up(oldsz), []) + old(free)
    {
      hide Owned; hide Chained; hide Listed; hide Val; hide Present; hide Target; hide Unmapped; hide Scan;
      if newsz >= oldsz {
        return oldsz;
      }
      ghost var lo, hi, freed := Up(newsz), Up(oldsz), [];
      var a: nat := Up(newsz);
      OwnedKeys(page, owner, Alive);
      UnmappedNone(page, owner, d, lo);
      UpFacts(newsz, oldsz);
      assert free == freed + old(free);
      while a * PGSIZE < oldsz
        invariant lo <= a && Valid() && d in owner && owner[d] == Dir && page.Keys == owner.Keys
        invariant Unmapped(old(page), old(owner), page, owner, d, lo, Min(a, hi))
        invariant free == freed + old(free) && Scan(old(page), d, lo, hi, []) == Scan(old(page), d, a, hi, freed)
        decreases oldsz - a * PGSIZE
      {
        InRange(a, oldsz);
        ghost var page1, owner1 := page, owner;
        var t := Walkpgdir(d, a, false, Alive);
        if t == 0 {
          SkipHole(old(page), old(owner), page, owner, d, lo, a, hi, freed);
          a := (a / ENTRIES + 1) * ENTRIES - 1;
        } else if Present(page[t][a % ENTRIES]) {
          UnmapPage(d, a, t, Alive);
          ghost var p := Target(page1[t][a % ENTRIES]);
          UnmapStep(old(page), old(owner), page1, owner1, page, owner, d, lo, a, hi, t, p, freed);
          freed := [p] + freed;
        } else {
          SkipOne(old(page), old(owner), page, owner, d, lo, a, hi, freed);
        }
        a := a + 1;
      }
      ScanEnd(old(page), d, a, hi, freed);
      r := newsz;
    }

    /** freevm's second loop: the page tables of a directory without user pages. */
    method FreeTables(d: nat)
      requires Valid() && d in owner && owner[d] == Dir && forall k: nat :: k < ENTRIES ==> NoUsers(page, d, k)
      modifies this
      ensures Ok(Dying(d, ENTRIES)) && d in owner && owner[d] == Dir
      ensures Torn(old(page), old(owner), page, owner, d, ENTRIES)
    {
      hide Owned; hide Chained; hide Listed; hide Val; hide Present; hide Target; hide NoUsers;
      OwnedKeys(page, owner, Alive);
      StartDying(page, owner, d);
      var i := 0;
      while i < ENTRIES
        invariant i <= ENTRIES && Ok(Dying(d, i)) && d in owner && owner[d] == Dir
        invariant Torn(old(page), old(owner), page, owner, d, i)
        invariant forall k: nat :: i <= k < ENTRIES ==> NoUsers(page, d, k)
      {
        ghost var page1, owner1, z := page, owner, Dying(d, i);
        OwnedKeys(page, owner, z);
        if Present(page[d][i]) {
          var t := Target(page[d][i]);
          FreeTable(page, owner, d, i, t, Fill(JUNK)[0 := freelist]);
          NotFree(page, freelist, free, owner, z, t);
          ListedPush(owner, free, t);
          Kfree(t);
          owner := owner[t := Free];
          TearStep(old(page), old(owner), page1, owner1, page, owner, d, i, t);
          TearUsers(page1, owner1, page, d, i);
        } else {
          SkipTable(page, owner, d, i);
          TearSkip(old(page), old(owner), page, owner, d, i);
        }
        i := i + 1;
      }
    }

    /** Every page of the address space goes back to the free list; nothing else changes. */
    method Freevm(d: nat)
      requires Valid() && d in owner && owner[d] == Dir
      modifies this
      ensures Valid() && Released(old(page), old(owner), page, owner, d)
    {
      hide Owned; hide Chained; hide Listed; hide Val; hide Present; hide Target; hide NoUsers; hide Unmapped;
      hide Torn; hide Scan; hide Released;
      var r := Deallocuvm(d, KERNBASE, 0);
      ghost var page1, owner1 := page, owner;
      UpBounds();
      AllUnmapped(old(page), old(owner), page, owner, d);
      FreeTables(d);
      ghost var page2, owner2, free2 := page, owner, free;
      OwnedKeys(page, owner, Dying(d, ENTRIES));
      NotFree(page, freelist, free, owner, Dying(d, ENTRIES), d);
      FreeDir(page, owner, d, ENTRIES, Fill(JUNK)[0 := freelist]);
      ListedPush(owner, free, d);
      Kfree(d);
      owner := owner[d := Free];
      ReleasedAll(old(page), old(owner), page1, owner1, page2, owner2, page, owner, d);
    }

    /** A directory with the kernel's mappings and no user pages; 0, with every page given back, when memory runs out. */
    method Setupkvm(data: nat) returns (d: nat)
      requires Valid() && EXTMEM < data < PHYSTOP
      modifies this
      ensures Valid()
      ensures d != 0 ==> NewSpace(old(page), old(owner), page, owner, d) && KernelMapped(page, d, data)
      ensures d != 0 ==> NoUserPages(page, d) && NoUserTables(page, d)
      ensures d == 0 ==> owner == old(owner) && HeldContents(old(page), old(owner), page)
      ensures (d == 0 <==> |old(free)| < KERNPAGES) && (d != 0 ==> |free| == |old(free)| - KERNPAGES)
    {
      hide Owned; hide Chained; hide Listed; hide Val; hide Present; hide Target; hide NewSpace; hide MapsTo;
      hide Frame; hide HeldContents; hide NoUserPages; hide Released; hide Paid; hide Built; hide RegionMapped;
      hide KernelBelow; hide NoUserTables; hide Enough; hide Hits;
      OwnedKeys(page, owner, Alive);
      HeldRefl(page, owner);
      d := Kalloc(Alive);
      if d == 0 {
        return;
      }
      ghost var page1 := page;
      InPage(page, freelist, free, owner, Alive, d);
      NotFree(page, freelist, free, owner, Alive, d);
      NewDir(page, owner, d);
      ChainScratch(page, freelist, free, d, Fill(0));
      ListedKeeps(owner, free, d, Dir);
      page := page[d := Fill(0)];
      owner := owner[d := Dir];
      FreshSpace(page1, old(owner), page, owner, d);
      BuiltStart(page, d, |free|);
      KernelNone(page, d, data);
      var k := 0;
      while k < 4
        invariant k <= 4 && Valid() && d in owner && owner[d] == Dir && d != 0
        invariant Built(page, d, |free|, |old(free)| - 1)
        invariant NewSpace(old(page), old(owner), page, owner, d) && NoUserPages(page, d)
        invariant forall j: nat :: j < k ==> RegionMapped(page, d, data, j)
        invariant KernelBelow(page, d, data, KernelStart(data, k))
        invariant forall v: nat :: KernelStart(data, k) <= v < VPAGES ==> Val(page, User(d, v)) == 0
      {
        ghost var page2, owner2, free2 := page, owner, free;
        var m := Region(data, k);
        RegionOrder(data, k);
        NothingHit(page, d, |free|, 0, m.first, m.last + 1);
        var st := Mappages(d, m.first, m.last, m.base, m.perm, false, Alive);
        GrowSpace(old(page), old(owner), page2, owner2, page, owner, d, m.first, m.last + 1);
        BuiltMore(page2, free2, page, free, d, data, k, |old(free)| - 1);
        if st.OutOfMemory? {
          BuiltShort(page, d, data, k, |old(free)| - 1);
          ghost var page3, owner3 := page, owner;
          Freevm(d);
          SpaceUndone(old(page), old(owner), page3, owner3, page, owner, d);
          return 0;
        }
        RegionIs(page, d, data, k);
        RegionsKept(page2, owner2, page, owner, d, data, k);
        KernelMore(page2, page, d, data, k);
        k := k + 1;
      }
      BuiltAll(page, d, data, |free|, |old(free)| - 1);
    }

    /** A fresh page with the given contents as page v of d. When no table can be made the page stays held. */
    method AddPage(d: nat, v: nat, contents: Page, perm: nat) returns (st: Status, mem: nat)
      requires Valid() && d in owner && owner[d] == Dir && v < USERPAGES && perm < PGSIZE
      modifies this
      ensures Valid() && d in owner && owner[d] == Dir && (mem != 0 ==> mem in old(owner) && old(owner)[mem].Free?)
      ensures st.Done? ==> mem != 0 && Frame(old(page), old(owner), Alive, page, owner, d, {}, v, v + 1)
      ensures st.Done? ==> mem < VPAGES && Val(page, User(d, v)) == Entry(mem, perm) && mem in page && page[mem] == contents
      ensures st.Done? ==> mem in owner && owner[mem] == User(d, v)
      ensures st.Panic? <==> old(free) != [] && old(Present(Val(page, User(d, v))))
      ensures st.OutOfMemory? <==> |old(free)| < 1 + (if d in old(page) && old(Present(page[d][v / ENTRIES])) then 0 else 1)
      ensures st.Done? ==> !old(Present(Val(page, User(d, v)))) && Stepped(old(page), old(free), page, free, d, v, 1)
      ensures !st.Done? ==> owner == (if mem == 0 then old(owner) else old(owner)[mem := Held]) && SameBut(old(page), page, mem)
      ensures !st.Done? && mem == 0 ==> unchanged(this)
    {
      hide Owned; hide Chained; hide Listed; hide Val; hide Present; hide Target; hide MapsTo; hide Frame; hide Paid;
      hide Enough; hide Hits;
      OwnedKeys(page, owner, Alive);
      if !Present(page[d][v / ENTRIES]) { NoTable(page, d, v); }
      mem := Kalloc(Alive);
      if mem == 0 {
        return OutOfMemory, 0;
      }
      InPage(page, freelist, free, owner, Alive, mem);
      NotFree(page, freelist, free, owner, Alive, mem);
      Scratch(page, owner, Alive, mem, contents, Held);
      ChainScratch(page, freelist, free, mem, contents);
      assert owner[mem := Held] == owner;
      page := page[mem := contents];
      ghost var page1, owner1 := page, owner;
      AddEntries(old(page), old(owner), page1, d, v, mem, contents);
      OnePage(page, d, |free|, v);
      st := Mappages(d, v, v, mem, perm, true, Alive);
      if st.Done? {
        AddFrame(old(page), old(owner), page1, owner1, page, owner, d, v, mem, contents);
        MapsOne(page, d, v, mem, perm);
      }
    }

    /**
     Grows the process with zeroed pages, exactly when none of the range is mapped and
     the free pages cover the pages and the missing page tables; panics exactly when it
     gets to a mapped page. Out of memory (0), the mapped pages are those of before, if
     none of the range was mapped, and every page taken is free again unless it has
     become a page table.
     */
    method Allocuvm(d: nat, oldsz: word, newsz: word) returns (panic: bool, r: word)
      requires Valid() && d in owner && owner[d] == Dir
      modifies this
      ensures Valid() && d in owner && owner[d] == Dir
      ensures newsz >= KERNBASE ==> !panic && r == 0 && unchanged(this)
      ensures newsz < KERNBASE && newsz < oldsz ==> !panic && r == oldsz && unchanged(this)
      ensures panic <==> oldsz <= newsz < KERNBASE && Hits(old(page), d, |old(free)|, 1, Up(oldsz), Up(newsz))
      ensures oldsz <= newsz < KERNBASE && !panic ==>
                r == if Enough(old(page), d, |old(free)|, 1, Up(oldsz), Up(newsz)) then newsz else 0
      ensures oldsz <= newsz < KERNBASE && Enough(old(page), d, |old(free)|, 1, Up(oldsz), Up(newsz)) ==>
                !panic && Grown(old(page), old(owner), page, owner, d, Up(oldsz), Up(newsz))
      ensures oldsz <= newsz < KERNBASE && old(NoneMapped(page, d, Up(oldsz), Up(newsz))) ==>
                Enough(old(page), d, |old(free)|, 1, Up(oldsz), Up(newsz)) || Regained(old(page), old(owner), page, owner, d)
    {
      hide Owned; hide Chained; hide Listed; hide Val; hide Present; hide Target; hide Frame; hide Grown;
      hide Regained; hide Unmapped; hide Scan; hide Fresh; hide Enough; hide Hits; hide Spending; hide Stepped;
      hide NoneMapped;
      if newsz >= KERNBASE {
        return false, 0;
      }
      if newsz < oldsz {
        return false, oldsz;
      }
      ghost var lo, hi := Up(oldsz), Up(newsz);
      var a := Up(oldsz);
      OwnedKeys(page, owner, Alive);
      FrameRefl(page, owner, Alive, d, {}, lo, lo);
      UpFacts2(oldsz, newsz);
      SpendingNone(page, free, d, 1, lo);
      NoneMappedMore(page, d, lo, lo);
      while a * PGSIZE < newsz
        invariant lo <= a <= hi && Valid() && d in owner && owner[d] == Dir
        invariant Frame(old(page), old(owner), Alive, page, owner, d, {}, lo, a)
        invariant forall v: nat :: lo <= v < a ==> Fresh(old(owner), page, owner, d, v)
        invariant NoneMapped(old(page), d, lo, a)
        invariant Spending(old(page), old(free), page, free, d, 1, lo, a)
        decreases hi - a
      {
        ghost var page1, owner1, free1 := page, owner, free;
        OwnedKeys(page, owner, Alive);
        FrameEntry(old(page), old(owner), Alive, page, owner, d, lo, a);
        var st, mem := AddPage(d, a, Fill(0), 6);
        if st.Panic? {
          SpendingHit(old(page), old(free), page1, free1, d, 1, lo, a, hi);
          return true, 0;
        }
        if !st.Done? {
          SpendingStuck(old(page), old(free), page1, free1, d, 1, lo, a, hi);
          ghost var page2, owner2 := page, owner;
          var back := Deallocuvm(d, newsz, oldsz);
          ghost var page3, owner3 := page, owner;
          if mem != 0 {
            StillHeld(page2, owner2, page3, owner3, d, lo, hi, mem);
            KfreeHeld(mem, Alive);
            Detour(page1, owner1, page2, owner2, page3, owner3, page, owner, d, lo, hi, mem);
          }
          if old(NoneMapped(page, d, lo, hi)) {
            RegainedAll(old(page), old(owner), page1, owner1, page, owner, d, lo, a, hi);
          }
          return false, 0;
        }
        FrameTrans(old(page), old(owner), Alive, page1, owner1, page, owner, d, {}, lo, a, a + 1);
        FreshMore(old(page), old(owner), page1, owner1, page, owner, d, lo, a, mem);
        SpendingMore(old(page), old(free), page1, free1, page, free, d, 1, lo, a);
        NoneMappedMore(old(page), d, lo, a);
        a := a + 1;
      }
      SpendingDone(old(page), old(free), page, free, d, 1, lo, hi);
      GrownIs(old(page), old(owner), page, owner, d, lo, hi);
      panic, r := false, newsz;
    }

    /**
     A second address space with copies of the first sz bytes' pages, under the
     same flags, on pages of its own, exactly when the parent has them all and there are
     enough free pages; panics exactly when it gets to a page the parent lacks. Out of
     memory, every page taken is free again.
     */
    method Copyuvm(d: nat, sz: word, data: nat) returns (st: Status, n: nat)
      requires Valid() && d in owner && owner[d] == Dir && sz <= KERNBASE && EXTMEM < data < PHYSTOP
      modifies this
      ensures Valid()
      ensures st.Done? ==> NewSpace(old(page), old(owner), page, owner, n) && KernelMapped(page, n, data)
      ensures st.Done? ==> Copied(old(page), page, owner, d, n, Up(sz)) && NoneFrom(page, n, Up(sz))
      ensures st.OutOfMemory? ==> n == 0 && owner == old(owner) && HeldContents(old(page), old(owner), page)
      ensures st.Done? <==> CopyEnough(old(page), d, |old(free)|, Up(sz))
      ensures st.Panic? <==> CopyHits(old(page), d, |old(free)|, Up(sz))
    {
      hide Owned; hide Chained; hide Listed; hide Val; hide Present; hide Target; hide Flags; hide NewSpace;
      hide MapsTo; hide Frame; hide HeldContents;
      hide Released; hide Copied; hide NoneFrom; hide KernelMapped; hide NoUserPages; hide SameBut; hide Entry;
      hide Spending; hide Stepped; hide CopyEnough; hide CopyHits; hide NoUserTables; hide AllMapped; hide CopyNeed;
      ghost var hi := Up(sz);
      n := Setupkvm(data);
      if n == 0 {
        CopyNothing(old(page), d, |old(free)|, hi);
        return OutOfMemory, 0;
      }
      ghost var page0, free0 := page, free;
      OwnedKeys(page, owner, Alive);
      InNewSpace(old(page), old(owner), page, owner, n);
      var i := 0;
      UpFacts3(sz);
      CopiedNone(old(page), page, owner, d, n);
      SpendingNone(page, free, n, 1, 0);
      AllMappedMore(old(page), d, 0);
      while i * PGSIZE < sz
        invariant 0 <= i <= hi && Valid() && NewSpace(old(page), old(owner), page, owner, n)
        invariant KernelMapped(page, n, data)
        invariant Copied(old(page), page, owner, d, n, i) && NoneFrom(page, n, i)
        invariant Spending(page0, free0, page, free, n, 1, 0, i) && AllMapped(old(page), d, i)
        decreases hi - i
      {
        ghost var page1, owner1, free1 := page, owner, free;
        CopySpent(page0, free0, page, free, n, i);
        AllMappedMore(old(page), d, i);
        ParentSame(old(page), old(owner), page, owner, n, d, i);
        var t := Walkpgdir(d, i, false, Alive);
        if t == 0 {
          NoTable(page, d, i);
          CopyLacks(old(page), d, |old(free)|, i, hi);
          return Panic, 0;
        }
        var pte := page[t][i % ENTRIES];
        if !Present(pte) {
          CopyLacks(old(page), d, |old(free)|, i, hi);
          return Panic, 0;
        }
        var pa := Target(pte);
        PageOf(old(page), old(owner), page, owner, n, d, i);
        FlagsSmall(pte);
        NoneAt(page, n, i);
        var mem;
        st, mem := AddPage(n, i, page[pa], Flags(pte));
        if !st.Done? {
          ghost var page2, owner2 := page, owner;
          if mem != 0 {
            KfreeHeld(mem, Alive);
            SpaceDetour(old(page), old(owner), page1, owner1, page2, page, owner, n, mem);
          }
          ghost var page3, owner3 := page, owner;
          InNewSpace(old(page), old(owner), page, owner, n);
          Freevm(n);
          SpaceUndone(old(page), old(owner), page3, owner3, page, owner, n);
          CopyStuck(old(page), d, |old(free)|, i, hi);
          return OutOfMemory, 0;
        }
        GrowSpace(old(page), old(owner), page1, owner1, page, owner, n, i, i + 1);
        KernelKept(page1, page, n, data, i);
        CopyMore(old(page), old(owner), page1, owner1, page, owner, d, n, i, mem, pte, pa);
        SpendingMore(page0, free0, page1, free1, page, free, n, 1, 0, i);
        i := i + 1;
      }
      CopySpent(page0, free0, page, free, n, hi);
      CopyAll(old(page), d, |old(free)|, hi);
      st := Done;
    }
  }

  lemma OwnedKeys(page: map<nat, Page>, owner: map<nat, Use>, z: Dying)
    requires Owned(page, owner, z)
    ensures page.Keys == owner.Keys
  {
  }

  lemma HoldPage(page: map<nat, Page>, owner: map<nat, Use>, z: Dying, p: nat)
    requires Owned(page, owner, z) && p in owner && owner[p].Free?
    ensures Owned(page, owner[p := Held], z)
  {
    hide Owned;
    OwnedKeys(page, owner, z);
    Scratch(page, owner, z, p, page[p], Held);
    assert page[p := page[p]] == page;
  }

  lemma ListedPop(owner: map<nat, Use>, free: seq<nat>)
    requires Listed(owner, free) && free != [] && free[0] !in free[1..]
    ensures Listed(owner[free[0] := Held], free[1..])
  {
    assert free == [free[0]] + free[1..];
  }

  lemma ListedPush(owner: map<nat, Use>, free: seq<nat>, p: nat)
    requires Listed(owner, free)
    ensures Listed(owner[p := Free], [p] + free)
  {
  }

  lemma InPage(page: map<nat, Page>, freelist: word, free: seq<nat>, owner: map<nat, Use>, z: Dying, t: nat)
    requires Chained(page, freelist, free) && Owned(page, owner, z) && t in owner
    ensures t in page && 0 < t < PHYSTOP
  {
  }

  lemma NotFree(page: map<nat, Page>, freelist: word, free: seq<nat>, owner: map<nat, Use>, z: Dying, p: nat)
    requires Chained(page, freelist, free) && Listed(owner, free) && Owned(page, owner, z) && p in owner
    requires !owner[p].Free?
    ensures p in page && p !in free
  {
  }

  lemma ListedKeeps(owner: map<nat, Use>, free: seq<nat>, p: nat, u: Use)
    requires Listed(owner, free) && p in owner && !owner[p].Free? && !u.Free?
    ensures Listed(owner[p := u], free)
  {
  }

  lemma TableVal(page: map<nat, Page>, d: nat, v: nat, t: nat)
    requires d in page && v < VPAGES && Present(page[d][v / ENTRIES]) && t == Target(page[d][v / ENTRIES]) && t in page
    ensures Val(page, User(d, v)) == page[t][v % ENTRIES]
  {
  }

  lemma NoTable(page: map<nat, Page>, d: nat, v: nat)
    requires d in page && v < VPAGES && !Present(page[d][v / ENTRIES])
    ensures !Present(Val(page, User(d, v)))
  {
  }

  lemma WalkedEntry(p0: map<nat, Page>, a: map<nat, Use>, z: Dying, p1: map<nat, Page>, b: map<nat, Use>, d: nat,
                    v: nat, ppn: nat)
    requires Frame(p0, a, z, p1, b, d, {}, v, v) && Seen(a, z, User(d, v))
    ensures Val(p1, User(d, v)) == Val(p0, User(d, v)) && (ppn in a && a[ppn].Held? ==> ppn in b && b[ppn].Held?)
  {
    hide Val;
  }

  /** Pages from..to of d map to consecutive physical pages. */
  ghost predicate MapsTo(page: map<nat, Page>, d: nat, from: nat, to: nat, base: nat, perm: nat) {
    perm < PGSIZE && forall v :: from <= v < to ==> base + (v - from) < VPAGES && Val(page, User(d, v)) == Entry(base + (v - from), perm)
  }

  lemma MapsNothing(page: map<nat, Page>, d: nat, from: nat, base: nat, perm: nat)
    requires perm < PGSIZE
    ensures MapsTo(page, d, from, from, base, perm)
  {
  }

  lemma MapsOneMore(p0: map<nat, Page>, a: map<nat, Use>, z: Dying, p1: map<nat, Page>, b: map<nat, Use>, d: nat,
                    extra: set<nat>, from: nat, v: nat, base: nat, perm: nat)
    requires MapsTo(p0, d, from, v, base, perm) && Frame(p0, a, z, p1, b, d, extra, v, v + 1) && z.Alive? && d in a
    requires a[d] == Dir && from <= v < VPAGES
    requires base + (v - from) < VPAGES && Val(p1, User(d, v)) == Entry(base + (v - from), perm)
    ensures MapsTo(p1, d, from, v + 1, base, perm)
  {
    hide Val; hide Entry;
    forall w | from <= w < v ensures Val(p1, User(d, w)) == Val(p0, User(d, w)) {
      assert Seen(a, z, User(d, w));
    }
  }

  lemma FrameEntry(p0: map<nat, Page>, a: map<nat, Use>, z: Dying, p1: map<nat, Page>, b: map<nat, Use>, d: nat,
                   from: nat, v: nat)
    requires Frame(p0, a, z, p1, b, d, {}, from, v) && z.Alive? && d in b && b[d] == Dir && v < VPAGES
    ensures Val(p1, User(d, v)) == Val(p0, User(d, v))
  {
    hide Val;
    assert Seen(a, z, User(d, v));
  }

  lemma FrameWiden(p0: map<nat, Page>, a: map<nat, Use>, z: Dying, p1: map<nat, Page>, b: map<nat, Use>, d: nat,
                   extra: set<nat>, from: nat, v: nat, to: nat)
    requires Frame(p0, a, z, p1, b, d, extra, from, v) && v <= to
    ensures Frame(p0, a, z, p1, b, d, extra, from, to)
  {
    hide Val;
  }

  // ----- unmapping -----

  function Up(sz: word): nat {
    (sz + PGSIZE - 1) / PGSIZE
  }

  ghost predicate InSpan(u: Use, d: nat, lo: nat, hi: nat) {
    u.User? && u.dir == d && lo <= u.v < hi
  }

  /** Exactly the mapped pages lo..hi of d were freed and their entries zeroed. */
  ghost predicate Unmapped(page: map<nat, Page>, owner: map<nat, Use>, page': map<nat, Page>, owner': map<nat, Use>,
                           d: nat, lo: nat, hi: nat)
  {
    && page'.Keys == page.Keys == owner.Keys
    && OwnersFreed(owner, owner', d, lo, hi) && EntriesZeroed(page, owner, page', d, lo, hi) && RestKept(page, owner, page', d, lo, hi)
  }

  ghost predicate OwnersFreed(owner: map<nat, Use>, owner': map<nat, Use>, d: nat, lo: nat, hi: nat) {
    owner'.Keys == owner.Keys && forall p :: p in owner ==> owner'[p] == if InSpan(owner[p], d, lo, hi) then Free else owner[p]
  }

  ghost predicate EntriesZeroed(page: map<nat, Page>, owner: map<nat, Use>, page': map<nat, Page>, d: nat, lo: nat,
                                hi: nat)
  {
    forall r :: Seen(owner, Alive, r) ==> Val(page', r) == if InSpan(r, d, lo, hi) && Present(Val(page, r)) then 0 else Val(page, r)
  }

  ghost predicate RestKept(page: map<nat, Page>, owner: map<nat, Use>, page': map<nat, Page>, d: nat, lo: nat, hi: nat)
    requires page'.Keys == page.Keys == owner.Keys
  {
    forall p :: p in owner && !owner[p].Free? && !InSpan(owner[p], d, lo, hi) && !(owner[p].Table? && owner[p].dir == d) ==> page'[p] == page[p]
  }

  lemma SeenAfter(owner: map<nat, Use>, owner': map<nat, Use>, d: nat, lo: nat, hi: nat, r: Use)
    requires OwnersFreed(owner, owner', d, lo, hi) && Seen(owner, Alive, r)
    ensures Seen(owner', Alive, r)
  {
  }

  /** Looking at pages v..hi of d one by one and pushing every mapped page on acc. */
  ghost function Scan(page: map<nat, Page>, d: nat, v: nat, hi: nat, acc: seq<nat>): seq<nat>
    decreases hi - v
  {
    if v >= hi then acc
    else Scan(page, d, v + 1, hi, if Present(Val(page, User(d, v))) then [Target(Val(page, User(d, v)))] + acc else acc)
  }

  lemma ScanEnd(page: map<nat, Page>, d: nat, v: nat, hi: nat, acc: seq<nat>)
    requires v >= hi
    ensures Scan(page, d, v, hi, acc) == acc
  {
  }

  lemma {:induction false} ScanHole(page: map<nat, Page>, d: nat, v: nat, w: nat, hi: nat, acc: seq<nat>)
    requires v <= w && forall x: nat :: v <= x < w && x < hi ==> !Present(Val(page, User(d, x)))
    ensures Scan(page, d, v, hi, acc) == Scan(page, d, w, hi, acc)
    decreases w - v
  {
    hide Val; hide Present;
    if v < w { ScanHole(page, d, v + 1, w, hi, acc); }
  }

  lemma UpFacts(newsz: word, oldsz: word)
    requires newsz < oldsz <= KERNBASE
    ensures Up(newsz) <= Up(oldsz) <= USERPAGES
    ensures forall a: nat :: a * PGSIZE < oldsz <==> a < Up(oldsz)
  {
  }

  lemma InRange(a: nat, oldsz: word)
    requires a * PGSIZE < oldsz <= KERNBASE
    ensures a < USERPAGES && a < Up(oldsz) && a / ENTRIES < 512
  {
  }

  lemma UnmappedNone(page: map<nat, Page>, owner: map<nat, Use>, d: nat, lo: nat)
    requires Owned(page, owner, Alive)
    ensures Unmapped(page, owner, page, owner, d, lo, lo)
  {
  }

  lemma EntryTarget(page: map<nat, Page>, owner: map<nat, Use>, z: Dying, d: nat, v: nat, t: nat)
    requires Owned(page, owner, z) && v < USERPAGES && Seen(owner, z, User(d, v)) && Present(page[d][v / ENTRIES])
    requires t == Target(page[d][v / ENTRIES])
    requires t in page && Present(page[t][v % ENTRIES])
    ensures var p := Target(page[t][v % ENTRIES]); p in owner && owner[p] == User(d, v) && owner[t] == Table(d, v / ENTRIES)
  {
    TableOf(page, owner, z, d, v / ENTRIES);
    TableVal(page, d, v, t);
    assert Live(owner, z, User(d, v));
  }

  function Min(a: nat, b: nat): nat {
    if a < b then a else b
  }

  /** Pages a..w without a present entry need nothing done. */
  lemma SkipSpan(p0: map<nat, Page>, o0: map<nat, Use>, p1: map<nat, Page>, o1: map<nat, Use>, d: nat, lo: nat,
                 a: nat, w: nat, hi: nat, freed: seq<nat>)
    requires Owned(p0, o0, Alive) && Owned(p1, o1, Alive) && d in o0 && o0[d] == Dir
    requires Unmapped(p0, o0, p1, o1, d, lo, a) && lo <= a <= w && a <= hi <= USERPAGES
    requires forall x: nat :: a <= x < w && x < hi ==> !Present(Val(p1, User(d, x)))
    ensures Unmapped(p0, o0, p1, o1, d, lo, Min(w, hi)) && Scan(p0, d, a, hi, freed) == Scan(p0, d, w, hi, freed)
  {
    hide Val; hide Present; hide Target; hide Scan;
    forall x: nat | a <= x < w && x < hi ensures !Present(Val(p0, User(d, x))) {
      assert Seen(o0, Alive, User(d, x)) && !InSpan(User(d, x), d, lo, a);
    }
    ScanHole(p0, d, a, w, hi, freed);
    var to := Min(w, hi);
    forall p | p in o0 && InSpan(o0[p], d, lo, to) ensures InSpan(o0[p], d, lo, a) {
      assert Live(o0, Alive, o0[p]) && Present(Val(p0, o0[p]));
    }
  }

  lemma SkipHole(p0: map<nat, Page>, o0: map<nat, Use>, p1: map<nat, Page>, o1: map<nat, Use>, d: nat, lo: nat,
                 a: nat, hi: nat, freed: seq<nat>)
    requires Owned(p0, o0, Alive) && Owned(p1, o1, Alive) && d in o0 && o0[d] == Dir
    requires Unmapped(p0, o0, p1, o1, d, lo, a) && lo <= a < hi <= USERPAGES
    requires d in p1 && !Present(p1[d][a / ENTRIES])
    ensures var w := (a / ENTRIES + 1) * ENTRIES; a < w && Unmapped(p0, o0, p1, o1, d, lo, Min(w, hi)) && Scan(p0, d, a, hi, freed) == Scan(p0, d, w, hi, freed)
  {
    hide Owned; hide Unmapped; hide Scan; hide Val;
    var w := (a / ENTRIES + 1) * ENTRIES;
    forall x: nat | a <= x < w && x < hi ensures !Present(Val(p1, User(d, x))) {
      assert x / ENTRIES == a / ENTRIES;
      NoTable(p1, d, x);
    }
    SkipSpan(p0, o0, p1, o1, d, lo, a, w, hi, freed);
  }

  lemma SkipOne(p0: map<nat, Page>, o0: map<nat, Use>, p1: map<nat, Page>, o1: map<nat, Use>, d: nat, lo: nat, a: nat,
                hi: nat, freed: seq<nat>)
    requires Owned(p0, o0, Alive) && Owned(p1, o1, Alive) && d in o0 && o0[d] == Dir
    requires Unmapped(p0, o0, p1, o1, d, lo, a) && lo <= a < hi <= USERPAGES
    requires !Present(Val(p1, User(d, a)))
    ensures Unmapped(p0, o0, p1, o1, d, lo, a + 1) && Scan(p0, d, a, hi, freed) == Scan(p0, d, a + 1, hi, freed)
  {
    hide Owned; hide Unmapped; hide Scan; hide Val; hide Present;
    SkipSpan(p0, o0, p1, o1, d, lo, a, a + 1, hi, freed);
  }

  lemma UnmapStep(p0: map<nat, Page>, o0: map<nat, Use>, p1: map<nat, Page>, o1: map<nat, Use>, p2: map<nat, Page>, o2: map<nat, Use>,
                  d: nat, lo: nat, a: nat, hi: nat, t: nat, p: nat, freed: seq<nat>)
    requires Owned(p0, o0, Alive) && d in o0 && o0[d] == Dir && Unmapped(p0, o0, p1, o1, d, lo, a)
    requires lo <= a < hi <= USERPAGES && p2.Keys == p1.Keys
    requires p in o1 && t in o1 && o1[p] == User(d, a) && o1[t] == Table(d, a / ENTRIES) && o2 == o1[p := Free]
    requires Present(Val(p1, User(d, a))) && Target(Val(p1, User(d, a))) == p
    requires (forall q :: q in p2 && q != p && q != t ==> p2[q] == p1[q]) && Val(p2, User(d, a)) == 0
    requires forall r :: Seen(o1, Alive, r) && r != User(d, a) ==> Val(p2, r) == Val(p1, r)
    ensures Unmapped(p0, o0, p2, o2, d, lo, a + 1) && Scan(p0, d, a, hi, freed) == Scan(p0, d, a + 1, hi, [p] + freed)
  {
    hide Val; hide Present; hide Target; hide OwnersFreed; hide EntriesZeroed; hide RestKept; hide Owned;
    UnmapOwners(p0, o0, o1, o2, d, lo, a, p);
    UnmapEntries(p0, o0, p1, o1, p2, d, lo, a);
    UnmapRest(p0, o0, p1, o1, p2, d, lo, a, t, p);
  }

  lemma UnmapOwners(p0: map<nat, Page>, o0: map<nat, Use>, o1: map<nat, Use>, o2: map<nat, Use>, d: nat, lo: nat,
                    a: nat, p: nat)
    requires Owned(p0, o0, Alive) && OwnersFreed(o0, o1, d, lo, a) && lo <= a && p in o1 && o1[p] == User(d, a)
    requires o2 == o1[p := Free]
    ensures OwnersFreed(o0, o2, d, lo, a + 1)
  {
    hide Val; hide Present; hide Target; hide Live;
    forall q | q in o0 ensures o2[q] == if InSpan(o0[q], d, lo, a + 1) then Free else o0[q] {
      assert o0[q] == User(d, a) ==> Target(Val(p0, o0[q])) == q && Target(Val(p0, o0[p])) == p;
    }
  }

  lemma UnmapEntries(p0: map<nat, Page>, o0: map<nat, Use>, p1: map<nat, Page>, o1: map<nat, Use>, p2: map<nat, Page>,
                     d: nat, lo: nat, a: nat)
    requires OwnersFreed(o0, o1, d, lo, a) && EntriesZeroed(p0, o0, p1, d, lo, a) && d in o0 && o0[d] == Dir
    requires lo <= a < USERPAGES
    requires Present(Val(p1, User(d, a))) && Val(p2, User(d, a)) == 0
    requires forall r :: Seen(o1, Alive, r) && r != User(d, a) ==> Val(p2, r) == Val(p1, r)
    ensures EntriesZeroed(p0, o0, p2, d, lo, a + 1) && Val(p1, User(d, a)) == Val(p0, User(d, a))
  {
    hide Val; hide Present; hide OwnersFreed;
    assert Seen(o0, Alive, User(d, a)) && !InSpan(User(d, a), d, lo, a);
    forall r | Seen(o0, Alive, r)
      ensures Val(p2, r) == if InSpan(r, d, lo, a + 1) && Present(Val(p0, r)) then 0 else Val(p0, r)
    {
      SeenAfter(o0, o1, d, lo, a, r);
    }
  }

  lemma UnmapRest(p0: map<nat, Page>, o0: map<nat, Use>, p1: map<nat, Page>, o1: map<nat, Use>, p2: map<nat, Page>,
                  d: nat, lo: nat, a: nat, t: nat, p: nat)
    requires p2.Keys == p1.Keys == p0.Keys == o0.Keys && OwnersFreed(o0, o1, d, lo, a)
    requires RestKept(p0, o0, p1, d, lo, a) && lo <= a
    requires p in o1 && t in o1 && o1[p] == User(d, a) && o1[t] == Table(d, a / ENTRIES)
    requires forall q :: q in p2 && q != p && q != t ==> p2[q] == p1[q]
    ensures RestKept(p0, o0, p2, d, lo, a + 1)
  {
  }

  // ----- freevm -----

  /** The first k page tables of d are back on the list. */
  ghost predicate Torn(page: map<nat, Page>, owner: map<nat, Use>, page': map<nat, Page>, owner': map<nat, Use>,
                       d: nat, k: nat)
  {
    && page'.Keys == page.Keys == owner.Keys == owner'.Keys
    && (forall p :: p in owner ==> owner'[p] == if owner[p].Table? && owner[p].dir == d && owner[p].i < k then Free else owner[p])
    && (forall p :: p in owner && !(owner[p].Table? && owner[p].dir == d) ==> page'[p] == page[p])
  }

  /** The pages that belonged to d are free, all others as they were. */
  ghost predicate Released(page: map<nat, Page>, owner: map<nat, Use>, page': map<nat, Page>, owner': map<nat, Use>,
                           d: nat)
  {
    && page'.Keys == page.Keys == owner.Keys == owner'.Keys
    && (forall p :: p in owner ==> owner'[p] == if Belongs(p, owner[p], d) then Free else owner[p])
    && (forall p :: p in owner && !owner[p].Free? && !Belongs(p, owner[p], d) ==> page'[p] == page[p])
  }

  lemma UpBounds()
    ensures Up(0) == 0 && Up(KERNBASE) == USERPAGES
  {
  }

  lemma TearStep(p0: map<nat, Page>, o0: map<nat, Use>, p1: map<nat, Page>, o1: map<nat, Use>, p2: map<nat, Page>,
                 o2: map<nat, Use>, d: nat, k: nat, t: nat)
    requires Torn(p0, o0, p1, o1, d, k) && t in o1 && o1[t] == Table(d, k) && o2 == o1[t := Free] && k < ENTRIES
    requires p2.Keys == p1.Keys && (forall q :: q in p2 && q != t ==> p2[q] == p1[q]) && Owned(p1, o1, Dying(d, k))
    ensures Torn(p0, o0, p2, o2, d, k + 1)
  {
    hide Val; hide Present; hide Target; hide Live;
    forall q | q in o1 && o1[q] == Table(d, k) ensures q == t {
      assert Target(Val(p1, o1[q])) == q && Target(Val(p1, o1[t])) == t;
    }
  }

  lemma TearUsers(p1: map<nat, Page>, o1: map<nat, Use>, p2: map<nat, Page>, d: nat, k: nat)
    requires d in o1 && o1[d] == Dir && forall s :: Live(o1, Dying(d, k + 1), s) ==> Val(p2, s) == Val(p1, s)
    requires forall i: nat :: k <= i < ENTRIES ==> NoUsers(p1, d, i)
    ensures forall i: nat :: k + 1 <= i < ENTRIES ==> NoUsers(p2, d, i)
  {
    hide Val; hide Present; hide Target;
    forall i: nat | k + 1 <= i < ENTRIES ensures NoUsers(p2, d, i) {
      assert NoUsers(p1, d, i);
      forall v: nat | v / ENTRIES == i && v < USERPAGES ensures !Present(Val(p2, User(d, v))) {
        assert Live(o1, Dying(d, k + 1), User(d, v));
      }
    }
  }

  lemma TearSkip(p0: map<nat, Page>, o0: map<nat, Use>, p1: map<nat, Page>, o1: map<nat, Use>, d: nat, k: nat)
    requires Torn(p0, o0, p1, o1, d, k) && Owned(p1, o1, Dying(d, k)) && k < ENTRIES && d in p1 && !Present(p1[d][k])
    ensures Torn(p0, o0, p1, o1, d, k + 1)
  {
    forall q | q in o1 ensures o1[q] != Table(d, k) {
      if o1[q].Table? { assert Present(Val(p1, o1[q])); }
    }
  }

  lemma AllUnmapped(p0: map<nat, Page>, o0: map<nat, Use>, p1: map<nat, Page>, o1: map<nat, Use>, d: nat)
    requires Unmapped(p0, o0, p1, o1, d, 0, USERPAGES) && d in o0 && o0[d] == Dir
    ensures forall k: nat :: k < ENTRIES ==> NoUsers(p1, d, k)
  {
    hide Val; hide Present;
    NotPresent();
    forall v: nat | v < USERPAGES ensures !Present(Val(p1, User(d, v))) {
      assert Seen(o0, Alive, User(d, v)) && InSpan(User(d, v), d, 0, USERPAGES);
    }
  }

  lemma ReleasedAll(p0: map<nat, Page>, o0: map<nat, Use>, p1: map<nat, Page>, o1: map<nat, Use>, p2: map<nat, Page>,
                    o2: map<nat, Use>, p3: map<nat, Page>, o3: map<nat, Use>, d: nat)
    requires Owned(p0, o0, Alive) && d in o0 && o0[d] == Dir
    requires Unmapped(p0, o0, p1, o1, d, 0, USERPAGES) && Torn(p1, o1, p2, o2, d, ENTRIES)
    requires p3.Keys == p2.Keys && o3 == o2[d := Free] && forall q :: q in p3 && q != d ==> p3[q] == p2[q]
    ensures Released(p0, o0, p3, o3, d)
  {
    hide Val; hide Present; hide Target; hide Seen; hide Owned;
    InSpace(p0, o0, d);
    forall p | p in o0
      ensures o3[p] == (if Belongs(p, o0[p], d) then Free else o0[p])
      ensures !o0[p].Free? && !Belongs(p, o0[p], d) ==> p3[p] == p0[p]
    {
      assert o1[p] == if InSpan(o0[p], d, 0, USERPAGES) then Free else o0[p];
    }
  }

  lemma InSpace(page: map<nat, Page>, owner: map<nat, Use>, d: nat)
    requires Owned(page, owner, Alive)
    ensures forall p :: p in owner && (owner[p].Table? || owner[p].User?) && owner[p].dir == d ==>
              if owner[p].Table? then owner[p].i < ENTRIES else InSpan(owner[p], d, 0, USERPAGES)
  {
    hide Val; hide Present; hide Target;
  }

  // ----- setupkvm -----

  const EXTMEM: nat := 256               // page number of 0x100000
  const KERNPAGES: nat := 65             // the directory, and the page tables of the kernel's regions
  const DEVSPACE: nat := 1040384         // page number of 0xFE000000

  /** One row of kmap, in pages. */
  datatype Kmap = Kmap(first: nat, last: nat, base: nat, perm: nat)

  /** Row k of kmap; data is the physical page at which the kernel's data starts. */
  function Region(data: nat, k: nat): Kmap
    requires EXTMEM < data < PHYSTOP && k < 4
  {
    match k
    case 0 => Kmap(USERPAGES, USERPAGES + EXTMEM - 1, 0, 2)
    case 1 => Kmap(USERPAGES + EXTMEM, USERPAGES + data - 1, EXTMEM, 0)
    case 2 => Kmap(USERPAGES + data, USERPAGES + PHYSTOP - 1, data, 2)
    case _ => Kmap(DEVSPACE, VPAGES - 1, DEVSPACE, 2)
  }

  ghost predicate RegionMapped(page: map<nat, Page>, d: nat, data: nat, k: nat)
    requires EXTMEM < data < PHYSTOP && k < 4
  {
    var m := Region(data, k); MapsTo(page, d, m.first, m.last + 1, m.base, m.perm)
  }

  /**
   The kernel's view of virtual page v: all of physical memory above KERNBASE, where the code, from EXTMEM to
   data, is read-only, and the devices at their own addresses; nothing of it for user mode.
   */
  ghost predicate KernelEntry(e: word, v: nat, data: nat) {
    if USERPAGES + PHYSTOP <= v < DEVSPACE then !Present(e)
    else
      && Present(e) && !UserMode(e) && Target(e) == (if v < DEVSPACE then v - USERPAGES else v)
      && (Writable(e) <==> !(USERPAGES + EXTMEM <= v < USERPAGES + data))
  }

  ghost predicate KernelBelow(page: map<nat, Page>, d: nat, data: nat, end: nat) {
    forall v: nat :: USERPAGES <= v < end ==> KernelEntry(Val(page, User(d, v)), v, data)
  }

  ghost predicate KernelMapped(page: map<nat, Page>, d: nat, data: nat) {
    KernelBelow(page, d, data, VPAGES)
  }

  /** Where the rows from k on start. */
  function KernelStart(data: nat, k: nat): nat
    requires EXTMEM < data < PHYSTOP && k <= 4
  {
    if k < 4 then Region(data, k).first else VPAGES
  }

  lemma RegionOrder(data: nat, k: nat)
    requires EXTMEM < data < PHYSTOP && k < 4
    ensures var m := Region(data, k); USERPAGES <= m.first <= m.last < VPAGES && m.base + (m.last - m.first) < VPAGES && m.perm < PGSIZE
    ensures Region(data, k).last < KernelStart(data, k + 1)
    ensures forall j: nat :: j < k ==> Region(data, j).last < Region(data, k).first
  {
  }

  ghost predicate NoUserPages(page: map<nat, Page>, d: nat) {
    forall v: nat :: v < USERPAGES ==> !Present(Val(page, User(d, v)))
  }

  ghost predicate NoUserTables(page: map<nat, Page>, d: nat) {
    d in page && forall i: nat :: i < USERPAGES / ENTRIES ==> !Present(page[d][i])
  }

  /** Pages in use keep their contents. */
  ghost predicate HeldContents(page: map<nat, Page>, owner: map<nat, Use>, page': map<nat, Page>) {
    page'.Keys == page.Keys == owner.Keys && forall p :: p in owner && !owner[p].Free? ==> page'[p] == page[p]
  }

  /** d is a new directory made, with its tables and pages, from free pages; nothing in use changed. */
  ghost predicate NewSpace(page: map<nat, Page>, owner: map<nat, Use>, page': map<nat, Page>, owner': map<nat, Use>,
                           d: nat)
  {
    && HeldContents(page, owner, page') && owner'.Keys == owner.Keys && d in owner && owner[d].Free? && owner'[d] == Dir
    && forall p :: p in owner ==> owner'[p] == owner[p] || (owner[p].Free? && Belongs(p, owner'[p], d))
  }

  lemma HeldRefl(page: map<nat, Page>, owner: map<nat, Use>)
    requires page.Keys == owner.Keys
    ensures HeldContents(page, owner, page)
  {
  }

  lemma FreshSpace(p0: map<nat, Page>, o0: map<nat, Use>, p1: map<nat, Page>, o1: map<nat, Use>, d: nat)
    requires p0.Keys == o0.Keys && d in o0 && o0[d].Free? && p1 == p0[d := Fill(0)] && o1 == o0[d := Held][d := Dir]
    ensures NewSpace(p0, o0, p1, o1, d) && NoUserPages(p1, d)
    ensures forall v: nat :: v < VPAGES ==> Val(p1, User(d, v)) == 0
  {
  }

  /** Mapping more pages of the new directory. */
  lemma GrowSpace(p0: map<nat, Page>, o0: map<nat, Use>, p1: map<nat, Page>, o1: map<nat, Use>, p2: map<nat, Page>,
                  o2: map<nat, Use>, d: nat, from: nat, to: nat)
    requires Owned(p0, o0, Alive) && NewSpace(p0, o0, p1, o1, d) && Frame(p1, o1, Alive, p2, o2, d, {}, from, to)
    ensures NewSpace(p0, o0, p2, o2, d)
    ensures forall v: nat :: v < VPAGES && !(from <= v < to) ==> Val(p2, User(d, v)) == Val(p1, User(d, v))
    ensures NoUserPages(p1, d) && from >= USERPAGES ==> NoUserPages(p2, d)
  {
    hide Val; hide Present; hide Owned; hide NewSpace;
    GrowPages(p0, o0, p1, o1, p2, o2, d);
    forall v: nat | v < VPAGES && !(from <= v < to) ensures Val(p2, User(d, v)) == Val(p1, User(d, v)) {
      assert Seen(o1, Alive, User(d, v));
    }
  }

  lemma GrowPages(p0: map<nat, Page>, o0: map<nat, Use>, p1: map<nat, Page>, o1: map<nat, Use>, p2: map<nat, Page>,
                  o2: map<nat, Use>, d: nat)
    requires Owned(p0, o0, Alive) && NewSpace(p0, o0, p1, o1, d) && Gains(o1, o2, d, {}) && SamePages(p1, o1, p2, d)
    ensures NewSpace(p0, o0, p2, o2, d) && d in o1 && o1[d] == Dir
  {
    hide Owned;
    NotMine(p0, o0, d);
  }

  /** A page that is no directory has nothing. */
  lemma NotMine(page: map<nat, Page>, owner: map<nat, Use>, d: nat)
    requires Owned(page, owner, Alive) && d in owner && owner[d] != Dir
    ensures forall p :: p in owner && p != d ==> !Belongs(p, owner[p], d)
  {
    hide Val; hide Present; hide Target;
  }

  /** freevm undoes whatever was built. */
  lemma SpaceUndone(p0: map<nat, Page>, o0: map<nat, Use>, p1: map<nat, Page>, o1: map<nat, Use>, p2: map<nat, Page>,
                    o2: map<nat, Use>, d: nat)
    requires Owned(p0, o0, Alive) && NewSpace(p0, o0, p1, o1, d) && Released(p1, o1, p2, o2, d)
    ensures o2 == o0 && HeldContents(p0, o0, p2)
  {
    hide Owned;
    NotMine(p0, o0, d);
  }

  lemma RegionIs(page: map<nat, Page>, d: nat, data: nat, k: nat)
    requires EXTMEM < data < PHYSTOP && k < 4
    requires MapsTo(page, d, Region(data, k).first, Region(data, k).last + 1, Region(data, k).base, Region(data, k).perm)
    ensures RegionMapped(page, d, data, k)
  {
  }

  lemma RegionsKept(p1: map<nat, Page>, o1: map<nat, Use>, p2: map<nat, Page>, o2: map<nat, Use>, d: nat, data: nat,
                    k: nat)
    requires EXTMEM < data < PHYSTOP && k < 4 && (forall j: nat :: j < k ==> RegionMapped(p1, d, data, j))
    requires RegionMapped(p2, d, data, k)
    requires forall v: nat :: v < VPAGES && !(Region(data, k).first <= v < Region(data, k).last + 1) ==> Val(p2, User(d, v)) == Val(p1, User(d, v))
    requires forall v: nat :: KernelStart(data, k) <= v < VPAGES ==> Val(p1, User(d, v)) == 0
    ensures forall j: nat :: j < k + 1 ==> RegionMapped(p2, d, data, j)
    ensures forall v: nat :: KernelStart(data, k + 1) <= v < VPAGES ==> Val(p2, User(d, v)) == 0
  {
    hide Val; hide Entry;
    RegionOrder(data, k);
    forall j: nat | j < k ensures RegionMapped(p2, d, data, j) {
      RegionOrder(data, j);
      assert RegionMapped(p1, d, data, j);
    }
  }

  lemma KernelNone(page: map<nat, Page>, d: nat, data: nat)
    requires EXTMEM < data < PHYSTOP
    ensures KernelBelow(page, d, data, KernelStart(data, 0))
  {
  }

  /** One more row of kmap covers the kernel's view up to where the next one starts. */
  lemma KernelMore(p1: map<nat, Page>, p2: map<nat, Page>, d: nat, data: nat, k: nat)
    requires EXTMEM < data < PHYSTOP && k < 4 && KernelBelow(p1, d, data, KernelStart(data, k))
    requires RegionMapped(p2, d, data, k)
    requires forall v: nat :: v < VPAGES && !(Region(data, k).first <= v < Region(data, k).last + 1) ==> Val(p2, User(d, v)) == Val(p1, User(d, v))
    requires forall v: nat :: KernelStart(data, k) <= v < VPAGES ==> Val(p1, User(d, v)) == 0
    ensures KernelBelow(p2, d, data, KernelStart(data, k + 1))
  {
    hide Val; hide KernelEntry;
    var m := Region(data, k);
    forall v: nat | USERPAGES <= v < KernelStart(data, k + 1) ensures KernelEntry(Val(p2, User(d, v)), v, data) {
      if m.first <= v <= m.last {
        KernelRow(data, k, v);
      } else if v > m.last {
        KernelGap(data, k, v);
      }
    }
  }

  lemma KernelRow(data: nat, k: nat, v: nat)
    requires EXTMEM < data < PHYSTOP && k < 4 && Region(data, k).first <= v <= Region(data, k).last
    ensures var m := Region(data, k);
            m.base + (v - m.first) < VPAGES && m.perm < PGSIZE && KernelEntry(Entry(m.base + (v - m.first), m.perm), v, data)
  {
    hide Present; hide Target; hide Flags;
    var m := Region(data, k);
    var e := Entry(m.base + (v - m.first), m.perm);
    assert Flags(e) == m.perm + 1;
  }

  lemma KernelGap(data: nat, k: nat, v: nat)
    requires EXTMEM < data < PHYSTOP && k < 4 && Region(data, k).last < v < KernelStart(data, k + 1)
    ensures KernelEntry(0, v, data)
  {
  }

  // ----- user pages -----

  ghost predicate SameBut(page: map<nat, Page>, page': map<nat, Page>, mem: nat) {
    page'.Keys == page.Keys && forall p :: p in page && p != mem ==> page'[p] == page[p]
  }

  /** Writing a free page changes no entry. */
  lemma AddEntries(p0: map<nat, Page>, o0: map<nat, Use>, p1: map<nat, Page>, d: nat, v: nat, mem: nat, x: Page)
    requires Owned(p0, o0, Alive) && mem in o0 && o0[mem].Free? && p1 == p0[mem := x] && d in o0 && o0[d] == Dir
    requires v < USERPAGES
    ensures Val(p1, User(d, v)) == Val(p0, User(d, v))
  {
    hide Val; hide Owned;
    assert Seen(o0, Alive, User(d, v));
    ValScratch(p0, o0, Alive, mem, x, User(d, v));
  }

  lemma AddFrame(p0: map<nat, Page>, o0: map<nat, Use>, p1: map<nat, Page>, o1: map<nat, Use>, p2: map<nat, Page>,
                 o2: map<nat, Use>, d: nat, v: nat, mem: nat, x: Page)
    requires Owned(p0, o0, Alive) && mem in o0 && o0[mem].Free? && p1 == p0[mem := x] && o1 == o0[mem := Held]
    requires Frame(p1, o1, Alive, p2, o2, d, {mem}, v, v + 1) && mem in o2 && o2[mem] == User(d, v) && d in o0
    requires o0[d] == Dir
    ensures Frame(p0, o0, Alive, p2, o2, d, {}, v, v + 1) && mem in p2 && p2[mem] == x
  {
    hide Val; hide Owned; hide Gains; hide SamePages; hide SameEntries;
    OwnedKeys(p0, o0, Alive);
    AddGains(o0, o1, o2, d, v, mem);
    AddPages(p0, o0, p1, o1, p2, d, mem, x);
    AddSame(p0, o0, p1, o1, p2, d, v, mem, x);
  }

  lemma AddGains(o0: map<nat, Use>, o1: map<nat, Use>, o2: map<nat, Use>, d: nat, v: nat, mem: nat)
    requires mem in o0 && o0[mem].Free? && o1 == o0[mem := Held] && Gains(o1, o2, d, {mem}) && o2[mem] == User(d, v)
    ensures Gains(o0, o2, d, {})
  {
  }

  lemma AddPages(p0: map<nat, Page>, o0: map<nat, Use>, p1: map<nat, Page>, o1: map<nat, Use>, p2: map<nat, Page>,
                 d: nat, mem: nat, x: Page)
    requires p0.Keys == o0.Keys && mem in o0 && o0[mem].Free? && p1 == p0[mem := x] && o1 == o0[mem := Held]
    requires SamePages(p1, o1, p2, d) && mem != d
    ensures SamePages(p0, o0, p2, d) && mem in p2 && p2[mem] == x
  {
  }

  lemma AddSame(p0: map<nat, Page>, o0: map<nat, Use>, p1: map<nat, Page>, o1: map<nat, Use>, p2: map<nat, Page>,
                d: nat, v: nat, mem: nat, x: Page)
    requires Owned(p0, o0, Alive) && mem in o0 && o0[mem].Free? && p1 == p0[mem := x] && o1 == o0[mem := Held]
    requires SameEntries(p1, o1, Alive, p2, d, v, v + 1)
    ensures SameEntries(p0, o0, Alive, p2, d, v, v + 1)
  {
    hide Val; hide Owned;
    forall r | Seen(o0, Alive, r) ensures Seen(o1, Alive, r) && Val(p1, r) == Val(p0, r) {
      ValScratch(p0, o0, Alive, mem, x, r);
    }
  }

  lemma MapsOne(page: map<nat, Page>, d: nat, v: nat, base: nat, perm: nat)
    requires MapsTo(page, d, v, v + 1, base, perm)
    ensures base < VPAGES && perm < PGSIZE && Val(page, User(d, v)) == Entry(base, perm)
  {
    hide Val; hide Entry;
    var e := Val(page, User(d, v));
    assert base + (v - v) < VPAGES && e == Entry(base, perm);
  }

  /** Page v of d is a zeroed page that was free before, writable by the user. */
  ghost predicate Fresh(owner: map<nat, Use>, page': map<nat, Page>, owner': map<nat, Use>, d: nat, v: nat) {
    var e := Val(page', User(d, v));
    && Present(e) && Writable(e) && UserMode(e) && Flags(e) == 7 && Target(e) in owner && owner[Target(e)].Free?
    && Target(e) in owner' && owner'[Target(e)] == User(d, v) && Target(e) in page' && page'[Target(e)] == Fill(0)
  }

  /** allocuvm's success: pages lo..hi are fresh, and everything else is as it was. */
  ghost predicate Grown(page: map<nat, Page>, owner: map<nat, Use>, page': map<nat, Page>, owner': map<nat, Use>,
                        d: nat, lo: nat, hi: nat)
  {
    Frame(page, owner, Alive, page', owner', d, {}, lo, hi) && forall v: nat :: lo <= v < hi ==> Fresh(owner, page', owner', d, v)
  }

  /** allocuvm's failure: the mapping is the old one, and what was taken is free again or a page table. */
  ghost predicate Regained(page: map<nat, Page>, owner: map<nat, Use>, page': map<nat, Page>, owner': map<nat, Use>,
                           d: nat)
  {
    && owner'.Keys == owner.Keys && SamePages(page, owner, page', d)
    && (forall p :: p in owner ==> owner'[p] == owner[p] || (owner[p].Free? && owner'[p].Table? && owner'[p].dir == d))
    && (forall r :: Seen(owner, Alive, r) && !(r.dir == d && r.Table?) ==> Val(page', r) == Val(page, r) || (!Present(Val(page', r)) && !Present(Val(page, r))))
  }

  lemma UpFacts2(oldsz: word, newsz: word)
    requires oldsz <= newsz < KERNBASE
    ensures Up(oldsz) <= Up(newsz) <= USERPAGES
    ensures forall a: nat :: a * PGSIZE < newsz <==> a < Up(newsz)
  {
  }

  lemma FreshMore(p0: map<nat, Page>, o0: map<nat, Use>, p1: map<nat, Page>, o1: map<nat, Use>, p2: map<nat, Page>,
                  o2: map<nat, Use>, d: nat, lo: nat, a: nat, mem: nat)
    requires Frame(p0, o0, Alive, p1, o1, d, {}, lo, a) && Frame(p1, o1, Alive, p2, o2, d, {}, a, a + 1) && d in o1
    requires o1[d] == Dir && a < USERPAGES
    requires mem in o1 && o1[mem].Free? && mem < VPAGES && mem in o2 && o2[mem] == User(d, a) && mem in p2
    requires p2[mem] == Fill(0) && Val(p2, User(d, a)) == Entry(mem, 6)
    requires forall v: nat :: lo <= v < a ==> Fresh(o0, p1, o1, d, v)
    ensures forall v: nat :: lo <= v < a + 1 ==> Fresh(o0, p2, o2, d, v)
  {
    hide Val; hide Target; hide Present; hide Flags; hide Entry;
    forall v: nat | lo <= v < a ensures Fresh(o0, p2, o2, d, v) {
      assert Fresh(o0, p1, o1, d, v) && Seen(o1, Alive, User(d, v));
    }
    EntryIs(mem, 6);
    assert o0[mem].Free?;
  }

  lemma EntryIs(ppn: nat, perm: nat)
    requires ppn < VPAGES && perm < PGSIZE
    ensures var e := Entry(ppn, perm); Present(e) && Target(e) == ppn && Flags(e) == if perm % 2 == 1 then perm else perm + 1
  {
  }

  lemma GrownIs(p0: map<nat, Page>, o0: map<nat, Use>, p1: map<nat, Page>, o1: map<nat, Use>, d: nat, lo: nat, hi: nat)
    requires Frame(p0, o0, Alive, p1, o1, d, {}, lo, hi) && forall v: nat :: lo <= v < hi ==> Fresh(o0, p1, o1, d, v)
    ensures Grown(p0, o0, p1, o1, d, lo, hi)
  {
  }

  lemma StillHeld(p2: map<nat, Page>, o2: map<nat, Use>, p3: map<nat, Page>, o3: map<nat, Use>, d: nat, lo: nat,
                  hi: nat, mem: nat)
    requires Unmapped(p2, o2, p3, o3, d, lo, hi) && mem in o2 && o2[mem].Held?
    ensures mem in o3 && o3[mem].Held?
  {
  }

  /** Taking a page and giving it back leaves no trace in what deallocuvm did. */
  lemma Detour(p1: map<nat, Page>, o1: map<nat, Use>, p2: map<nat, Page>, o2: map<nat, Use>, p3: map<nat, Page>, o3: map<nat, Use>, p4: map<nat, Page>, o4: map<nat, Use>,
               d: nat, lo: nat, hi: nat, mem: nat)
    requires Owned(p1, o1, Alive) && mem in o1 && o1[mem].Free? && o2 == o1[mem := Held] && SameBut(p1, p2, mem)
    requires Unmapped(p2, o2, p3, o3, d, lo, hi) && Owned(p3, o3, Alive) && o4 == o3[mem := Free]
    requires SameBut(p3, p4, mem)
    ensures Unmapped(p1, o1, p4, o4, d, lo, hi)
  {
    hide EntriesZeroed; hide Owned; hide RestKept; hide OwnersFreed;
    OwnedKeys(p1, o1, Alive);
    DetourOwners(o1, o2, o3, o4, d, lo, hi, mem);
    DetourEntries(p1, o1, p2, o2, p3, o3, p4, d, lo, hi, mem);
    DetourRest(p1, o1, p2, o2, p3, p4, d, lo, hi, mem);
  }

  lemma DetourOwners(o1: map<nat, Use>, o2: map<nat, Use>, o3: map<nat, Use>, o4: map<nat, Use>, d: nat, lo: nat,
                     hi: nat, mem: nat)
    requires mem in o1 && o1[mem].Free? && o2 == o1[mem := Held] && OwnersFreed(o2, o3, d, lo, hi)
    requires o4 == o3[mem := Free]
    ensures OwnersFreed(o1, o4, d, lo, hi)
  {
  }

  lemma DetourRest(p1: map<nat, Page>, o1: map<nat, Use>, p2: map<nat, Page>, o2: map<nat, Use>, p3: map<nat, Page>,
                   p4: map<nat, Page>, d: nat, lo: nat, hi: nat, mem: nat)
    requires p3.Keys == p2.Keys == o2.Keys && p1.Keys == o1.Keys && mem in o1 && o1[mem].Free?
    requires o2 == o1[mem := Held] && SameBut(p1, p2, mem)
    requires RestKept(p2, o2, p3, d, lo, hi) && SameBut(p3, p4, mem)
    ensures p4.Keys == p1.Keys && RestKept(p1, o1, p4, d, lo, hi)
  {
  }

  lemma DetourEntries(p1: map<nat, Page>, o1: map<nat, Use>, p2: map<nat, Page>, o2: map<nat, Use>, p3: map<nat, Page>, o3: map<nat, Use>, p4: map<nat, Page>,
                      d: nat, lo: nat, hi: nat, mem: nat)
    requires Owned(p1, o1, Alive) && mem in o1 && o1[mem].Free? && o2 == o1[mem := Held] && SameBut(p1, p2, mem)
    requires Unmapped(p2, o2, p3, o3, d, lo, hi) && Owned(p3, o3, Alive) && SameBut(p3, p4, mem)
    ensures EntriesZeroed(p1, o1, p4, d, lo, hi)
  {
    hide Val; hide Owned; hide Present; hide RestKept; hide OwnersFreed; hide SameBut;
    OwnedKeys(p1, o1, Alive);
    OneChanged(p1, p2, mem);
    OneChanged(p3, p4, mem);
    StillHeld(p2, o2, p3, o3, d, lo, hi, mem);
    forall r | Seen(o1, Alive, r)
      ensures Val(p4, r) == if InSpan(r, d, lo, hi) && Present(Val(p1, r)) then 0 else Val(p1, r)
    {
      assert Seen(o2, Alive, r);
      SeenAfter(o2, o3, d, lo, hi, r);
      ValScratch(p1, o1, Alive, mem, p2[mem], r);
      ValScratch(p3, o3, Alive, mem, p4[mem], r);
    }
  }

  lemma OneChanged(p1: map<nat, Page>, p2: map<nat, Page>, mem: nat)
    requires SameBut(p1, p2, mem) && mem in p1
    ensures mem in p2 && p2 == p1[mem := p2[mem]]
  {
  }

  lemma RegainedAll(p0: map<nat, Page>, o0: map<nat, Use>, p1: map<nat, Page>, o1: map<nat, Use>, p4: map<nat, Page>,
                    o4: map<nat, Use>, d: nat, lo: nat, a: nat, hi: nat)
    requires Owned(p0, o0, Alive) && Owned(p1, o1, Alive) && d in o0 && o0[d] == Dir && lo <= a <= hi <= USERPAGES
    requires Frame(p0, o0, Alive, p1, o1, d, {}, lo, a) && Unmapped(p1, o1, p4, o4, d, lo, hi)
    requires NoneMapped(p0, d, lo, hi)
    ensures Regained(p0, o0, p4, o4, d)
  {
    hide Val; hide Target; hide Present;
    NotPresent();
    forall r | Seen(o0, Alive, r) ensures Seen(o1, Alive, r) {
    }
    NoneInSpan(p0, o0, d, lo, hi);
    GainedInSpan(p0, o0, p1, o1, d, lo, a);
  }

  lemma NoneInSpan(page: map<nat, Page>, owner: map<nat, Use>, d: nat, lo: nat, hi: nat)
    requires Owned(page, owner, Alive) && forall v: nat :: lo <= v < hi ==> !Present(Val(page, User(d, v)))
    ensures forall p :: p in owner ==> !InSpan(owner[p], d, lo, hi)
  {
    hide Val; hide Target; hide Present;
    forall p | p in owner ensures !InSpan(owner[p], d, lo, hi) {
      if owner[p].User? { assert Present(Val(page, owner[p])) && owner[p] == User(owner[p].dir, owner[p].v); }
    }
  }

  lemma GainedInSpan(p0: map<nat, Page>, o0: map<nat, Use>, p1: map<nat, Page>, o1: map<nat, Use>, d: nat, lo: nat,
                     a: nat)
    requires Owned(p0, o0, Alive) && Owned(p1, o1, Alive) && d in o0 && o0[d] == Dir
    requires Frame(p0, o0, Alive, p1, o1, d, {}, lo, a)
    ensures forall p :: p in o0 && o0[p].Free? && o1[p].User? ==> InSpan(o1[p], d, lo, a)
  {
    hide Val; hide Target; hide Present;
    forall p | p in o0 && o0[p].Free? && o1[p].User? ensures InSpan(o1[p], d, lo, a) {
      assert Live(o1, Alive, o1[p]);
      assert Seen(o0, Alive, o1[p]) && Live(o0, Alive, o1[p]);
      assert Target(Val(p1, o1[p])) == p;
    }
  }

  // ----- copyuvm -----

  /** Page v of n has the contents and flags of page v of d, on a different physical page. */
  ghost predicate CopiedAt(page: map<nat, Page>, page': map<nat, Page>, owner': map<nat, Use>, d: nat, n: nat, v: nat) {
    var e, e' := Val(page, User(d, v)), Val(page', User(n, v));
    && Present(e) && Present(e') && Flags(e') == Flags(e) && Target(e) != Target(e')
    && Target(e) in page && Target(e') in page' && Target(e') in owner' && owner'[Target(e')] == User(n, v) && page'[Target(e')] == page[Target(e)]
  }

  ghost predicate Copied(page: map<nat, Page>, page': map<nat, Page>, owner': map<nat, Use>, d: nat, n: nat, hi: nat) {
    forall v: nat :: v < hi ==> CopiedAt(page, page', owner', d, n, v)
  }

  ghost predicate NoneFrom(page: map<nat, Page>, n: nat, lo: nat) {
    forall v: nat :: lo <= v < USERPAGES ==> !Present(Val(page, User(n, v)))
  }

  lemma UpFacts3(sz: word)
    requires sz <= KERNBASE
    ensures Up(sz) <= USERPAGES && forall a: nat :: a * PGSIZE < sz <==> a < Up(sz)
  {
  }

  lemma FlagsSmall(e: word)
    ensures Flags(e) < PGSIZE
  {
  }

  lemma CopiedNone(p0: map<nat, Page>, p1: map<nat, Page>, o1: map<nat, Use>, d: nat, n: nat)
    requires NoUserPages(p1, n)
    ensures Copied(p0, p1, o1, d, n, 0) && NoneFrom(p1, n, 0)
  {
  }

  lemma NoneAt(page: map<nat, Page>, n: nat, v: nat)
    requires NoneFrom(page, n, v) && v < USERPAGES
    ensures !Present(Val(page, User(n, v)))
  {
  }

  /** The parent's entries are untouched. */
  lemma ParentSame(p0: map<nat, Page>, o0: map<nat, Use>, p1: map<nat, Page>, o1: map<nat, Use>, n: nat, d: nat, v: nat)
    requires Owned(p0, o0, Alive) && NewSpace(p0, o0, p1, o1, n) && d in o0 && o0[d] == Dir && v < USERPAGES
    ensures Val(p1, User(d, v)) == Val(p0, User(d, v)) && d in o1 && o1[d] == Dir && n in o1 && o1[n] == Dir && d in p1
  {
    hide Target; hide Present;
    if Present(p0[d][v / ENTRIES]) { TableOf(p0, o0, Alive, d, v / ENTRIES); }
  }

  lemma InNewSpace(p0: map<nat, Page>, o0: map<nat, Use>, p1: map<nat, Page>, o1: map<nat, Use>, n: nat)
    requires NewSpace(p0, o0, p1, o1, n)
    ensures n in o1 && o1[n] == Dir
  {
  }

  /** The parent's page behind a present entry, and its contents. */
  lemma PageOf(p0: map<nat, Page>, o0: map<nat, Use>, p1: map<nat, Page>, o1: map<nat, Use>, n: nat, d: nat, v: nat)
    requires Owned(p0, o0, Alive) && NewSpace(p0, o0, p1, o1, n) && d in o0 && o0[d] == Dir && v < USERPAGES
    requires Present(Val(p0, User(d, v)))
    ensures var pa := Target(Val(p0, User(d, v))); pa in p0 && pa in p1 && pa in o1 && o1[pa] == User(d, v) && p1[pa] == p0[pa]
  {
    hide Val; hide Target; hide Present;
    assert Live(o0, Alive, User(d, v));
  }

  lemma SpaceDetour(p0: map<nat, Page>, o0: map<nat, Use>, p1: map<nat, Page>, o1: map<nat, Use>, p2: map<nat, Page>,
                    p3: map<nat, Page>, o3: map<nat, Use>, n: nat, mem: nat)
    requires NewSpace(p0, o0, p1, o1, n) && mem in o1 && o1[mem].Free? && SameBut(p1, p2, mem) && SameBut(p2, p3, mem)
    requires o3 == o1[mem := Held][mem := Free]
    ensures NewSpace(p0, o0, p3, o3, n)
  {
    assert o3 == o1;
  }

  lemma KernelKept(p1: map<nat, Page>, p2: map<nat, Page>, n: nat, data: nat, v: nat)
    requires EXTMEM < data < PHYSTOP && KernelMapped(p1, n, data) && v < USERPAGES
    requires forall w: nat :: w < VPAGES && !(v <= w < v + 1) ==> Val(p2, User(n, w)) == Val(p1, User(n, w))
    ensures KernelMapped(p2, n, data)
  {
    hide Val; hide KernelEntry;
  }

  lemma CopyMore(p0: map<nat, Page>, o0: map<nat, Use>, p1: map<nat, Page>, o1: map<nat, Use>, p2: map<nat, Page>,
                 o2: map<nat, Use>, d: nat, n: nat, v: nat, mem: nat, pte: word, pa: nat)
    requires Copied(p0, p1, o1, d, n, v) && NoneFrom(p1, n, v) && Frame(p1, o1, Alive, p2, o2, n, {}, v, v + 1)
    requires v < USERPAGES && n in o1 && o1[n] == Dir
    requires pte == Val(p0, User(d, v)) && Present(pte) && pa == Target(pte) && pa in p0 && pa in o1 && !o1[pa].Free?
    requires mem in o1 && o1[mem].Free?
    requires mem < VPAGES && Flags(pte) < PGSIZE && Val(p2, User(n, v)) == Entry(mem, Flags(pte)) && mem in p2
    requires p2[mem] == p0[pa] && mem in o2 && o2[mem] == User(n, v)
    ensures Copied(p0, p2, o2, d, n, v + 1) && NoneFrom(p2, n, v + 1)
  {
    hide Val; hide Target; hide Present; hide Flags; hide Entry;
    EntryIs(mem, Flags(pte));
    OddFlags(pte);
    assert CopiedAt(p0, p2, o2, d, n, v);
    forall w: nat | w < v ensures CopiedAt(p0, p2, o2, d, n, w) {
      assert CopiedAt(p0, p1, o1, d, n, w) && Seen(o1, Alive, User(n, w));
    }
    forall w: nat | v + 1 <= w < USERPAGES ensures !Present(Val(p2, User(n, w))) {
      assert Seen(o1, Alive, User(n, w));
    }
  }

  lemma OddFlags(e: word)
    ensures Present(e) <==> Flags(e) % 2 == 1
  {
    assert e == e / PGSIZE * PGSIZE + e % PGSIZE;
    assert e / PGSIZE * PGSIZE == 2 * (e / PGSIZE * 2048);
  }

  // ----- how many pages setupkvm takes -----

  /** A directory with only kernel tables, which with the free pages make up total. */
  ghost predicate Built(page: map<nat, Page>, d: nat, free: nat, total: int) {
    d in page && free + Tables(page[d]) == total && forall i: nat :: i < ENTRIES && Present(page[d][i]) ==> Kern(i)
  }

  lemma BuiltStart(page: map<nat, Page>, d: nat, free: nat)
    requires d in page && page[d] == Fill(0)
    ensures Built(page, d, free, free)
  {
    NoTables(page[d], |page[d]|);
  }

  lemma {:induction false} NoTables(pd: Page, n: nat)
    requires n <= |pd| && pd == Fill(0)
    ensures Count(pd, n) == 0
    decreases n
  {
    if n > 0 { NoTables(pd, n - 1); }
  }

  lemma RegionKern(data: nat, k: nat, i: nat)
    requires EXTMEM < data < PHYSTOP && k < 4
    ensures Region(data, k).first / ENTRIES <= i <= Region(data, k).last / ENTRIES ==> Kern(i)
  {
    var m := Region(data, k);
    if k < 3 {
      assert USERPAGES <= m.first && m.last < USERPAGES + PHYSTOP;
    } else {
      assert m.first == DEVSPACE;
    }
  }

  lemma BuiltMore(p1: map<nat, Page>, f1: seq<nat>, p2: map<nat, Page>, f2: seq<nat>, d: nat, data: nat, k: nat,
                  total: int)
    requires EXTMEM < data < PHYSTOP && k < 4 && Built(p1, d, |f1|, total)
    requires Paid(p1, f1, p2, f2, d, Region(data, k).first, Region(data, k).last)
    ensures Built(p2, d, |f2|, total)
  {
    hide Tables; hide Present; hide Region; hide Kern;
    forall i: nat | i < ENTRIES && Present(p2[d][i]) ensures Kern(i) {
      RegionKern(data, k, i);
    }
  }

  lemma BuiltShort(page: map<nat, Page>, d: nat, data: nat, k: nat, total: int)
    requires EXTMEM < data < PHYSTOP && k < 4 && Built(page, d, 0, total)
    requires exists v :: Region(data, k).first <= v <= Region(data, k).last && !Present(page[d][v / ENTRIES])
    ensures total < KERNPAGES - 1
  {
    hide Count; hide Present; hide Region; hide Kern;
    RegionOrder(data, k);
    var m := Region(data, k);
    var v :| m.first <= v <= m.last && !Present(page[d][v / ENTRIES]);
    assert m.first / ENTRIES <= v / ENTRIES <= m.last / ENTRIES;
    RegionKern(data, k, v / ENTRIES);
    CountKern(page[d], |page[d]|, v / ENTRIES);
  }

  lemma BuiltAll(page: map<nat, Page>, d: nat, data: nat, free: nat, total: int)
    requires EXTMEM < data < PHYSTOP && Built(page, d, free, total)
    requires forall k: nat :: k < 4 ==> RegionMapped(page, d, data, k)
    ensures free == total - (KERNPAGES - 1) && NoUserTables(page, d)
  {
    hide Count; hide Present; hide MapsTo; hide RegionMapped;
    forall i: nat | i < ENTRIES && Kern(i) ensures Present(page[d][i]) {
      KernPresent(page, d, data, i);
    }
    CountKern(page[d], |page[d]|, -1);
  }

  lemma KernPresent(page: map<nat, Page>, d: nat, data: nat, i: nat)
    requires EXTMEM < data < PHYSTOP && d in page && (forall k: nat :: k < 4 ==> RegionMapped(page, d, data, k))
    requires i < ENTRIES && Kern(i)
    ensures Present(page[d][i])
  {
    hide Entry; hide Present; hide Target; hide Val;
    var v := i * ENTRIES;
    var k := if v < USERPAGES + EXTMEM then 0 else if v < USERPAGES + data then 1 else if v < USERPAGES + PHYSTOP then 2 else 3;
    assert RegionMapped(page, d, data, k);
    var m := Region(data, k);
    assert m.first <= v < m.last + 1;
    EntryIs(m.base + (v - m.first), m.perm);
    PdePresent(page, d, v);
    assert v / ENTRIES == i;
  }

  lemma PdePresent(page: map<nat, Page>, d: nat, v: nat)
    requires d in page && v < VPAGES && Present(Val(page, User(d, v)))
    ensures Present(page[d][v / ENTRIES])
  {
    if !Present(page[d][v / ENTRIES]) { NoTable(page, d, v); }
  }
}
