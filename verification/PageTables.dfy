/**
 Two-level page tables as values: entries, what a directory maps, and which
 use every physical page is put to. Addresses are page numbers.
 */
module PageTables {
  import opened Base

  const PGSIZE: nat := 4096
  const ENTRIES: nat := 1024             // NPDENTRIES, NPTENTRIES
  const USERPAGES: nat := 524288         // KERNBASE / PGSIZE
  const VPAGES: nat := 1048576           // pages of a 32-bit address space
  const KERNBASE: nat := 0x8000_0000

  type Page = p: seq<word> | |p| == 1024 witness seq(1024, i => 0)

  function Fill(w: word): (p: Page)
    ensures forall j :: 0 <= j < ENTRIES ==> p[j] == w
  {
    seq<word>(1024, i => w)
  }

  /** PTE_P */
  predicate Present(e: word) {
    e % 2 == 1
  }

  /** PTE_ADDR, as a page number */
  function Target(e: word): nat {
    e / PGSIZE
  }

  /** PTE_FLAGS */
  function Flags(e: word): nat {
    e % PGSIZE
  }

  /** PTE_W */
  predicate Writable(e: word) {
    Flags(e) / 2 % 2 == 1
  }

  /** PTE_U */
  predicate UserMode(e: word) {
    Flags(e) / 2 / 2 % 2 == 1
  }

  /** The three lowest bits of an entry are PTE_P, PTE_W and PTE_U. */
  lemma LowFlags(e: word)
    ensures Flags(e) % 8 == (if Present(e) then 1 else 0) + (if Writable(e) then 2 else 0) + (if UserMode(e) then 4 else 0)
  {
    var f := Flags(e);
    Parity(Target(e), f);
    var a := f / 2;
    var b := a / 2;
    Eights(b / 2, 4 * (b % 2) + 2 * (a % 2) + f % 2);
  }

  lemma Parity(t: nat, f: nat)
    ensures (4096 * t + f) % 2 == f % 2
  {
    assert 4096 * t + f == 2 * (2048 * t) + f;
  }

  lemma Eights(c: nat, x: nat)
    requires x < 8
    ensures (8 * c + x) % 8 == x
  {
  }

  /** pa | perm | PTE_P */
  function Entry(ppn: nat, perm: nat): (e: word)
    requires ppn < VPAGES && perm < PGSIZE
    ensures Present(e) && Target(e) == ppn && Flags(e) == if perm % 2 == 1 then perm else perm + 1
  {
    var f := if perm % 2 == 1 then perm else perm + 1;
    EntryParts(ppn, f);
    ppn * PGSIZE + f
  }

  lemma EntryParts(ppn: nat, f: nat)
    requires ppn < VPAGES && f < PGSIZE
    ensures (ppn * 4096 + f) / 4096 == ppn && (ppn * 4096 + f) % 4096 == f && (ppn * 4096 + f) % 2 == f % 2
    ensures ppn * 4096 + f < 0x1_0000_0000
  {
    assert ppn * 4096 + f == 2 * (ppn * 2048) + f;
  }

  /** What a physical page is used for; Table and User also name the entry that points to it. */
  datatype Use = Free | Held | Dir | Table(dir: nat, i: nat) | User(dir: nat, v: nat)

  /** The entry that use s names: a directory entry, or the page-table entry of page v. */
  function Val(page: map<nat, Page>, s: Use): word {
    match s
    case Table(d, i) => if d in page && i < ENTRIES then page[d][i] else 0
    case User(d, v) =>
      if d in page && v < VPAGES && Present(page[d][v / ENTRIES]) && Target(page[d][v / ENTRIES]) in page
      then page[Target(page[d][v / ENTRIES])][v % ENTRIES] else 0
    case _ => 0
  }

  ghost predicate Slot(owner: map<nat, Use>, s: Use) {
    (s.Table? || s.User?) && s.dir in owner && owner[s.dir] == Dir && (if s.Table? then s.i < ENTRIES else s.v < USERPAGES)
  }

  /** A directory being torn down: its first k entries no longer count. */
  datatype Dying = Alive | Dying(dir: nat, k: nat)

  predicate Dead(z: Dying, s: Use) {
    z.Dying? && ((s.Table? && s.dir == z.dir && s.i < z.k) || (s.User? && s.dir == z.dir && s.v / ENTRIES < z.k))
  }

  ghost predicate Live(owner: map<nat, Use>, z: Dying, s: Use) {
    Slot(owner, s) && !Dead(z, s)
  }

  /** Any entry of a directory in use, kernel half included. */
  ghost predicate Seen(owner: map<nat, Use>, z: Dying, s: Use) {
    && (s.Table? || s.User?) && s.dir in owner && owner[s.dir] == Dir && !Dead(z, s)
    && (if s.Table? then s.i < ENTRIES else s.v < VPAGES)
  }

  /**
   Every present entry names a page put to just that use, and every table and
   user page is named by its entry.
   */
  ghost predicate Owned(page: map<nat, Page>, owner: map<nat, Use>, z: Dying) {
    && page.Keys == owner.Keys
    && (forall s :: Live(owner, z, s) && Present(Val(page, s)) ==> Target(Val(page, s)) in owner && owner[Target(Val(page, s))] == s)
    && (forall p :: p in owner && (owner[p].Table? || owner[p].User?) ==>
          Live(owner, z, owner[p]) && Present(Val(page, owner[p])) && Target(Val(page, owner[p])) == p)
  }

  /** A live table entry leads to the page table put to that use. */
  lemma TableOf(page: map<nat, Page>, owner: map<nat, Use>, z: Dying, d: nat, i: nat)
    requires Owned(page, owner, z) && Live(owner, z, Table(d, i)) && Present(page[d][i])
    ensures Target(page[d][i]) in owner && owner[Target(page[d][i])] == Table(d, i)
  {
    assert Val(page, Table(d, i)) == page[d][i];
  }

  /** No physical page is reached through two entries, of one address space or of two. */
  lemma NoSharing(page: map<nat, Page>, owner: map<nat, Use>, z: Dying, r: Use, s: Use)
    requires Owned(page, owner, z) && Live(owner, z, r) && Live(owner, z, s) && Present(Val(page, r))
    requires Present(Val(page, s))
    ensures Target(Val(page, r)) == Target(Val(page, s)) ==> r == s
  {
    hide Val; hide Target; hide Present;
  }

  /** Rewriting a page that is no directory and no table changes no entry. */
  lemma ValScratch(page: map<nat, Page>, owner: map<nat, Use>, z: Dying, p: nat, x: Page, s: Use)
    requires Owned(page, owner, z) && p in owner && !owner[p].Dir? && !owner[p].Table? && Seen(owner, z, s)
    ensures Val(page[p := x], s) == Val(page, s)
  {
    if s.User? && Present(page[s.dir][s.v / ENTRIES]) { TableOf(page, owner, z, s.dir, s.v / ENTRIES); }
  }

  /** Such a page may be rewritten, and pass between Free and Held. */
  lemma Scratch(page: map<nat, Page>, owner: map<nat, Use>, z: Dying, p: nat, x: Page, u: Use)
    requires Owned(page, owner, z) && p in owner && (owner[p].Free? || owner[p].Held?) && (u.Free? || u.Held?)
    ensures Owned(page[p := x], owner[p := u], z)
  {
    hide Val;
    var page', owner' := page[p := x], owner[p := u];
    forall s | Live(owner', z, s) ensures Live(owner, z, s) && Val(page', s) == Val(page, s) {
      ValScratch(page, owner, z, p, x, s);
    }
    forall q | q in owner' && (owner'[q].Table? || owner'[q].User?)
      ensures Live(owner', z, owner'[q]) && Val(page', owner'[q]) == Val(page, owner'[q])
    {
      ValScratch(page, owner, z, p, x, owner[q]);
    }
  }

  /** Exactly the entry of slot s was filled, with a held page. */
  lemma Filled(page: map<nat, Page>, owner: map<nat, Use>, z: Dying, page': map<nat, Page>, s: Use, p: nat)
    requires Owned(page, owner, z) && page'.Keys == page.Keys && Live(owner, z, s) && !Present(Val(page, s))
    requires p in owner && owner[p].Held?
    requires forall r :: Live(owner, z, r) && r != s ==> Val(page', r) == Val(page, r)
    requires Present(Val(page', s)) && Target(Val(page', s)) == p
    ensures Owned(page', owner[p := s], z)
  {
    hide Val; hide Target; hide Present;
    var owner' := owner[p := s];
    forall r | Live(owner', z, r) ensures Live(owner, z, r) {
    }
    forall q | q in owner' && (owner'[q].Table? || owner'[q].User?)
      ensures Live(owner', z, owner'[q]) && Present(Val(page', owner'[q])) && Target(Val(page', owner'[q])) == q
    {
      if q != p { assert Live(owner, z, owner[q]); }
    }
  }

  /** Exactly the entry of slot s was cleared, and its page p given up. */
  lemma Cleared(page: map<nat, Page>, owner: map<nat, Use>, z: Dying, page': map<nat, Page>, s: Use, p: nat)
    requires Owned(page, owner, z) && page'.Keys == page.Keys && p in owner && owner[p] == s && (s.Table? || s.User?)
    requires forall r :: Live(owner, z, r) && r != s ==> Val(page', r) == Val(page, r)
    requires !Present(Val(page', s))
    ensures Owned(page', owner[p := Free], z)
  {
    hide Val; hide Target; hide Present;
    var owner' := owner[p := Free];
    forall r | Live(owner', z, r) ensures Live(owner, z, r) {
    }
    forall q | q in owner' && (owner'[q].Table? || owner'[q].User?)
      ensures Live(owner', z, owner'[q]) && Present(Val(page', owner'[q])) && Target(Val(page', owner'[q])) == q
    {
      assert Live(owner, z, owner[q]);
      assert owner[q] != s;
    }
  }

  /** walkpgdir's new page table: every other entry stays. */
  lemma NewTable(page: map<nat, Page>, owner: map<nat, Use>, z: Dying, d: nat, i: nat, t: nat, e: word,
                 page': map<nat, Page>)
    requires Owned(page, owner, z) && Live(owner, z, Table(d, i)) && !Present(page[d][i]) && t in owner
    requires owner[t].Held?
    requires Present(e) && Target(e) == t && page' == page[t := Fill(0)][d := page[d][i := e]]
    ensures Owned(page', owner[t := Table(d, i)], z)
    ensures forall r :: Seen(owner, z, r) && r != Table(d, i) ==> Val(page', r) == Val(page, r)
  {
    hide Target; hide Present;
    var s := Table(d, i);
    assert Val(page, s) == page[d][i] && Val(page', s) == e;
    forall r | Seen(owner, z, r) && r != s ensures Val(page', r) == Val(page, r) {
      if r.User? && !(r.dir == d && r.v / ENTRIES == i) && Present(page[r.dir][r.v / ENTRIES]) {
        TableOf(page, owner, z, r.dir, r.v / ENTRIES);
      }
    }
    Filled(page, owner, z, page', s, t);
  }

  /** Writing entry j of one page table changes that entry and no other. */
  lemma TableWrite(page: map<nat, Page>, owner: map<nat, Use>, z: Dying, d: nat, v: nat, t: nat, e: word,
                   page': map<nat, Page>)
    requires Owned(page, owner, z) && v < VPAGES && Seen(owner, z, User(d, v)) && Present(page[d][v / ENTRIES])
    requires t == Target(page[d][v / ENTRIES])
    requires t in page && page' == page[t := page[t][v % ENTRIES := e]]
    ensures owner[t] == Table(d, v / ENTRIES) && Val(page', User(d, v)) == e
    ensures Val(page, User(d, v)) == page[t][v % ENTRIES]
    ensures forall r :: Seen(owner, z, r) && r != User(d, v) ==> Val(page', r) == Val(page, r)
  {
    hide Target; hide Present;
    TableOf(page, owner, z, d, v / ENTRIES);
    forall r | Seen(owner, z, r) && r != User(d, v) ensures Val(page', r) == Val(page, r) {
      if r.User? && Present(page[r.dir][r.v / ENTRIES]) {
        TableOf(page, owner, z, r.dir, r.v / ENTRIES);
        assert r.dir == d && r.v / ENTRIES == v / ENTRIES ==> r.v % ENTRIES != v % ENTRIES;
      }
    }
  }

  /** mappages on a user page: the held page p becomes page v of d. */
  lemma MapUser(page: map<nat, Page>, owner: map<nat, Use>, z: Dying, d: nat, v: nat, t: nat, e: word,
                page': map<nat, Page>, p: nat)
    requires Owned(page, owner, z) && v < USERPAGES && Seen(owner, z, User(d, v)) && Present(page[d][v / ENTRIES])
    requires t == Target(page[d][v / ENTRIES])
    requires t in page && page' == page[t := page[t][v % ENTRIES := e]]
    requires !Present(Val(page, User(d, v))) && p in owner && owner[p].Held? && Present(e) && Target(e) == p
    ensures Owned(page', owner[p := User(d, v)], z)
  {
    hide Target; hide Present; hide Val;
    TableWrite(page, owner, z, d, v, t, e, page');
    Filled(page, owner, z, page', User(d, v), p);
  }

  /** mappages in the kernel half: no page changes hands. */
  lemma MapKernel(page: map<nat, Page>, owner: map<nat, Use>, z: Dying, d: nat, v: nat, t: nat, e: word,
                  page': map<nat, Page>)
    requires Owned(page, owner, z) && USERPAGES <= v < VPAGES && Seen(owner, z, User(d, v))
    requires Present(page[d][v / ENTRIES]) && t == Target(page[d][v / ENTRIES])
    requires t in page && page' == page[t := page[t][v % ENTRIES := e]]
    ensures Owned(page', owner, z)
  {
    hide Target; hide Present; hide Val;
    TableWrite(page, owner, z, d, v, t, e, page');
    assert forall s :: Live(owner, z, s) ==> Seen(owner, z, s) && s != User(d, v);
  }

  /** deallocuvm on one present page: p is junked and freed, its entry zeroed. */
  lemma UnmapUser(page: map<nat, Page>, owner: map<nat, Use>, z: Dying, d: nat, v: nat, t: nat, p: nat, x: Page,
                  page': map<nat, Page>)
    requires Owned(page, owner, z) && v < USERPAGES && Seen(owner, z, User(d, v)) && Present(page[d][v / ENTRIES])
    requires t == Target(page[d][v / ENTRIES])
    requires t in page && Present(page[t][v % ENTRIES]) && p == Target(page[t][v % ENTRIES])
    requires p in page && p != t && page' == page[p := x][t := page[t][v % ENTRIES := 0]]
    ensures owner[p] == User(d, v) && Owned(page', owner[p := Free], z)
    ensures Val(page', User(d, v)) == 0
    ensures forall r :: Seen(owner, z, r) && r != User(d, v) ==> Val(page', r) == Val(page, r)
  {
    hide Target; hide Present; hide Val;
    var page1 := page[t := page[t][v % ENTRIES := 0]];
    TableWrite(page, owner, z, d, v, t, 0, page1);
    assert Live(owner, z, User(d, v));
    NotPresent();
    Cleared(page, owner, z, page1, User(d, v), p);
    var owner1 := owner[p := Free];
    assert page' == page1[p := x];
    assert owner1[p := Free] == owner1;
    Scratch(page1, owner1, z, p, x, Free);
    forall r | Seen(owner, z, r) ensures Val(page', r) == Val(page1, r) {
      ValScratch(page1, owner1, z, p, x, r);
    }
  }

  lemma NotPresent()
    ensures !Present(0)
  {
  }

  /** setupkvm's fresh directory. */
  lemma NewDir(page: map<nat, Page>, owner: map<nat, Use>, d: nat)
    requires Owned(page, owner, Alive) && d in owner && owner[d].Held?
    ensures Owned(page[d := Fill(0)], owner[d := Dir], Alive)
    ensures forall i: nat :: i < ENTRIES ==> !Present(Val(page[d := Fill(0)], Table(d, i)))
    ensures forall v: nat :: v < VPAGES ==> Val(page[d := Fill(0)], User(d, v)) == 0
    ensures forall r :: Seen(owner, Alive, r) ==> Val(page[d := Fill(0)], r) == Val(page, r)
  {
    hide Target;
    var page', owner' := page[d := Fill(0)], owner[d := Dir];
    forall r | Seen(owner, Alive, r) ensures Val(page', r) == Val(page, r) {
      ValScratch(page, owner, Alive, d, Fill(0), r);
    }
    forall r | Live(owner', Alive, r) && r.dir != d ensures Seen(owner, Alive, r) && Live(owner, Alive, r) {
    }
    forall q | q in owner' && (owner'[q].Table? || owner'[q].User?)
      ensures Live(owner', Alive, owner'[q]) && Present(Val(page', owner'[q])) && Target(Val(page', owner'[q])) == q
    {
      assert Live(owner, Alive, owner[q]);
    }
  }

  // ----- tearing a directory down -----

  lemma StartDying(page: map<nat, Page>, owner: map<nat, Use>, d: nat)
    requires Owned(page, owner, Alive)
    ensures Owned(page, owner, Dying(d, 0))
  {
    hide Val; hide Target; hide Present;
    assert forall s :: Live(owner, Dying(d, 0), s) ==> Live(owner, Alive, s);
  }

  /** No user entry of table k is present. */
  ghost predicate NoUsers(page: map<nat, Page>, d: nat, k: nat) {
    forall v: nat :: v / ENTRIES == k && v < USERPAGES ==> !Present(Val(page, User(d, v)))
  }

  lemma SkipTable(page: map<nat, Page>, owner: map<nat, Use>, d: nat, k: nat)
    requires Owned(page, owner, Dying(d, k)) && Live(owner, Dying(d, k), Table(d, k)) && !Present(page[d][k])
    ensures Owned(page, owner, Dying(d, k + 1))
  {
    hide Target;
    forall s | Live(owner, Dying(d, k + 1), s) ensures Live(owner, Dying(d, k), s) {
    }
    forall q | q in owner && (owner[q].Table? || owner[q].User?) ensures Live(owner, Dying(d, k + 1), owner[q]) {
      assert Live(owner, Dying(d, k), owner[q]) && Present(Val(page, owner[q]));
    }
  }

  /** freevm on directory entry k: the table goes, its entry stays behind, dead. */
  lemma FreeTable(page: map<nat, Page>, owner: map<nat, Use>, d: nat, k: nat, t: nat, x: Page)
    requires Owned(page, owner, Dying(d, k)) && Live(owner, Dying(d, k), Table(d, k)) && Present(page[d][k])
    requires t == Target(page[d][k]) && NoUsers(page, d, k)
    ensures t in owner && owner[t] == Table(d, k) && t != d && Owned(page[t := x], owner[t := Free], Dying(d, k + 1))
    ensures forall s :: Live(owner, Dying(d, k + 1), s) ==> Val(page[t := x], s) == Val(page, s)
  {
    hide Target; hide Present;
    var z, z' := Dying(d, k), Dying(d, k + 1);
    TableOf(page, owner, z, d, k);
    assert Dead(z', Table(d, k));
    var page', owner' := page[t := x], owner[t := Free];
    forall s | Live(owner, z', s) ensures Live(owner, z, s) && Val(page', s) == Val(page, s) {
      if s.User? && Present(page[s.dir][s.v / ENTRIES]) { TableOf(page, owner, z, s.dir, s.v / ENTRIES); }
    }
    forall s | Live(owner', z', s) ensures Live(owner, z', s) {
    }
    forall q | q in owner' && (owner'[q].Table? || owner'[q].User?) ensures Live(owner', z', owner'[q]) {
      assert Live(owner, z, owner[q]) && Present(Val(page, owner[q]));
      assert Val(page, Table(d, k)) == page[d][k];
      assert owner[q] == Table(d, k) ==> q == t;
    }
  }

  /** With all its entries dead, the directory owns nothing and can go. */
  lemma FreeDir(page: map<nat, Page>, owner: map<nat, Use>, d: nat, k: nat, x: Page)
    requires Owned(page, owner, Dying(d, k)) && k == ENTRIES && d in owner && owner[d] == Dir
    ensures Owned(page[d := x], owner[d := Free], Alive)
  {
    hide Target; hide Present;
    var z := Dying(d, k);
    var page', owner' := page[d := x], owner[d := Free];
    forall s | Live(owner', Alive, s) ensures Live(owner, z, s) && Val(page', s) == Val(page, s) {
      if s.User? && Present(page[s.dir][s.v / ENTRIES]) { TableOf(page, owner, z, s.dir, s.v / ENTRIES); }
    }
    forall q | q in owner' && (owner'[q].Table? || owner'[q].User?) ensures Live(owner', Alive, owner'[q]) {
      assert Live(owner, z, owner[q]);
    }
  }

  // ----- counting page tables -----

  /** Present entries among the first n. */
  function Count(pd: Page, n: nat): nat
    requires n <= |pd|
  {
    if n == 0 then 0 else Count(pd, n - 1) + if Present(pd[n - 1]) then 1 else 0
  }

  /** How many page tables a directory has. */
  function Tables(pd: Page): nat {
    Count(pd, |pd|)
  }

  lemma {:induction false} CountSet(pd: Page, i: nat, e: word, n: nat)
    requires i < |pd| && n <= |pd| && !Present(pd[i]) && Present(e)
    ensures |pd[i := e]| == 1024 && Count(pd[i := e], n) == Count(pd, n) + if i < n then 1 else 0
    decreases n
  {
    hide Present;
    if n > 0 { CountSet(pd, i, e, n - 1); }
  }

  lemma {:induction false} AtMostOne(pd: Page, pd': Page, i: nat, n: nat)
    requires n <= 1024 && forall j: nat :: j < 1024 && j != i ==> pd'[j] == pd[j]
    ensures Count(pd', n) <= Count(pd, n) + if i < n then 1 else 0
    decreases n
  {
    hide Present;
    if n > 0 { AtMostOne(pd, pd', i, n - 1); }
  }

  /** Directory entries of the kernel's regions. */
  predicate Kern(i: nat) {
    512 <= i < 568 || 1016 <= i < 1024
  }

  function KernBelow(n: nat): nat {
    if n <= 512 then 0 else if n <= 568 then n - 512 else if n <= 1016 then 56 else if n <= 1024 then n - 960 else 64
  }

  lemma {:induction false} CountKern(pd: Page, n: nat, missing: int)
    requires n <= |pd|
    ensures (forall i: nat :: i < n && Present(pd[i]) ==> Kern(i)) ==>
              Count(pd, n) <= KernBelow(n) - if 0 <= missing < n && Kern(missing) && !Present(pd[missing]) then 1 else 0
    ensures (forall i: nat :: i < n && Kern(i) ==> Present(pd[i])) ==> Count(pd, n) >= KernBelow(n)
    decreases n
  {
    hide Present;
    if n > 0 { CountKern(pd, n - 1, missing); }
  }
}
