/**
 log.c over bio.c: the in-memory header, log_write, and commit and recovery as
 the buffer-cache calls they really make.  Commit issues exactly the block
 writes whose crash behaviour RedoLog describes.
 */
module Log {
  import opened Base
  import opened Bytes
  import opened RedoLog
  import opened BufferCache
  import opened CacheSession

  ghost function Elems(s: seq<nat>): set<nat> {
    set x | x in s
  }

  lemma {:induction false} ElemsCount(s: seq<nat>)
    requires Distinct(s)
    ensures |Elems(s)| == |s|
  {
    if s != [] {
      var t := s[..|s| - 1];
      ElemsCount(t);
      assert Elems(s) == Elems(t) + {s[|s| - 1]};
    }
  }

  lemma SubsetSize(a: set<nat>, b: set<nat>)
    requires a <= b
    ensures |a| <= |b|
  {
    assert b == a + (b - a);
  }

  lemma MinusAbsent(s: set<nat>, b: nat)
    requires b !in s
    ensures s - {b} == s
  {
  }

  /** A header of distinct home blocks that fits in the log. */
  ghost predicate Fits(L: Layout, n: nat, lh: seq<nat>) {
    && 0 < L.start && L.start + L.size <= n <= 0x1_0000_0000
    && |lh| <= LOGSIZE && |lh| < L.size
    && Words(lh) && Distinct(lh)
    && forall i :: 0 <= i < |lh| ==> lh[i] < n && Home(L, lh[i])
  }

  /** The contents commit will log: the cached version of each logged block. */
  ghost function Vals(logical: Disk, lh: seq<nat>): (r: seq<Block>)
    requires forall i :: 0 <= i < |lh| ==> lh[i] < |logical|
    ensures |r| == |lh| && forall i :: 0 <= i < |lh| ==> r[i] == logical[lh[i]]
  {
    seq(|lh|, i requires 0 <= i < |lh| => logical[lh[i]])
  }

  /** k rounds of write_log's loop. */
  ghost function Logged(L: Layout, s: Store, lh: seq<nat>, k: nat): (r: Store)
    requires k <= |lh| && forall i :: 0 <= i < |lh| ==> lh[i] < |s.logical|
    ensures |r.logical| == |s.logical|
  {
    if k == 0 then s else Issue(Logged(L, s, lh, k - 1), [Write(L.start + k, s.logical[lh[k - 1]])])
  }

  lemma {:induction false} LoggedKeeps(L: Layout, s: Store, lh: seq<nat>, k: nat, b: nat)
    requires k <= |lh| && k < L.size && b < |s.logical| && (Home(L, b) || b == L.start)
    requires forall i :: 0 <= i < |lh| ==> lh[i] < |s.logical|
    ensures Logged(L, s, lh, k).logical[b] == s.logical[b]
  {
    if k > 0 {
      LoggedKeeps(L, s, lh, k - 1, b);
      ApplyFrame(Logged(L, s, lh, k - 1).logical, [Write(L.start + k, s.logical[lh[k - 1]])], b);
    }
  }

  /** k rounds of install_trans's loop. */
  ghost function Installed(L: Layout, s: Store, lh: seq<nat>, k: nat): (r: Store)
    requires k <= |lh| && L.start + 1 + |lh| <= |s.logical|
    ensures |r.logical| == |s.logical|
  {
    if k == 0 then s else Issue(Installed(L, s, lh, k - 1), [Write(lh[k - 1], s.logical[L.start + k])])
  }

  lemma {:induction false} InstalledKeepsLog(L: Layout, s: Store, lh: seq<nat>, k: nat, b: nat)
    requires k <= |lh| && L.start + 1 + |lh| <= |s.logical| && b < |s.logical| && !Home(L, b)
    requires forall i :: 0 <= i < |lh| ==> Home(L, lh[i])
    ensures Installed(L, s, lh, k).logical[b] == s.logical[b]
  {
    if k > 0 {
      InstalledKeepsLog(L, s, lh, k - 1, b);
      ApplyFrame(Installed(L, s, lh, k - 1).logical, [Write(lh[k - 1], s.logical[L.start + k])], b);
    }
  }

  lemma {:induction false} LoggedIsIssue(L: Layout, s: Store, lh: seq<nat>, k: nat)
    requires k <= |lh| && forall i :: 0 <= i < |lh| ==> lh[i] < |s.logical|
    ensures Logged(L, s, lh, k) == Issue(s, LogWrites(L, Vals(s.logical, lh))[..k])
  {
    var ws := LogWrites(L, Vals(s.logical, lh));
    if k == 0 {
      IssueNone(s);
      assert ws[..0] == [];
    } else {
      LoggedIsIssue(L, s, lh, k - 1);
      assert ws[..k] == ws[..k - 1] + [Write(L.start + k, s.logical[lh[k - 1]])];
      IssueBoth(s, ws[..k - 1], [Write(L.start + k, s.logical[lh[k - 1]])]);
    }
  }

  lemma {:induction false} InstalledIsIssue(L: Layout, s: Store, lh: seq<nat>, vals: seq<Block>, k: nat)
    requires k <= |lh| == |vals| && L.start + 1 + |lh| <= |s.logical|
    requires forall i :: 0 <= i < |lh| ==> s.logical[L.start + 1 + i] == vals[i]
    ensures Installed(L, s, lh, k) == Issue(s, HomeWrites(lh, vals)[..k])
  {
    var ws := HomeWrites(lh, vals);
    if k == 0 {
      IssueNone(s);
      assert ws[..0] == [];
    } else {
      InstalledIsIssue(L, s, lh, vals, k - 1);
      assert ws[..k] == ws[..k - 1] + [Write(lh[k - 1], s.logical[L.start + k])];
      IssueBoth(s, ws[..k - 1], [Write(lh[k - 1], s.logical[L.start + k])]);
    }
  }

  /** The four phases of commit, one after the other. */
  ghost function Phase1(L: Layout, s: Store, lh: seq<nat>): (r: Store)
    requires Fits(L, |s.logical|, lh)
    ensures |r.logical| == |s.logical|
  {
    Logged(L, s, lh, |lh|)
  }

  ghost function Headed(L: Layout, s: Store, lh: seq<nat>): (r: Store)
    requires Fits(L, |s.logical|, lh)
    ensures |r.logical| == |s.logical|
  {
    Issue(s, [Write(L.start, PutHeader(s.logical[L.start], lh))])
  }

  /** After the log blocks and the header, the log area of the logical disk is what recovery would read. */
  lemma HeadedLog(L: Layout, s: Store, lh: seq<nat>)
    requires Fits(L, |s.logical|, lh)
    ensures var s2 := Headed(L, Phase1(L, s, lh), lh);
            var h := PutHeader(s.logical[L.start], lh);
            && s2 == Issue(s, LogWrites(L, Vals(s.logical, lh)) + [Write(L.start, h)])
            && s2.logical[L.start] == h
            && forall i :: 0 <= i < |lh| ==> s2.logical[L.start + 1 + i] == s.logical[lh[i]]
  {
    hide PutHeader;
    var vals, h := Vals(s.logical, lh), PutHeader(s.logical[L.start], lh);
    var ws := LogWrites(L, vals);
    LoggedIsIssue(L, s, lh, |lh|);
    assert ws[..|lh|] == ws;
    LoggedKeeps(L, s, lh, |lh|, L.start);
    IssueBoth(s, ws, [Write(L.start, h)]);
    ApplyHits(s.logical, ws + [Write(L.start, h)], |lh|);
    forall i | 0 <= i < |lh| ensures Apply(s.logical, ws + [Write(L.start, h)])[L.start + 1 + i] == s.logical[lh[i]] {
      ApplyHits(s.logical, ws + [Write(L.start, h)], i);
    }
  }

  /** Installing from the log and clearing the header, as one run of writes. */
  lemma InstallStore(L: Layout, s: Store, lh: seq<nat>, vals: seq<Block>)
    requires Fits(L, |s.logical|, lh) && |vals| == |lh|
    requires forall i :: 0 <= i < |lh| ==> s.logical[L.start + 1 + i] == vals[i]
    ensures Headed(L, Installed(L, s, lh, |lh|), []) == Issue(s, HomeWrites(lh, vals) + [Write(L.start, PutHeader(s.logical[L.start], []))])
  {
    hide PutHeader;
    hide Apply;
    InstalledIsIssue(L, s, lh, vals, |lh|);
    assert HomeWrites(lh, vals)[..|lh|] == HomeWrites(lh, vals);
    assert !Home(L, L.start);
    InstalledKeepsLog(L, s, lh, |lh|, L.start);
    IssueBoth(s, HomeWrites(lh, vals), [Write(L.start, PutHeader(s.logical[L.start], []))]);
  }

  /** Together the phases issue exactly commit's writes. */
  lemma CommitStore(L: Layout, s: Store, lh: seq<nat>)
    requires Fits(L, |s.logical|, lh) && lh != []
    ensures var s3 := Installed(L, Headed(L, Phase1(L, s, lh), lh), lh, |lh|);
            Headed(L, s3, []) == Issue(s, CommitWrites(L, s.logical[L.start], lh, Vals(s.logical, lh)))
  {
    hide PutHeader;
    var vals, h := Vals(s.logical, lh), PutHeader(s.logical[L.start], lh);
    var s2 := Headed(L, Phase1(L, s, lh), lh);
    HeadedLog(L, s, lh);
    InstallStore(L, s2, lh, vals);
    var a, b := LogWrites(L, vals) + [Write(L.start, h)], HomeWrites(lh, vals) + [Write(L.start, PutHeader(h, []))];
    IssueBoth(s, a, b);
    assert CommitWrites(L, s.logical[L.start], lh, vals) == a + b;
  }

  /** What commit's writes do to the disk and to the logical disk. */
  lemma CommitEffect(L: Layout, s: Store, lh: seq<nat>)
    requires Fits(L, |s.logical|, lh) && lh != [] && |s.disk| == |s.logical|
    ensures var s4 := Issue(s, CommitWrites(L, s.disk[L.start], lh, Vals(s.logical, lh)));
            && EmptyLog(L, s4.disk)
            && (forall b :: 0 <= b < |s.disk| && Home(L, b) && b !in lh ==> s4.disk[b] == s.disk[b])
            && (s.disk[L.start] == s.logical[L.start] ==> AllOld(L, s.logical, s4.logical))
  {
    var vals := Vals(s.logical, lh);
    CommitDone(L, s.disk, lh, vals);
    if s.disk[L.start] == s.logical[L.start] {
      CommitDone(L, s.logical, lh, vals);
      var x := Apply(s.logical, CommitWrites(L, s.logical[L.start], lh, vals));
      forall b: nat | b < |x| && Home(L, b) ensures x[b] == s.logical[b] {
        if b in lh {
          var i :| 0 <= i < |lh| && lh[i] == b;
        }
      }
    }
  }

  /** On a booted machine that is exactly recovery's writes. */
  lemma RecoverStore(L: Layout, s: Store, lh: seq<nat>)
    requires s.logical == s.disk && L.start < |s.disk| && lh == Header(s.disk[L.start]) && Fits(L, |s.disk|, lh)
    ensures Headed(L, Installed(L, s, lh, |lh|), []) == Issue(s, RecoverWrites(L, s.disk))
  {
    hide PutHeader;
    hide Header;
    hide Issue;
    hide HomeWrites;
    InstallStore(L, s, lh, s.disk[L.start + 1..][..|lh|]);
  }

  lemma HeadedEmpty(L: Layout, s: Store)
    requires Fits(L, |s.logical|, []) && |s.disk| == |s.logical|
    ensures EmptyLog(L, Headed(L, s, []).disk)
  {
    hide PutHeader;
    ApplyOne(s.disk, Write(L.start, PutHeader(s.logical[L.start], [])));
  }

  lemma CommitNothing(L: Layout, s: Store, lh: seq<nat>)
    requires lh == [] && L.start < |s.disk|
    ensures Issue(s, CommitWrites(L, s.disk[L.start], lh, [])) == s && Elems(lh) == {}
  {
    IssueNone(s);
  }

  lemma NoElems(lh: seq<nat>)
    ensures lh[0..] == lh && Elems(lh[|lh|..]) == {}
  {
  }

  /** A block of the log area is not among the logged home blocks. */
  lemma NotLogged(L: Layout, lh: seq<nat>, k: nat, b: nat)
    requires k <= |lh| && !Home(L, b) && forall i :: 0 <= i < |lh| ==> Home(L, lh[i])
    ensures b !in Elems(lh[k..]) && b !in Elems(lh)
  {
  }

  lemma ElemsTail(lh: seq<nat>, k: nat)
    requires Distinct(lh) && k < |lh|
    ensures lh[k] in Elems(lh[k..])
    ensures Elems(lh[k..]) - {lh[k]} == Elems(lh[k + 1..])
  {
    assert lh[k..] == [lh[k]] + lh[k + 1..];
  }

  // ----- the log_writes of an operation -----

  /** The header after the log_writes ws. */
  function Recorded(lh: seq<nat>, ws: seq<Write>): seq<nat> {
    if ws == [] then lh
    else
      var l, b := Recorded(lh, ws[..|ws| - 1]), ws[|ws| - 1].block;
      if b in l then l else l + [b]
  }

  /** Each of the first n log_writes of ws finds the header not full. */
  predicate Accepted(L: Layout, lh: seq<nat>, ws: seq<Write>, n: nat)
    requires n <= |ws|
  {
    forall k {:trigger ws[..k]} :: 0 <= k < n ==> |Recorded(lh, ws[..k])| < LOGSIZE && |Recorded(lh, ws[..k])| < L.size - 1
  }

  predicate Accepts(L: Layout, lh: seq<nat>, ws: seq<Write>) {
    Accepted(L, lh, ws, |ws|)
  }

  lemma TakeTake(ws: seq<Write>, k: nat)
    requires k < |ws|
    ensures ws[..k + 1][..k] == ws[..k] && ws[..k + 1][k] == ws[k]
  {
  }

  lemma RecordedStep(lh: seq<nat>, ws: seq<Write>, k: nat)
    requires k < |ws|
    ensures var l, b := Recorded(lh, ws[..k]), ws[k].block; Recorded(lh, ws[..k + 1]) == if b in l then l else l + [b]
  {
    TakeTake(ws, k);
  }

  lemma ApplyNext(d: Disk, ws: seq<Write>, k: nat)
    requires k < |ws| && ws[k].block < |d|
    ensures Apply(d, ws[..k + 1]) == Apply(d, ws[..k])[ws[k].block := ws[k].data]
  {
    TakeTake(ws, k);
  }

  ghost function Named(ws: seq<Write>): set<nat> {
    set w | w in ws :: w.block
  }

  lemma NamedMore(t: seq<Write>, w: Write)
    ensures Named(t + [w]) == Named(t) + {w.block}
    ensures |Named(t + [w])| == |Named(t)| + if w.block in Named(t) then 0 else 1
  {
    assert Named(t + [w]) == Named(t) + {w.block};
    assert w.block in Named(t) ==> Named(t) + {w.block} == Named(t);
  }

  /** The blocks named end up in the header, and it grows by no more than those. */
  lemma {:induction false} RecordedSize(lh: seq<nat>, ws: seq<Write>)
    ensures |Recorded(lh, ws)| <= |lh| + |Named(ws)|
    ensures forall b :: b in Named(ws) ==> b in Recorded(lh, ws)
  {
    hide Named;
    if ws == [] {
      NoneNamed();
    } else {
      var t, w := ws[..|ws| - 1], ws[|ws| - 1];
      RecordedSize(lh, t);
      assert ws == t + [w];
      NamedMore(t, w);
    }
  }

  lemma NoneNamed()
    ensures Named([]) == {}
  {
  }

  lemma NamedPrefix(ws: seq<Write>, k: nat)
    requires k <= |ws|
    ensures |Named(ws[..k])| <= |Named(ws)|
  {
    assert Named(ws[..k]) <= Named(ws);
    SubsetSize(Named(ws[..k]), Named(ws));
  }

  /** An operation whose blocks leave room for one more is accepted whatever is in the header already. */
  lemma RoomAccepts(L: Layout, lh: seq<nat>, ws: seq<Write>)
    requires |lh| + |Named(ws)| < LOGSIZE && |lh| + |Named(ws)| < L.size - 1
    ensures Accepts(L, lh, ws)
  {
    forall k | 0 <= k < |ws| ensures |Recorded(lh, ws[..k])| < LOGSIZE && |Recorded(lh, ws[..k])| < L.size - 1 {
      RecordedSize(lh, ws[..k]);
      NamedPrefix(ws, k);
    }
  }

  /**
   What other processes do while a commit runs: no operation is outstanding, so they only
   read, file blocks and not the log, and commit's breads have waited for those of its own blocks.
   */
  ghost predicate Bystanders(L: Layout, lh: seq<nat>, O: map<nat, Ref>) {
    forall i :: i in O ==> Home(L, O[i].block) && (O[i].locked ==> O[i].block !in lh)
  }

  /** The readers of clean blocks have not changed them. */
  ghost predicate ReadersClean(O: map<nat, Ref>, pinned: set<nat>, s: Store) {
    forall i :: i in O && O[i].locked && O[i].block !in pinned && O[i].block < |s.logical| && O[i].block < |s.disk| ==>
      s.logical[O[i].block] == s.disk[O[i].block]
  }

  /** Nor does commit. */
  lemma ReadersStay(L: Layout, lh: seq<nat>, O: map<nat, Ref>, s: Store)
    requires Fits(L, |s.logical|, lh) && lh != [] && |s.disk| == |s.logical| && s.disk[L.start] == s.logical[L.start]
    requires Bystanders(L, lh, O) && ReadersClean(O, Elems(lh), s)
    ensures ReadersClean(O, {}, Issue(s, CommitWrites(L, s.disk[L.start], lh, Vals(s.logical, lh))))
  {
    hide CommitWrites; hide Apply;
    CommitEffect(L, s, lh);
  }

  lemma LogNotBusy(L: Layout, lh: seq<nat>, O: map<nat, Ref>, b: nat)
    requires Bystanders(L, lh, O) && !Home(L, b)
    ensures b !in OtherBlocks(O) && NotLocked(map[], O, b)
  {
  }

  /** One reader of a block that is not logged takes the last buffer from a commit of NBUF - 1 blocks. */
  lemma OneReaderTooMany(lh: seq<nat>, O: map<nat, Ref>, i: nat)
    requires Distinct(lh) && |lh| == NBUF - 1 && i in O && O[i].block !in lh
    ensures |Elems(lh) + OtherBlocks(O)| >= NBUF
  {
    ElemsCount(lh);
    assert O[i].block in OtherBlocks(O);
    SubsetSize(Elems(lh) + {O[i].block}, Elems(lh) + OtherBlocks(O));
  }

  lemma LoggedNotLocked(L: Layout, lh: seq<nat>, O: map<nat, Ref>, b: nat)
    requires Bystanders(L, lh, O) && b in lh
    ensures NotLocked(map[], O, b)
  {
  }

  lemma InstallStart(L: Layout, s: Store, lh: seq<nat>)
    requires Fits(L, |s.logical|, lh)
    ensures L.start + 1 + |lh| <= |s.logical| && Installed(L, s, lh, 0) == s
  {
  }

  /** What a round of install_trans needs and does. */
  lemma InstallRound(L: Layout, s: Store, lh: seq<nat>, k: nat)
    requires Fits(L, |s.logical|, lh) && k < |lh|
    ensures L.start + 1 + |lh| <= |s.logical| && lh[k] < |s.logical| && Home(L, lh[k]) && !Home(L, L.start + k + 1)
    ensures Installed(L, s, lh, k).logical[L.start + k + 1] == s.logical[L.start + k + 1]
    ensures Installed(L, s, lh, k + 1) == Issue(Installed(L, s, lh, k), [Write(lh[k], s.logical[L.start + k + 1])])
    ensures L.start + k + 1 !in Elems(lh[k..]) && lh[k] in Elems(lh[k..])
    ensures Elems(lh[k..]) - {lh[k]} == Elems(lh[k + 1..])
  {
    hide Elems; hide Issue;
    InstalledKeepsLog(L, s, lh, k, L.start + k + 1);
    ElemsTail(lh, k);
    NotLogged(L, lh, k, L.start + k + 1);
  }

  /** write_head's assignments to the header block: the count, then the entries. */
  method FillHeader(b: Block, lh: seq<nat>) returns (hb: Block)
    requires |lh| <= LOGSIZE && Words(lh)
    ensures hb == PutHeader(b, lh)
  {
    hide SetWord; hide GetWord; hide Header;
    hb := SetWord(b, 0, |lh|);
    var k := 0;
    while k < |lh|
      invariant 0 <= k <= |lh|
      invariant hb == PutEntries(SetWord(b, 0, |lh|), lh, k)
    {
      hb := SetWord(hb, 1 + k, lh[k]);
      k := k + 1;
    }
  }

  lemma ReplayStart(L: Layout, s: Store, lh: seq<nat>, ws: seq<Write>)
    ensures lh == Recorded(lh, ws[..0]) && Accepted(L, lh, ws, 0) && s == s.(logical := Apply(s.logical, ws[..0]))
  {
  }

  lemma AcceptedStep(L: Layout, lh: seq<nat>, ws: seq<Write>, k: nat)
    requires k < |ws| && Accepted(L, lh, ws, k)
    ensures var n := |Recorded(lh, ws[..k])|;
            if n < LOGSIZE && n < L.size - 1 then Accepted(L, lh, ws, k + 1) else !Accepts(L, lh, ws)
  {
    hide Recorded;
  }

  class LogState {
    const session: Session
    const L: Layout
    var lh: seq<nat>             // log.lh.block[0 .. log.lh.n)
    var outstanding: nat

    /** Between operations and during them, outside commit. */
    ghost predicate Valid()
      reads this, session, session.cache
    {
      && session.Valid() && |session.store.disk| == |session.store.logical|
      && Fits(L, |session.store.logical|, lh)
      && session.pinned == Elems(lh)
      && EmptyLog(L, session.store.disk)
    }

    /** initlog before recovery: nothing is known yet about the log on the disk. */
    constructor (session: Session, L: Layout)
      ensures this.session == session && this.L == L && lh == [] && outstanding == 0
    {
      this.session, this.L, lh, outstanding := session, L, [], 0;
    }

    /** log_write's scan of the header: an absorbed block is found, a new one is appended. */
    method Record(blockno: nat)
      requires Distinct(lh)
      modifies `lh
      ensures lh == if blockno in old(lh) then old(lh) else old(lh) + [blockno]
      ensures Elems(lh) == Elems(old(lh)) + {blockno}
    {
      var k := 0;
      while k < |lh| && lh[k] != blockno
        invariant 0 <= k <= |lh| && blockno !in lh[..k]
      {
        k := k + 1;
      }
      // log.lh.block[k] = blockno, and n grows when k == n
      assert k < |lh| ==> lh[k := blockno] == lh;
      lh := if k == |lh| then lh + [blockno] else lh[k := blockno];
    }

    /** Modify a held buffer and log_write it: the block is recorded once and pinned; the disk does not change. */
    method LogWrite(i: nat, data: Block) returns (ok: bool)
      requires Valid() && i in session.held && Home(L, session.held[i])
      modifies this`lh, session`pinned, session`store, session.cache`buf
      ensures ok <==> |old(lh)| < LOGSIZE && |old(lh)| < L.size - 1 && outstanding >= 1
      ensures ok ==> Valid() && session.held[i] < |old(session.store).logical|
      ensures ok ==> lh == if session.held[i] in old(lh) then old(lh) else old(lh) + [session.held[i]]
      ensures ok ==> session.store == old(session.store).(logical := old(session.store).logical[session.held[i] := data])
    {
      ok := |lh| < LOGSIZE && |lh| < L.size - 1 && outstanding >= 1;
      if !ok { return; }                       // panic
      session.EditAndPin(i, data);
      assert session.cache.buf[i].blockno == session.held[i];
      Record(session.cache.buf[i].blockno);
    }

    /** The blocks whose buffers cannot be recycled while this process holds none. */
    ghost function Busy(): set<nat>
      reads `lh, session`others
    {
      Elems(lh) + OtherBlocks(session.others)
    }

    lemma BusySame()
      requires session.held == map[] && session.pinned == Elems(lh)
      ensures session.Busy() == Busy()
    {
    }

    /** bread; copy; brelse.  It fails exactly when every buffer is pinned or referred to and none has the block. */
    method ReadBlock(b: nat) returns (ok: bool, data: Block)
      requires Valid() && session.held == map[] && b < |session.store.logical| && session.Unheld(b)
      modifies session`held, session.cache
      ensures Valid() && session.held == map[]
      ensures ok <==> b in Busy() || |Busy()| < NBUF
      ensures ok ==> data == session.store.logical[b]
      ensures session.store == old(session.store)
    {
      hide Session.Valid; hide Fits; hide EmptyLog; hide Elems; hide OtherBlocks; hide NotLocked;
      BusySame();
      data := ZeroBlock;
      var i: nat;
      ok, i := session.Get(b);
      if !ok { return; }
      data := session.Data(i);
      session.Put(i);
      TakeAndReturn(map[], i, b);
    }

    /** bread; modify; log_write; brelse. */
    method UpdateBlock(b: nat, data: Block) returns (ok: bool)
      requires Valid() && session.held == map[] && b < |session.store.logical| && Home(L, b) && session.Unheld(b)
      modifies this`lh, session, session.cache
      ensures ok <==>
        && (b in old(Busy()) || |old(Busy())| < NBUF)
        && |old(lh)| < LOGSIZE && |old(lh)| < L.size - 1 && outstanding >= 1
      ensures ok ==> Valid() && session.held == map[] && session.others == old(session.others)
      ensures ok ==> lh == if b in old(lh) then old(lh) else old(lh) + [b]
      ensures ok ==> session.store == old(session.store).(logical := old(session.store).logical[b := data])
    {
      hide Session.Valid; hide Fits; hide EmptyLog; hide OtherBlocks; hide NotLocked;
      BusySame();
      var i: nat;
      ok, i := session.Get(b);
      if !ok { return; }
      ok := LogWrite(i, data);
      if !ok { return; }
      session.Put(i);
      TakeAndReturn(map[], i, b);
    }

    /**
     The log_writes of an operation, one after the other, while no other process has a buffer: all
     are accepted exactly when each finds the header not full, and then the logical disk has them all.
     */
    method Replay(ws: seq<Write>) returns (ok: bool)
      requires Valid() && session.held == map[] && session.others == map[] && outstanding >= 1
      requires forall w :: w in ws ==> w.block < |session.store.logical| && Home(L, w.block)
      modifies this`lh, session, session.cache
      ensures ok <==> Accepts(L, old(lh), ws)
      ensures ok ==> Valid() && session.held == map[] && session.others == map[] && lh == Recorded(old(lh), ws)
      ensures ok ==> session.store == old(session.store).(logical := Apply(old(session.store).logical, ws))
    {
      hide Valid; hide Recorded; hide Apply; hide Accepted;
      ghost var s0, lh0 := session.store, lh;
      var k := 0;
      ok := true;
      ReplayStart(L, s0, lh0, ws);
      while k < |ws|
        invariant 0 <= k <= |ws| && ok && Valid() && session.held == map[] && session.others == map[]
        invariant outstanding >= 1
        invariant lh == Recorded(lh0, ws[..k]) && Accepted(L, lh0, ws, k)
        invariant session.store == s0.(logical := Apply(s0.logical, ws[..k]))
      {
        RoomIsBuffer(ws[k].block);
        ok := UpdateBlock(ws[k].block, ws[k].data);
        AcceptedStep(L, lh0, ws, k);
        if !ok { return; }
        RecordedStep(lh0, ws, k);
        ApplyNext(s0.logical, ws, k);
        k := k + 1;
      }
      assert ws[..k] == ws;
    }

    /** With no buffer held by anybody else, a header that is not full leaves a buffer. */
    lemma RoomIsBuffer(b: nat)
      requires Valid() && session.held == map[] && session.others == map[]
      ensures session.Unheld(b) && (|lh| < LOGSIZE ==> |Busy()| < NBUF)
    {
      ElemsCount(lh);
      assert OtherBlocks(session.others) == {};
      assert Busy() == Elems(lh);
    }

    /** This process holds no buffer, and the header in memory is one that can be committed or installed. */
    ghost predicate Ready()
      reads this, session, session.cache
    {
      && session.Valid() && session.held == map[]
      && |session.store.disk| == |session.store.logical|
      && Fits(L, |session.store.logical|, lh) && Bystanders(L, lh, session.others)
    }

    /** Every busy block, in commit and recovery. */
    ghost function Used(): set<nat>
      reads session`pinned, session`others
    {
      session.pinned + OtherBlocks(session.others)
    }

    lemma UsedIsBusy()
      requires session.held == map[]
      ensures session.Busy() == Used()
    {
    }

    /** The body of write_log's loop: the cached home block goes to a log block on the disk. */
    method CopyToLog(logb: nat, home: nat) returns (ok: bool)
      requires Ready() && home in session.pinned && home in lh
      requires logb < |session.store.logical| && home < |session.store.logical| && logb !in session.pinned
      requires !Home(L, logb) && Home(L, home)
      modifies session, session.cache
      ensures Ready() && session.pinned == old(session.pinned) && session.others == old(session.others)
      ensures ok <==> |Used()| < NBUF
      ensures session.store == if ok then Issue(old(session.store), [Write(logb, old(session.store).logical[home])]) else old(session.store)
    {
      hide Session.Valid; hide Bystanders; hide NotLocked; hide OtherBlocks;
      var to: nat, from: nat;
      LogNotBusy(L, lh, session.others, logb);
      LoggedNotLocked(L, lh, session.others, home);
      UsedIsBusy();
      ok, to, from := session.GetPair(logb, home);
      if !ok { return; }
      var data := session.Data(from);
      MinusAbsent(session.pinned, logb);
      session.Save(to, data);
      session.PutPair(from, to, home, logb);
    }

    /** The body of install_trans's loop: a log block goes to its home, which is then clean. */
    method CopyHome(logb: nat, home: nat) returns (ok: bool)
      requires Ready() && |Used()| < NBUF && (home in session.pinned || Used() == {}) && home in lh
      requires logb < |session.store.logical| && home < |session.store.logical| && logb !in session.pinned
      requires !Home(L, logb) && Home(L, home)
      modifies session, session.cache
      ensures ok && Ready() && |Used()| < NBUF && session.pinned == old(session.pinned) - {home}
      ensures session.others == old(session.others)
      ensures session.store == Issue(old(session.store), [Write(home, old(session.store).logical[logb])])
    {
      hide Session.Valid; hide Bystanders; hide NotLocked; hide OtherBlocks;
      var l: nat, d: nat;
      LogNotBusy(L, lh, session.others, logb);
      LoggedNotLocked(L, lh, session.others, home);
      UsedIsBusy();
      ok, l, d := session.GetPair(logb, home);
      var data := session.Data(l);
      session.Save(d, data);
      session.PutPair(l, d, logb, home);
      SubsetSize(Used(), old(Used()));
    }

    /** write_head: the count and the first |lh| entries go over the old header block. */
    method WriteHead() returns (ok: bool)
      requires Ready() && |Used()| < NBUF && L.start !in session.pinned
      modifies session, session.cache
      ensures ok && Ready() && session.pinned == old(session.pinned) && session.others == old(session.others)
      ensures session.store == Issue(old(session.store), [Write(L.start, PutHeader(old(session.store).logical[L.start], lh))])
    {
      hide Session.Valid; hide Bystanders; hide NotLocked; hide OtherBlocks;
      hide Issue; hide PutHeader;
      var i: nat;
      LogNotBusy(L, lh, session.others, L.start);
      UsedIsBusy();
      ok, i := session.Get(L.start);
      var hb := session.Data(i);
      hb := FillHeader(hb, lh);
      MinusAbsent(session.pinned, L.start);
      session.Save(i, hb);
      session.Put(i);
      TakeAndReturn(map[], i, L.start);
    }

    /** write_log: every logged block's cached contents go to the log area, unless every buffer is busy. */
    method WriteLog() returns (ok: bool)
      requires Ready() && session.pinned == Elems(lh) && lh != []
      modifies session, session.cache
      ensures Ready() && session.pinned == old(session.pinned) && session.others == old(session.others)
      ensures ok <==> |Used()| < NBUF
      ensures ok ==> session.store == Logged(L, old(session.store), lh, |lh|)
    {
      hide Session.Valid; hide Bystanders; hide OtherBlocks;
      hide Issue;
      ghost var s0 := session.store;
      var tail := 0;
      ok := true;
      while tail < |lh|
        invariant 0 <= tail <= |lh| && ok && Ready() && session.pinned == old(session.pinned)
        invariant session.others == old(session.others)
        invariant tail > 0 ==> |Used()| < NBUF
        invariant session.store == Logged(L, s0, lh, tail)
      {
        LoggedKeeps(L, s0, lh, tail, lh[tail]);
        NotLogged(L, lh, 0, L.start + tail + 1);
        ok := CopyToLog(L.start + tail + 1, lh[tail]);
        if !ok { return; }
        tail := tail + 1;
      }
    }

    /** install_trans: every log block goes to its home, and no block stays pinned. */
    method InstallTrans() returns (ok: bool)
      requires Ready() && |Used()| < NBUF && (session.pinned == Elems(lh) || Used() == {})
      modifies session, session.cache
      ensures ok && Ready() && session.pinned == {} && session.others == old(session.others) && |Used()| < NBUF
      ensures session.store == Installed(L, old(session.store), lh, |lh|)
    {
      hide Session.Valid; hide Bystanders; hide OtherBlocks;
      hide Issue; hide Installed; hide Fits;
      hide Elems;
      NoElems(lh);
      InstallStart(L, session.store, lh);
      ghost var s0 := session.store;
      var tail := 0;
      ok := true;
      while tail < |lh|
        invariant 0 <= tail <= |lh| && ok && Ready() && |Used()| < NBUF && session.others == old(session.others)
        invariant session.pinned == Elems(lh[tail..]) || Used() == {}
        invariant session.store == Installed(L, s0, lh, tail)
      {
        InstallRound(L, s0, lh, tail);
        ok := CopyHome(L.start + tail + 1, lh[tail]);
        tail := tail + 1;
      }
    }

    /**
     commit().  It succeeds exactly when there is nothing to commit or the logged blocks and
     the blocks other processes are reading leave a buffer free.  Then the writes it has issued
     are those of CommitWrites, every home block keeps its logical contents, and the disk agrees
     with the cache everywhere.
     */
    method Commit() returns (ok: bool)
      requires Valid() && session.held == map[] && Bystanders(L, lh, session.others)
      requires ReadersClean(session.others, Elems(lh), session.store)
      modifies `lh, session, session.cache
      ensures ok <==> old(lh) == [] || |Elems(old(lh)) + OtherBlocks(session.others)| < NBUF
      ensures session.others == old(session.others)
      ensures ok ==> Valid() && session.held == map[] && lh == []
      ensures ok ==> session.store == Issue(old(session.store), CommitWrites(L, old(session.store).disk[L.start], old(lh), Vals(old(session.store).logical, old(lh))))
      ensures ok ==> session.store.disk == session.store.logical
      ensures ok ==> AllOld(L, old(session.store).logical, session.store.logical)
    {
      hide Session.Valid; hide Bystanders; hide OtherBlocks; hide ReadersClean;
      hide Issue;
      hide PutHeader;
      hide CommitWrites;
      hide Installed;
      hide Elems;
      ghost var s0, lh0 := session.store, lh;
      ok := true;
      if |lh| > 0 {
        NotLogged(L, lh, 0, L.start);
        LogNotBusy(L, lh, session.others, L.start);
        session.Clean(L.start);
        ok := WriteLog();
        if !ok { return; }
        ok := WriteHead();
        ok := InstallAndClear();
        CommitStore(L, s0, lh0);
        CommitEffect(L, s0, lh0);
        ReadersStay(L, lh0, session.others, s0);
      } else {
        CommitNothing(L, s0, lh);
      }
      AllClean();
    }

    /** With nothing pinned or held, and others only reading, the disk is the logical disk. */
    lemma AllClean()
      requires session.Valid() && session.held == map[] && session.pinned == {}
      requires ReadersClean(session.others, {}, session.store) && |session.store.disk| == |session.store.logical|
      ensures session.store.disk == session.store.logical
    {
      forall b: nat | b < |session.store.logical| ensures session.store.logical[b] == session.store.disk[b] {
        if session.Unheld(b) {
          session.Clean(b);
        }
      }
    }

    lemma IdleSession()
      requires session.held == map[] && session.pinned == {} && session.others == map[]
      ensures session.Busy() == {} && ReadersClean(session.others, {}, session.store)
      ensures forall b: nat :: session.Unheld(b)
    {
    }

    /** read_head: the header block's entries, in order. */
    method ReadHead() returns (ok: bool)
      requires session.Valid() && session.held == map[] && session.pinned == {} && session.others == map[]
      requires |session.store.disk| == |session.store.logical|
      requires L.start < |session.store.disk| && Fits(L, |session.store.disk|, Header(session.store.disk[L.start]))
      modifies `lh, session, session.cache
      ensures ok && session.Valid() && session.held == map[] && session.pinned == {} && session.others == map[]
      ensures session.store == old(session.store)
      ensures lh == Header(session.store.disk[L.start])
    {
      hide Session.Valid; hide OtherBlocks; hide NotLocked;
      IdleSession();
      AllClean();
      var i: nat;
      ok, i := session.Get(L.start);
      var hb := session.Data(i);
      var n := GetWord(hb, 0);
      var k := 0;
      var entries: seq<nat> := [];
      while k < n
        invariant 0 <= k <= n && |entries| == k && n <= LOGSIZE
        invariant forall j :: 0 <= j < k ==> entries[j] == GetWord(hb, 1 + j)
      {
        entries := entries + [GetWord(hb, 1 + k)];
        k := k + 1;
      }
      assert entries == Header(hb);
      lh := entries;
      session.Put(i);
      TakeAndReturn(map[], i, L.start);
    }

    /** recover_from_log: the writes are those of RecoverWrites, and the log is ready for use. */
    method RecoverFromLog() returns (ok: bool)
      requires session.Valid() && session.held == map[] && session.pinned == {} && session.others == map[]
      requires |session.store.disk| == |session.store.logical|
      requires L.start < |session.store.disk| && Fits(L, |session.store.disk|, Header(session.store.disk[L.start]))
      modifies `lh, session, session.cache
      ensures ok && Valid() && session.held == map[] && lh == [] && session.others == map[]
      ensures session.store == Issue(old(session.store), RecoverWrites(L, old(session.store).disk))
    {
      hide Session.Valid;
      hide Issue;
      hide RecoverWrites;
      hide Installed;
      ghost var s0 := session.store;
      AllClean();
      ok := ReadHead();
      RecoverStore(L, s0, lh);
      ok := InstallAndClear();
    }

    /** The common end of commit and recovery: install, then an empty header. */
    method InstallAndClear() returns (ok: bool)
      requires Ready() && |Used()| < NBUF && (session.pinned == Elems(lh) || Used() == {})
      modifies `lh, session, session.cache
      ensures ok && Valid() && session.held == map[] && session.pinned == {} && lh == []
      ensures session.others == old(session.others)
      ensures session.store == Headed(L, Installed(L, old(session.store), old(lh), |old(lh)|), [])
    {
      hide Session.Valid;
      hide Issue;
      hide Installed;
      hide PutHeader;
      ok := InstallTrans();
      lh := [];
      HeadedEmpty(L, session.store);
      ok := WriteHead();
    }

    /**
     A crash after any k of the writes the next commit would issue, followed by any
     number of interrupted recoveries: every home block is as the cache has it now if
     the header was written, and as the disk has it now if not.
     */
    lemma CrashDuringCommit(k: nat, crashes: seq<nat>)
      requires Valid() && session.held == map[] && lh != []
      requires ReadersClean(session.others, Elems(lh), session.store)
      ensures var s := session.store;
              var ws := CommitWrites(L, s.disk[L.start], lh, Vals(s.logical, lh));
              var x := Reboot(L, Apply(s.disk, Prefix(ws, k)), crashes);
              EmptyLog(L, x) && AllOld(L, if k > |lh| then s.logical else s.disk, x)
    {
      hide Session.Valid;
      hide CommitWrites;
      hide Reboot;
      var s, vals := session.store, Vals(session.store.logical, lh);
      CrashAtomic(L, s.disk, lh, vals, k, crashes);
      var x := Reboot(L, Apply(s.disk, Prefix(CommitWrites(L, s.disk[L.start], lh, vals), k)), crashes);
      if k > |lh| {
        forall b: nat | b < |x| && Home(L, b) ensures x[b] == s.logical[b] {
          if b in lh {
            var i :| 0 <= i < |lh| && lh[i] == b;
          } else if session.Unheld(b) {
            session.Clean(b);
          }
        }
      }
    }
  }
}
