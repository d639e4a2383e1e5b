/**
 The on-disk redo log of log.c at the level of single block writes: what commit
 and recovery write, in order, and what a crash between any two of those writes
 leaves behind.
 */
module RedoLog {
  import opened Base
  import opened Bytes

  type Disk = seq<Block>

  /** One atomic block write by the disk. */
  datatype Write = Write(block: nat, data: Block)

  /** log.start and log.size: a header block followed by size - 1 log blocks. */
  datatype Layout = Layout(start: nat, size: nat)

  predicate Home(L: Layout, b: nat) {
    b < L.start || L.start + L.size <= b
  }

  function Apply(d: Disk, ws: seq<Write>): (r: Disk)
    ensures |r| == |d|
  {
    if ws == [] then d
    else
      var d' := Apply(d, ws[..|ws| - 1]);
      var w := ws[|ws| - 1];
      if w.block < |d'| then d'[w.block := w.data] else d'
  }

  // ----- the header block -----

  /** struct logheader: n in word 0, block[i] in word 1 + i. */
  function Header(b: Block): seq<nat> {
    seq(GetWord(b, 0), i requires 0 <= i => if 1 + i < WORDS then GetWord(b, 1 + i) else 0)
  }

  predicate Words(s: seq<nat>) {
    forall i :: 0 <= i < |s| ==> s[i] < 0x1_0000_0000
  }

  /** The loop of write_head after k entries. */
  function PutEntries(b: Block, lh: seq<nat>, k: nat): (r: Block)
    requires k <= |lh| <= LOGSIZE && Words(lh)
    ensures GetWord(r, 0) == GetWord(b, 0)
    ensures forall i :: 0 <= i < k ==> GetWord(r, 1 + i) == lh[i]
  {
    if k == 0 then b else SetWord(PutEntries(b, lh, k - 1), k, lh[k - 1])
  }

  /** A header block written over whatever the block held before reads back as lh. */
  function PutHeader(b: Block, lh: seq<nat>): (r: Block)
    requires |lh| <= LOGSIZE && Words(lh)
    ensures Header(r) == lh
  {
    PutEntries(SetWord(b, 0, |lh|), lh, |lh|)
  }

  /** struct logheader in its block: the number of entries, then the entries, each in four bytes, lowest first. */
  lemma HeaderBytes(b: Block)
    ensures |Header(b)| == LittleEndian(b, 0, 4)
    ensures forall k: nat :: k < |Header(b)| && k + 1 < WORDS ==> Header(b)[k] == LittleEndian(b, 4 + 4 * k, 4)
  {
    hide GetWord; hide LittleEndian;
    WordBytes(b, 0);
    forall k: nat | k < |Header(b)| && k + 1 < WORDS ensures Header(b)[k] == LittleEndian(b, 4 + 4 * k, 4) {
      WordBytes(b, k + 1);
    }
  }

  // ----- commit and recovery as sequences of block writes -----

  function LogWrites(L: Layout, vals: seq<Block>): seq<Write> {
    seq(|vals|, i requires 0 <= i < |vals| => Write(L.start + 1 + i, vals[i]))
  }

  function HomeWrites(lh: seq<nat>, vals: seq<Block>): seq<Write>
    requires |lh| == |vals|
  {
    seq(|lh|, i requires 0 <= i < |lh| => Write(lh[i], vals[i]))
  }

  /** commit(): log blocks, header, home blocks, empty header. */
  function CommitWrites(L: Layout, hb: Block, lh: seq<nat>, vals: seq<Block>): seq<Write>
    requires |lh| == |vals| <= LOGSIZE && Words(lh)
  {
    if lh == [] then []
    else
      var h := PutHeader(hb, lh);
      LogWrites(L, vals) + [Write(L.start, h)] + HomeWrites(lh, vals) + [Write(L.start, PutHeader(h, []))]
  }

  /** The blocks recovery reads exist. */
  predicate Readable(L: Layout, d: Disk) {
    L.start < |d| && L.start + 1 + |Header(d[L.start])| <= |d|
  }

  /** recover_from_log(): home blocks from the log, then an empty header. */
  function RecoverWrites(L: Layout, d: Disk): seq<Write> {
    if !Readable(L, d) then []   // iderw panics on a block number off the disk
    else
      var lh := Header(d[L.start]);
      HomeWrites(lh, d[L.start + 1..][..|lh|]) + [Write(L.start, PutHeader(d[L.start], []))]
  }

  function Prefix(ws: seq<Write>, k: nat): seq<Write> {
    if k < |ws| then ws[..k] else ws
  }

  /** Boot after boot, each recovery cut short after some number of writes, then one that completes. */
  function Reboot(L: Layout, d: Disk, crashes: seq<nat>): Disk
    decreases |crashes|
  {
    if crashes == [] then Apply(d, RecoverWrites(L, d))
    else Reboot(L, Apply(d, Prefix(RecoverWrites(L, d), crashes[0])), crashes[1..])
  }

  // ----- transactions -----

  /** A transaction log.c may hand to commit: distinct home blocks that fit in the log. */
  ghost predicate GoodTxn(L: Layout, d: Disk, lh: seq<nat>, vals: seq<Block>) {
    && |lh| == |vals| <= LOGSIZE && |lh| < L.size
    && L.start + L.size <= |d| <= 0x1_0000_0000
    && Words(lh)
    && Distinct(lh)
    && forall i :: 0 <= i < |lh| ==> lh[i] < |d| && Home(L, lh[i])
  }

  ghost predicate AllOld(L: Layout, d: Disk, x: Disk) {
    |x| == |d| && forall b :: 0 <= b < |d| && Home(L, b) ==> x[b] == d[b]
  }

  ghost predicate AllNew(L: Layout, d: Disk, lh: seq<nat>, vals: seq<Block>, x: Disk) {
    && |x| == |d| && |lh| == |vals|
    && (forall i :: 0 <= i < |lh| && lh[i] < |x| ==> x[lh[i]] == vals[i])
    && (forall b :: 0 <= b < |d| && Home(L, b) && b !in lh ==> x[b] == d[b])
  }

  ghost predicate EmptyLog(L: Layout, d: Disk) {
    L.start < |d| && Header(d[L.start]) == []
  }

  /** The header has reached the disk: everything recovery needs is in the log. */
  ghost predicate Committed(L: Layout, d: Disk, lh: seq<nat>, vals: seq<Block>, x: Disk) {
    && |x| == |d| && L.start < |d| && |lh| == |vals| && L.start + 1 + |lh| <= |d|
    && Header(x[L.start]) == lh
    && (forall i :: 0 <= i < |lh| ==> x[L.start + 1 + i] == vals[i])
    && (forall b :: 0 <= b < |d| && Home(L, b) && b !in lh ==> x[b] == d[b])
  }

  // ----- writes to disjoint places -----

  lemma {:induction false} ApplyConcat(d: Disk, a: seq<Write>, b: seq<Write>)
    ensures Apply(d, a + b) == Apply(Apply(d, a), b)
  {
    if b == [] {
      assert a + b == a;
    } else {
      assert (a + b)[..|a + b| - 1] == a + b[..|b| - 1];
      ApplyConcat(d, a, b[..|b| - 1]);
    }
  }

  lemma ApplyOne(d: Disk, w: Write)
    ensures Apply(d, [w]) == if w.block < |d| then d[w.block := w.data] else d
  {
    assert [w][..0] == [];
  }

  /** A block no write names keeps its contents. */
  lemma {:induction false} ApplyFrame(d: Disk, ws: seq<Write>, b: nat)
    requires b < |d|
    requires forall i :: 0 <= i < |ws| ==> ws[i].block != b
    ensures Apply(d, ws)[b] == d[b]
  {
    if ws != [] { ApplyFrame(d, ws[..|ws| - 1], b); }
  }

  /** Among writes to distinct blocks, each one's data is there at the end. */
  lemma {:induction false} ApplyHits(d: Disk, ws: seq<Write>, i: nat)
    requires i < |ws| && ws[i].block < |d|
    requires forall j :: i < j < |ws| ==> ws[j].block != ws[i].block
    ensures Apply(d, ws)[ws[i].block] == ws[i].data
  {
    if i < |ws| - 1 { ApplyHits(d, ws[..|ws| - 1], i); }
  }

  // ----- recovery -----

  /** With an empty log, recovery changes no home block, wherever it is cut. */
  lemma {:induction false} RebootUncommitted(L: Layout, d: Disk, x: Disk, crashes: seq<nat>)
    requires L.size > 0 && AllOld(L, d, x) && EmptyLog(L, x)
    ensures AllOld(L, d, Reboot(L, x, crashes)) && EmptyLog(L, Reboot(L, x, crashes))
    decreases |crashes|
  {
    hide PutHeader;
    hide Header;
    var ws := RecoverWrites(L, x);
    var h := PutHeader(x[L.start], []);
    assert ws == [Write(L.start, h)];
    ApplyOne(x, ws[0]);
    assert !Home(L, L.start);
    if crashes != [] {
      assert Prefix(ws, crashes[0]) == [] || Prefix(ws, crashes[0]) == ws;
      RebootUncommitted(L, d, Apply(x, Prefix(ws, crashes[0])), crashes[1..]);
    }
  }

  /** A prefix of the installs leaves the log intact and ready to be replayed. */
  lemma InstallPrefix(L: Layout, d: Disk, lh: seq<nat>, vals: seq<Block>, x: Disk, k: nat)
    requires GoodTxn(L, d, lh, vals) && Committed(L, d, lh, vals, x) && k <= |lh|
    ensures Committed(L, d, lh, vals, Apply(x, HomeWrites(lh, vals)[..k]))
  {
    var ws := HomeWrites(lh, vals)[..k];
    var y := Apply(x, ws);
    forall b: nat | b < |d| && (Home(L, b) ==> b !in lh) ensures y[b] == x[b] {
      ApplyFrame(x, ws, b);
    }
    assert !Home(L, L.start);
    forall i | 0 <= i < |lh| ensures y[L.start + 1 + i] == vals[i] {
      assert !Home(L, L.start + 1 + i);
    }
  }

  /** After all installs every logged block is new. */
  lemma InstallHits(lh: seq<nat>, vals: seq<Block>, x: Disk, i: nat)
    requires |lh| == |vals| && Distinct(lh) && i < |lh| && lh[i] < |x|
    ensures Apply(x, HomeWrites(lh, vals))[lh[i]] == vals[i]
  {
    hide Apply;
    ApplyHits(x, HomeWrites(lh, vals), i);
  }

  /** Clearing the header of a disk with all installs done. */
  lemma ClearInstalled(L: Layout, d: Disk, lh: seq<nat>, vals: seq<Block>, x: Disk, h: Block)
    requires GoodTxn(L, d, lh, vals) && Committed(L, d, lh, vals, x) && Header(h) == []
    requires forall i :: 0 <= i < |lh| ==> x[lh[i]] == vals[i]
    ensures AllNew(L, d, lh, vals, x[L.start := h]) && EmptyLog(L, x[L.start := h])
  {
    hide Header;
    assert !Home(L, L.start);
  }

  /** All installs followed by the cleared header: everything is new and the log is empty. */
  lemma InstallAll(L: Layout, d: Disk, lh: seq<nat>, vals: seq<Block>, x: Disk, h: Block)
    requires GoodTxn(L, d, lh, vals) && Committed(L, d, lh, vals, x) && Header(h) == []
    ensures var y := Apply(x, HomeWrites(lh, vals) + [Write(L.start, h)]);
            AllNew(L, d, lh, vals, y) && EmptyLog(L, y)
  {
    hide Header; hide Committed; hide AllNew; hide EmptyLog; hide Apply;
    var ws := HomeWrites(lh, vals);
    var x1 := Apply(x, ws);
    assert ws[..|lh|] == ws;
    InstallPrefix(L, d, lh, vals, x, |lh|);
    InstallSizes(L, d, lh, vals, x);
    forall i | 0 <= i < |lh| ensures x1[lh[i]] == vals[i] { InstallHits(lh, vals, x, i); }
    ClearInstalled(L, d, lh, vals, x1, h);
    ApplyConcat(x, ws, [Write(L.start, h)]);
    ApplyOne(x1, Write(L.start, h));
  }

  lemma InstallSizes(L: Layout, d: Disk, lh: seq<nat>, vals: seq<Block>, x: Disk)
    requires Committed(L, d, lh, vals, x)
    ensures |x| == |d| && L.start < |d|
  {
  }

  /** The writes recovery issues on a committed disk. */
  lemma RecoverCommitted(L: Layout, d: Disk, lh: seq<nat>, vals: seq<Block>, x: Disk)
    requires GoodTxn(L, d, lh, vals) && Committed(L, d, lh, vals, x)
    ensures RecoverWrites(L, x) == HomeWrites(lh, vals) + [Write(L.start, PutHeader(x[L.start], []))]
  {
    assert x[L.start + 1..][..|lh|] == vals;
  }

  /** What is new stays new where home blocks stay. */
  lemma NewStays(L: Layout, d: Disk, lh: seq<nat>, vals: seq<Block>, x: Disk, y: Disk)
    requires GoodTxn(L, d, lh, vals) && AllNew(L, d, lh, vals, x) && AllOld(L, x, y)
    ensures AllNew(L, d, lh, vals, y)
  {
  }

  /** After the header write, any number of interrupted recoveries ends with everything new. */
  lemma {:induction false} RebootCommitted(L: Layout, d: Disk, lh: seq<nat>, vals: seq<Block>, x: Disk,
                                           crashes: seq<nat>)
    requires GoodTxn(L, d, lh, vals) && Committed(L, d, lh, vals, x)
    ensures AllNew(L, d, lh, vals, Reboot(L, x, crashes)) && EmptyLog(L, Reboot(L, x, crashes))
    decreases |crashes|
  {
    hide PutHeader;
    hide Header;
    var ws := RecoverWrites(L, x);
    var h := PutHeader(x[L.start], []);
    RecoverCommitted(L, d, lh, vals, x);
    InstallAll(L, d, lh, vals, x, h);
    if crashes != [] {
      var k := crashes[0];
      var y := Apply(x, Prefix(ws, k));
      if k < |ws| {
        assert ws[..k] == HomeWrites(lh, vals)[..k];
        InstallPrefix(L, d, lh, vals, x, k);
        RebootCommitted(L, d, lh, vals, y, crashes[1..]);
      } else {
        RebootUncommitted(L, y, y, crashes[1..]);
        NewStays(L, d, lh, vals, y, Reboot(L, y, crashes[1..]));
      }
    }
  }

  // ----- commit -----

  /** Before the header write only log blocks have changed. */
  lemma CommitBeforeHeader(L: Layout, d: Disk, lh: seq<nat>, vals: seq<Block>, k: nat)
    requires GoodTxn(L, d, lh, vals) && EmptyLog(L, d) && k <= |lh|
    ensures var x := Apply(d, CommitWrites(L, d[L.start], lh, vals)[..k]);
            AllOld(L, d, x) && EmptyLog(L, x)
  {
    var ws := CommitWrites(L, d[L.start], lh, vals)[..k];
    assert ws == LogWrites(L, vals)[..k];
    var x := Apply(d, ws);
    forall b: nat | b < |d| && (Home(L, b) || b == L.start) ensures x[b] == d[b] {
      ApplyFrame(d, ws, b);
    }
  }

  /** The header write is the commit point. */
  lemma CommitAtHeader(L: Layout, d: Disk, lh: seq<nat>, vals: seq<Block>, h: Block)
    requires GoodTxn(L, d, lh, vals) && Header(h) == lh
    ensures Committed(L, d, lh, vals, Apply(d, LogWrites(L, vals) + [Write(L.start, h)]))
  {
    var ws := LogWrites(L, vals) + [Write(L.start, h)];
    var x := Apply(d, ws);
    ApplyHits(d, ws, |vals|);
    forall i | 0 <= i < |lh| ensures x[L.start + 1 + i] == vals[i] {
      ApplyHits(d, ws, i);
    }
    forall b: nat | b < |d| && Home(L, b) ensures x[b] == d[b] {
      ApplyFrame(d, ws, b);
    }
  }

  /** A crash during the installs, any number of them done. */
  lemma CommitInstalling(L: Layout, d: Disk, lh: seq<nat>, vals: seq<Block>, h: Block, k: nat)
    requires GoodTxn(L, d, lh, vals) && Header(h) == lh && k <= |lh|
    ensures Committed(L, d, lh, vals, Apply(d, LogWrites(L, vals) + [Write(L.start, h)] + HomeWrites(lh, vals)[..k]))
  {
    hide PutHeader;
    hide Header;
    CommitAtHeader(L, d, lh, vals, h);
    ApplyConcat(d, LogWrites(L, vals) + [Write(L.start, h)], HomeWrites(lh, vals)[..k]);
    InstallPrefix(L, d, lh, vals, Apply(d, LogWrites(L, vals) + [Write(L.start, h)]), k);
  }

  /** All of commit's writes. */
  lemma CommitDone(L: Layout, d: Disk, lh: seq<nat>, vals: seq<Block>)
    requires GoodTxn(L, d, lh, vals) && lh != []
    ensures var x := Apply(d, CommitWrites(L, d[L.start], lh, vals));
            AllNew(L, d, lh, vals, x) && EmptyLog(L, x)
  {
    hide PutHeader;
    hide Header;
    var h := PutHeader(d[L.start], lh);
    var head, rest := LogWrites(L, vals) + [Write(L.start, h)], HomeWrites(lh, vals) + [Write(L.start, PutHeader(h, []))];
    assert CommitWrites(L, d[L.start], lh, vals) == head + rest;
    ApplyConcat(d, head, rest);
    CommitAtHeader(L, d, lh, vals, h);
    InstallAll(L, d, lh, vals, Apply(d, head), PutHeader(h, []));
  }

  /** The writes of commit up to and including the header, and some installs. */
  lemma CommitSplit(L: Layout, hb: Block, lh: seq<nat>, vals: seq<Block>, k: nat)
    requires 0 < |lh| == |vals| <= LOGSIZE && Words(lh)
    requires |lh| < k < 2 * |lh| + 2
    ensures |CommitWrites(L, hb, lh, vals)| == 2 * |lh| + 2
    ensures CommitWrites(L, hb, lh, vals)[..k]
         == LogWrites(L, vals) + [Write(L.start, PutHeader(hb, lh))] + HomeWrites(lh, vals)[..k - |lh| - 1]
  {
  }

  /**
   Crash atomicity.  Stop commit after any k of its writes, then let recovery
   run and be interrupted any number of times before it completes: the home
   blocks are all new if the header write was among the k, and all old if not,
   and the log is empty again.
   */
  lemma CrashAtomic(L: Layout, d: Disk, lh: seq<nat>, vals: seq<Block>, k: nat, crashes: seq<nat>)
    requires GoodTxn(L, d, lh, vals) && EmptyLog(L, d) && lh != []
    ensures var x := Reboot(L, Apply(d, Prefix(CommitWrites(L, d[L.start], lh, vals), k)), crashes);
            && EmptyLog(L, x)
            && (if k > |lh| then AllNew(L, d, lh, vals, x) else AllOld(L, d, x))
  {
    hide PutHeader; hide Header; hide Reboot; hide AllNew; hide Committed; hide EmptyLog; hide Apply;
    var ws := CommitWrites(L, d[L.start], lh, vals);
    var x := Apply(d, Prefix(ws, k));
    CommitSplit(L, d[L.start], lh, vals, |lh| + 1);
    if k <= |lh| {
      CommitBeforeHeader(L, d, lh, vals, k);
      RebootUncommitted(L, d, x, crashes);
    } else if k < |ws| {
      CommitSplit(L, d[L.start], lh, vals, k);
      CommitInstalling(L, d, lh, vals, PutHeader(d[L.start], lh), k - |lh| - 1);
      RebootCommitted(L, d, lh, vals, x, crashes);
    } else {
      CommitDone(L, d, lh, vals);
      RebootUncommitted(L, x, x, crashes);
      NewStays(L, d, lh, vals, x, Reboot(L, x, crashes));
    }
  }

  // ----- whole runs -----

  /** One transaction: it commits in full, or the machine stops after `cut` writes and reboots. */
  datatype Txn = Txn(lh: seq<nat>, vals: seq<Block>, cut: nat, crashes: seq<nat>)

  ghost predicate GoodRun(L: Layout, n: nat, run: seq<Txn>) {
    forall i :: 0 <= i < |run| ==> run[i].lh != [] && GoodTxn(L, seq(n, _ => ZeroBlock), run[i].lh, run[i].vals)
  }

  function Step(L: Layout, d: Disk, t: Txn): Disk
    requires L.start < |d| && |t.lh| == |t.vals| <= LOGSIZE && Words(t.lh)
  {
    var ws := CommitWrites(L, d[L.start], t.lh, t.vals);
    if t.cut < |ws| then Reboot(L, Apply(d, ws[..t.cut]), t.crashes) else Apply(d, ws)
  }

  function Run(L: Layout, d: Disk, run: seq<Txn>): Disk
    requires L.start < |d| && forall i :: 0 <= i < |run| ==> |run[i].lh| == |run[i].vals| <= LOGSIZE && Words(run[i].lh)
  {
    if run == [] then d
    else
      var x := Run(L, d, run[..|run| - 1]);
      if L.start < |x| then Step(L, x, run[|run| - 1]) else x
  }

  /** The value a home block should have: that of the last committed transaction that logged it. */
  ghost function Expected(d: Disk, run: seq<Txn>, b: nat): Block
    requires b < |d| && forall i :: 0 <= i < |run| ==> |run[i].lh| == |run[i].vals|
  {
    if run == [] then d[b]
    else
      var t := run[|run| - 1];
      if |t.lh| < t.cut && b in t.lh then
        var i :| 0 <= i < |t.lh| && t.lh[i] == b;
        t.vals[i]
      else Expected(d, run[..|run| - 1], b)
  }

  /** Over any run of transactions and crashes, each home block holds its last committed value. */
  lemma {:induction false} RunAtomic(L: Layout, d: Disk, run: seq<Txn>)
    requires EmptyLog(L, d) && GoodRun(L, |d|, run)
    ensures var x := Run(L, d, run);
            && |x| == |d| && EmptyLog(L, x)
            && forall b :: 0 <= b < |d| && Home(L, b) ==> x[b] == Expected(d, run, b)
  {
    hide PutHeader;
    hide Header;
    hide CommitWrites;
    hide Reboot;
    if run != [] {
      var t := run[|run| - 1];
      var x := Run(L, d, run[..|run| - 1]);
      RunAtomic(L, d, run[..|run| - 1]);
      assert GoodTxn(L, seq(|d|, _ => ZeroBlock), t.lh, t.vals);
      assert GoodTxn(L, x, t.lh, t.vals);
      CrashAtomic(L, x, t.lh, t.vals, t.cut, t.crashes);
      CommitDone(L, x, t.lh, t.vals);
      CommitSplit(L, x[L.start], t.lh, t.vals, |t.lh| + 1);
    }
  }
}
