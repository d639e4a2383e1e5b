/**
 The storage stack put together: writes through the file layer, committed in groups
 by the log layer over the buffer cache, are atomic at the level of file contents
 wherever the machine stops.
 */
module CrashSafety {
  import opened Base
  import opened Bytes
  import opened FsLayout
  import opened SlotMap
  import opened FileContent
  import opened FileSystem
  import opened File
  import R = RedoLog
  import B = BufferCache
  import C = CacheSession
  import Log

  /** A consistent file system with the given inodes. */
  ghost predicate FsOk(sb: Superblock, blocks: seq<Block>, ino: seq<Inode>, owner: map<nat, Slot>) {
    Owned(sb, blocks, ino, owner, {}) && forall j: nat :: j < |ino| ==> OnDisk(sb, blocks, ino, j)
  }

  /** A file system lives in its inode, free-map and data blocks. */
  lemma SameFs(sb: Superblock, blocks: seq<Block>, ino: seq<Inode>, owner: map<nat, Slot>, x: seq<Block>)
    requires FsOk(sb, blocks, ino, owner) && SameFrom(blocks, x, sb.inodestart)
    ensures FsOk(sb, x, ino, owner) && forall j: nat :: j < |ino| ==> SameContent(blocks, ino, x, ino, j)
  {
    hide Owned; hide Extended; hide GetInode; hide Sized; hide SameContent; hide DataAddr;
    OwnedShape(sb, blocks, ino, owner);
    WriteMeta(sb, blocks, ino, owner, x);
    forall j: nat | j < |ino| ensures OnDisk(sb, x, ino, j) && SameContent(blocks, ino, x, ino, j) {
      assert OnDisk(sb, blocks, ino, j);
      InodeBlocksBelow(sb, blocks, blocks, j);
      ExtendedContent(blocks, ino, x, ino, j);
    }
  }

  /** The file system is where the file layer left it, on a disk that agrees with its blocks above the log. */
  lemma Carried(sb: Superblock, blocks: seq<Block>, ino: seq<Inode>, owner: map<nat, Slot>, mid: seq<Block>,
                x: seq<Block>)
    requires FsOk(sb, blocks, ino, owner) && SameFrom(blocks, mid, sb.inodestart) && SameFrom(mid, x, sb.inodestart)
    ensures FsOk(sb, x, ino, owner) && forall j: nat :: j < |ino| ==> SameContent(blocks, ino, x, ino, j)
  {
    hide FsOk; hide SameContent;
    SameFs(sb, blocks, ino, owner, x);
  }

  /** Blocks above the log keep agreeing under the same writes. */
  lemma {:induction false} ApplySame(a: seq<Block>, b: seq<Block>, ws: seq<R.Write>, n: nat)
    requires SameFrom(a, b, n)
    ensures SameFrom(R.Apply(a, ws), R.Apply(b, ws), n)
  {
    if ws != [] { ApplySame(a, b, ws[..|ws| - 1], n); }
  }

  /** Home blocks include everything above the log. */
  lemma AboveLog(L: R.Layout, d: seq<Block>, x: seq<Block>, from: nat)
    requires R.AllOld(L, d, x) && L.start + L.size <= from
    ensures SameFrom(d, x, from)
  {
  }

  /** The disk after k of the writes of the next commit, and reboots. */
  ghost function CrashDisk(L: R.Layout, s: C.Store, lh: seq<nat>, k: nat, crashes: seq<nat>): seq<Block>
    requires Log.Fits(L, |s.logical|, lh) && L.start < |s.disk|
  {
    R.Reboot(L, R.Apply(s.disk, R.Prefix(R.CommitWrites(L, s.disk[L.start], lh, Log.Vals(s.logical, lh)), k)), crashes)
  }

  /** initlog on a machine that has just started. */
  method Boot(L: R.Layout, disk: seq<Block>) returns (log: Log.LogState)
    requires L.start < |disk| && Log.Fits(L, |disk|, R.Header(disk[L.start]))
    ensures fresh(log) && fresh(log.session) && fresh(log.session.cache) && log.L == L && log.Valid()
    ensures log.session.held == map[] && log.session.others == map[] && log.lh == [] && log.outstanding == 0
    ensures log.session.cache.disk == log.session.store.disk == log.session.store.logical == R.Reboot(L, disk, [])
  {
    hide R.RecoverWrites; hide R.Apply; hide R.Header;
    var cache := new B.Cache(disk);
    var session := new C.Session(cache);
    log := new Log.LogState(session, L);
    var ok := log.RecoverFromLog();
  }

  /** The storage stack: open files over the file system, whose log_writes go to the log over the buffer cache. */
  class Stack {
    const sb: Superblock
    const L: R.Layout
    const fs: Fs
    const log: Log.LogState
    ghost var saved: seq<Inode>              // the inodes as of the last commit
    ghost var savedOwner: map<nat, Slot>

    /**
     The file layer's blocks are the log layer's logical disk above the log, and the disk itself
     holds the consistent file system of the last commit.
     */
    ghost predicate Valid()
      reads this, fs, log, log.session, log.session.cache
    {
      && fs.sb == sb && log.L == L && L.start + L.size <= sb.inodestart
      && log.Valid() && log.session.held == map[] && log.session.others == map[]
      && fs.Valid() && SameFrom(log.session.store.logical, fs.blocks, sb.inodestart)
      && FsOk(sb, log.session.store.disk, saved, savedOwner)
    }

    /** Boots from a disk whose log recovery can read; inode and owner describe the recovered file system. */
    constructor (sb: Superblock, L: R.Layout, disk: seq<Block>, inode: seq<Inode>, ghost owner: map<nat, Slot>)
      requires L.start < |disk| && L.start + L.size <= sb.inodestart && Log.Fits(L, |disk|, R.Header(disk[L.start]))
      requires FsOk(sb, R.Reboot(L, disk, []), inode, owner)
      ensures Valid() && fresh(fs) && fresh(log) && fresh(log.session) && fresh(log.session.cache)
      ensures this.sb == sb && this.L == L && log.lh == [] && log.outstanding == 0
      ensures fs.blocks == log.session.store.disk == R.Reboot(L, disk, []) && fs.inode == saved == inode
    {
      hide R.Reboot; hide FsOk; hide Log.LogState.Valid; hide Owned; hide OnDisk;
      var l := Boot(L, disk);
      FsOkParts(sb, R.Reboot(L, disk, []), inode, owner);
      this.sb, this.L, log, saved, savedOwner := sb, L, l, inode, owner;
      fs := new Fs(sb, l.session.cache.disk, inode, owner);
    }

    /** begin_op has let an operation in. */
    method Begin()
      requires Valid()
      modifies log`outstanding
      ensures Valid() && log.outstanding == old(log.outstanding) + 1
    {
      log.outstanding := log.outstanding + 1;
    }

    ghost function After(k: nat, crashes: seq<nat>): seq<Block>
      requires Valid()
      reads this, fs, log, log.session, log.session.cache
    {
      CrashDisk(L, log.session.store, log.lh, k, crashes)
    }

    /**
     What a crash after k of the disk writes of the next commit leaves: if the header was written,
     every file as it is now, and if not, every file as it was when the last commit was done.
     */
    ghost predicate AtomicAt(k: nat, crashes: seq<nat>)
      requires Valid()
      reads this, fs, log, log.session, log.session.cache
    {
      var x := After(k, crashes);
      && R.EmptyLog(L, x)
      && if log.lh != [] && k > |log.lh|
         then FsOk(sb, x, fs.inode, fs.owner) && forall j: nat :: j < |fs.inode| ==> SameContent(fs.blocks, fs.inode, x, fs.inode, j)
         else FsOk(sb, x, saved, savedOwner) && forall j: nat :: j < |saved| ==> SameContent(log.session.store.disk, saved, x, saved, j)
    }

    /** Whatever group of operations is waiting to be committed, it is atomic at the level of file contents. */
    lemma Atomic(k: nat, crashes: seq<nat>)
      requires Valid()
      ensures AtomicAt(k, crashes)
    {
      hide FsOk; hide SameContent; hide C.Session.Valid; hide R.CommitWrites; hide R.Reboot; hide Fs.Valid;
      var s, x := log.session.store, After(k, crashes);
      NoReaders(log.session.others, Log.Elems(log.lh), s);
      if log.lh != [] {
        log.CrashDuringCommit(k, crashes);
        if k > |log.lh| {
          AboveLog(L, s.logical, x, sb.inodestart);
          FsIsOk();
          SameFromBack(s.logical, fs.blocks, sb.inodestart);
          Carried(sb, fs.blocks, fs.inode, fs.owner, s.logical, x);
        } else {
          AboveLog(L, s.disk, x, sb.inodestart);
          SameFs(sb, s.disk, saved, savedOwner, x);
        }
      } else {
        NothingToCommit(L, s, k, crashes);
        AboveLog(L, s.disk, x, sb.inodestart);
        SameFs(sb, s.disk, saved, savedOwner, x);
      }
    }

    lemma FsIsOk()
      requires fs.Valid() && fs.sb == sb
      ensures FsOk(sb, fs.blocks, fs.inode, fs.owner)
    {
    }

    /**
     One chunk written through an open file, its log_writes going through the log and the buffer
     cache.  The disk does not change, and a crash at any point leaves either all of the files as
     they are now or all of them as of the last commit.
     */
    method Write(f: OpenFile, data: seq<byte>) returns (ok: bool, accepted: bool, r: int)
      requires Valid() && f.fs == fs && f.Open() && 0 < |data| <= CHUNK && log.outstanding >= 1
      modifies f, fs, log`lh, log.session, log.session.cache
      ensures ok <==> || WriteRefused(old(fs.inode[f.ip]).size, old(f.off), |data|)
                      || Affordable(sb, old(fs.blocks), old(fs.inode), f.ip, old(f.off), |data|)
      ensures !ok ==> fs.Stuck()
      ensures ok ==> (accepted <==> Log.Accepts(L, old(log.lh), fs.trace))
      ensures ok && |old(log.lh)| + MAXOPBLOCKS < LOGSIZE && |old(log.lh)| + MAXOPBLOCKS < L.size - 1 ==> accepted
      ensures ok && accepted ==> Valid() && f.Open() && log.session.store.disk == old(log.session.store.disk) && saved == old(saved)
      ensures ok && accepted ==>
                if WriteRefused(old(fs.inode[f.ip]).size, old(f.off), |data|)
                then && r == -1 && fs.blocks == old(fs.blocks) && fs.inode == old(fs.inode) && log.lh == old(log.lh)
                     && f.off == old(f.off)
                else && r == |data| && f.off == old(f.off) + r && |fs.inode| == |old(fs.inode)|
                     && log.lh == Log.Recorded(old(log.lh), fs.trace)
                     && Spliced(old(fs.blocks), old(fs.inode), fs.blocks, fs.inode, f.ip, old(f.off), data)
                     && OthersKeep(old(fs.blocks), old(fs.inode), fs.blocks, fs.inode, f.ip)
      ensures ok && accepted ==> forall k: nat, crashes: seq<nat> :: AtomicAt(k, crashes)
    {
      hide FsOk; hide Spliced; hide OthersKeep; hide Fs.Valid; hide Fs.Stuck; hide Log.LogState.Valid; hide R.Apply;
      hide Affordable; hide WriteSet; hide Log.Accepts; hide AtomicAt; hide Log.Recorded;
      Sizes();
      accepted := false;
      ghost var op;
      ok, r, op := f.WriteChunk(data);
      if !ok { return; }
      InRange(L, sb, fs.trace, op, |log.session.store.logical|);
      RoomForOp(L, log.lh, fs.trace, op);
      accepted := log.Replay(fs.trace);
      if !accepted { return; }
      ApplySame(old(log.session.store.logical), old(fs.blocks), fs.trace, sb.inodestart);
      if fs.trace == [] { NoWrites(log.lh, old(log.lh)); }
      forall k: nat, crashes: seq<nat> ensures AtomicAt(k, crashes) { Atomic(k, crashes); }
    }

    lemma Sizes()
      requires Valid()
      ensures |log.session.store.logical| == |fs.blocks| == sb.size
    {
      OwnedShape(sb, fs.blocks, fs.inode, fs.owner);
    }

    /**
     commit() of the group: it succeeds exactly when fewer than NBUF blocks are logged, and then the
     disk holds every file as it is now.
     */
    method Commit() returns (ok: bool)
      requires Valid()
      modifies this`saved, this`savedOwner, log`lh, log.session, log.session.cache
      ensures ok <==> |old(log.lh)| < NBUF
      ensures ok ==> Valid() && log.lh == [] && saved == fs.inode && savedOwner == fs.owner
      ensures ok ==> forall j: nat :: j < |saved| ==> SameContent(fs.blocks, fs.inode, log.session.store.disk, saved, j)
    {
      hide FsOk; hide SameContent; hide Fs.Valid; hide R.CommitWrites; hide C.Session.Valid; hide R.Apply;
      CommitReady(L, log.lh, log.session.others, log.session.store);
      Sizes();
      ok := log.Commit();
      if !ok { return; }
      AboveLog(L, old(log.session.store.logical), log.session.store.logical, sb.inodestart);
      FsIsOk();
      SameFromBack(old(log.session.store.logical), fs.blocks, sb.inodestart);
      Carried(sb, fs.blocks, fs.inode, fs.owner, old(log.session.store.logical), log.session.store.disk);
      saved, savedOwner := fs.inode, fs.owner;
    }
  }

  lemma FsOkParts(sb: Superblock, blocks: seq<Block>, ino: seq<Inode>, owner: map<nat, Slot>)
    requires FsOk(sb, blocks, ino, owner)
    ensures Owned(sb, blocks, ino, owner, {}) && forall j: nat :: j < |ino| ==> OnDisk(sb, blocks, ino, j)
  {
  }

  lemma SameFromBack(a: seq<Block>, b: seq<Block>, n: nat)
    requires SameFrom(a, b, n)
    ensures SameFrom(b, a, n)
  {
  }

  lemma NoReaders(O: map<nat, C.Ref>, pinned: set<nat>, s: C.Store)
    requires O == map[]
    ensures Log.ReadersClean(O, pinned, s)
  {
  }

  lemma CommitReady(L: R.Layout, lh: seq<nat>, O: map<nat, C.Ref>, s: C.Store)
    requires O == map[] && Distinct(lh)
    ensures Log.Bystanders(L, lh, O) && Log.ReadersClean(O, Log.Elems(lh), s)
    ensures |Log.Elems(lh) + C.OtherBlocks(O)| == |lh|
  {
    Log.ElemsCount(lh);
    assert C.OtherBlocks(O) == {};
    assert Log.Elems(lh) + {} == Log.Elems(lh);
  }

  /** With an empty header commit writes nothing, and recovery of the empty log changes no home block. */
  lemma NothingToCommit(L: R.Layout, s: C.Store, k: nat, crashes: seq<nat>)
    requires Log.Fits(L, |s.logical|, []) && L.start < |s.disk| && R.EmptyLog(L, s.disk)
    ensures R.AllOld(L, s.disk, CrashDisk(L, s, [], k, crashes)) && R.EmptyLog(L, CrashDisk(L, s, [], k, crashes))
  {
    hide R.Reboot;
    R.RebootUncommitted(L, s.disk, s.disk, crashes);
  }

  lemma InRange(L: R.Layout, sb: Superblock, ws: seq<R.Write>, op: set<nat>, n: nat)
    requires op == WriteSet(ws) && (forall c :: c in op ==> sb.inodestart <= c < sb.size) && n == sb.size
    requires L.start + L.size <= sb.inodestart
    ensures forall w :: w in ws ==> w.block < n && R.Home(L, w.block)
  {
    forall w | w in ws ensures w.block in op { }
  }

  lemma RoomForOp(L: R.Layout, lh: seq<nat>, ws: seq<R.Write>, op: set<nat>)
    requires op == WriteSet(ws) && |op| <= MAXOPBLOCKS
    ensures |lh| + MAXOPBLOCKS < LOGSIZE && |lh| + MAXOPBLOCKS < L.size - 1 ==> Log.Accepts(L, lh, ws)
  {
    assert Log.Named(ws) == op;
    if |lh| + MAXOPBLOCKS < LOGSIZE && |lh| + MAXOPBLOCKS < L.size - 1 { Log.RoomAccepts(L, lh, ws); }
  }

  lemma NoWrites(lh: seq<nat>, lh0: seq<nat>)
    requires lh == Log.Recorded(lh0, [])
    ensures lh == lh0
  {
  }
}
