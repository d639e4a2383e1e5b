/**
 sleeplock.c over sleep and wakeup of proc.c, as an interleaving protocol of any
 number of processes, one atomic step at a time.
 */
module SleepLock {
  /** Where a process is; the comment says which spin locks it holds. */
  datatype Pc =
    | Out              // outside
    | Want             // acquiresleep: about to take lk
    | Test             // lk: while(lk->locked)
    | Sleep0           // lk: sleep: about to take ptable.lock
    | Sleep1           // lk, ptable: about to release lk
    | Sleep2           // ptable: about to mark itself SLEEPING and switch away
    | Asleep           // SLEEPING on the lock
    | Awake            // RUNNABLE again, inside sleep
    | Back0            // ptable: running again, about to release ptable.lock
    | Back1            // about to take lk again
    | Got              // lk: locked set, about to release lk
    | Holder           // the sleep lock is held
    | Free0            // lk: releasesleep: about to clear locked
    | Free1            // lk: about to take ptable.lock for wakeup
    | Free2            // lk, ptable: about to wake the sleepers
    | Free3            // lk, ptable: about to release ptable.lock
    | Free4            // lk: about to release lk

  const NOBODY := -1
  const KERNEL := -2   // any other user of ptable.lock

  datatype State = State(pc: seq<Pc>, spin: int, ptable: int, locked: bool, pid: int)

  predicate HasSpin(p: Pc) {
    p in {Test, Sleep0, Sleep1, Got, Free0, Free1, Free2, Free3, Free4}
  }

  predicate HasTable(p: Pc) {
    p in {Sleep1, Sleep2, Back0, Free2, Free3}
  }

  predicate HasLock(p: Pc) {
    p in {Got, Holder, Free0}
  }

  /** wakeup1 on the lock's channel. */
  function WakeAll(pc: seq<Pc>): (r: seq<Pc>)
    ensures |r| == |pc| && forall i :: 0 <= i < |pc| ==> r[i] == if pc[i] == Asleep then Awake else pc[i]
  {
    seq(|pc|, i requires 0 <= i < |pc| => if pc[i] == Asleep then Awake else pc[i])
  }

  /** Process i can take a step. */
  predicate CanStep(s: State, i: nat) {
    && i < |s.pc|
    && (s.pc[i] in {Want, Back1, Holder} ==> s.spin == NOBODY)
    && (s.pc[i] in {Sleep0, Awake, Free1} ==> s.ptable == NOBODY)
    && s.pc[i] != Asleep
  }

  function Step(s: State, i: nat): State
    requires CanStep(s, i)
  {
    match s.pc[i]
    case Out => s.(pc := s.pc[i := Want])
    case Want => s.(pc := s.pc[i := Test], spin := i)
    case Test => if s.locked then s.(pc := s.pc[i := Sleep0]) else s.(pc := s.pc[i := Got], locked := true, pid := i)
    case Sleep0 => s.(pc := s.pc[i := Sleep1], ptable := i)
    case Sleep1 => s.(pc := s.pc[i := Sleep2], spin := NOBODY)
    case Sleep2 => s.(pc := s.pc[i := Asleep], ptable := NOBODY)
    case Asleep => s
    case Awake => s.(pc := s.pc[i := Back0], ptable := i)
    case Back0 => s.(pc := s.pc[i := Back1], ptable := NOBODY)
    case Back1 => s.(pc := s.pc[i := Test], spin := i)
    case Got => s.(pc := s.pc[i := Holder], spin := NOBODY)
    case Holder => s.(pc := s.pc[i := Free0], spin := i)
    case Free0 => s.(pc := s.pc[i := Free1], locked := false, pid := NOBODY)
    case Free1 => s.(pc := s.pc[i := Free2], ptable := i)
    case Free2 => s.(pc := WakeAll(s.pc)[i := Free3])
    case Free3 => s.(pc := s.pc[i := Free4], ptable := NOBODY)
    case Free4 => s.(pc := s.pc[i := Out], spin := NOBODY)
  }

  /** A process moves, or the rest of the kernel uses ptable.lock, perhaps to make a sleeper RUNNABLE early (kill). */
  datatype Action = Move(i: nat) | Take | Give | Kill(i: nat)

  ghost predicate Next(s: State, a: Action, t: State) {
    match a
    case Move(i) => CanStep(s, i) && t == Step(s, i)
    case Take => s.ptable == NOBODY && t == s.(ptable := KERNEL)
    case Give => s.ptable == KERNEL && t == s.(ptable := NOBODY)
    case Kill(i) => s.ptable == KERNEL && i < |s.pc| && t == if s.pc[i] == Asleep then s.(pc := s.pc[i := Awake]) else s
  }

  ghost predicate Init(s: State) {
    s.spin == NOBODY && s.ptable == NOBODY && !s.locked && s.pid == NOBODY && forall i :: 0 <= i < |s.pc| ==> s.pc[i] == Out
  }

  /** Spin locks and the sleep lock are held by whom they name. */
  ghost predicate Holds(s: State) {
    SpinHeld(s) && TableHeld(s) && LockHeld(s)
  }

  ghost predicate SpinHeld(s: State) {
    (s.spin == NOBODY || 0 <= s.spin < |s.pc|) && forall i: nat :: i < |s.pc| ==> (HasSpin(s.pc[i]) <==> s.spin == i)
  }

  ghost predicate TableHeld(s: State) {
    (s.ptable in {NOBODY, KERNEL} || 0 <= s.ptable < |s.pc|) && forall i: nat :: i < |s.pc| ==> (HasTable(s.pc[i]) <==> s.ptable == i)
  }

  ghost predicate LockHeld(s: State) {
    (if s.locked then 0 <= s.pid < |s.pc| else s.pid == NOBODY) && forall i: nat :: i < |s.pc| ==> (HasLock(s.pc[i]) <==> s.locked && s.pid == i)
  }

  /** Somebody has cleared locked and is on the way to wake the sleepers. */
  ghost predicate Waking(s: State) {
    0 <= s.spin < |s.pc| && s.pc[s.spin] in {Free1, Free2}
  }

  /** Whoever is going to sleep found the lock held, and nobody sleeps on a free lock without a waker. */
  ghost predicate Guarded(s: State) {
    forall i: nat :: i < |s.pc| ==>
      && (s.pc[i] in {Sleep0, Sleep1} ==> s.locked)
      && (s.pc[i] in {Sleep2, Asleep} ==> s.locked || Waking(s))
  }

  ghost predicate Inv(s: State) {
    Holds(s) && Guarded(s)
  }

  lemma MoveSpin(s: State, i: nat)
    requires SpinHeld(s) && CanStep(s, i)
    ensures SpinHeld(Step(s, i))
  {
  }

  lemma MoveTable(s: State, i: nat)
    requires TableHeld(s) && CanStep(s, i)
    ensures TableHeld(Step(s, i))
  {
  }

  lemma MoveLock(s: State, i: nat)
    requires LockHeld(s) && SpinHeld(s) && CanStep(s, i)
    ensures LockHeld(Step(s, i))
  {
  }

  lemma MoveGuarded(s: State, i: nat)
    requires Inv(s) && CanStep(s, i)
    ensures Guarded(Step(s, i))
  {
  }

  lemma NextKeeps(s: State, a: Action, t: State)
    requires Inv(s) && Next(s, a, t)
    ensures Inv(t)
  {
    match a
    case Move(i) =>
      MoveSpin(s, i);
      MoveTable(s, i);
      MoveLock(s, i);
      MoveGuarded(s, i);
    case _ =>
  }

  /** A run from the start: states joined by actions. */
  datatype Run = Run(states: seq<State>, actions: seq<Action>)

  ghost predicate IsRun(r: Run) {
    && |r.states| == |r.actions| + 1 && Init(r.states[0])
    && forall k :: 0 <= k < |r.actions| ==> Next(r.states[k], r.actions[k], r.states[k + 1])
  }

  lemma {:induction false} RunInv(r: Run, k: nat)
    requires IsRun(r) && k < |r.states|
    ensures Inv(r.states[k])
  {
    if k > 0 {
      RunInv(r, k - 1);
      NextKeeps(r.states[k - 1], r.actions[k - 1], r.states[k]);
    }
  }

  /** In every reachable state at most one process holds the sleep lock. */
  lemma MutualExclusion(r: Run, k: nat, i: nat, j: nat)
    requires IsRun(r) && k < |r.states| && i < |r.states[k].pc| && j < |r.states[k].pc|
    requires HasLock(r.states[k].pc[i]) && HasLock(r.states[k].pc[j])
    ensures i == j && r.states[k].locked && r.states[k].pid == i
  {
    RunInv(r, k);
  }

  predicate HoldingSleep(s: State, i: nat) {
    s.locked && s.pid == i
  }

  /** In every reachable state holdingsleep is true of the holder and of nobody else, and a free lock names nobody. */
  lemma HoldingSleepIsHolder(r: Run, k: nat, i: nat)
    requires IsRun(r) && k < |r.states| && i < |r.states[k].pc|
    ensures HoldingSleep(r.states[k], i) <==> HasLock(r.states[k].pc[i])
    ensures r.states[k].pid == NOBODY <==> !r.states[k].locked
  {
    RunInv(r, k);
  }

  /** In every reachable state, when the spin lock is free and the sleep lock is not held, nobody is asleep on it. */
  lemma NoLostWakeup(r: Run, k: nat, i: nat)
    requires IsRun(r) && k < |r.states| && i < |r.states[k].pc| && r.states[k].spin == NOBODY && !r.states[k].locked
    ensures r.states[k].pc[i] != Asleep && r.states[k].pc[i] != Sleep2
  {
    RunInv(r, k);
  }

  /** Unless all are outside or the rest of the kernel has ptable.lock, some process inside can move: no deadlock, no stuck sleeper. */
  lemma Progress(r: Run, k: nat, i: nat) returns (j: nat)
    requires IsRun(r) && k < |r.states| && i < |r.states[k].pc| && r.states[k].pc[i] != Out
    requires r.states[k].ptable != KERNEL
    ensures CanStep(r.states[k], j) && r.states[k].pc[j] != Out && Step(r.states[k], j).pc[j] != r.states[k].pc[j]
  {
    RunInv(r, k);
    var s := r.states[k];
    if s.ptable != NOBODY {
      j := s.ptable;
    } else if s.spin != NOBODY {
      j := s.spin;
    } else if s.pc[i] == Asleep {
      j := s.pid;
    } else {
      j := i;
    }
  }

  /** Between entering acquiresleep and leaving it. */
  predicate Acquiring(p: Pc) {
    p in {Want, Test, Sleep0, Sleep1, Sleep2, Asleep, Awake, Back0, Back1, Got}
  }

  /** Between entering releasesleep and leaving it. */
  predicate Releasing(p: Pc) {
    p in {Free0, Free1, Free2, Free3, Free4}
  }

  /** acquiresleep is left only with the lock, and releasesleep entered only from there. */
  lemma StepOrder(s: State, a: Action, t: State, i: nat)
    requires Next(s, a, t) && i < |s.pc|
    ensures |t.pc| == |s.pc|
    ensures s.pc[i] == Out ==> t.pc[i] == Out || t.pc[i] == Want
    ensures Acquiring(s.pc[i]) ==> Acquiring(t.pc[i]) || (s.pc[i] == Got && t.pc[i] == Holder)
    ensures s.pc[i] == Holder ==> t.pc[i] == Holder || t.pc[i] == Free0
    ensures Releasing(s.pc[i]) ==> Releasing(t.pc[i]) || t.pc[i] == Out
  {
  }

  /** Others move only a sleeper, and only while they have ptable.lock. */
  lemma WokenUnderTableLock(r: Run, k: nat, i: nat)
    requires IsRun(r) && k < |r.actions| && i < |r.states[k].pc| && r.actions[k] != Move(i)
    requires r.states[k + 1].pc[i] != r.states[k].pc[i]
    ensures r.states[k].pc[i] == Asleep && r.states[k + 1].pc[i] == Awake
    ensures var h := r.states[k].ptable; h == KERNEL || (h >= 0 && r.actions[k] == Move(h))
  {
    RunInv(r, k);
    assert Next(r.states[k], r.actions[k], r.states[k + 1]);
  }

  /** Over every run a process that has entered acquiresleep is outside again only after having held the lock since. */
  lemma {:induction false} OutOnlyAfterHolder(r: Run, i: nat, m: nat, n: nat) returns (h: nat)
    requires IsRun(r) && m < n < |r.states| && i < |r.states[m].pc| && Acquiring(r.states[m].pc[i])
    requires i < |r.states[n].pc| && !Acquiring(r.states[n].pc[i])
    ensures m < h <= n && i < |r.states[h].pc| && r.states[h].pc[i] == Holder
    ensures r.states[h].locked && r.states[h].pid == i
    decreases n - m
  {
    hide Next; hide Init;
    StepOrder(r.states[m], r.actions[m], r.states[m + 1], i);
    if Acquiring(r.states[m + 1].pc[i]) {
      h := OutOnlyAfterHolder(r, i, m + 1, n);
    } else {
      h := m + 1;
      RunInv(r, h);
    }
  }

  /** n steps of process i alone. */
  function Solo(s: State, i: nat, n: nat): (t: State)
    requires i < |s.pc|
    ensures |t.pc| == |s.pc|
  {
    if n == 0 then s
    else var u := Solo(s, i, n - 1); if CanStep(u, i) then Step(u, i) else u
  }

  /** Process i can take n steps by itself, and where they lead. */
  ghost predicate Alone(s: State, i: nat, n: nat, t: State) {
    && i < |s.pc| && t == Solo(s, i, n) && forall k: nat :: k < n ==> CanStep(Solo(s, i, k), i)
  }

  lemma AloneMore(s: State, i: nat, n: nat, t: State)
    requires Alone(s, i, n, t) && CanStep(t, i)
    ensures Alone(s, i, n + 1, Step(t, i))
  {
    hide Step; hide CanStep;
  }

  /** With the sleep lock free and both spin locks free, any process on the way in gets the lock by itself. */
  lemma FreeLockIsTaken(r: Run, i: nat) returns (n: nat, t: State)
    requires IsRun(r) && i < |r.states[|r.states| - 1].pc|
    requires var s := r.states[|r.states| - 1];
             Acquiring(s.pc[i]) && !s.locked && s.spin == NOBODY && s.ptable == NOBODY
    ensures n <= 5 && Alone(r.states[|r.states| - 1], i, n, t) && t.pc[i] == Holder && t.locked && t.pid == i
  {
    RunInv(r, |r.states| - 1);
    var s := r.states[|r.states| - 1];
    hide Solo;
    n, t := 0, s;
    SoloNone(s, i);
    if t.pc[i] == Awake {
      AloneMore(s, i, n, t);
      n, t := n + 1, Step(t, i);
      AloneMore(s, i, n, t);
      n, t := n + 1, Step(t, i);
    }
    AloneMore(s, i, n, t);
    n, t := n + 1, Step(t, i);
    AloneMore(s, i, n, t);
    n, t := n + 1, Step(t, i);
    AloneMore(s, i, n, t);
    n, t := n + 1, Step(t, i);
  }

  lemma SoloNone(s: State, i: nat)
    requires i < |s.pc|
    ensures Alone(s, i, 0, s)
  {
  }

  /** With both spin locks free the holder gives the lock back by itself, and leaves nobody asleep on it. */
  lemma HolderReleases(r: Run, i: nat) returns (n: nat, t: State)
    requires IsRun(r) && i < |r.states[|r.states| - 1].pc|
    requires var s := r.states[|r.states| - 1]; s.pc[i] == Holder && s.spin == NOBODY && s.ptable == NOBODY
    ensures n == 6 && Alone(r.states[|r.states| - 1], i, n, t) && t.pc[i] == Out && !t.locked && t.spin == NOBODY
    ensures t.ptable == NOBODY && forall j :: 0 <= j < |t.pc| ==> t.pc[j] != Asleep
  {
    var s := r.states[|r.states| - 1];
    hide Solo;
    n, t := 0, s;
    SoloNone(s, i);
    while n < 6
      invariant n <= 6 && Alone(s, i, n, t) && |t.pc| == |s.pc|
      invariant t.pc[i] == [Holder, Free0, Free1, Free2, Free3, Free4, Out][n]
      invariant t.spin == (if 0 < n < 6 then i else NOBODY) && t.ptable == (if 3 <= n <= 4 then i else NOBODY)
      invariant n >= 2 ==> !t.locked
      invariant n >= 4 ==> forall j :: 0 <= j < |t.pc| ==> t.pc[j] != Asleep
    {
      AloneMore(s, i, n, t);
      n, t := n + 1, Step(t, i);
    }
  }
}
