/**
 proc.c and trap.c: the multi-level feedback queue on one CPU. Levels 0 to 2 go
 round robin, level 3 by priority; a process's level and quantum are a function
 of the ticks charged to it.
 */
module Scheduler {
  const NPROC: nat := 64

  datatype State = UNUSED | EMBRYO | SLEEPING | RUNNABLE | RUNNING | ZOMBIE

  datatype Proc = Proc(state: State, pid: nat, level: int, quantum: int, priority: int)

  // ----- the tick ledger -----

  /** The level of a process after t charged ticks. */
  function LevelAt(pid: nat, t: nat): nat {
    if t < 2 then 0
    else if pid % 2 == 1 then (if t < 6 then 1 else 3)
    else if t < 8 then 2 else 3
  }

  function QuantumAt(pid: nat, t: nat): int {
    if t < 2 then 2 - t
    else if pid % 2 == 1 then (if t < 6 then 6 - t else 8 - (t - 6) % 8)
    else if t < 8 then 8 - t else 8 - (t - 8) % 8
  }

  ghost predicate OnLedger(p: Proc, t: nat) {
    p.level == LevelAt(p.pid, t) && p.quantum == QuantumAt(p.pid, t)
  }

  lemma QuantumPositive(pid: nat, t: nat)
    ensures 1 <= QuantumAt(pid, t) <= 8
  {
  }

  /** One more tick on the ledger is what trap does to level and quantum. */
  lemma LedgerStep(pid: nat, t: nat)
    ensures QuantumAt(pid, t) > 1 ==> LevelAt(pid, t + 1) == LevelAt(pid, t) && QuantumAt(pid, t + 1) == QuantumAt(pid, t) - 1
    ensures QuantumAt(pid, t) == 1 && LevelAt(pid, t) == 0 ==>
              if pid % 2 == 0 then LevelAt(pid, t + 1) == 2 && QuantumAt(pid, t + 1) == 6 else LevelAt(pid, t + 1) == 1 && QuantumAt(pid, t + 1) == 4
    ensures QuantumAt(pid, t) == 1 && LevelAt(pid, t) != 0 ==> LevelAt(pid, t + 1) == 3 && QuantumAt(pid, t + 1) == 8
    ensures LevelAt(pid, t) <= 3
  {
    if pid % 2 == 1 && t >= 6 {
      NextMod(t - 6);
    } else if t >= 8 {
      NextMod(t - 8);
    }
  }

  lemma NextMod(k: nat)
    ensures (k + 1) % 8 == if k % 8 == 7 then 0 else k % 8 + 1
  {
  }

  // ----- selection -----

  /** Slots from q on round the table to j. */
  function Off(q: nat, j: nat): nat
    requires q < NPROC && j < NPROC
  {
    if j >= q then j - q else j + NPROC - q
  }

  predicate Ready(proc: seq<Proc>, level: int, j: nat) {
    j < |proc| && proc[j].level == level && proc[j].state == RUNNABLE
  }

  /** Round robin: c is the first ready slot from q on. */
  ghost predicate First(proc: seq<Proc>, q: nat, level: int, c: nat)
    requires q < NPROC
  {
    && c < NPROC && Ready(proc, level, c)
    && forall j: nat :: j < NPROC && Ready(proc, level, j) ==> Off(q, c) <= Off(q, j)
  }

  /** Level 3: c has the highest priority, the first of these from q on. */
  ghost predicate Foremost(proc: seq<Proc>, q: nat, c: nat)
    requires q < NPROC
  {
    && c < NPROC && Ready(proc, 3, c)
    && forall j: nat :: j < NPROC && Ready(proc, 3, j) ==>
         proc[j].priority < proc[c].priority || (proc[j].priority == proc[c].priority && Off(q, c) <= Off(q, j))
  }

  /** Whether one of trap's checks from number `from` on is about this level. */
  predicate ChecksLevel(level: int, from: nat) {
    (from <= 0 && level == 0) || (from <= 1 && (level == 1 || level == 2)) || (from <= 2 && level == 3)
  }

  class Table {
    var proc: seq<Proc>
    var pos: seq<nat>                // queue_position
    var nextpid: nat
    ghost var charged: seq<nat>      // ticks charged since creation or the last boost

    ghost predicate Valid()
      reads this
    {
      && |proc| == |charged| == NPROC && |pos| == 4 && (forall l :: 0 <= l < 4 ==> pos[l] < NPROC)
      && forall i :: 0 <= i < NPROC && proc[i].state != UNUSED ==> OnLedger(proc[i], charged[i])
    }

    constructor ()
      ensures Valid() && nextpid == 1 && pos == [0, 0, 0, 0]
      ensures forall i :: 0 <= i < NPROC ==> proc[i] == Proc(UNUSED, 0, 0, 0, 0) && charged[i] == 0
    {
      proc, charged := seq(NPROC, i => Proc(UNUSED, 0, 0, 0, 0)), seq(NPROC, i => 0);
      pos, nextpid := [0, 0, 0, 0], 1;
    }

    /** The first unused slot, started at the top level with a fresh quantum. */
    method Allocproc() returns (found: bool, i: nat)
      requires Valid()
      modifies this
      ensures Valid() && pos == old(pos)
      ensures found <==> exists j :: 0 <= j < NPROC && old(proc)[j].state == UNUSED
      ensures !found ==> unchanged(this)
      ensures found ==> i < NPROC && old(proc)[i].state == UNUSED && forall j :: 0 <= j < i ==> old(proc)[j].state != UNUSED
      ensures found ==> nextpid == old(nextpid) + 1 && charged == old(charged)[i := 0] && proc == old(proc)[i := Proc(EMBRYO, old(nextpid), 0, 2, 0)]
    {
      i := 0;
      while i < NPROC
        invariant i <= NPROC && forall j :: 0 <= j < i ==> proc[j].state != UNUSED
      {
        if proc[i].state == UNUSED {
          proc := proc[i := proc[i].(state := EMBRYO, pid := nextpid)];
          nextpid := nextpid + 1;
          proc := proc[i := proc[i].(level := 0, quantum := 2, priority := 0)];
          charged := charged[i := 0];
          return true, i;
        }
        i := i + 1;
      }
      return false, 0;
    }

    /** Everyone in the feedback queue starts over: level 0, quantum 2, no ticks charged. */
    method PriorityBoosting()
      requires Valid()
      modifies this
      ensures Valid() && nextpid == old(nextpid) && pos == [0, 0, 0, 0]
      ensures forall i :: 0 <= i < NPROC && old(proc)[i].state != UNUSED ==>
                charged[i] == 0 && proc[i] == old(proc)[i].(level := 0, quantum := 2)
      ensures forall i :: 0 <= i < NPROC ==>
                proc[i] == if 0 <= old(proc)[i].level <= 3 then old(proc)[i].(level := 0, quantum := 2) else old(proc)[i]
    {
      var i := 0;
      while i < NPROC
        invariant i <= NPROC && |proc| == NPROC && unchanged(`nextpid) && unchanged(`pos)
        invariant forall j :: i <= j < NPROC ==> proc[j] == old(proc)[j]
        invariant forall j :: 0 <= j < i ==>
                    proc[j] == if 0 <= old(proc)[j].level <= 3 then old(proc)[j].(level := 0, quantum := 2) else old(proc)[j]
      {
        if proc[i].level == 0 {
          proc := proc[i := proc[i].(quantum := 2)];
        } else if 1 <= proc[i].level <= 3 {
          proc := proc[i := proc[i].(level := 0)];
          proc := proc[i := proc[i].(quantum := 2)];
        }
        i := i + 1;
      }
      pos := [0, 0, 0, 0];
      charged := seq(NPROC, j => 0);
    }

    /** Whether a level has a ready process. */
    method CanMlfq(level: int) returns (can: bool)
      requires Valid()
      ensures can <==> exists j: nat :: j < NPROC && Ready(proc, level, j)
    {
      var i := 0;
      while i < NPROC
        invariant i <= NPROC && forall j: nat :: j < i ==> !Ready(proc, level, j)
      {
        if proc[i].level == level && proc[i].state == RUNNABLE {
          assert Ready(proc, level, i);
          return true;
        }
        i := i + 1;
      }
      return false;
    }

    /** The round robin half of next_proc. */
    method NextRoundRobin(level: nat) returns (found: bool, c: nat)
      requires Valid() && level <= 2
      modifies `pos
      ensures Valid() && (found <==> exists j: nat :: j < NPROC && Ready(proc, level, j))
      ensures found ==> First(proc, old(pos)[level], level, c) && pos == old(pos)[level := (c + 1) % NPROC]
      ensures !found ==> pos == old(pos)
    {
      ghost var q := pos[level];
      var i := 0;
      while i < NPROC
        invariant i <= NPROC && pos == old(pos)
        invariant forall j: nat :: j < NPROC && Off(q, j) < i ==> !Ready(proc, level, j)
      {
        var start := (pos[level] + i) % NPROC;
        assert Off(q, start) == i && forall j: nat :: j < NPROC && Off(q, j) == i ==> j == start;
        if proc[start].level == level && proc[start].state == RUNNABLE {
          assert Ready(proc, level, start);
          pos := pos[level := (start + 1) % NPROC];
          return true, start;
        }
        i := i + 1;
      }
      return false, 0;
    }

    /** The priority half of next_proc. Without a ready process nothing is said about the new position of level 3. */
    method NextByPriority() returns (found: bool, c: nat)
      requires Valid()
      modifies `pos
      ensures found <==> exists j: nat :: j < NPROC && Ready(proc, 3, j)
      ensures found ==> Valid() && Foremost(proc, old(pos)[3], c) && pos == old(pos)[3 := (c + 1) % NPROC]
      ensures !found ==> |pos| == |old(pos)| && forall l :: 0 <= l < 3 ==> pos[l] == old(pos)[l]
    {
      ghost var q := pos[3];
      found, c := false, 0;
      var i := 0;
      while i < NPROC
        invariant i <= NPROC && pos == old(pos) && c < NPROC
        invariant !found ==> forall j: nat :: j < NPROC && Off(q, j) < i ==> !Ready(proc, 3, j)
        invariant found ==> Ready(proc, 3, c) && Off(q, c) < i
        invariant found ==> forall j: nat :: j < NPROC && Off(q, j) < i && Ready(proc, 3, j) ==>
                    proc[j].priority < proc[c].priority || (proc[j].priority == proc[c].priority && Off(q, c) <= Off(q, j))
      {
        var start := (pos[3] + i) % NPROC;
        assert Off(q, start) == i && forall j: nat :: j < NPROC && Off(q, j) == i ==> j == start;
        if proc[start].state == RUNNABLE && proc[start].level == 3 {
          if !found {
            found, c := true, start;
          } else if proc[c].priority < proc[start].priority {
            c := start;
          }
        }
        i := i + 1;
      }
      assert forall j: nat :: j < NPROC ==> Off(q, j) < NPROC;
      if found {
        pos := pos[3 := (c + 1) % NPROC];
        assert Ready(proc, 3, c);
      } else {
        assert forall j: nat :: j < NPROC ==> !Ready(proc, 3, j);
      }
    }

    /** The scheduler's choice: the lowest level with a ready process, then that level's own rule. */
    method Select() returns (found: bool, level: nat, c: nat)
      requires Valid()
      modifies `pos, `proc
      ensures Valid()
      ensures found <==> exists l: nat, j: nat :: l < 4 && j < NPROC && Ready(old(proc), l, j)
      ensures !found ==> unchanged(this)
      ensures found ==> level < 4 && c < NPROC && forall l: nat, j: nat :: l < level && j < NPROC ==> !Ready(old(proc), l, j)
      ensures found ==> if level == 3 then Foremost(old(proc), old(pos)[3], c) else First(old(proc), old(pos)[level], level, c)
      ensures found ==> pos == old(pos)[level := (c + 1) % NPROC] && proc == old(proc)[c := old(proc)[c].(state := RUNNING)]
    {
      level := 0;
      while level < 4
        invariant level <= 4 && unchanged(this)
        invariant forall l: nat, j: nat :: l < level && j < NPROC ==> !Ready(proc, l, j)
      {
        var can := CanMlfq(level);
        if can {
          break;
        }
        level := level + 1;
      }
      if level == 4 {
        return false, 4, 0;
      }
      if level == 3 {
        found, c := NextByPriority();
      } else {
        found, c := NextRoundRobin(level);
      }
      proc := proc[c := proc[c].(state := RUNNING)];
      found := true;
    }

    /**
     trap's checks on the running process from check `from` on, up to the first
     yield: 0 leaves level 0, 1 leaves levels 1 and 2, 2 renews level 3.
     */
    method Checks(i: nat, from: nat) returns (yielded: bool, at: nat)
      requires |proc| == NPROC && i < NPROC && proc[i].state == RUNNING
      modifies `proc
      ensures yielded <==> (old(proc)[i].quantum <= 0 && ChecksLevel(old(proc)[i].level, from))
      ensures !yielded ==> proc == old(proc)
      ensures at == if !yielded then 3 else if old(proc)[i].level == 0 then 0 else if old(proc)[i].level == 3 then 2 else 1
      ensures yielded ==> from <= at && |proc| == NPROC && (forall j :: 0 <= j < NPROC && j != i ==> proc[j] == old(proc)[j])
      ensures yielded ==> proc[i].state == RUNNABLE && proc[i].pid == old(proc)[i].pid && proc[i].quantum > 0
      ensures yielded && old(proc)[i].level == 0 ==> if proc[i].pid % 2 == 0 then proc[i].level == 2 && proc[i].quantum == 6 else proc[i].level == 1 && proc[i].quantum == 4
      ensures yielded && old(proc)[i].level != 0 ==> proc[i].level == 3 && proc[i].quantum == 8
      ensures yielded ==> proc[i].priority == if old(proc)[i].level != 3 then old(proc)[i].priority else if old(proc)[i].priority > 0 then old(proc)[i].priority - 1 else 0
    {
      var p := proc[i];
      if from <= 0 && p.level == 0 && p.quantum <= 0 {
        if p.pid % 2 == 0 {
          proc := proc[i := p.(level := 2, quantum := 6, state := RUNNABLE)];
        } else {
          proc := proc[i := p.(level := 1, quantum := 4, state := RUNNABLE)];
        }
        return true, 0;
      }
      if from <= 1 && (p.level == 1 || p.level == 2) && p.quantum <= 0 {
        proc := proc[i := p.(quantum := 8, level := 3, state := RUNNABLE)];
        return true, 1;
      }
      if from <= 2 && p.level == 3 && p.quantum <= 0 {
        proc := proc[i := p.(quantum := 8, priority := if p.priority - 1 < 0 then 0 else p.priority - 1, state := RUNNABLE)];
        return true, 2;
      }
      assert proc == proc[i := p];
      return false, 3;
    }

    /** A timer interrupt while process i runs: one tick is charged, and the process yields exactly when its quantum is used up. */
    method TimerTrap(i: nat) returns (yielded: bool, at: nat)
      requires Valid() && i < NPROC && proc[i].state == RUNNING
      modifies `proc, `charged
      ensures Valid() && charged == old(charged)[i := old(charged)[i] + 1]
      ensures yielded <==> old(proc)[i].quantum == 1
      ensures forall j :: 0 <= j < NPROC && j != i ==> proc[j] == old(proc)[j]
      ensures proc[i].pid == old(proc)[i].pid && proc[i].state == if yielded then RUNNABLE else RUNNING
      ensures proc[i].priority == if yielded && old(proc)[i].level == 3 then (if old(proc)[i].priority > 0 then old(proc)[i].priority - 1 else 0) else old(proc)[i].priority
      ensures yielded && old(proc)[i].level == 3 ==> Expired(old(proc), i, proc)
    {
      hide LevelAt; hide QuantumAt;
      QuantumPositive(proc[i].pid, charged[i]);
      LedgerStep(proc[i].pid, charged[i]);
      proc := proc[i := proc[i].(quantum := proc[i].quantum - 1)];
      yielded, at := Checks(i, 0);
      charged := charged[i := charged[i] + 1];
    }

    /**
     The checks without a charge: those left when the process runs again after
     yielding in one of them, and all of them in any other trap. None fires,
     boosted meanwhile or not.
     */
    method Recheck(i: nat, from: nat) returns (yielded: bool)
      requires Valid() && i < NPROC && proc[i].state == RUNNING
      modifies `proc
      ensures !yielded && unchanged(this)
    {
      hide LevelAt; hide QuantumAt;
      QuantumPositive(proc[i].pid, charged[i]);
      var next;
      yielded, next := Checks(i, from);
    }

    /** yield, sleep, wakeup, exit and the scheduler only change the state of a live process. */
    method SetState(i: nat, state: State)
      requires Valid() && i < NPROC && proc[i].state != UNUSED
      modifies `proc
      ensures Valid() && proc == old(proc)[i := old(proc)[i].(state := state)]
    {
      proc := proc[i := proc[i].(state := state)];
    }
  }

  // ----- bounded waiting -----

  /** A selection: the table it saw, the queue position, the slot chosen. */
  datatype Round = Round(proc: seq<Proc>, q: nat, c: nat)

  /** Each time another process of the level is chosen, s comes closer to the head. */
  lemma Closer(proc: seq<Proc>, q: nat, level: int, s: nat, c: nat)
    requires q < NPROC && s < NPROC && First(proc, q, level, c) && Ready(proc, level, s) && c != s
    ensures Off((c + 1) % NPROC, s) < Off(q, s)
  {
  }

  /** Selections of one level in turn, all of them passing s over while it is ready. */
  ghost predicate PassedOver(rounds: seq<Round>, level: int, s: nat) {
    && (forall k :: 0 <= k < |rounds| ==> rounds[k].q < NPROC && First(rounds[k].proc, rounds[k].q, level, rounds[k].c) && Ready(rounds[k].proc, level, s) && rounds[k].c != s)
    && (forall k :: 0 <= k < |rounds| - 1 ==> rounds[k + 1].q == (rounds[k].c + 1) % NPROC)
  }

  /** Whatever the other processes do, a process that stays ready in levels 0 to 2 is chosen within NPROC selections. */
  lemma {:induction false} RoundRobinBound(rounds: seq<Round>, level: int, s: nat)
    requires s < NPROC && PassedOver(rounds, level, s) && |rounds| > 0
    ensures |rounds| <= Off(rounds[0].q, s) < NPROC
  {
    var r := rounds[0];
    Closer(r.proc, r.q, level, s, r.c);
    if |rounds| > 1 {
      var rest := rounds[1..];
      forall k | 0 <= k < |rest| - 1 ensures rest[k + 1].q == (rest[k].c + 1) % NPROC {
        assert rounds[k + 2].q == (rounds[k + 1].c + 1) % NPROC;
      }
      RoundRobinBound(rest, level, s);
    }
  }

  /** How far, in total, the ready processes of level 3 among the first n slots are above s. */
  function Above(proc: seq<Proc>, s: nat, n: nat): (r: nat)
    requires s < |proc| && n <= |proc|
  {
    if n == 0 then 0
    else Above(proc, s, n - 1) + if Ready(proc, 3, n - 1) && proc[n - 1].priority > proc[s].priority then proc[n - 1].priority - proc[s].priority else 0
  }

  /** It is nothing exactly when nobody ready is above s. */
  lemma {:induction false} NobodyAbove(proc: seq<Proc>, s: nat, n: nat)
    requires s < |proc| && n <= |proc|
    ensures Above(proc, s, n) == 0 <==> forall j: nat :: j < n && Ready(proc, 3, j) ==> proc[j].priority <= proc[s].priority
  {
    if n > 0 { NobodyAbove(proc, s, n - 1); }
  }

  /** Between two selections only the chosen process changed: it used up its quantum and is ready again. */
  ghost predicate Expired(proc: seq<Proc>, c: nat, proc': seq<Proc>) {
    && |proc| == |proc'| == NPROC && c < NPROC && Ready(proc', 3, c) && proc'[c].priority == (if proc[c].priority > 0 then proc[c].priority - 1 else 0)
    && forall j: nat :: j < NPROC && j != c ==> (Ready(proc', 3, j) <==> Ready(proc, 3, j)) && proc'[j].priority == proc[j].priority
  }

  lemma {:induction false} AboveStep(proc: seq<Proc>, q: nat, s: nat, c: nat, proc': seq<Proc>, n: nat)
    requires q < NPROC && s < NPROC && n <= NPROC && c != s && Foremost(proc, q, c) && Ready(proc, 3, s)
    requires Expired(proc, c, proc') && proc[s].priority >= 0
    ensures Above(proc', s, n) <= Above(proc, s, n)
    ensures c < n && proc[c].priority > proc[s].priority ==> Above(proc', s, n) < Above(proc, s, n)
  {
    if n > 0 { AboveStep(proc, q, s, c, proc', n - 1); }
  }

  /** The pair (total priority above s, distance to s) goes down lexicographically. */
  lemma PriorityStep(proc: seq<Proc>, q: nat, s: nat, c: nat, proc': seq<Proc>)
    requires q < NPROC && s < NPROC && c != s && Foremost(proc, q, c) && Ready(proc, 3, s) && Expired(proc, c, proc')
    requires proc[s].priority >= 0
    ensures Above(proc', s, NPROC) < Above(proc, s, NPROC) || (Above(proc', s, NPROC) == Above(proc, s, NPROC) && Off((c + 1) % NPROC, s) < Off(q, s))
  {
    AboveStep(proc, q, s, c, proc', NPROC);
    if proc[c].priority <= proc[s].priority {
      assert Off(q, c) <= Off(q, s);
    }
  }

  lemma OneAhead(proc: seq<Proc>, q: nat, s: nat, c: nat)
    requires |proc| == NPROC && q < NPROC && s < NPROC && c != s && Foremost(proc, q, c) && Ready(proc, 3, s)
    ensures Above(proc, s, NPROC) > 0 || Off(q, s) > 0
  {
    NobodyAbove(proc, s, NPROC);
  }

  ghost predicate PassedByPriority(rounds: seq<Round>, s: nat) {
    && (forall k :: 0 <= k < |rounds| ==> rounds[k].q < NPROC && Foremost(rounds[k].proc, rounds[k].q, rounds[k].c) && Ready(rounds[k].proc, 3, s) && rounds[k].c != s)
    && (forall k :: 0 <= k < |rounds| ==> |rounds[k].proc| == NPROC && rounds[k].proc[s].priority >= 0)
    && (forall k :: 0 <= k < |rounds| - 1 ==> rounds[k + 1].q == (rounds[k].c + 1) % NPROC && Expired(rounds[k].proc, rounds[k].c, rounds[k + 1].proc))
  }

  /** When nobody ready is above s, it waits for at most one selection of every other process. */
  lemma EqualsTakeTurns(rounds: seq<Round>, s: nat)
    requires s < NPROC && PassedByPriority(rounds, s) && |rounds| > 0
    requires forall j: nat :: j < NPROC && Ready(rounds[0].proc, 3, j) ==> rounds[0].proc[j].priority <= rounds[0].proc[s].priority
    ensures |rounds| <= Off(rounds[0].q, s) < NPROC
  {
    hide Above; hide Foremost; hide Expired; hide Ready;
    NobodyAbove(rounds[0].proc, s, NPROC);
    PriorityBound(rounds, s);
  }

  /** With a fixed set of processes, each selection running out its quantum, s waits for a bounded number of selections. */
  lemma {:induction false} PriorityBound(rounds: seq<Round>, s: nat)
    requires s < NPROC && PassedByPriority(rounds, s) && |rounds| > 0
    ensures |rounds| <= NPROC * Above(rounds[0].proc, s, NPROC) + Off(rounds[0].q, s)
  {
    hide Above; hide Foremost; hide Expired; hide Ready;
    if |rounds| > 1 {
      var r, rest := rounds[0], rounds[1..];
      assert Expired(r.proc, r.c, rounds[0 + 1].proc);
      PriorityStep(r.proc, r.q, s, r.c, rounds[1].proc);
      forall k | 0 <= k < |rest| - 1
        ensures rest[k + 1].q == (rest[k].c + 1) % NPROC && Expired(rest[k].proc, rest[k].c, rest[k + 1].proc)
      {
        assert Expired(rounds[k + 1].proc, rounds[k + 1].c, rounds[k + 1 + 1].proc);
      }
      PriorityBound(rest, s);
    } else {
      OneAhead(rounds[0].proc, rounds[0].q, s, rounds[0].c);
    }
  }
}
