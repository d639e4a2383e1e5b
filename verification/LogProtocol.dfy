/**
 begin_op, log_write and end_op run by any number of processes in any
 interleaving.  One step is one critical section under log.lock; sleep and
 wakeup on &log are part of the section that calls them.
 */
module LogProtocol {

  import opened Base

  /** Where a process is. */
  datatype Proc =
    | Outside                                       // not in a file-system call
    | Beginning                                     // about to test begin_op's conditions, also after being woken
    | Sleeping                                      // in begin_op's sleep(&log, &log.lock)
    | InOp(logged: set<nat>)                        // between begin_op and end_op
    | Writing(logged: set<nat>, block: nat)         // log_write: past the unlocked checks, before acquire
    | Committing                                    // in commit(), header not yet cleared
    | Committed                                     // commit() done, about to clear log.committing

  datatype State = State(header: seq<nat>, outstanding: nat, committing: bool, procs: seq<Proc>, panicked: bool)

  predicate Active(p: Proc) { p.InOp? || p.Writing? }

  /** Log blocks an operation may still add. */
  function Unused(p: Proc): int {
    if p.InOp? || p.Writing? then MAXOPBLOCKS - |p.logged| else 0
  }

  /** wakeup(&log) */
  function Wake(procs: seq<Proc>): (r: seq<Proc>)
    ensures |r| == |procs|
    ensures forall i :: 0 <= i < |procs| ==> r[i] == if procs[i].Sleeping? then Beginning else procs[i]
  {
    seq(|procs|, i requires 0 <= i < |procs| => if procs[i].Sleeping? then Beginning else procs[i])
  }

  // ----- the steps of process i; size is log.size -----

  predicate Enter(s: State, s': State, i: nat)
  {
    i < |s.procs| && s.procs[i].Outside? && s' == s.(procs := s.procs[i := Beginning])
  }

  /** One pass of begin_op's loop. */
  predicate Begin(s: State, s': State, i: nat)
  {
    && i < |s.procs| && s.procs[i].Beginning?
    && if s.committing || |s.header| + (s.outstanding + 1) * MAXOPBLOCKS > LOGSIZE
       then s' == s.(procs := s.procs[i := Sleeping])
       else s' == s.(outstanding := s.outstanding + 1, procs := s.procs[i := InOp({})])
  }

  /** log_write's checks, made before it takes log.lock.  The operation keeps within its MAXOPBLOCKS. */
  predicate Check(size: nat, s: State, s': State, i: nat, b: nat)
  {
    && i < |s.procs| && s.procs[i].InOp?
    && |s.procs[i].logged + {b}| <= MAXOPBLOCKS
    && if |s.header| >= LOGSIZE || |s.header| >= size - 1 || s.outstanding < 1
       then s' == s.(panicked := true)
       else s' == s.(procs := s.procs[i := Writing(s.procs[i].logged, b)])
  }

  /** log_write under log.lock. */
  predicate Append(s: State, s': State, i: nat)
  {
    && i < |s.procs| && s.procs[i].Writing?
    && var b := s.procs[i].block;
       s' == s.(header := if b in s.header then s.header else s.header + [b],
                procs := s.procs[i := InOp(s.procs[i].logged + {b})])
  }

  /** end_op's first critical section. */
  predicate End(s: State, s': State, i: nat)
  {
    && i < |s.procs| && s.procs[i].InOp?
    && if s.outstanding == 0 || s.committing then s' == s.(panicked := true)
       else if s.outstanding == 1
       then s' == s.(outstanding := 0, committing := true, procs := s.procs[i := Committing])
       else s' == s.(outstanding := s.outstanding - 1, procs := Wake(s.procs[i := Outside]))
  }

  /** commit() clears the header, without log.lock. */
  predicate Clear(s: State, s': State, i: nat)
  {
    i < |s.procs| && s.procs[i].Committing? && s' == s.(header := [], procs := s.procs[i := Committed])
  }

  /** end_op's last critical section. */
  predicate Finish(s: State, s': State, i: nat)
  {
    i < |s.procs| && s.procs[i].Committed? && s' == s.(committing := false, procs := Wake(s.procs[i := Outside]))
  }

  datatype Action = AEnter | ABegin | ACheck(b: nat) | AAppend | AEnd | AClear | AFinish

  predicate Next(size: nat, s: State, s': State, i: nat, a: Action) {
    && !s.panicked
    && match a
       case AEnter => Enter(s, s', i)
       case ABegin => Begin(s, s', i)
       case ACheck(b) => Check(size, s, s', i, b)
       case AAppend => Append(s, s', i)
       case AEnd => End(s, s', i)
       case AClear => Clear(s, s', i)
       case AFinish => Finish(s, s', i)
  }

  function Init(n: nat): State {
    State([], 0, false, seq(n, _ => Outside), false)
  }

  // ----- counting over the process table -----

  function ActiveCount(ps: seq<Proc>): nat {
    if ps == [] then 0 else ActiveCount(ps[..|ps| - 1]) + if Active(ps[|ps| - 1]) then 1 else 0
  }

  function Budget(ps: seq<Proc>): int {
    if ps == [] then 0 else Budget(ps[..|ps| - 1]) + Unused(ps[|ps| - 1])
  }

  lemma {:induction false} CountUpdate(ps: seq<Proc>, i: nat, p: Proc)
    requires i < |ps|
    ensures ActiveCount(ps[i := p]) == ActiveCount(ps) - (if Active(ps[i]) then 1 else 0) + (if Active(p) then 1 else 0)
    ensures Budget(ps[i := p]) == Budget(ps) - Unused(ps[i]) + Unused(p)
  {
    var n := |ps| - 1;
    if i == n {
      assert ps[i := p][..n] == ps[..n];
    } else {
      CountUpdate(ps[..n], i, p);
      assert ps[i := p][..n] == ps[..n][i := p];
    }
  }

  lemma {:induction false} CountWake(ps: seq<Proc>)
    ensures ActiveCount(Wake(ps)) == ActiveCount(ps) && Budget(Wake(ps)) == Budget(ps)
  {
    if ps != [] {
      CountWake(ps[..|ps| - 1]);
      assert Wake(ps)[..|ps| - 1] == Wake(ps[..|ps| - 1]);
    }
  }

  lemma {:induction false} CountBounds(ps: seq<Proc>)
    requires forall i :: 0 <= i < |ps| ==> Unused(ps[i]) >= 0
    ensures 0 <= Budget(ps) <= MAXOPBLOCKS * ActiveCount(ps)
    ensures ActiveCount(ps) == 0 <==> forall i :: 0 <= i < |ps| ==> !Active(ps[i])
    ensures forall i :: 0 <= i < |ps| ==> Unused(ps[i]) <= Budget(ps)
  {
    if ps != [] {
      var rest := ps[..|ps| - 1];
      assert forall i :: 0 <= i < |rest| ==> rest[i] == ps[i];
      CountBounds(rest);
    }
  }

  // ----- the invariant -----

  predicate InCommit(p: Proc) { p.Committing? || p.Committed? }

  /** Each operation has logged at most MAXOPBLOCKS blocks, all of them in the header. */
  predicate OpsOk(s: State) {
    forall i :: 0 <= i < |s.procs| && Active(s.procs[i]) ==>
      && |s.procs[i].logged| <= MAXOPBLOCKS
      && (s.procs[i].Writing? ==> |s.procs[i].logged + {s.procs[i].block}| <= MAXOPBLOCKS)
      && forall b :: b in s.procs[i].logged ==> b in s.header
  }

  predicate OneCommitter(s: State) {
    && (s.committing <==> exists i :: 0 <= i < |s.procs| && InCommit(s.procs[i]))
    && (forall i, j :: 0 <= i < j < |s.procs| && InCommit(s.procs[i]) ==> !InCommit(s.procs[j]))
    && (forall i :: 0 <= i < |s.procs| && s.procs[i].Committed? ==> s.header == [])
  }

  /** A sleeper in begin_op has somebody to wake it. */
  predicate NoStuckSleeper(s: State) {
    (exists i :: 0 <= i < |s.procs| && s.procs[i].Sleeping?) ==> s.committing || s.outstanding > 0
  }

  predicate Inv(s: State) {
    && s.outstanding == ActiveCount(s.procs)
    && (s.committing ==> s.outstanding == 0)
    && OneCommitter(s)
    && OpsOk(s)
    && Distinct(s.header)
    && |s.header| + Budget(s.procs) <= LOGSIZE
    && (!s.committing && s.outstanding == 0 ==> s.header == [])
    && NoStuckSleeper(s)
  }

  lemma {:induction false} InitCounts(n: nat)
    ensures ActiveCount(Init(n).procs) == 0 && Budget(Init(n).procs) == 0
  {
    if n > 0 {
      InitCounts(n - 1);
      assert Init(n).procs[..n - 1] == Init(n - 1).procs;
    }
  }

  lemma InitInv(n: nat)
    ensures Inv(Init(n))
  {
    InitCounts(n);
  }

  /** Replacing a process that is not committing by one that is not keeps the committer. */
  lemma SameCommitter(s: State, s': State, i: nat)
    requires OneCommitter(s) && i < |s.procs| && !InCommit(s.procs[i]) && s'.committing == s.committing
    requires |s'.procs| == |s.procs| && (InCommit(s'.procs[i]) ==> false)
    requires forall j :: 0 <= j < |s.procs| && j != i ==> InCommit(s'.procs[j]) == InCommit(s.procs[j]) && s'.procs[j].Committed? == s.procs[j].Committed?
    requires s.header == [] && s.committing ==> s'.header == []
    ensures OneCommitter(s')
  {
    if s.committing {
      var k :| 0 <= k < |s.procs| && InCommit(s.procs[k]);
      assert InCommit(s'.procs[k]);
    }
  }

  lemma EnterKeeps(s: State, s': State, i: nat)
    requires Inv(s) && Enter(s, s', i)
    ensures Inv(s')
  {
    CountUpdate(s.procs, i, s'.procs[i]);
    SameCommitter(s, s', i);
  }

  lemma BeginKeeps(s: State, s': State, i: nat)
    requires Inv(s) && Begin(s, s', i)
    ensures Inv(s')
  {
    CountBounds(s.procs);
    CountUpdate(s.procs, i, s'.procs[i]);
    SameCommitter(s, s', i);
  }

  lemma CheckKeeps(size: nat, s: State, s': State, i: nat, b: nat)
    requires Inv(s) && Check(size, s, s', i, b)
    ensures Inv(s')
  {
    CountUpdate(s.procs, i, s'.procs[i]);
    SameCommitter(s, s', i);
  }

  /** A process in an operation is counted, so no commit is running. */
  lemma ActiveMeansNoCommit(s: State, i: nat)
    requires Inv(s) && i < |s.procs| && Active(s.procs[i])
    ensures s.outstanding > 0 && !s.committing
  {
    CountBounds(s.procs);
  }

  lemma AppendKeeps(s: State, s': State, i: nat)
    requires Inv(s) && Append(s, s', i)
    ensures Inv(s')
  {
    ActiveMeansNoCommit(s, i);
    var p, b := s.procs[i], s.procs[i].block;
    CountUpdate(s.procs, i, s'.procs[i]);
    SameCommitter(s, s', i);
    assert b !in p.logged ==> |p.logged + {b}| == |p.logged| + 1;
    assert b in p.logged ==> p.logged + {b} == p.logged;
  }

  /** end_op by the last operation: the process becomes the committer. */
  lemma EndLastKeeps(s: State, s': State, i: nat)
    requires Inv(s) && End(s, s', i) && s.outstanding == 1
    ensures Inv(s')
  {
    ActiveMeansNoCommit(s, i);
    CountUpdate(s.procs, i, Committing);
    CountBounds(s'.procs);
    CountBounds(s.procs);
    assert InCommit(s'.procs[i]);
  }

  /** end_op by any other. */
  lemma EndOtherKeeps(s: State, s': State, i: nat)
    requires Inv(s) && End(s, s', i) && s.outstanding > 1
    ensures Inv(s')
  {
    ActiveMeansNoCommit(s, i);
    CountUpdate(s.procs, i, Outside);
    CountWake(s.procs[i := Outside]);
    SameCommitter(s, s', i);
  }

  lemma EndKeeps(s: State, s': State, i: nat)
    requires Inv(s) && End(s, s', i)
    ensures Inv(s') && s'.panicked == s.panicked
  {
    ActiveMeansNoCommit(s, i);
    if s.outstanding == 1 { EndLastKeeps(s, s', i); } else { EndOtherKeeps(s, s', i); }
  }

  lemma ClearKeeps(s: State, s': State, i: nat)
    requires Inv(s) && Clear(s, s', i)
    ensures Inv(s')
  {
    assert InCommit(s.procs[i]);
    CountBounds(s.procs);
    CountUpdate(s.procs, i, Committed);
    assert InCommit(s'.procs[i]);
  }

  lemma FinishKeeps(s: State, s': State, i: nat)
    requires Inv(s) && Finish(s, s', i)
    ensures Inv(s')
  {
    assert InCommit(s.procs[i]);
    CountBounds(s.procs);
    CountUpdate(s.procs, i, Outside);
    CountWake(s.procs[i := Outside]);
  }

  lemma NextKeeps(size: nat, s: State, s': State, i: nat, a: Action)
    requires Inv(s) && Next(size, s, s', i, a)
    ensures Inv(s')
  {
    hide Inv;
    match a
    case AEnter => EnterKeeps(s, s', i);
    case ABegin => BeginKeeps(s, s', i);
    case ACheck(b) => CheckKeeps(size, s, s', i, b);
    case AAppend => AppendKeeps(s, s', i);
    case AEnd => EndKeeps(s, s', i);
    case AClear => ClearKeeps(s, s', i);
    case AFinish => FinishKeeps(s, s', i);
  }
  // ----- whole runs -----

  /** A run from an idle system: states and, between them, who did what. */
  datatype Run = Run(states: seq<State>, moves: seq<(nat, Action)>)

  ghost predicate IsRun(size: nat, r: Run) {
    && |r.states| == |r.moves| + 1
    && r.states[0] == Init(|r.states[0].procs|)
    && forall k :: 0 <= k < |r.moves| ==> Next(size, r.states[k], r.states[k + 1], r.moves[k].0, r.moves[k].1)
  }

  function Last(r: Run): State
    requires r.states != []
  {
    r.states[|r.states| - 1]
  }

  /** Every state of every run satisfies the invariant. */
  lemma {:induction false} RunInv(size: nat, r: Run, k: nat)
    requires IsRun(size, r) && k < |r.states|
    ensures Inv(r.states[k])
  {
    hide Inv; hide Next; hide Init;
    if k == 0 {
      InitInv(|r.states[0].procs|);
    } else {
      RunInv(size, r, k - 1);
      NextKeeps(size, r.states[k - 1], r.states[k], r.moves[k - 1].0, r.moves[k - 1].1);
    }
  }

  /**
   begin_op lets process i in exactly when nobody is in a commit and the header has room for a whole
   operation of everybody inside and of i; otherwise i goes to sleep.
   */
  lemma AdmissionCondition(size: nat, r: Run, s': State, i: nat)
    requires IsRun(size, r) && i < |Last(r).procs| && Last(r).procs[i].Beginning?
    requires Next(size, Last(r), s', i, ABegin)
    ensures var s := Last(r);
            var room := |s.header| + MAXOPBLOCKS * (ActiveCount(s.procs) + 1) <= LOGSIZE;
            && s'.header == s.header && !s'.panicked
            && (if room && (forall j :: 0 <= j < |s.procs| ==> !InCommit(s.procs[j]))
                then s'.procs == s.procs[i := InOp({})] else s'.procs == s.procs[i := Sleeping])
  {
    RunInv(size, r, |r.states| - 1);
  }

  /** end_op makes process i the committer exactly when nobody else is inside; otherwise it wakes every sleeper. */
  lemma LeavingCondition(size: nat, r: Run, s': State, i: nat)
    requires IsRun(size, r) && i < |Last(r).procs| && Next(size, Last(r), s', i, AEnd)
    ensures var s := Last(r);
            && s'.header == s.header && !s'.panicked && |s'.procs| == |s.procs|
            && if forall j :: 0 <= j < |s.procs| && j != i ==> !Active(s.procs[j])
               then s'.procs == s.procs[i := Committing]
               else && s'.procs[i] == Outside
                    && forall j :: 0 <= j < |s.procs| && j != i ==>
                         s'.procs[j] == if s.procs[j].Sleeping? then Beginning else s.procs[j]
  {
    hide ActiveCount; hide Budget; hide OneCommitter; hide OpsOk; hide NoStuckSleeper;
    RunInv(size, r, |r.states| - 1);
    OthersInside(Last(r), i);
  }

  lemma OthersInside(s: State, i: nat)
    requires OpsOk(s) && i < |s.procs| && Active(s.procs[i])
    ensures ActiveCount(s.procs) >= 1
    ensures ActiveCount(s.procs) == 1 <==> forall j :: 0 <= j < |s.procs| && j != i ==> !Active(s.procs[j])
  {
    var ps := s.procs[i := Outside];
    CountUpdate(s.procs, i, Outside);
    CountBounds(ps);
    assert forall j :: 0 <= j < |ps| && j != i ==> ps[j] == s.procs[j];
  }

  /** In every reachable state a step panics exactly when it is log_write's test of the header's size that fails. */
  lemma PanicCondition(size: nat, r: Run, s': State, i: nat, a: Action)
    requires IsRun(size, r) && Next(size, Last(r), s', i, a)
    ensures s'.panicked <==> a.ACheck? && (|Last(r).header| >= LOGSIZE || |Last(r).header| >= size - 1)
  {
    var s := Last(r);
    RunInv(size, r, |r.states| - 1);
    CountBounds(s.procs);
  }

  /** In every reachable state in which nothing has panicked, every process that is not asleep has a step to take. */
  lemma EverybodyMoves(size: nat, r: Run, i: nat) returns (s': State, a: Action)
    requires IsRun(size, r) && !Last(r).panicked && i < |Last(r).procs| && !Last(r).procs[i].Sleeping?
    ensures Next(size, Last(r), s', i, a) && s' != Last(r)
    ensures Last(r).procs[i].Beginning? ==> a.ABegin?
  {
    var s := Last(r);
    RunInv(size, r, |r.states| - 1);
    match s.procs[i]
    case Outside =>
      s', a := s.(procs := s.procs[i := Beginning]), AEnter;
    case Beginning =>
      a := ABegin;
      s' := if s.committing || |s.header| + (s.outstanding + 1) * MAXOPBLOCKS > LOGSIZE
        then s.(procs := s.procs[i := Sleeping])
        else s.(outstanding := s.outstanding + 1, procs := s.procs[i := InOp({})]);
    case InOp(l) =>
      ActiveMeansNoCommit(s, i);
      a := AEnd;
      s' := if s.outstanding == 1
        then s.(outstanding := 0, committing := true, procs := s.procs[i := Committing])
        else s.(outstanding := s.outstanding - 1, procs := Wake(s.procs[i := Outside]));
    case Writing(l, b) =>
      a := AAppend;
      s' := s.(header := if b in s.header then s.header else s.header + [b], procs := s.procs[i := InOp(l + {b})]);
    case Committing =>
      s', a := s.(header := [], procs := s.procs[i := Committed]), AClear;
    case Committed =>
      s', a := s.(committing := false, procs := Wake(s.procs[i := Outside])), AFinish;
    assert s'.procs[i] != s.procs[i];
  }

  /** The blocks whose log_write was completed in the first n moves and not committed since. */
  ghost function Uncommitted(r: Run, n: nat): set<nat>
    requires n <= |r.moves| < |r.states|
  {
    if n == 0 then {}
    else
      var (i, a) := r.moves[n - 1];
      if a.AClear? then {}
      else if a.AAppend? && i < |r.states[n - 1].procs| && r.states[n - 1].procs[i].Writing?
        then Uncommitted(r, n - 1) + {r.states[n - 1].procs[i].block}
      else Uncommitted(r, n - 1)
  }

  /** Over every run the header lists, once each, exactly the blocks log_written since the last commit. */
  lemma {:induction false} HeaderIsUncommitted(size: nat, r: Run, n: nat)
    requires IsRun(size, r) && n < |r.states|
    ensures Distinct(r.states[n].header)
    ensures forall b :: b in r.states[n].header <==> b in Uncommitted(r, n)
  {
    hide Inv; hide Next; hide Init;
    RunInv(size, r, n);
    HeaderDistinct(r.states[n]);
    if n == 0 {
      EmptyAtFirst(|r.states[0].procs|);
    } else {
      HeaderIsUncommitted(size, r, n - 1);
      RunInv(size, r, n - 1);
      HeaderStep(size, r.states[n - 1], r.states[n], r.moves[n - 1].0, r.moves[n - 1].1);
    }
  }

  lemma HeaderDistinct(s: State)
    requires Inv(s)
    ensures Distinct(s.header)
  {
  }

  lemma EmptyAtFirst(n: nat)
    ensures Init(n).header == []
  {
  }

  lemma HeaderStep(size: nat, s: State, s': State, i: nat, a: Action)
    requires Inv(s) && Next(size, s, s', i, a)
    ensures a.AClear? ==> s'.header == []
    ensures a.AAppend? ==> i < |s.procs| && s.procs[i].Writing?
    ensures a.AAppend? ==> forall b :: b in s'.header <==> b in s.header || b == s.procs[i].block
    ensures !a.AClear? && !a.AAppend? ==> s'.header == s.header
  {
    if a.AEnd? { ActiveMeansNoCommit(s, i); }
  }

  /** Committing excludes every operation and every other committer, and freezes the header until commit clears it. */
  lemma CommitExclusive(size: nat, r: Run, i: nat, s': State, j: nat, a: Action)
    requires IsRun(size, r) && Last(r).committing
    requires i < |Last(r).procs| && InCommit(Last(r).procs[i])
    requires Next(size, Last(r), s', j, a)
    ensures Last(r).outstanding == 0
    ensures forall k :: 0 <= k < |Last(r).procs| ==> !Active(Last(r).procs[k]) && (k != i ==> !InCommit(Last(r).procs[k]))
    ensures s'.header != Last(r).header ==> a.AClear? && i == j && s'.header == []
  {
    RunInv(size, r, |r.states| - 1);
    CountBounds(Last(r).procs);
  }

  /** The end of an operation that does not commit, and the end of a commit, leave nobody asleep. */
  lemma EndsWakeAll(size: nat, s: State, s': State, i: nat, a: Action)
    requires Inv(s) && Next(size, s, s', i, a)
    requires a.AFinish? || (a.AEnd? && !s'.committing)
    ensures forall k :: 0 <= k < |s'.procs| ==> !s'.procs[k].Sleeping?
  {
    if a.AEnd? { ActiveMeansNoCommit(s, i); }
  }

  function Extend(r: Run, i: nat, a: Action, s: State): Run {
    Run(r.states + [s], r.moves + [(i, a)])
  }

  lemma ExtendRun(size: nat, r: Run, i: nat, a: Action, s: State)
    requires IsRun(size, r) && Next(size, Last(r), s, i, a)
    ensures IsRun(size, Extend(r, i, a, s)) && Last(Extend(r, i, a, s)) == s
  {
    hide Next; hide Init;
    var r' := Extend(r, i, a, s);
    forall k | 0 <= k < |r'.moves| ensures Next(size, r'.states[k], r'.states[k + 1], r'.moves[k].0, r'.moves[k].1) {
      if k < |r.moves| {
        assert r'.states[k] == r.states[k] && r'.states[k + 1] == r.states[k + 1];
      }
    }
  }

  /** r' is r followed by steps of process i alone, none of them a new begin_op or log_write. */
  ghost predicate Finishes(r: Run, r': Run, i: nat) {
    && r.states <= r'.states && r.moves <= r'.moves
    && forall k :: |r.moves| <= k < |r'.moves| ==> r'.moves[k].0 == i && WindsUp(r'.moves[k].1)
  }

  /** The steps that end a log_write, an operation or a commit. */
  predicate WindsUp(a: Action) { a.AAppend? || a.AEnd? || a.AClear? || a.AFinish? }

  predicate NobodySleeps(s: State) {
    forall k :: 0 <= k < |s.procs| ==> !s.procs[k].Sleeping?
  }

  lemma FinishesOne(r: Run, r': Run, i: nat, a: Action, s: State)
    requires Finishes(r, r', i) && WindsUp(a)
    ensures Finishes(r, Extend(r', i, a, s), i)
  {
  }

  /** From any reachable state of a commit, that commit alone can finish and wake everybody. */
  lemma CommitterFinishes(size: nat, r0: Run, r: Run, i: nat) returns (r': Run)
    requires IsRun(size, r) && Finishes(r0, r, i) && !Last(r).panicked
    requires i < |Last(r).procs| && InCommit(Last(r).procs[i])
    ensures IsRun(size, r') && Finishes(r0, r', i) && |r'.moves| <= |r.moves| + 2
    ensures NobodySleeps(Last(r'))
  {
    hide Finishes;
    var s := Last(r);
    var r1 := r;
    if s.procs[i].Committing? {
      var s1 := s.(header := [], procs := s.procs[i := Committed]);
      ExtendRun(size, r, i, AClear, s1);
      FinishesOne(r0, r, i, AClear, s1);
      r1 := Extend(r, i, AClear, s1);
    }
    var t := Last(r1);
    var s2 := t.(committing := false, procs := Wake(t.procs[i := Outside]));
    ExtendRun(size, r1, i, AFinish, s2);
    FinishesOne(r0, r1, i, AFinish, s2);
    r' := Extend(r1, i, AFinish, s2);
  }

  /** An operation that ends, committing if it is the last, wakes everybody. */
  lemma EndWakes(size: nat, r0: Run, r: Run, i: nat) returns (r': Run)
    requires IsRun(size, r) && Finishes(r0, r, i) && !Last(r).panicked
    requires i < |Last(r).procs| && Last(r).procs[i].InOp?
    ensures IsRun(size, r') && Finishes(r0, r', i) && |r'.moves| <= |r.moves| + 3
    ensures NobodySleeps(Last(r'))
  {
    hide Finishes;
    RunInv(size, r, |r.states| - 1);
    var s := Last(r);
    ActiveMeansNoCommit(s, i);
    var s1 := if s.outstanding == 1
      then s.(outstanding := 0, committing := true, procs := s.procs[i := Committing])
      else s.(outstanding := s.outstanding - 1, procs := Wake(s.procs[i := Outside]));
    ExtendRun(size, r, i, AEnd, s1);
    FinishesOne(r0, r, i, AEnd, s1);
    r' := Extend(r, i, AEnd, s1);
    if s.outstanding == 1 {
      r' := CommitterFinishes(size, r0, r', i);
    }
  }

  predicate Inside(s: State, i: nat) {
    i < |s.procs| && (Active(s.procs[i]) || InCommit(s.procs[i]))
  }

  /** Somebody is inside the log whenever somebody sleeps in begin_op. */
  lemma SomebodyInside(s: State, k: nat) returns (i: nat)
    requires Inv(s) && k < |s.procs| && s.procs[k].Sleeping?
    ensures Inside(s, i)
  {
    CountBounds(s.procs);
    if s.committing {
      i :| i < |s.procs| && InCommit(s.procs[i]);
    } else {
      i :| i < |s.procs| && Active(s.procs[i]);
    }
  }

  /**
   Nobody is stuck.  From every reachable state in which a process sleeps in
   begin_op there is a process inside an operation or a commit, and any such
   process, by winding up alone (finish a log_write, end_op, commit, end of
   commit: at most four steps), reaches a state with nobody asleep.
   */
  lemma SleeperIsWoken(size: nat, r: Run, i: nat) returns (r': Run)
    requires IsRun(size, r) && !Last(r).panicked && Inside(Last(r), i)
    ensures IsRun(size, r') && Finishes(r, r', i) && |r'.moves| <= |r.moves| + 4
    ensures NobodySleeps(Last(r'))
  {
    var s := Last(r);
    if InCommit(s.procs[i]) {
      r' := CommitterFinishes(size, r, r, i);
    } else {
      r' := r;
      if s.procs[i].Writing? {
        var b := s.procs[i].block;
        var s1 := s.(header := if b in s.header then s.header else s.header + [b],
                     procs := s.procs[i := InOp(s.procs[i].logged + {b})]);
        ExtendRun(size, r, i, AAppend, s1);
        FinishesOne(r, r, i, AAppend, s1);
        r' := Extend(r, i, AAppend, s1);
      }
      r' := EndWakes(size, r, r', i);
    }
  }

  predicate Asleep(s: State, k: nat) {
    k < |s.procs| && s.procs[k].Sleeping?
  }

  /** A step during which k sleeps on: nobody who was inside leaves. */
  lemma AsleepStep(size: nat, s: State, s': State, j: nat, a: Action, k: nat, i: nat)
    requires Inv(s) && Next(size, s, s', j, a) && Asleep(s', k) && Inside(s, i)
    ensures Inside(s', i) && !a.AFinish? && (a.AEnd? ==> s'.committing)
  {
    if a.AFinish? || (a.AEnd? && !s'.committing) { EndsWakeAll(size, s, s', j, a); }
    if a.AEnd? { ActiveMeansNoCommit(s, j); }
  }

  /**
   No lost wakeup, over every run: while k sleeps from state m to state n,
   somebody is inside, everybody inside stays inside, no commit finishes, and
   no operation ends except one that becomes the committer.
   */
  lemma {:induction false} AsleepWhileInside(size: nat, r: Run, k: nat, m: nat, n: nat)
    requires IsRun(size, r) && m <= n < |r.states| && forall j :: m <= j <= n ==> Asleep(r.states[j], k)
    ensures exists i: nat :: Inside(r.states[m], i)
    ensures forall i: nat :: Inside(r.states[m], i) ==> Inside(r.states[n], i)
    ensures forall j :: m <= j < n ==>
              !r.moves[j].1.AFinish? && (r.moves[j].1.AEnd? ==> r.states[j + 1].committing)
    decreases n
  {
    hide Inv; hide Next; hide Inside; hide Init;
    RunInv(size, r, m);
    var w := SomebodyInside(r.states[m], k);
    if m < n {
      AsleepWhileInside(size, r, k, m, n - 1);
      RunInv(size, r, n - 1);
      forall i: nat | Inside(r.states[n - 1], i)
        ensures Inside(r.states[n], i)
        ensures !r.moves[n - 1].1.AFinish? && (r.moves[n - 1].1.AEnd? ==> r.states[n].committing)
      {
        AsleepStep(size, r.states[n - 1], r.states[n], r.moves[n - 1].0, r.moves[n - 1].1, k, i);
      }
      assert Inside(r.states[n - 1], w);
    }
  }

  // ----- when log_write refuses -----

  /** While an operation keeps within its budget, a block it has not logged yet finds the header not full. */
  lemma RoomForNewBlock(s: State, i: nat, b: nat)
    requires Inv(s) && i < |s.procs| && s.procs[i].InOp?
    requires b !in s.procs[i].logged && |s.procs[i].logged + {b}| <= MAXOPBLOCKS
    ensures |s.header| < LOGSIZE
  {
    CountBounds(s.procs);
    assert |s.procs[i].logged + {b}| == |s.procs[i].logged| + 1;
  }

  /** log_write's check of a block this operation has not logged yet. */
  predicate ChecksNew(size: nat, s: State, s': State, i: nat, b: nat) {
    !s.panicked && Check(size, s, s', i, b) && b !in s.procs[i].logged
  }

  /** No reachable log_write of a new block panics. */
  ghost predicate NeverRefusesNew(size: nat) {
    forall r, s', i: nat, b: nat :: IsRun(size, r) && ChecksNew(size, Last(r), s', i, b) ==> !s'.panicked
  }

  /** Of the blocks base, base + 1, ..., base + k - 1 dealt to three operations in turn, those of operation j. */
  function Share(base: nat, j: nat, k: nat): (r: set<nat>)
    ensures forall b :: b in r ==> base <= b < base + k
  {
    if k == 0 then {} else Share(base, j, k - 1) + if Turn(k - 1) == j then {base + k - 1} else {}
  }

  /** Whose turn it is when k blocks have been dealt. */
  function Turn(k: nat): nat { k % 3 }

  lemma {:induction false} ShareSize(base: nat, j: nat, k: nat)
    requires j < 3
    ensures k - j <= 3 * |Share(base, j, k)| <= k + 2 - j
  {
    if k > 0 {
      hide Share; hide Turn;
      ShareSize(base, j, k - 1);
      ShareStep(base, j, k - 1);
      Thirds(|Share(base, j, k - 1)|, k - 1, j);
    }
  }

  lemma Thirds(x: nat, k: nat, j: nat)
    requires j < 3 && k - j <= 3 * x <= k + 2 - j
    ensures if Turn(k) == j then 3 * x == k - j else 3 * x >= k + 1 - j
  {
  }

  lemma ShareStep(base: nat, j: nat, k: nat)
    ensures Share(base, j, k + 1) == if Turn(k) == j then Share(base, j, k) + {base + k} else Share(base, j, k)
    ensures base + k !in Share(base, j, k)
  {
    hide Turn;
  }

  /** Three operations that have logged k blocks between them. */
  function Filled(base: nat, k: nat): State {
    State(seq(k, i => base + i), 3, false,
          [InOp(Share(base, 0, k)), InOp(Share(base, 1, k)), InOp(Share(base, 2, k))], false)
  }

  /** One more process enters and begins an operation. */
  lemma StartOne(size: nat, r: Run, i: nat, o: nat, ps: seq<Proc>) returns (r': Run)
    requires IsRun(size, r) && Last(r) == State([], o, false, ps, false)
    requires i < |ps| && ps[i].Outside? && o < 3
    ensures IsRun(size, r') && Last(r') == State([], o + 1, false, ps[i := InOp({})], false)
  {
    var s1 := State([], o, false, ps[i := Beginning], false);
    ExtendRun(size, r, i, AEnter, s1);
    var r1 := Extend(r, i, AEnter, s1);
    var s2 := State([], o + 1, false, s1.procs[i := InOp({})], false);
    ExtendRun(size, r1, i, ABegin, s2);
    r' := Extend(r1, i, ABegin, s2);
    assert s2.procs == ps[i := InOp({})];
  }

  lemma StartThree(size: nat, base: nat) returns (r: Run)
    ensures IsRun(size, r) && Last(r) == Filled(base, 0)
  {
    var p := [Outside, Outside, Outside];
    r := Run([Init(3)], []);
    assert Init(3).procs == p;
    r := StartOne(size, r, 0, 0, p);
    r := StartOne(size, r, 1, 1, p[0 := InOp({})]);
    r := StartOne(size, r, 2, 2, p[0 := InOp({})][1 := InOp({})]);
    assert p[0 := InOp({})][1 := InOp({})][2 := InOp({})] == Filled(base, 0).procs;
  }

  /** Block k is new to the operation it is dealt to, which keeps within its budget. */
  lemma ShareGrows(base: nat, j: nat, k: nat)
    requires k < LOGSIZE && j == Turn(k)
    ensures base + k !in Share(base, j, k) && |Share(base, j, k) + {base + k}| <= MAXOPBLOCKS
  {
    hide Share;
    ShareSize(base, j, k + 1);
    ShareStep(base, j, k);
  }

  /** An operation passes log_write's checks. */
  lemma CheckOne(size: nat, r: Run, i: nat, b: nat) returns (r': Run)
    requires IsRun(size, r) && !Last(r).panicked && i < |Last(r).procs| && Last(r).procs[i].InOp?
    requires |Last(r).header| < LOGSIZE && |Last(r).header| < size - 1 && Last(r).outstanding > 0
    requires |Last(r).procs[i].logged + {b}| <= MAXOPBLOCKS
    ensures IsRun(size, r')
    ensures Last(r') == Last(r).(procs := Last(r).procs[i := Writing(Last(r).procs[i].logged, b)])
  {
    var s := Last(r);
    var s1 := s.(procs := s.procs[i := Writing(s.procs[i].logged, b)]);
    ExtendRun(size, r, i, ACheck(b), s1);
    r' := Extend(r, i, ACheck(b), s1);
  }

  /** An operation past the checks appends its block, however full the header is by then. */
  lemma AppendOne(size: nat, r: Run, i: nat) returns (r': Run)
    requires IsRun(size, r) && !Last(r).panicked && i < |Last(r).procs| && Last(r).procs[i].Writing?
    requires Last(r).procs[i].block !in Last(r).header
    ensures IsRun(size, r')
    ensures var p := Last(r).procs[i];
            Last(r') == Last(r).(header := Last(r).header + [p.block],
                                 procs := Last(r).procs[i := InOp(p.logged + {p.block})])
  {
    var s := Last(r);
    var p := s.procs[i];
    var s1 := s.(header := s.header + [p.block], procs := s.procs[i := InOp(p.logged + {p.block})]);
    ExtendRun(size, r, i, AAppend, s1);
    r' := Extend(r, i, AAppend, s1);
  }

  lemma FillOne(size: nat, base: nat, r: Run, k: nat) returns (r': Run)
    requires IsRun(size, r) && k < LOGSIZE && k < size - 1 && Last(r) == Filled(base, k)
    ensures IsRun(size, r') && Last(r') == Filled(base, k + 1)
  {
    hide Share;
    var i := Turn(k);
    ShareGrows(base, i, k);
    ShareStep(base, 0, k);
    ShareStep(base, 1, k);
    ShareStep(base, 2, k);
    var r1 := CheckOne(size, r, i, base + k);
    r' := AppendOne(size, r1, i);
    assert Last(r').procs == Filled(base, k + 1).procs;
    assert Last(r').header == Filled(base, k + 1).header;
  }

  lemma {:induction false} FillUp(size: nat, base: nat, k: nat) returns (r: Run)
    requires k <= LOGSIZE && (k == 0 || k <= size - 1)
    ensures IsRun(size, r) && Last(r) == Filled(base, k)
  {
    if k == 0 {
      r := StartThree(size, base);
    } else {
      r := FillUp(size, base, k - 1);
      r := FillOne(size, base, r, k - 1);
    }
  }

  lemma NewBlockAccepted(size: nat, r: Run, s': State, i: nat, b: nat)
    requires size > LOGSIZE && IsRun(size, r) && ChecksNew(size, Last(r), s', i, b)
    ensures !s'.panicked
  {
    RunInv(size, r, |r.states| - 1);
    ActiveMeansNoCommit(Last(r), i);
    RoomForNewBlock(Last(r), i, b);
  }

  lemma NewBlockRefused(size: nat) returns (r: Run, s': State, i: nat, b: nat)
    requires size <= LOGSIZE
    ensures IsRun(size, r) && ChecksNew(size, Last(r), s', i, b) && s'.panicked
  {
    hide Share;
    b := if size == 0 then 0 else size - 1;
    r := FillUp(size, 0, b);
    i := Turn(b);
    ShareGrows(0, i, b);
    s' := Filled(0, b).(panicked := true);
  }

  /** A log of LOGSIZE blocks, as mkfs makes it, is one too small; with more, a new block is never refused. */
  lemma RefusalCondition(size: nat)
    ensures NeverRefusesNew(size) <==> size > LOGSIZE
  {
    hide ChecksNew;
    if size > LOGSIZE {
      forall r, s', i: nat, b: nat | IsRun(size, r) && ChecksNew(size, Last(r), s', i, b) ensures !s'.panicked {
        NewBlockAccepted(size, r, s', i, b);
      }
    } else {
      var r, s', i, b := NewBlockRefused(size);
    }
  }

  /** However large the log, a full header refuses even a block that would be absorbed. */
  lemma FullHeaderRefusesAbsorption(size: nat) returns (r: Run, s': State)
    requires size > LOGSIZE
    ensures IsRun(size, r) && !Last(r).panicked && |Last(r).header| == LOGSIZE
    ensures 0 in Last(r).header && Next(size, Last(r), s', 0, ACheck(0)) && s'.panicked
  {
    hide Share;
    r := FillUp(size, 0, LOGSIZE);
    s' := Last(r).(panicked := true);
    ShareSize(0, 0, LOGSIZE);
    ShareFirst(LOGSIZE);
    assert Last(r).procs[0].logged + {0} == Last(r).procs[0].logged;
    assert Last(r).header[0] == 0;
  }

  lemma {:induction false} ShareFirst(k: nat)
    requires k > 0
    ensures 0 in Share(0, 0, k)
  {
    if k > 1 { ShareFirst(k - 1); }
  }

  // ----- whether the header fits the log area -----

  /** The header block and the logged blocks fit in log.size blocks, in every reachable state. */
  ghost predicate HeaderFits(size: nat) {
    forall r :: IsRun(size, r) ==> |Last(r).header| < size
  }

  /**
   Two operations pass log_write's checks, made before it takes log.lock, while
   there is room for one block; both append.  Nothing panics and the header
   holds as many blocks as the whole log area.
   */
  lemma Overfill(size: nat, base: nat) returns (r: Run)
    requires 2 <= size <= LOGSIZE
    ensures IsRun(size, r) && !Last(r).panicked
    ensures Last(r).header == seq(size, i => base + i)
  {
    hide Share; hide Filled; hide Next; hide Init;
    var k := size - 2;
    Turns(k);
    r := FillUp(size, base, k);
    NextTwo(base, k, Turn(k), Turn(k + 1));
    r := BothAppend(size, r, Turn(k), Turn(k + 1), base + k, base + k + 1);
    assert Last(r).header == seq(size, i => base + i);
  }

  lemma Turns(k: nat)
    ensures Turn(k) < 3 && Turn(k + 1) < 3 && Turn(k) != Turn(k + 1)
  {
  }

  /** The next two blocks belong to two operations with room for them. */
  lemma NextTwo(base: nat, k: nat, i: nat, j: nat)
    requires k + 1 < LOGSIZE && i == Turn(k) && j == Turn(k + 1) && i != j
    ensures var s := Filled(base, k);
      && s.outstanding == 3 && !s.panicked && |s.procs| == 3 && s.procs[i].InOp? && s.procs[j].InOp?
      && |s.procs[i].logged + {base + k}| <= MAXOPBLOCKS && |s.procs[j].logged + {base + k + 1}| <= MAXOPBLOCKS
      && s.header == seq(k, x => base + x) && base + k !in s.header && base + k + 1 !in s.header
  {
    hide Share;
    ShareGrows(base, i, k);
    ShareGrows(base, j, k + 1);
    ShareStep(base, j, k);
  }

  lemma BothAppend(size: nat, r: Run, i: nat, j: nat, b: nat, c: nat) returns (r': Run)
    requires IsRun(size, r) && !Last(r).panicked && Last(r).outstanding > 0
    requires i != j && i < |Last(r).procs| && j < |Last(r).procs| && Last(r).procs[i].InOp? && Last(r).procs[j].InOp?
    requires |Last(r).header| < LOGSIZE && |Last(r).header| < size - 1
    requires |Last(r).procs[i].logged + {b}| <= MAXOPBLOCKS && |Last(r).procs[j].logged + {c}| <= MAXOPBLOCKS
    requires b != c && b !in Last(r).header && c !in Last(r).header
    ensures IsRun(size, r') && !Last(r').panicked && Last(r').header == Last(r).header + [b] + [c]
  {
    hide IsRun;
    r' := CheckOne(size, r, i, b);
    r' := CheckOne(size, r', j, c);
    r' := AppendOne(size, r', i);
    r' := AppendOne(size, r', j);
  }

  /** With log.size 1 every log_write panics, so nothing is ever logged. */
  predicate NothingLogged(s: State) {
    s.header == [] && forall i :: 0 <= i < |s.procs| ==> !s.procs[i].Writing?
  }

  lemma {:induction false} SizeOne(r: Run, k: nat)
    requires IsRun(1, r) && k < |r.states|
    ensures NothingLogged(r.states[k])
  {
    if k > 0 {
      SizeOne(r, k - 1);
      assert Next(1, r.states[k - 1], r.states[k], r.moves[k - 1].0, r.moves[k - 1].1);
    }
  }

  lemma HeaderBound(size: nat, r: Run)
    requires IsRun(size, r)
    ensures |Last(r).header| <= LOGSIZE && Distinct(Last(r).header)
  {
    RunInv(size, r, |r.states| - 1);
    CountBounds(Last(r).procs);
  }

  /** The log area holds every header that can be reached if and only if log.size exceeds LOGSIZE or is 1. */
  lemma FitCondition(size: nat)
    ensures HeaderFits(size) <==> size > LOGSIZE || size == 1
  {
    hide Distinct;
    if size == 0 {
      var r := Run([Init(0)], []);
      assert IsRun(size, r);
    } else if 2 <= size <= LOGSIZE {
      var r := Overfill(size, 0);
    } else {
      forall r | IsRun(size, r) ensures |Last(r).header| < size {
        HeaderBound(size, r);
        if size == 1 { SizeOne(r, |r.states| - 1); }
      }
    }
  }
}
