/** Processes that wait for each other, and exactly which target names make that possible. */
module SnapshotWaiting {
  import opened SnapshotTasks
  import opened SnapshotProofs

  /** The task file of a plan: the name of a schedule that has plans, the plan, and the ending. */
  ghost predicate PlanNamed(f: File) {
    f.dir != "" && exists k: Kind, name: string :: k != Local && name != "" && f.name == TaskFileName(k, name)
  }

  ghost predicate WaitsFor(s: State, p: nat, r: nat) {
    && p < |s.procs|
    && var q := s.procs[p];
       || (q.place.WaitTime? && q.Time() in s.locks && s.locks[q.Time()] == r)
       || (q.place.WaitTarget? && q.Mine() in s.locks && s.locks[q.Mine()] == r)
  }

  /** Who is waited for waits itself only in front of its target, with the awaited file as its task lock. */
  lemma HolderWaitsInBody(s: State, p: nat, r: nat)
    requires LocksOk(s) && WaitsFor(s, p, r)
    ensures r < |s.procs| && !s.procs[r].Ended()
    ensures s.procs[r].Waiting() ==> s.procs[r].place.WaitTarget? && s.procs[p].place.WaitTarget?
                                     && s.procs[p].Mine() == s.procs[r].Task()
  {
    hide LockFile;
    var q := s.procs[p];
    var f := if q.place.WaitTime? then q.Time() else q.Mine();
    assert Holds(s, r, f);
    TimeIsNotTaskOf(q, s.procs[r]);
  }

  /** If the awaited target is not named like the task file of a plan, a waiting holder has a shorter target name. */
  lemma HolderIsShorter(s: State, p: nat, r: nat)
    requires LocksOk(s) && WaitsFor(s, p, r) && r < |s.procs| && s.procs[r].Waiting()
    requires p < |s.procs| && Started(s.procs[r]) && !PlanNamed(s.procs[p].Mine())
    ensures |s.procs[r].target.id| < |s.procs[p].target.id|
  {
    HolderWaitsInBody(s, p, r);
    var o := s.procs[r];
    var name := if o.plan != "" then o.plan else o.target.id;
    assert s.procs[p].Mine().name == TaskFileName(o.kind, name);
    assert o.kind == Local;
    assert |TaskFileName(Local, o.target.id)| == |o.target.id| + 11;
  }

  // ----- No cycles, and somebody can always move

  ghost predicate WaitingCycle(s: State, cycle: seq<nat>) {
    && cycle != []
    && WaitsFor(s, cycle[|cycle| - 1], cycle[0])
    && forall i, j :: 0 <= i < |cycle| && j == i + 1 < |cycle| ==> WaitsFor(s, cycle[i], cycle[j])
  }

  ghost predicate PlainTargets(s: State) {
    forall p :: 0 <= p < |s.procs| ==> !PlanNamed(s.procs[p].Mine())
  }

  /** Along a chain of waiting processes the target names get shorter. */
  lemma {:induction false} ChainGetsShorter(s: State, cycle: seq<nat>, n: nat)
    requires Inv(s) && PlainTargets(s) && 0 < n < |cycle|
    requires forall i, j :: 0 <= i < |cycle| && j == i + 1 < |cycle| ==> WaitsFor(s, cycle[i], cycle[j])
    requires forall i :: 0 <= i < |cycle| ==> cycle[i] < |s.procs| && s.procs[cycle[i]].Waiting()
    ensures |s.procs[cycle[n]].target.id| < |s.procs[cycle[0]].target.id|
  {
    hide PlanNamed, WaitsFor, LocksOk, FileOk;
    assert WaitsFor(s, cycle[n - 1], cycle[n]);
    assert ProcOk(s, cycle[n]);
    HolderIsShorter(s, cycle[n - 1], cycle[n]);
    if n > 1 { ChainGetsShorter(s, cycle, n - 1); }
  }

  /** Without targets named like the task file of a plan, no reachable state has a cycle of processes, each blocked on
      a file that the next one has locked. */
  lemma NoWaitingCycle(events: seq<Event>, cycle: seq<nat>)
    requires Run(events).Some? && PlainTargets(Run(events).value)
    ensures !WaitingCycle(Run(events).value, cycle)
  {
    hide Run, FileOk, LocksOk, LockFile;
    Reachable(events);
    var s := Run(events).value;
    if WaitingCycle(s, cycle) {
      var last := |cycle| - 1;
      CycleWaits(s, cycle);
      hide WaitsFor, WaitingCycle;
      assert ProcOk(s, cycle[0]);
      HolderIsShorter(s, cycle[last], cycle[0]);
      if last > 0 { ChainGetsShorter(s, cycle, last); }
      assert false;
    }
  }

  lemma CycleWaits(s: State, cycle: seq<nat>)
    requires WaitingCycle(s, cycle)
    ensures WaitsFor(s, cycle[|cycle| - 1], cycle[0])
    ensures forall i, j :: 0 <= i < |cycle| && j == i + 1 < |cycle| ==> WaitsFor(s, cycle[i], cycle[j])
    ensures forall i :: 0 <= i < |cycle| ==> cycle[i] < |s.procs| && s.procs[cycle[i]].Waiting()
  {
    hide LockFile;
    forall i | 0 <= i < |cycle| ensures cycle[i] < |s.procs| && s.procs[cycle[i]].Waiting() {
      if i + 1 < |cycle| { assert WaitsFor(s, cycle[i], cycle[i + 1]); }
    }
  }

  /** What the world can answer so that a process moves on. */
  function Answer(q: Process): Choice {
    if q.InTake() && q.place.stage.Snapping? then Took("") else Go
  }

  lemma CanMove(s: State, p: nat)
    requires p < |s.procs| && !s.procs[p].Ended()
    requires !(exists r :: WaitsFor(s, p, r))
    ensures Apply(s, Move(p, Answer(s.procs[p]))).Some?
  {
    hide LockFile;
    var q := s.procs[p];
    assert q.place.WaitTime? && q.Time() in s.locks ==> WaitsFor(s, p, s.locks[q.Time()]);
    assert q.place.WaitTarget? && q.Mine() in s.locks ==> WaitsFor(s, p, s.locks[q.Mine()]);
    Unblocked(s.now, q, s.Free(q), s.RecordOf(q.Mine()), s.TouchedAt(q.Time()));
  }

  lemma Unblocked(now: nat, q: Process, free: set<File>, r: Record, touched: nat)
    requires !q.Ended()
    requires q.place.WaitTime? ==> q.Time() in free
    requires q.place.WaitTarget? ==> q.Mine() in free
    ensures Act(now, q, free, r, touched, Answer(q)).Some?
  {
    hide LockFile;
  }

  /** Each process of the chain waits for the next one. */
  ghost predicate WaitingChain(s: State, chain: seq<nat>) {
    && chain != []
    && forall i :: 0 <= i < |chain| - 1 ==> WaitsFor(s, chain[i], chain[i + 1])
  }

  lemma LongerChain(s: State, p: nat, chain: seq<nat>)
    requires WaitingChain(s, chain) && WaitsFor(s, p, chain[0])
    ensures WaitingChain(s, [p] + chain)
  {
    var longer := [p] + chain;
    forall i | 0 <= i < |longer| - 1 ensures WaitsFor(s, longer[i], longer[i + 1]) {
      if i > 0 { assert WaitsFor(s, chain[i - 1], chain[i]); }
    }
  }

  /** The process at the end of a chain of waiting processes can take a step. */
  lemma {:induction false} EndOfChainMoves(s: State, p: nat) returns (chain: seq<nat>)
    requires Inv(s) && PlainTargets(s) && p < |s.procs| && !s.procs[p].Ended()
    ensures WaitingChain(s, chain) && chain[0] == p
    ensures var r := chain[|chain| - 1];
            r < |s.procs| && Apply(s, Move(r, Answer(s.procs[r]))).Some?
    decreases |s.procs[p].target.id| + (if s.procs[p].Waiting() then 0 else 1)
  {
    hide Apply, LockFile, FileOk, PlanNamed, WaitsFor;
    chain := [p];
    if next: nat :| WaitsFor(s, p, next) {
      HolderWaitsInBody(s, p, next);
      if s.procs[next].Waiting() {
        assert ProcOk(s, next);
        HolderIsShorter(s, p, next);
        chain := EndOfChainMoves(s, next);
      } else {
        NotWaiting(s, next);
        CanMove(s, next);
        chain := [next];
      }
      LongerChain(s, p, chain);
      chain := [p] + chain;
    } else {
      CanMove(s, p);
    }
  }

  lemma NotWaiting(s: State, p: nat)
    requires p < |s.procs| && !s.procs[p].Waiting()
    ensures !(exists o :: WaitsFor(s, p, o))
  {
  }

  /** Without such targets, a process that has not ended can take a step, or one can at the end of the chain in which
      it waits. */
  lemma NeverStuck(events: seq<Event>, p: nat) returns (chain: seq<nat>, c: Choice)
    requires Run(events).Some? && p < |Run(events).value.procs| && !Run(events).value.procs[p].Ended()
    requires PlainTargets(Run(events).value)
    ensures WaitingChain(Run(events).value, chain) && chain[0] == p
    ensures Apply(Run(events).value, Move(chain[|chain| - 1], c)).Some?
  {
    hide Run, Apply;
    Reachable(events);
    chain := EndOfChainMoves(Run(events).value, p);
    c := Answer(Run(events).value.procs[chain[|chain| - 1]]);
  }
}
