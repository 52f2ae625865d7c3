/** Runs in which a target is named like a task file: takes too close to each other, and processes that wait forever. */
module SnapshotRuns {
  import opened Common
  import opened SnapshotTasks
  import opened SnapshotProofs
  import opened SnapshotWaiting

  // ----- Putting runs together

  ghost predicate Reaches(events: seq<Event>, s: State) {
    Run(events) == Some(s)
  }

  lemma Extend(events: seq<Event>, s: State, e: Event)
    requires Reaches(events, s) && Apply(s, e).Some?
    ensures Reaches(events + [e], Apply(s, e).value)
  {
    assert (events + [e])[..|events|] == events;
  }

  function ActAt(s: State, p: nat, c: Choice): Option<Next>
    requires p < |s.procs|
  {
    var q := s.procs[p];
    Act(s.now, q, s.Free(q), s.RecordOf(q.Mine()), s.TouchedAt(q.Time()), c)
  }

  /** One step of process `p`. */
  lemma Advance(events: seq<Event>, s: State, p: nat, c: Choice) returns (events': seq<Event>, s': State)
    requires Reaches(events, s) && p < |s.procs| && ActAt(s, p, c).Some?
    ensures Reaches(events', s') && s' == After(s, p, s.procs[p], ActAt(s, p, c).value)
    ensures var n := ActAt(s, p, c).value;
            && s'.now == s.now && s'.procs == s.procs[p := n.process] && s'.locks == Relock(s.locks, p, n.op)
            && (n.record == s.RecordOf(s.procs[p].Mine()) && n.log.Quiet? ==> s'.records == s.records)
            && s'.touched
               == Retouch(s.touched, TouchOf(s.procs[p], n, n.record != s.RecordOf(s.procs[p].Mine())), s.now)
  {
    hide Run, Act, LockFile, Retouch, Relock;
    Extend(events, s, Move(p, c));
    events', s' := events + [Move(p, c)], Apply(s, Move(p, c)).value;
  }

  /** The lock on the schedule is taken. */
  lemma ToInTime(events: seq<Event>, s: State, p: nat) returns (events': seq<Event>, s': State)
    requires Reaches(events, s) && p < |s.procs| && s.procs[p].place == Opening && s.procs[p].Time() !in s.locks
    ensures Reaches(events', s')
    ensures var q := s.procs[p];
            && s'.now == s.now && s'.locks == s.locks[q.Time() := p] && s'.records == s.records
            && s'.procs == s.procs[p := q.To(InTime)]
            && s'.touched.Keys <= s.touched.Keys + {q.Time()}
            && (q.Time() !in s.touched ==> s'.TouchedAt(q.Time()) == s.now)
  {
    hide LockFile, Reaches, After;
    var q := s.procs[p];
    var e1, s1 := Advance(events, s, p, Go);
    assert s1.procs[p] == q.To(WaitTime);
    events', s' := Advance(e1, s1, p, Go);
  }

  /** The first half of the first block: both locks are taken. */
  lemma ToBothLocks(events: seq<Event>, s: State, p: nat) returns (events': seq<Event>, s': State)
    requires Reaches(events, s) && p < |s.procs| && s.procs[p].place == Opening
    requires s.procs[p].Time() !in s.locks && s.procs[p].Mine() !in s.locks
    ensures Reaches(events', s')
    ensures var q := s.procs[p];
            && s'.now == s.now && s'.locks == s.locks[q.Time() := p][q.Mine() := p] && s'.records == s.records
            && s'.procs == s.procs[p := q.To(InTimeTarget)]
            && s'.touched.Keys <= s.touched.Keys + {q.Time(), q.Mine()}
  {
    hide LockFile, Reaches, After;
    TimeIsNotMine(s.procs[p]);
    var e1, s1 := ToInTime(events, s, p);
    assert s1.procs[p] == s.procs[p].To(InTime);
    events', s' := Advance(e1, s1, p, Go);
  }

  /** The second half: both locks are given back. */
  lemma LeaveLocks(events: seq<Event>, s: State, p: nat) returns (events': seq<Event>, s': State)
    requires Reaches(events, s) && p < |s.procs| && s.procs[p].place == InTimeTarget
    ensures Reaches(events', s')
    ensures var q := s.procs[p];
            && s'.now == s.now && s'.locks == s.locks - {q.Mine()} - {q.Time()} && s'.records == s.records
            && s'.procs == s.procs[p := q.To(InitTask)]
            && s'.touched.Keys <= s.touched.Keys + {q.Time(), q.Mine()}
  {
    hide LockFile, Reaches, After;
    var q := s.procs[p];
    var e1, s1 := Advance(events, s, p, Go);
    assert s1.procs[p] == q.To(Touched) && s1.locks == s.locks;
    var e2, s2 := Advance(e1, s1, p, Go);
    assert s2.procs[p] == q.To(LeaveTime) && s2.locks == s.locks - {q.Mine()};
    events', s' := Advance(e2, s2, p, Go);
  }

  /** The first block of the script, when nobody holds the two locks. */
  lemma ToInitTask(events: seq<Event>, s: State, p: nat) returns (events': seq<Event>, s': State)
    requires Reaches(events, s) && p < |s.procs| && s.procs[p].place == Opening
    requires s.procs[p].Time() !in s.locks && s.procs[p].Mine() !in s.locks
    ensures Reaches(events', s')
    ensures s'.now == s.now && s'.locks == s.locks && s'.records == s.records
    ensures s'.procs == s.procs[p := s.procs[p].To(InitTask)]
    ensures s'.touched.Keys <= s.touched.Keys + {s.procs[p].Time(), s.procs[p].Mine()}
  {
    hide LockFile, Reaches;
    TimeIsNotMine(s.procs[p]);
    var e1, s1 := ToBothLocks(events, s, p);
    events', s' := LeaveLocks(e1, s1, p);
    assert s'.locks == s.locks;
  }

  /** The task file is emptied, whoever has locked it. */
  lemma EmptyTaskFile(events: seq<Event>, s: State, p: nat) returns (events': seq<Event>, s': State)
    requires Reaches(events, s) && p < |s.procs| && s.procs[p].place == InitTask
    ensures Reaches(events', s')
    ensures s'.now == s.now && s'.locks == s.locks && s'.procs == s.procs[p := s.procs[p].To(TryTask)]
    ensures s'.touched.Keys <= s.touched.Keys + {s.procs[p].Task()}
    ensures forall f ::
              s'.RecordOf(f) == if f == s.procs[p].Task() then s.RecordOf(f).(lines := [Other]) else s.RecordOf(f)
  {
    hide LockFile, Reaches;
    var q := s.procs[p];
    events', s' := Advance(events, s, p, Go);
    hide After, Act;
    forall f ensures s'.RecordOf(f) == if f == q.Task() then s.RecordOf(f).(lines := [Other]) else s.RecordOf(f) {
      AfterRecords(s, p, q, Next(q.To(TryTask), Keep, s.RecordOf(q.Mine()), Init), f);
    }
  }

  /** The task lock is taken and the body begins. */
  lemma ToBody(events: seq<Event>, s: State, p: nat) returns (events': seq<Event>, s': State)
    requires Reaches(events, s) && p < |s.procs| && s.procs[p].place == TryTask && s.procs[p].Task() !in s.locks
    ensures Reaches(events', s')
    ensures s'.now == s.now && s'.locks == s.locks[s.procs[p].Task() := p]
    ensures s'.procs == s.procs[p := s.procs[p].To(if Replicates(s.procs[p].kind) then TryTarget else WaitTarget)]
    ensures s'.touched.Keys <= s.touched.Keys + {s.procs[p].Task()}
    ensures forall f :: f != s.procs[p].Task() ==> s'.RecordOf(f) == s.RecordOf(f)
  {
    hide LockFile, Reaches;
    var q := s.procs[p];
    var e1, s1 := Advance(events, s, p, Go);
    assert s1.procs[p] == q.To(HaveTask) && s1.records == s.records;
    events', s' := Advance(e1, s1, p, Go);
    var place := if Replicates(q.kind) then TryTarget else WaitTarget;
    hide After, Act;
    forall f | f != q.Task() ensures s'.RecordOf(f) == s.RecordOf(f) {
      AfterRecords(s1, p, s1.procs[p], Next(q.To(place), Keep, s1.RecordOf(q.Mine()), Append), f);
    }
  }

  /** A process is killed: it leaves nothing locked. */
  lemma KillIt(events: seq<Event>, s: State, p: nat) returns (events': seq<Event>, s': State)
    requires Reaches(events, s) && p < |s.procs| && !s.procs[p].Ended()
    requires forall f <- s.locks :: s.locks[f] == p
    ensures Reaches(events', s')
    ensures s'.now == s.now && s'.locks == map[] && s'.records == s.records && |s'.procs| == |s.procs|
  {
    Extend(events, s, Kill(p));
    events', s' := events + [Kill(p)], Apply(s, Kill(p)).value;
  }

  lemma Start(events: seq<Event>, s: State, kind: Kind, target: Target, plan: string)
    returns (events': seq<Event>, s': State)
    requires Reaches(events, s) && target.dir != "" && target.id != "" && (kind == Local ==> plan == "")
    ensures Reaches(events', s')
    ensures s' == s.(procs := s.procs + [Process(kind, target, plan, s.now, Opening, "", 0, 0)])
  {
    Extend(events, s, Spawn(kind, target, plan));
    events', s' := events + [Spawn(kind, target, plan)], Apply(s, Spawn(kind, target, plan)).value;
  }

  // ----- Takes too close to each other

  function TargetOf(f: File): Target {
    Target(f.dir, f.name)
  }

  /** From the target lock to the point where the time is asked for. */
  lemma TakeEnters(events: seq<Event>, s: State, p: nat) returns (events': seq<Event>, s': State)
    requires Reaches(events, s) && p < |s.procs| && s.procs[p].place == WaitTarget && s.procs[p].Mine() !in s.locks
    requires s.procs[p].start == s.now >= 60 && Times(s.RecordOf(s.procs[p].Mine()).lines) == []
    ensures Reaches(events', s') && s'.now == s.now && s'.records == s.records
    ensures s'.locks == s.locks[s.procs[p].Mine() := p]
    ensures s'.procs == s.procs[p := s.procs[p].(taken := s.procs[p].taken + 1).To(Taking(false, Stamp))]
  {
    hide LockFile, Reaches, Times, Names, ReusedName, After;
    var q := s.procs[p];
    var e1, s1 := Advance(events, s, p, Go);
    assert s1.procs[p] == q.To(Taking(false, Enter)) && s1.records == s.records;
    events', s' := Advance(e1, s1, p, Go);
    assert s'.procs[p] == q.(taken := q.taken + 1).To(Taking(false, Stamp)) && s'.records == s.records;
  }

  /** And to the point where it is known. */
  lemma TakeBegins(events: seq<Event>, s: State, p: nat) returns (events': seq<Event>, s': State)
    requires Reaches(events, s) && p < |s.procs| && s.procs[p].place == WaitTarget && s.procs[p].Mine() !in s.locks
    requires s.procs[p].start == s.now >= 60 && Times(s.RecordOf(s.procs[p].Mine()).lines) == []
    ensures Reaches(events', s') && s'.now == s.now && |s'.procs| == |s.procs| && s'.records == s.records
    ensures s'.locks == s.locks[s.procs[p].Mine() := p]
    ensures s'.procs[p].place == Taking(false, Truncate(s.now)) && s'.procs[p].target == s.procs[p].target
  {
    hide LockFile, Reaches, Times, Names, ReusedName, After;
    var e1, s1 := TakeEnters(events, s, p);
    assert s1.procs[p].place == Taking(false, Stamp);
    events', s' := Advance(e1, s1, p, Go);
  }

  /** From the target lock to the recorded time. */
  lemma TakeBody(events: seq<Event>, s: State, p: nat) returns (events': seq<Event>, s': State)
    requires Reaches(events, s) && p < |s.procs| && s.procs[p].place == WaitTarget && s.procs[p].Mine() !in s.locks
    requires s.procs[p].start == s.now >= 60 && Times(s.RecordOf(s.procs[p].Mine()).lines) == []
    ensures Reaches(events', s') && s'.now == s.now && |s'.procs| == |s.procs| && !s'.procs[p].Ended()
    ensures s'.locks == s.locks[s.procs[p].Mine() := p]
    ensures s'.RecordOf(s.procs[p].Mine()).takes == s.RecordOf(s.procs[p].Mine()).takes + [Take(s.now, None)]
  {
    hide LockFile, Reaches, Times;
    var f := s.procs[p].Mine();
    var e1, s1 := TakeBegins(events, s, p);
    assert s1.RecordOf(f) == s.RecordOf(f);
    var e2, s2 := TakeStepAt(e1, s1, p, f);
    events', s' := TakeStepAt(e2, s2, p, f);
  }

  /** The steps that truncate and write the record. */
  lemma TakeStepAt(events: seq<Event>, s: State, p: nat, f: File) returns (events': seq<Event>, s': State)
    requires Reaches(events, s) && p < |s.procs| && f == s.procs[p].Mine() && s.procs[p].InTake()
    requires s.procs[p].place.stage.Truncate? || s.procs[p].place.stage.Write?
    ensures Reaches(events', s') && s'.now == s.now && s'.locks == s.locks && |s'.procs| == |s.procs|
    ensures !s'.procs[p].Ended() && s'.procs[p].target == s.procs[p].target && s'.procs[p].InTake()
    ensures var stage := s.procs[p].place.stage;
            if stage.Truncate? then
              s'.procs[p].place.stage == Write(stage.time) && s'.RecordOf(f).takes == s.RecordOf(f).takes
            else s'.RecordOf(f).takes == s.RecordOf(f).takes + [Take(stage.time, None)]
  {
    hide LockFile, Reaches;
    events', s' := Advance(events, s, p, Go);
    var n := ActAt(s, p, Go).value;
    hide After, Act;
    AfterRecords(s, p, s.procs[p], n, f);
  }

  /** With nothing locked, a process gets into its body, and only its task file changes. */
  lemma ReadyToTake(events: seq<Event>, s: State, p: nat, f: File) returns (events': seq<Event>, s': State)
    requires Reaches(events, s) && s.locks == map[] && p < |s.procs| && s.procs[p].place == Opening
    requires s.procs[p].kind == Local && s.procs[p].Task() != f
    ensures Reaches(events', s') && s'.now == s.now && s'.locks == map[s.procs[p].Task() := p]
    ensures s'.procs == s.procs[p := s.procs[p].To(WaitTarget)] && s'.RecordOf(f) == s.RecordOf(f)
  {
    hide Reaches, LockFile;
    var e1, s1 := ToInitTask(events, s, p);
    assert s1.RecordOf(f) == s.RecordOf(f);
    var e2, s2 := EmptyTaskFile(e1, s1, p);
    events', s' := ToBody(e2, s2, p);
  }

  /** With nothing locked, a local task takes a snapshot at once, if the file of its target holds no time. */
  lemma TakeNow(events: seq<Event>, s: State, f: File) returns (events': seq<Event>, s': State)
    requires Reaches(events, s) && s.locks == map[] && s.now >= 60
    requires f.dir != "" && f.name != "" && Times(s.RecordOf(f).lines) == []
    ensures Reaches(events', s') && s'.locks == map[] && s'.now == s.now
    ensures s'.RecordOf(f).takes == s.RecordOf(f).takes + [Take(s.now, None)]
  {
    var p := |s.procs|;
    var e1, s1 := Start(events, s, Local, TargetOf(f), "");
    assert s1.procs[p].Mine() == f && s1.procs[p].Task() != f by {
      assert |s1.procs[p].Task().name| == |f.name| + 11;
    }
    hide Reaches, LockFile, Times;
    assert s1.RecordOf(f) == s.RecordOf(f);
    var e2, s2 := ReadyToTake(e1, s1, p, f);
    var e3, s3 := TakeBody(e2, s2, p);
    events', s' := KillIt(e3, s3, p);
    assert s'.RecordOf(f) == s3.RecordOf(f);
  }

  /** With nothing locked, a run empties the file that is named like its task file. */
  lemma EmptyNow(events: seq<Event>, s: State, f: File, k: Kind, name: string) returns (events': seq<Event>, s': State)
    requires Reaches(events, s) && s.locks == map[]
    requires f.dir != "" && name != "" && f.name == TaskFileName(k, name)
    ensures Reaches(events', s') && s'.locks == map[] && s'.now == s.now
    ensures s'.RecordOf(f) == s.RecordOf(f).(lines := [Other])
  {
    hide Reaches, LockFile, TaskFileName, Process.Time, Process.Mine, Process.Task, Process.To;
    var p := |s.procs|;
    var e1, s1 := Start(events, s, k, Target(f.dir, name), if k == Local then "" else name);
    TaskOfRun(s1.procs[p], k, f.dir, name);
    var e2, s2 := ToInitTask(e1, s1, p);
    assert s2.RecordOf(f) == s.RecordOf(f);
    Elsewhere(s1.procs[p], InitTask);
    Elsewhere(s2.procs[p], TryTask);
    var e3, s3 := EmptyTaskFile(e2, s2, p);
    events', s' := KillIt(e3, s3, p);
    assert s'.RecordOf(f) == s3.RecordOf(f);
  }

  lemma TaskOfRun(q: Process, k: Kind, dir: string, name: string)
    requires q.kind == k && q.target == Target(dir, name) && q.plan == (if k == Local then "" else name)
    ensures q.Task() == File(dir, TaskFileName(k, name))
  {
  }

  /** Moving on changes none of the files of a process. */
  lemma Elsewhere(q: Process, place: Place)
    ensures var r := q.To(place);
            && r.Time() == q.Time() && r.Mine() == q.Mine() && r.Task() == q.Task()
            && r.place == place && SameRun(q, r)
  {
  }

  /** For every target that is named like a task file there is a run in which two takes are recorded in one second. */
  lemma TakesTooClose(f: File) returns (events: seq<Event>)
    requires TaskNamed(f)
    ensures Run(events).Some? && !Spaced(Run(events).value.RecordOf(f).takes)
  {
    var k: Kind, name: string := NameOfTask(f);
    hide *;
    var e0, s0 := AtOneMinute(f);
    var e1, s1 := TakeNow(e0, s0, f);
    var e2, s2 := EmptyNow(e1, s1, f, k, name);
    NothingInOther();
    var e3, s3 := TakeNow(e2, s2, f);
    events := e3;
    TwoTakes(s3.RecordOf(f).takes);
    ReachesRun(e3, s3);
  }

  lemma NameOfTask(f: File) returns (k: Kind, name: string)
    requires TaskNamed(f)
    ensures f.dir != "" && f.name != "" && name != "" && f.name == TaskFileName(k, name)
  {
    k, name :| name != "" && f.name == TaskFileName(k, name);
    TaskNameNotEmpty(k, name);
  }

  /** A minute after the start of time, with nothing done. */
  lemma AtOneMinute(f: File) returns (events: seq<Event>, s: State)
    ensures Reaches(events, s) && s.locks == map[] && s.now == 60
    ensures s.RecordOf(f).takes == [] && Times(s.RecordOf(f).lines) == []
  {
    assert Reaches([], INITIAL);
    Extend([], INITIAL, Tick(60));
    events, s := [] + [Tick(60)], INITIAL.(now := 60);
    assert s.RecordOf(f) == NO_RECORD;
  }

  lemma TaskNameNotEmpty(k: Kind, name: string)
    ensures TaskFileName(k, name) != ""
  {
  }

  lemma ReachesRun(events: seq<Event>, s: State)
    requires Reaches(events, s)
    ensures Run(events) == Some(s)
  {
  }

  lemma TwoTakes(takes: seq<Take>)
    requires takes == [Take(60, None), Take(60, None)]
    ensures !Spaced(takes)
  {
    assert takes[0].time + 60 > takes[1].time;
  }

  /** Exactly for which files takes stay a minute apart in every run. */
  lemma SpacingExact(f: File)
    ensures (forall events :: Run(events).Some? ==> Spaced(Run(events).value.RecordOf(f).takes)) <==> !TaskNamed(f)
  {
    if TaskNamed(f) {
      var events := TakesTooClose(f);
    } else {
      hide TaskNamed, Spaced, Run;
      forall events | Run(events).Some? ensures Spaced(Run(events).value.RecordOf(f).takes) { TakesSpaced(events, f); }
    }
  }

  // ----- Processes that wait forever

  /** A process that finds its target's file locked sends first and then waits for it. */
  lemma ToWaitTarget(events: seq<Event>, s: State, p: nat) returns (events': seq<Event>, s': State)
    requires Reaches(events, s) && p < |s.procs| && s.procs[p].Mine() in s.locks
    requires s.procs[p].place == if Replicates(s.procs[p].kind) then TryTarget else WaitTarget
    ensures Reaches(events', s') && s'.now == s.now && s'.locks == s.locks
    ensures |s'.procs| == |s.procs| && (forall i :: 0 <= i < |s.procs| && i != p ==> s'.procs[i] == s.procs[i])
    ensures s'.procs[p].place == WaitTarget && SameRun(s.procs[p], s'.procs[p])
  {
    hide LockFile, Reaches, After;
    events', s' := events, s;
    if Replicates(s.procs[p].kind) {
      var e1, s1 := Advance(events, s, p, Go);
      assert s1.procs[p].place == PreSendFirst;
      events', s' := Advance(e1, s1, p, Go);
    }
  }

  /** A process in front of a locked target file cannot move, whatever the world answers. */
  lemma Blocked(s: State, p: nat, c: Choice)
    requires p < |s.procs| && s.procs[p].place == WaitTarget && s.procs[p].Mine() in s.locks
    ensures Apply(s, Move(p, c)).None?
  {
    hide LockFile, After;
  }

  /** For every target that is named like the task file of a plan there is a run in which a single process waits for
      itself: the file of its target is its own task lock. */
  lemma WaitsForItself(f: File) returns (events: seq<Event>)
    requires PlanNamed(f)
    ensures Run(events).Some? && |Run(events).value.procs| == 1
    ensures Run(events).value.procs[0].target == TargetOf(f) && WaitingCycle(Run(events).value, [0])
    ensures forall c :: Apply(Run(events).value, Move(0, c)).None?
  {
    var k: Kind, name: string :| k != Local && name != "" && f.name == TaskFileName(k, name);
    TaskNameNotEmpty(k, name);
    assert Reaches([], INITIAL);
    var e1, s1 := Start([], INITIAL, k, TargetOf(f), name);
    assert s1.procs[0].Mine() == f == s1.procs[0].Task();
    hide Reaches, LockFile, TaskFileName, PlanNamed;
    var e2, s2 := ToInitTask(e1, s1, 0);
    var e3, s3 := EmptyTaskFile(e2, s2, 0);
    var e4, s4 := ToBody(e3, s3, 0);
    assert s4.procs[0].Mine() == f && s4.locks[f] == 0;
    var e5, s5 := ToWaitTarget(e4, s4, 0);
    events := e5;
    assert s5.procs[0].Mine() == f;
    SelfCycle(s5, 0);
    forall c ensures Apply(s5, Move(0, c)).None? { Blocked(s5, 0, c); }
    ReachesRun(e5, s5);
  }

  lemma SelfCycle(s: State, p: nat)
    requires p < |s.procs| && s.procs[p].place == WaitTarget
    requires s.procs[p].Mine() in s.locks && s.locks[s.procs[p].Mine()] == p
    ensures WaitingCycle(s, [p])
  {
    WaitsThere(s, p, p);
  }

  ghost predicate RunOn(events: seq<Event>, targets: set<Target>) {
    Run(events).Some? && forall p :: 0 <= p < |Run(events).value.procs| ==> Run(events).value.procs[p].target in targets
  }

  /** Runs on some targets can end in a cycle of waiting processes if and only if one of the targets is named like the
      task file of a plan. */
  lemma DeadlockExact(targets: set<Target>)
    ensures (exists events, cycle :: RunOn(events, targets) && WaitingCycle(Run(events).value, cycle))
        <==> exists t :: t in targets && PlanNamed(LockFile(TargetLock(t)))
  {
    if t :| t in targets && PlanNamed(LockFile(TargetLock(t))) {
      var events := WaitsForItself(LockFile(TargetLock(t)));
      assert RunOn(events, targets) && WaitingCycle(Run(events).value, [0]);
    }
    if events, cycle :| RunOn(events, targets) && WaitingCycle(Run(events).value, cycle) {
      hide PlanNamed, WaitingCycle, Run;
      if PlainTargets(Run(events).value) { NoWaitingCycle(events, cycle); }
    }
  }

  // ----- Two plans on targets that are named like each other's task file

  /** The first run is in its body and the second one passes the first block without its target's lock. */
  lemma PassDenied(events: seq<Event>, s: State, p: nat) returns (events': seq<Event>, s': State)
    requires Reaches(events, s) && p < |s.procs| && s.procs[p].place == Opening && s.procs[p].start == s.now
    requires s.procs[p].Time() !in s.locks && s.procs[p].Mine() in s.locks && s.procs[p].Time() !in s.touched
    ensures Reaches(events', s') && s'.now == s.now && s'.locks == s.locks
    ensures s'.procs == s.procs[p := s.procs[p].To(InitTask)]
  {
    hide LockFile, Reaches, After;
    var q := s.procs[p];
    TimeIsNotMine(q);
    var e1, s1 := ToInTime(events, s, p);
    assert s1.procs[p] == q.To(InTime);
    var e2, s2 := Advance(e1, s1, p, Go);
    assert s2.procs[p] == q.To(LeaveTime);
    events', s' := Advance(e2, s2, p, Go);
    assert s'.locks == s.locks;
  }

  /** Plan P on a target named like the task file of plan Q, and plan Q on one named like that of P: both runs get
      their task lock, find their target locked, and wait for each other. Neither of them ever moves again. */
  lemma TwoPlansDeadlock(dir: string, p: string, q: string) returns (events: seq<Event>)
    requires dir != "" && p != "" && q != "" && p != q
    ensures Run(events).Some? && |Run(events).value.procs| == 2
    ensures var s := Run(events).value;
            && s.procs[0].plan == p && s.procs[0].target == Target(dir, TaskFileName(Replication, q))
            && s.procs[1].plan == q && s.procs[1].target == Target(dir, TaskFileName(Replication, p))
            && WaitingCycle(s, [0, 1])
            && forall c :: Apply(s, Move(0, c)).None? && Apply(s, Move(1, c)).None?
  {
    hide LockFile, TaskFileName, ScheduleName, Reaches, Run, WaitingCycle, Apply, WaitsFor;
    var fp, fq := File(dir, TaskFileName(Replication, p)), File(dir, TaskFileName(Replication, q));
    TaskNameNotEmpty(Replication, p);
    TaskNameNotEmpty(Replication, q);
    PlansDiffer(dir, p, q);
    ReachesInitial();
    var e1, s1 := Start([], INITIAL, Replication, TargetOf(fq), p);
    PlanFiles(s1.procs[0], fq, fp);
    var e2, s2 := FirstInBody(e1, s1, fp, fq);
    Elsewhere(s1.procs[0], TryTarget);
    var e3, s3 := Start(e2, s2, Replication, TargetOf(fp), q);
    PlanFiles(s3.procs[1], fp, fq);
    var e8, s8 := SecondRun(e3, s3, fp, fq);
    events := e8;
    ReachesRun(e8, s8);
  }

  lemma ReachesInitial()
    ensures Reaches([], INITIAL)
  {
  }

  lemma PlansDiffer(dir: string, p: string, q: string)
    requires p != q
    ensures var fp, fq := File(dir, TaskFileName(Replication, p)), File(dir, TaskFileName(Replication, q));
            fp != fq && LockFile(TimeLock(TargetOf(fp))) != LockFile(TimeLock(TargetOf(fq)))
  {
    var x, y := TaskFileName(Replication, p), TaskFileName(Replication, q);
    if x == y { TaskFilesDiffer(Replication, p, Replication, q); }
    if x + ".time" == y + ".time" { SuffixCancels(x, y, ".time"); }
    hide TaskFileName;
  }

  /** The files of a plan that runs on a target. */
  lemma PlanFiles(r: Process, mine: File, task: File)
    requires r.kind == Replication && r.target == TargetOf(mine) && r.plan != ""
    requires task == File(mine.dir, TaskFileName(Replication, r.plan))
    ensures r.Mine() == mine && r.Task() == task && r.Time() == LockFile(TimeLock(TargetOf(mine)))
    ensures r.Time() != r.Mine() && r.Time() != r.Task()
  {
    TimeIsNotMine(r);
    TimeIsNotTaskOf(r, r);
    hide TaskFileName;
  }

  /** The second run, up to the point where both wait. */
  lemma SecondRun(events: seq<Event>, s: State, fp: File, fq: File) returns (events': seq<Event>, s': State)
    requires Reaches(events, s) && |s.procs| == 2 && s.locks == map[fp := 0] && fp != fq
    requires s.procs[0].place == TryTarget && s.procs[0].kind == Replication && s.procs[0].Mine() == fq
    requires s.procs[1].place == Opening && s.procs[1].kind == Replication && s.procs[1].start == s.now
    requires s.procs[1].Mine() == fp && s.procs[1].Task() == fq
    requires s.procs[1].Time() !in s.locks && s.procs[1].Time() !in s.touched
    ensures Reaches(events', s') && |s'.procs| == 2 && WaitingCycle(s', [0, 1])
    ensures SameRun(s.procs[0], s'.procs[0]) && SameRun(s.procs[1], s'.procs[1])
    ensures forall c :: Apply(s', Move(0, c)).None? && Apply(s', Move(1, c)).None?
  {
    hide LockFile, Reaches, Apply, WaitsFor, WaitingCycle, Process.Time, Process.Mine, Process.Task;
    var e3, s3 := SecondInBody(events, s);
    SameFiles(s.procs[1], s3.procs[1]);
    var e4, s4 := ToWaitTarget(e3, s3, 0);
    events', s' := ToWaitTarget(e4, s4, 1);
    SameFiles(s.procs[0], s'.procs[0]);
    SameFiles(s.procs[1], s'.procs[1]);
    BothWait(s', fp, fq);
  }

  lemma SecondInBody(events: seq<Event>, s: State) returns (events': seq<Event>, s': State)
    requires Reaches(events, s) && |s.procs| == 2 && s.procs[1].place == Opening && s.procs[1].kind == Replication
    requires s.procs[1].start == s.now && s.procs[1].Mine() in s.locks && s.procs[1].Task() !in s.locks
    requires s.procs[1].Time() !in s.locks && s.procs[1].Time() !in s.touched
    ensures Reaches(events', s') && s'.now == s.now && s'.locks == s.locks[s.procs[1].Task() := 1]
    ensures s'.procs == s.procs[1 := s.procs[1].To(TryTarget)]
  {
    hide LockFile, Reaches, Process.Time, Process.Mine, Process.Task, Process.To;
    var e1, s1 := PassDenied(events, s, 1);
    Elsewhere(s.procs[1], InitTask);
    var e2, s2 := EmptyTaskFile(e1, s1, 1);
    Elsewhere(s1.procs[1], TryTask);
    events', s' := ToBody(e2, s2, 1);
    ThereAfter(s.procs[1], InitTask, TryTask);
    ThereAfter(s.procs[1], TryTask, TryTarget);
  }

  lemma ThereAfter(q: Process, a: Place, b: Place)
    ensures q.To(a).To(b) == q.To(b)
  {
  }

  lemma SameFiles(q: Process, r: Process)
    requires SameRun(q, r)
    ensures q.Mine() == r.Mine() && q.Task() == r.Task() && q.Time() == r.Time()
  {
  }

  lemma BothWait(s: State, fp: File, fq: File)
    requires |s.procs| == 2 && s.procs[0].place == WaitTarget && s.procs[1].place == WaitTarget
    requires s.procs[0].Mine() == fq && s.procs[1].Mine() == fp && fp != fq
    requires s.locks == map[fp := 0][fq := 1]
    ensures WaitingCycle(s, [0, 1])
    ensures forall c :: Apply(s, Move(0, c)).None? && Apply(s, Move(1, c)).None?
  {
    hide LockFile, Apply, WaitsFor;
    WaitsThere(s, 0, 1);
    WaitsThere(s, 1, 0);
    forall c ensures Apply(s, Move(0, c)).None? && Apply(s, Move(1, c)).None? {
      Blocked(s, 0, c);
      Blocked(s, 1, c);
    }
  }

  lemma WaitsThere(s: State, p: nat, r: nat)
    requires p < |s.procs| && s.procs[p].place == WaitTarget
    requires s.procs[p].Mine() in s.locks && s.locks[s.procs[p].Mine()] == r
    ensures WaitsFor(s, p, r)
  {
    hide LockFile;
  }

  lemma FirstInBody(events: seq<Event>, s: State, task: File, mine: File) returns (events': seq<Event>, s': State)
    requires Reaches(events, s) && |s.procs| == 1 && s.locks == map[] && s.touched == map[]
    requires s.procs[0].place == Opening && s.procs[0].Task() == task && s.procs[0].Mine() == mine
    requires s.procs[0].kind == Replication
    ensures Reaches(events', s') && s'.now == s.now && s'.locks == map[task := 0]
    ensures s'.procs == [s.procs[0].To(TryTarget)]
    ensures s'.touched.Keys <= {s.procs[0].Time(), mine, task}
  {
    hide Reaches, LockFile;
    var e1, s1 := ToInitTask(events, s, 0);
    var e2, s2 := EmptyTaskFile(e1, s1, 0);
    events', s' := ToBody(e2, s2, 0);
  }
}
