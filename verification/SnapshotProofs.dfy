/** What every reachable state of the snapshot tasks keeps: locks, spacing of takes, reuse of names. */
module SnapshotProofs {
  import opened Common
  import opened SnapshotTasks

  // ----- File names

  lemma SuffixCancels(a: string, b: string, suffix: string)
    requires a + suffix == b + suffix
    ensures a == b
  {
    assert |a| == |b|;
    assert a == (a + suffix)[..|a|] && b == (b + suffix)[..|b|];
  }

  lemma TimeIsNotTask(a: string, b: string)
    ensures a + ".time" != b + ".task"
  {
    assert (a + ".time")[|a| + 3] == 'm' && (b + ".task")[|b| + 3] == 's';
  }

  lemma TimeFileIsNoTaskFile(id: string, k: Kind, name: string)
    ensures id + ".time" != TaskFileName(k, name)
  {
    TimeIsNotTask(id, ScheduleName(k) + "." + name);
  }

  /** The name of a task file tells schedule and task. */
  lemma TaskFilesDiffer(k: Kind, m: string, k': Kind, m': string)
    requires TaskFileName(k, m) == TaskFileName(k', m')
    ensures k == k' && m == m'
  {
    var a, b := ScheduleName(k) + "." + m, ScheduleName(k') + "." + m';
    SuffixCancels(a, b, ".task");
    assert a[0] == ScheduleName(k)[0] && b[0] == ScheduleName(k')[0];
    if k == Systemdr { assert a[8] == '.'; }
    if k == SystemdrLocal { assert a[8] == '_'; }
    if k' == Systemdr { assert b[8] == '.'; }
    if k' == SystemdrLocal { assert b[8] == '_'; }
    assert k == k';
    assert m == a[|ScheduleName(k)| + 1..] && m' == b[|ScheduleName(k)| + 1..];
  }

  /** A target whose lock is the time lock of the other lock's target, or the lock of a task. */
  ghost predicate Clash(l: Lock, l': Lock) {
    && l.TargetLock?
    && match l'
       case TimeLock(t) => l.target.dir == t.dir && l.target.id == t.id + ".time"
       case TaskLock(dir, k, name) => l.target.dir == dir && l.target.id == TaskFileName(k, name)
       case TargetLock(_) => false
  }

  /** Exactly which locks are one file. */
  lemma SameLockFile(l: Lock, l': Lock)
    ensures LockFile(l) == LockFile(l') <==> l == l' || Clash(l, l') || Clash(l', l)
  {
    hide TaskFileName;
    if l.TimeLock? && l'.TimeLock? && LockFile(l) == LockFile(l') { SuffixCancels(l.target.id, l'.target.id, ".time"); }
    if l.TaskLock? && l'.TaskLock? && LockFile(l) == LockFile(l') { TaskFilesDiffer(l.kind, l.name, l'.kind, l'.name); }
    if l.TimeLock? && l'.TaskLock? { TimeFileIsNoTaskFile(l.target.id, l'.kind, l'.name); }
    if l.TaskLock? && l'.TimeLock? { TimeFileIsNoTaskFile(l'.target.id, l.kind, l.name); }
  }

  /** A file that some run of the script uses as its task file. */
  ghost predicate TaskNamed(f: File) {
    f.dir != "" && exists k: Kind, name: string :: name != "" && f.name == TaskFileName(k, name)
  }

  /** What every process was started with. */
  predicate Started(q: Process) {
    q.target.dir != "" && q.target.id != "" && (q.kind == Local ==> q.plan == "")
  }

  lemma TaskFileIsTaskNamed(q: Process)
    requires Started(q)
    ensures TaskNamed(q.Task())
  {
    assert q.Task().name == TaskFileName(q.kind, if q.plan != "" then q.plan else q.target.id);
  }

  lemma TimeIsNotMine(q: Process)
    ensures q.Time() != q.Mine() && q.Time() != q.Task()
  {
    assert |q.Time().name| == |q.Mine().name| + 5;
    TimeFileIsNoTaskFile(q.target.id, q.kind, if q.plan != "" then q.plan else q.target.id);
  }

  // ----- Locks

  ghost predicate Holds(s: State, p: nat, f: File) {
    p < |s.procs| && f in s.procs[p].Held()
  }

  /** The lock table says exactly who has locked what. */
  ghost predicate LocksOk(s: State) {
    && (forall f <- s.locks :: Holds(s, s.locks[f], f))
    && (forall p: nat, f: File :: Holds(s, p, f) ==> f in s.locks && s.locks[f] == p)
  }

  /** A process in try_take has locked two different files. */
  predicate PlaceOk(q: Process) {
    q.InTake() ==> q.Mine() != q.Task()
  }

  /** What a step does to the locks of its process. */
  ghost predicate OpOk(q: Process, free: set<File>, op: LockOp, q': Process) {
    match op
    case Keep => q'.Held() == q.Held()
    case Acquire(f) => f in free && q'.Held() == q.Held() + {f}
    case Release(f) => f in q.Held() && q'.Held() == q.Held() - {f}
    case ReleaseAll => q'.Held() == {}
  }

  ghost predicate SameRun(q: Process, q': Process) {
    q'.target == q.target && q'.start == q.start && q'.kind == q.kind && q'.plan == q.plan
  }

  lemma ActLocks(now: nat, q: Process, free: set<File>, record: Record, touched: nat, c: Choice)
    requires Act(now, q, free, record, touched, c).Some? && PlaceOk(q) && q.Held() !! free
    ensures var n := Act(now, q, free, record, touched, c).value;
            OpOk(q, free, n.op, n.process) && SameRun(q, n.process) && PlaceOk(n.process)
    ensures var n := Act(now, q, free, record, touched, c).value;
            n.record != record ==> q.InTake()
  {
    hide LockFile;
    TimeIsNotMine(q);
    if q.InTake() && !q.place.stage.Return? && TakeStep(now, q, record, c).Some? {
      TakeStays(now, q, record, c);
      hide TakeStep;
    }
  }

  lemma TakeStays(now: nat, q: Process, record: Record, c: Choice)
    requires q.InTake() && !q.place.stage.Return? && TakeStep(now, q, record, c).Some?
    ensures var q' := TakeStep(now, q, record, c).value.0;
            q'.InTake() && q'.place.first == q.place.first && SameRun(q, q') && q'.sent == q.sent
  {
  }

  lemma RelockOk(s: State, p: nat, q': Process, free: set<File>, op: LockOp, s': State)
    requires LocksOk(s) && p < |s.procs| && OpOk(s.procs[p], free, op, q')
    requires forall f <- free :: f !in s.locks
    requires s'.procs == s.procs[p := q'] && s'.locks == Relock(s.locks, p, op)
    ensures LocksOk(s')
  {
    hide Process.Held;
    forall r: nat, f: File | Holds(s', r, f) ensures f in s'.locks && s'.locks[f] == r {
      if r != p {
        assert Holds(s, r, f);
        if op.Release? { assert Holds(s, p, op.file); }
      } else if !(op.Acquire? && op.file == f) {
        assert Holds(s, p, f);
      }
    }
    forall f <- s'.locks ensures Holds(s', s'.locks[f], f) {
      if !(op.Acquire? && op.file == f) {
        assert f in s.locks && Holds(s, s.locks[f], f);
      }
    }
  }

  lemma HeldIsNotFree(s: State, p: nat)
    requires LocksOk(s) && p < |s.procs|
    ensures s.procs[p].Held() !! s.Free(s.procs[p])
  {
    forall f | f in s.procs[p].Held() ensures f !in s.Free(s.procs[p]) { assert Holds(s, p, f); }
  }

  // ----- Record files

  ghost predicate Spaced(takes: seq<Take>) {
    forall i, j :: 0 <= i < j < |takes| ==> takes[i].time + 60 <= takes[j].time
  }

  /** The last recorded take lies at least a minute before `t`. */
  ghost predicate LongAgo(t: nat, takes: seq<Take>) {
    takes != [] ==> takes[|takes| - 1].time + 60 <= t
  }

  /** What a file says about takes is true of the last one; it may say less. */
  ghost predicate RecordOk(now: nat, r: Record) {
    && (forall i :: 0 <= i < |r.takes| ==> r.takes[i].time <= now)
    && |Times(r.lines)| <= 1 && |Names(r.lines)| <= 1
    && (Times(r.lines) != [] ==> r.takes != [] && Times(r.lines)[0] == r.takes[|r.takes| - 1].time)
    && (Names(r.lines) != [] ==> r.takes != [] && r.takes[|r.takes| - 1].name == Some(Names(r.lines)[0]))
  }

  ghost predicate StageOk(now: nat, q: Process, r: Record) {
    q.InTake() ==>
      match q.place.stage
      case Enter => true
      case Stamp => true
      case Truncate(v) => v <= now
      case Write(v) => v <= now && Times(r.lines) == [] && Names(r.lines) == []
      case Snapping => r.takes != [] && Names(r.lines) == []
      case Taken => r.takes != [] && Names(r.lines) == [] && r.takes[|r.takes| - 1].name == Some(q.snapshot)
      case Finishing => true
      case Return => true
  }

  /** The takes are spaced, and a file without a time was emptied a minute after the last take. */
  ghost predicate SpacingOk(now: nat, r: Record) {
    Spaced(r.takes) && (Times(r.lines) == [] ==> LongAgo(now, r.takes))
  }

  ghost predicate SpacingStage(now: nat, q: Process, r: Record) {
    q.InTake() ==>
      match q.place.stage
      case Stamp => LongAgo(now, r.takes)
      case Truncate(v) => LongAgo(v, r.takes)
      case Write(v) => LongAgo(v, r.takes)
      case _ => true
  }

  lemma {:induction false} TimesAppend(lines: seq<Line>, l: Line)
    ensures Times(lines + [l]) == Times(lines) + TimeIn(l)
  {
    hide TimeIn;
    if lines == [] {
      assert [] + [l] == [l] && [l][1..] == [] && TimeIn(l) + [] == TimeIn(l);
    } else {
      assert (lines + [l])[1..] == lines[1..] + [l];
      TimesAppend(lines[1..], l);
    }
  }

  lemma {:induction false} NamesAppend(lines: seq<Line>, l: Line)
    ensures Names(lines + [l]) == Names(lines) + NameIn(l)
  {
    hide NameIn;
    if lines == [] {
      assert [] + [l] == [l] && [l][1..] == [] && NameIn(l) + [] == NameIn(l);
    } else {
      assert (lines + [l])[1..] == lines[1..] + [l];
      NamesAppend(lines[1..], l);
    }
  }

  lemma GrepAppend(lines: seq<Line>, l: Line)
    ensures Times(lines + [l]) == Times(lines) + TimeIn(l) && Names(lines + [l]) == Names(lines) + NameIn(l)
  {
    TimesAppend(lines, l);
    NamesAppend(lines, l);
  }

  lemma AppendOther(now: nat, r: Record)
    requires RecordOk(now, r)
    ensures RecordOk(now, r.(lines := r.lines + [Other]))
    ensures Times(r.lines + [Other]) == Times(r.lines) && Names(r.lines + [Other]) == Names(r.lines)
  {
    hide Times, Names;
    GrepAppend(r.lines, Other);
  }

  lemma NothingInOther()
    ensures Times([Other]) == [] && Names([Other]) == [] && Times([]) == [] && Names([]) == []
  {
    assert [Other][1..] == [];
  }

  /** The log of a task does no harm to what a file says about takes, even when it empties the file. */
  lemma LogKeepsRecord(now: nat, r: Record, log: LogOp)
    requires RecordOk(now, r)
    ensures RecordOk(now, Logged(r, log)) && Logged(r, log).takes == r.takes
    ensures forall q :: StageOk(now, q, r) ==> StageOk(now, q, Logged(r, log))
  {
    hide Times, Names;
    AppendOther(now, r);
    NothingInOther();
  }

  lemma WriteTake(now: nat, v: nat, r: Record)
    requires RecordOk(now, r) && v <= now && Times(r.lines) == [] && Names(r.lines) == []
    ensures var r' := Record(r.lines + [LastTake(v)], r.takes + [Take(v, None)]);
            RecordOk(now, r') && Times(r'.lines) == [v] && Names(r'.lines) == []
  {
    hide Times, Names;
    GrepAppend(r.lines, LastTake(v));
  }

  lemma SpacedSnoc(takes: seq<Take>, v: nat)
    requires Spaced(takes) && LongAgo(v, takes)
    ensures Spaced(takes + [Take(v, None)])
  {
    var takes' := takes + [Take(v, None)];
    forall i, j | 0 <= i < j < |takes'| ensures takes'[i].time + 60 <= takes'[j].time {
      if j == |takes| && i < |takes| - 1 { assert takes[i].time + 60 <= takes[|takes| - 1].time; }
    }
  }

  lemma NameTake(now: nat, r: Record, name: string)
    requires RecordOk(now, r) && r.takes != [] && Names(r.lines) == []
    ensures var takes := Named(r.takes, name);
            && RecordOk(now, r.(takes := takes)) && takes != [] && takes[|takes| - 1].name == Some(name)
            && (Spaced(r.takes) ==> Spaced(takes))
            && takes[|takes| - 1].time == r.takes[|r.takes| - 1].time
  {
    hide Times, Names;
  }

  lemma WriteName(now: nat, r: Record, name: string)
    requires RecordOk(now, r) && r.takes != [] && Names(r.lines) == []
    requires r.takes[|r.takes| - 1].name == Some(name)
    ensures RecordOk(now, r.(lines := r.lines + [SnapName(name)]))
    ensures Times(r.lines + [SnapName(name)]) == Times(r.lines)
  {
    hide Times, Names;
    GrepAppend(r.lines, SnapName(name));
  }

  lemma EmptyRecord(now: nat, r: Record)
    requires RecordOk(now, r)
    ensures RecordOk(now, r.(lines := [])) && Times([]) == [] && Names([]) == []
  {
  }

  lemma TakeKeepsRecord(now: nat, q: Process, r: Record, c: Choice)
    requires RecordOk(now, r) && StageOk(now, q, r)
    requires q.InTake() && !q.place.stage.Return? && TakeStep(now, q, r, c).Some?
    ensures var (q', r') := TakeStep(now, q, r, c).value; RecordOk(now, r') && StageOk(now, q', r')
  {
    hide Times, Names, RecordOk, Named, LastSec, ReusedName;
    AppendOther(now, r);
    match q.place.stage {
      case Enter =>
      case Stamp =>
      case Truncate(v) => EmptyRecord(now, r);
      case Write(v) => WriteTake(now, v, r);
      case Snapping => if c.Took? { NameTake(now, r, c.name); }
      case Taken => WriteName(now, r, q.snapshot);
      case Finishing =>
    }
  }

  /** The heart of the spacing argument: what passes the test lies a minute after the last take. */
  lemma PassesTest(now: nat, start: nat, r: Record)
    requires RecordOk(now, r) && SpacingOk(now, r) && start <= now && start - LastSec(r.lines) >= 60
    ensures LongAgo(now, r.takes)
  {
    hide Times, Names;
  }

  /** Emptying the file forgets nothing that matters: a minute has passed since the last take. */
  lemma TruncateRecord(now: nat, v: nat, r: Record)
    requires SpacingOk(now, r) && v <= now && LongAgo(v, r.takes)
    ensures SpacingOk(now, r.(lines := []))
  {
    hide Times;
  }

  lemma TakeKeepsSpacing(now: nat, q: Process, r: Record, c: Choice)
    requires RecordOk(now, r) && StageOk(now, q, r) && SpacingOk(now, r) && SpacingStage(now, q, r) && q.start <= now
    requires q.InTake() && !q.place.stage.Return? && TakeStep(now, q, r, c).Some?
    ensures var (q', r') := TakeStep(now, q, r, c).value; SpacingOk(now, r') && SpacingStage(now, q', r')
  {
    hide Times, Names, RecordOk, Named, Spaced, LastSec, ReusedName;
    AppendOther(now, r);
    match q.place.stage {
      case Enter => if q.start - LastSec(r.lines) >= 60 { PassesTest(now, q.start, r); }
      case Stamp =>
      case Truncate(v) => TruncateRecord(now, v, r);
      case Write(v) =>
        WriteTake(now, v, r);
        SpacedSnoc(r.takes, v);
      case Snapping => if c.Took? { NameTake(now, r, c.name); }
      case Taken => WriteName(now, r, q.snapshot);
      case Finishing =>
    }
  }

  lemma ActKeepsRecord(now: nat, q: Process, free: set<File>, r: Record, touched: nat, c: Choice)
    requires RecordOk(now, r) && StageOk(now, q, r) && q.start <= now
    requires Act(now, q, free, r, touched, c).Some?
    ensures var n := Act(now, q, free, r, touched, c).value;
            && RecordOk(now, n.record) && StageOk(now, n.process, n.record)
            && (SpacingOk(now, r) && SpacingStage(now, q, r) ==>
                  SpacingOk(now, n.record) && SpacingStage(now, n.process, n.record))
  {
    hide RecordOk, SpacingOk, LockFile;
    if q.InTake() && !q.place.stage.Return? && TakeStep(now, q, r, c).Some? {
      TakeKeepsRecord(now, q, r, c);
      if SpacingOk(now, r) && SpacingStage(now, q, r) { TakeKeepsSpacing(now, q, r, c); }
      hide TakeStep, StageOk, SpacingStage;
    }
  }

  lemma TimePasses(now: nat, later: nat, q: Process, r: Record)
    requires now <= later && RecordOk(now, r)
    ensures RecordOk(later, r)
    ensures SpacingOk(now, r) ==> SpacingOk(later, r)
    ensures StageOk(now, q, r) ==> StageOk(later, q, r)
    ensures SpacingStage(now, q, r) ==> SpacingStage(later, q, r)
  {
  }

  // ----- Counting

  /** How often try_take and try_pre_send have been called by the time a process is at its place. */
  ghost predicate CountOk(q: Process) {
    var once := if Replicates(q.kind) then 1 else 0;
    match q.place
    case TryTarget => q.taken == 0 && q.sent == 0 && Replicates(q.kind)
    case PreSendFirst => q.taken == 0 && q.sent == 0 && Replicates(q.kind)
    case WaitTarget => q.taken == 0 && q.sent == once
    case Taking(first, stage) =>
      && q.taken == (if stage.Enter? then 0 else 1)
      && q.sent == (if first then 0 else once) && (first ==> Replicates(q.kind))
    case PreSendLast => q.taken == 1 && q.sent == 0 && Replicates(q.kind)
    case Send => q.taken == 1 && q.sent == 1 && Replicates(q.kind)
    case AddPending => q.taken == 1 && q.sent == 0 && !Replicates(q.kind)
    case Completed => q.taken == 1 && q.sent == once
    case Exited(_) => true
    case Crashed => true
    case _ => q.taken == 0 && q.sent == 0
  }

  lemma TakeCounts(now: nat, q: Process, r: Record, c: Choice)
    requires CountOk(q) && q.InTake() && !q.place.stage.Return? && TakeStep(now, q, r, c).Some?
    ensures CountOk(TakeStep(now, q, r, c).value.0)
  {
  }

  lemma ActCounts(now: nat, q: Process, free: set<File>, r: Record, touched: nat, c: Choice)
    requires CountOk(q) && Act(now, q, free, r, touched, c).Some?
    ensures CountOk(Act(now, q, free, r, touched, c).value.process)
  {
    hide LockFile;
    hide TakeStep;
    if q.InTake() && !q.place.stage.Return? && TakeStep(now, q, r, c).Some? { TakeCounts(now, q, r, c); }
  }

  // ----- The invariant

  ghost predicate ProcOk(s: State, p: nat)
    requires p < |s.procs|
  {
    var q := s.procs[p];
    && q.start <= s.now && CountOk(q) && Started(q) && PlaceOk(q)
    && StageOk(s.now, q, s.RecordOf(q.Mine()))
    && (!TaskNamed(q.Mine()) ==> SpacingStage(s.now, q, s.RecordOf(q.Mine())))
  }

  ghost predicate FileOk(s: State, f: File) {
    RecordOk(s.now, s.RecordOf(f)) && (!TaskNamed(f) ==> SpacingOk(s.now, s.RecordOf(f)))
  }

  ghost predicate Inv(s: State) {
    && LocksOk(s)
    && (forall f :: FileOk(s, f))
    && (forall p: nat :: p < |s.procs| ==> ProcOk(s, p))
  }

  /** At most one process per locked file. */
  lemma OneHolder(s: State, p: nat, r: nat, f: File)
    requires LocksOk(s) && Holds(s, p, f) && Holds(s, r, f)
    ensures p == r
  {
  }

  /** What files contain after a step. */
  lemma AfterRecords(s: State, p: nat, q: Process, n: Next, f: File)
    requires p < |s.procs|
    ensures var r := if f == q.Mine() then n.record else s.RecordOf(f);
            After(s, p, q, n).RecordOf(f) == if f == q.Task() then Logged(r, n.log) else r
  {
    hide LockFile, Logged, Retouch, Relock;
  }

  lemma MoveKeepsFile(s: State, p: nat, n: Next, f: File)
    requires p < |s.procs| && Started(s.procs[p]) && FileOk(s, f)
    requires RecordOk(s.now, n.record)
    requires !TaskNamed(s.procs[p].Mine()) ==> SpacingOk(s.now, n.record)
    ensures FileOk(After(s, p, s.procs[p], n), f)
  {
    hide RecordOk, SpacingOk, TaskNamed, Logged, State.RecordOf;
    var q := s.procs[p];
    TaskFileIsTaskNamed(q);
    AfterRecords(s, p, q, n, f);
    LogKeepsRecord(s.now, if f == q.Mine() then n.record else s.RecordOf(f), n.log);
  }

  /** Another process keeps its view of its record: only the holder of a lock changes what it says about takes. */
  lemma OthersUntouched(s: State, p: nat, r: nat, n: Next)
    requires LocksOk(s) && p < |s.procs| && r < |s.procs| && p != r && ProcOk(s, r)
    requires RecordOk(s.now, n.record) && forall f :: FileOk(s, f)
    requires n.record != s.RecordOf(s.procs[p].Mine()) ==> s.procs[p].InTake()
    requires Started(s.procs[p])
    ensures ProcOk(After(s, p, s.procs[p], n), r)
  {
    hide RecordOk, TaskNamed, Logged, State.RecordOf, CountOk, SpacingStage, StageOk, Retouch, Relock, LocksOk;
    var q, o := s.procs[p], s.procs[r];
    var s' := After(s, p, q, n);
    AfterRecords(s, p, q, n, o.Mine());
    TaskFileIsTaskNamed(q);
    var before := s.RecordOf(o.Mine());
    assert FileOk(s, o.Mine());
    LogKeepsRecord(s.now, before, n.log);
    if o.Mine() == q.Mine() && o.InTake() && q.InTake() {
      assert Holds(s, p, q.Mine()) && Holds(s, r, q.Mine());
      OneHolder(s, p, r, q.Mine());
    }
    if !o.InTake() { NotInTake(s.now, o, s'.RecordOf(o.Mine())); }
  }

  lemma NotInTake(now: nat, q: Process, r: Record)
    requires !q.InTake()
    ensures StageOk(now, q, r) && SpacingStage(now, q, r)
  {
  }

  lemma MoverKept(s: State, p: nat, n: Next)
    requires p < |s.procs| && Started(s.procs[p]) && SameRun(s.procs[p], n.process) && s.procs[p].start <= s.now
    requires CountOk(n.process) && PlaceOk(n.process)
    requires RecordOk(s.now, n.record) && StageOk(s.now, n.process, n.record)
    requires !TaskNamed(s.procs[p].Mine()) ==> SpacingStage(s.now, n.process, n.record)
    ensures ProcOk(After(s, p, s.procs[p], n), p)
  {
    hide RecordOk, TaskNamed, Logged, State.RecordOf, CountOk, SpacingStage, StageOk, Retouch, Relock, PlaceOk;
    var q := s.procs[p];
    AfterRecords(s, p, q, n, q.Mine());
    TaskFileIsTaskNamed(q);
    LogKeepsRecord(s.now, n.record, n.log);
    assert n.process.Mine() == q.Mine();
  }

  lemma MoveKeeps(s: State, p: nat, c: Choice)
    requires Inv(s) && Apply(s, Move(p, c)).Some?
    ensures Inv(Apply(s, Move(p, c)).value)
  {
    hide RecordOk, StageOk, CountOk, Act, Process.Held, Relock, LocksOk, OpOk, SpacingOk, SpacingStage, TaskNamed,
      State.RecordOf, Retouch, Logged, State.Free, LockFile;
    var q := s.procs[p];
    var free, record, touched := s.Free(q), s.RecordOf(q.Mine()), s.TouchedAt(q.Time());
    var n := Act(s.now, q, free, record, touched, c).value;
    var s' := Apply(s, Move(p, c)).value;
    assert ProcOk(s, p) && FileOk(s, q.Mine());
    HeldIsNotFree(s, p);
    ActLocks(s.now, q, free, record, touched, c);
    FreeIsUnlocked(s, q);
    RelockOk(s, p, n.process, free, n.op, s');
    ActKeepsRecord(s.now, q, free, record, touched, c);
    ActCounts(s.now, q, free, record, touched, c);
    MoverKept(s, p, n);
    forall r: nat | r < |s'.procs| ensures ProcOk(s', r) {
      if r != p {
        assert ProcOk(s, r);
        OthersUntouched(s, p, r, n);
      }
    }
    forall f ensures FileOk(s', f) { MoveKeepsFile(s, p, n, f); }
  }

  lemma FreeIsUnlocked(s: State, q: Process)
    ensures forall f <- s.Free(q) :: f !in s.locks
  {
  }

  lemma KillKeeps(s: State, p: nat)
    requires Inv(s) && Apply(s, Kill(p)).Some?
    ensures Inv(Apply(s, Kill(p)).value)
  {
    hide RecordOk, SpacingOk, TaskNamed, LocksOk, Relock, LockFile;
    var s' := Apply(s, Kill(p)).value;
    RelockOk(s, p, s'.procs[p], {}, ReleaseAll, s');
    SameFiles(s, s');
    forall r: nat | r < |s'.procs| ensures ProcOk(s', r) { assert ProcOk(s, r); }
  }

  lemma SameFiles(s: State, s': State)
    requires s'.records == s.records && s'.now == s.now && forall f :: FileOk(s, f)
    ensures forall f :: FileOk(s', f)
  {
    forall f ensures FileOk(s', f) { assert FileOk(s, f) && s'.RecordOf(f) == s.RecordOf(f); }
  }

  lemma SpawnKeeps(s: State, kind: Kind, target: Target, plan: string)
    requires Inv(s) && Apply(s, Spawn(kind, target, plan)).Some?
    ensures Inv(Apply(s, Spawn(kind, target, plan)).value)
  {
    hide RecordOk, SpacingOk, TaskNamed, LockFile;
    var s' := Apply(s, Spawn(kind, target, plan)).value;
    SameFiles(s, s');
    forall r: nat, f: File | Holds(s', r, f) ensures f in s'.locks && s'.locks[f] == r {
      assert Holds(s, r, f);
    }
    forall f <- s'.locks ensures Holds(s', s'.locks[f], f) { assert Holds(s, s.locks[f], f); }
    forall r: nat | r < |s'.procs| ensures ProcOk(s', r) { if r < |s.procs| { assert ProcOk(s, r); } }
  }

  lemma TickKeeps(s: State, seconds: nat)
    requires Inv(s)
    ensures Inv(Apply(s, Tick(seconds)).value)
  {
    hide RecordOk, StageOk, SpacingOk, SpacingStage, TaskNamed, LockFile;
    var s' := Apply(s, Tick(seconds)).value;
    assert LocksOk(s') by {
      forall p: nat, f: File | Holds(s', p, f) ensures f in s'.locks && s'.locks[f] == p { assert Holds(s, p, f); }
      forall f <- s'.locks ensures Holds(s', s'.locks[f], f) { assert Holds(s, s.locks[f], f); }
    }
    forall f ensures FileOk(s', f) {
      assert FileOk(s, f);
      TimePasses(s.now, s'.now, Process(Local, Target("", ""), "", 0, Opening, "", 0, 0), s.RecordOf(f));
    }
    forall p: nat | p < |s'.procs| ensures ProcOk(s', p) {
      assert ProcOk(s, p) && FileOk(s, s.procs[p].Mine());
      TimePasses(s.now, s'.now, s.procs[p], s.RecordOf(s.procs[p].Mine()));
    }
  }

  lemma InitialOk()
    ensures Inv(INITIAL)
  {
  }

  /** Every reachable state, for any number of processes in any order, with processes killed anywhere. */
  lemma {:induction false} Reachable(events: seq<Event>)
    requires Run(events).Some?
    ensures Inv(Run(events).value)
  {
    hide Inv, Apply;
    if events == [] {
      InitialOk();
    } else {
      var s := Run(events[..|events| - 1]).value;
      Reachable(events[..|events| - 1]);
      match events[|events| - 1] {
        case Tick(seconds) => TickKeeps(s, seconds);
        case Spawn(kind, target, plan) => SpawnKeeps(s, kind, target, plan);
        case Move(p, c) => MoveKeeps(s, p, c);
        case Kill(p) => KillKeeps(s, p);
      }
    }
  }

  // ----- Main results

  /** At most one process per target is inside try_take, and two runs with one task lock never execute the body
      together, whatever the targets are called. */
  lemma MutualExclusion(events: seq<Event>, p: nat, r: nat)
    requires Run(events).Some? && p < |Run(events).value.procs| && r < |Run(events).value.procs|
    ensures var s := Run(events).value;
            && (s.procs[p].InTake() && s.procs[r].InTake() && s.procs[p].target == s.procs[r].target ==> p == r)
            && (s.procs[p].InBody() && s.procs[r].InBody() && s.procs[p].Task() == s.procs[r].Task() ==> p == r)
  {
    hide Run, LockFile;
    Reachable(events);
    var s := Run(events).value;
    var q, o := s.procs[p], s.procs[r];
    if q.InTake() && o.InTake() && q.target == o.target {
      assert Holds(s, p, q.Mine()) && Holds(s, r, q.Mine());
    }
    if q.InBody() && o.InBody() && q.Task() == o.Task() {
      assert Holds(s, p, q.Task()) && Holds(s, r, q.Task());
    }
  }

  /** Over every run, the takes recorded for a target that is not named like a task file are pairwise at least a
      minute apart. */
  lemma TakesSpaced(events: seq<Event>, f: File)
    requires Run(events).Some? && !TaskNamed(f)
    ensures Spaced(Run(events).value.RecordOf(f).takes)
  {
    hide Run;
    Reachable(events);
    assert FileOk(Run(events).value, f);
  }

  /** So a stretch of time holds at most one take a minute. */
  lemma {:induction false} TakesPerMinute(takes: seq<Take>, i: nat, j: nat)
    requires Spaced(takes) && i <= j < |takes|
    ensures (j - i) * 60 <= takes[j].time - takes[i].time
    decreases j
  {
    if i < j {
      TakesPerMinute(takes, i, j - 1);
      assert takes[j - 1].time + 60 <= takes[j].time;
    }
  }

  /** No event removes a take from the history or changes its time; at most one take is added. */
  lemma HistoryGrows(s: State, e: Event, f: File)
    requires Apply(s, e).Some?
    ensures var a, b := s.RecordOf(f).takes, Apply(s, e).value.RecordOf(f).takes;
            && |a| <= |b| <= |a| + 1
            && forall i :: 0 <= i < |a| ==> b[i].time == a[i].time
  {
    hide LockFile, Act, Relock, Retouch;
    var s' := Apply(s, e).value;
    if e.Move? {
      var q := s.procs[e.p];
      StepKeepsHistory(s.now, q, s.Free(q), s.RecordOf(q.Mine()), s.TouchedAt(q.Time()), e.choice);
      AfterRecords(s, e.p, q, Act(s.now, q, s.Free(q), s.RecordOf(q.Mine()), s.TouchedAt(q.Time()), e.choice).value, f);
    } else {
      assert s'.RecordOf(f) == s.RecordOf(f);
    }
  }

  lemma StepKeepsHistory(now: nat, q: Process, free: set<File>, r: Record, touched: nat, c: Choice)
    requires Act(now, q, free, r, touched, c).Some?
    ensures var b := Act(now, q, free, r, touched, c).value.record.takes;
            && |r.takes| <= |b| <= |r.takes| + 1
            && forall i :: 0 <= i < |r.takes| ==> b[i].time == r.takes[i].time
  {
    hide LockFile;
  }

  /** A process that does not take a snapshot itself gets no name, or the name of the snapshot made by the last
      recorded take, less than a minute before the process started, whatever the targets are called. */
  lemma ReuseIsLastTake(events: seq<Event>, p: nat)
    requires Run(events).Some? && p < |Run(events).value.procs| && Run(events).value.procs[p].InTake()
    requires Run(events).value.procs[p].place.stage == Enter
    requires var s := Run(events).value; var q := s.procs[p];
             q.start - LastSec(s.RecordOf(q.Mine()).lines) < 60
    ensures var s := Run(events).value;
            var q, takes := s.procs[p], s.RecordOf(s.procs[p].Mine()).takes;
            && Apply(s, Move(p, Go)).Some?
            && var name := Apply(s, Move(p, Go)).value.procs[p].snapshot;
               name == "" ||
               (takes != [] && takes[|takes| - 1].name == Some(name) && q.start < takes[|takes| - 1].time + 60)
  {
    hide Run, LockFile, Relock, Retouch;
    Reachable(events);
    var s := Run(events).value;
    var q := s.procs[p];
    assert FileOk(s, q.Mine());
  }

  /** Every run of the script that completes has called try_take exactly once; a replication run has also called
      try_pre_send exactly once. */
  lemma CompletedRuns(events: seq<Event>, p: nat)
    requires Run(events).Some? && p < |Run(events).value.procs| && Run(events).value.procs[p].place.Completed?
    ensures var q := Run(events).value.procs[p];
            q.taken == 1 && q.sent == if Replicates(q.kind) then 1 else 0
  {
    hide Run;
    Reachable(events);
    assert ProcOk(Run(events).value, p);
  }

  /** A run gives up early only because of another one: with code 2 if another process has locked the target's file and
      its time lock was touched more than a minute before the start, with code 3 if another process has locked its task
      file, which is the task file or the target file of that process. */
  lemma EarlyExits(events: seq<Event>, p: nat)
    requires Run(events).Some? && p < |Run(events).value.procs| && Apply(Run(events).value, Move(p, Go)).Some?
    ensures var s := Run(events).value;
            var q, place := s.procs[p], Apply(s, Move(p, Go)).value.procs[p].place;
            && (place == Exited(2) ==>
                  s.TouchedAt(q.Time()) + 60 < q.start && exists r: nat :: r != p && Holds(s, r, q.Mine()))
            && (place == Exited(3) ==>
                  exists r: nat :: r != p && Holds(s, r, q.Task())
                    && ((s.procs[r].InBody() && s.procs[r].Task() == q.Task()) || s.procs[r].Mine() == q.Task()))
  {
    hide Run, LockFile, Relock, Retouch;
    Reachable(events);
    var s := Run(events).value;
    var q, place := s.procs[p], Apply(s, Move(p, Go)).value.procs[p].place;
    GivesUp(s.now, q, s.Free(q), s.RecordOf(q.Mine()), s.TouchedAt(q.Time()));
    TimeIsNotMine(q);
    hide Act;
    if place == Exited(2) {
      assert Holds(s, s.locks[q.Mine()], q.Mine()) && !Holds(s, p, q.Mine());
    } else if place == Exited(3) {
      assert Holds(s, s.locks[q.Task()], q.Task()) && !Holds(s, p, q.Task());
      TimeIsNotTaskOf(s.procs[s.locks[q.Task()]], q);
    }
  }

  lemma TimeIsNotTaskOf(o: Process, q: Process)
    ensures o.Time() != q.Task()
  {
    TimeFileIsNoTaskFile(o.target.id, q.kind, if q.plan != "" then q.plan else q.target.id);
  }

  lemma GivesUp(now: nat, q: Process, free: set<File>, r: Record, touched: nat)
    requires Act(now, q, free, r, touched, Go).Some?
    ensures var place := Act(now, q, free, r, touched, Go).value.process.place;
            && (place == Exited(2) ==> q.place.InTime? && q.Mine() !in free && q.start - touched > 60)
            && (place == Exited(3) ==> q.place.TryTask? && q.Task() !in free)
  {
    hide LockFile;
  }
}
