/** Scheduled snapshot tasks: any number of shell processes, advisory locks on files, one record file a target. */
module SnapshotTasks {
  import opened Common

  datatype Kind = Local | Replication | Systemdr | SystemdrLocal

  predicate Replicates(k: Kind) {
    k == Replication || k == Systemdr
  }

  datatype Target = Target(dir: string, id: string)

  /** The locks of the script, by their purpose. */
  datatype Lock =
    | TimeLock(target: Target)
    | TargetLock(target: Target)
    | TaskLock(dir: string, kind: Kind, name: string)

  /** A file below the lock directory. What is locked is the file, so two locks may be one. */
  datatype File = File(dir: string, name: string)

  /** The schedule name in the file name of a task lock. */
  function ScheduleName(k: Kind): string {
    match k
    case Local => "local"
    case Replication => "replication"
    case Systemdr => "systemdr"
    case SystemdrLocal => "systemdr_local_task"
  }

  function TaskFileName(k: Kind, name: string): string {
    ScheduleName(k) + "." + name + ".task"
  }

  function LockFile(l: Lock): File {
    match l
    case TimeLock(t) => File(t.dir, t.id + ".time")
    case TargetLock(t) => File(t.dir, t.id)
    case TaskLock(dir, kind, name) => File(dir, TaskFileName(kind, name))
  }

  /** A line of the record file: the two that are looked for, and any other. */
  datatype Line = LastTake(time: nat) | SnapName(name: string) | Other

  /** A take: when it was recorded, and the snapshot it made, if it did. */
  datatype Take = Take(time: nat, name: Option<string>)

  /** The content of a file, and the history of the takes it has ever recorded. */
  datatype Record = Record(lines: seq<Line>, takes: seq<Take>)

  const NO_RECORD := Record([], [])

  /** Where a process is in try_take. */
  datatype Stage = Enter | Stamp | Truncate(time: nat) | Write(time: nat) | Snapping | Taken | Finishing | Return

  datatype Place =
    | Opening | WaitTime | InTime | InTimeTarget | Touched | LeaveTime
    | InitTask | TryTask | HaveTask
    | TryTarget | PreSendFirst | WaitTarget
    | Taking(first: bool, stage: Stage)
    | PreSendLast | Send | AddPending
    | Completed | Exited(code: nat) | Crashed

  /** A run of the script. `taken` and `sent` count its calls of try_take and try_pre_send. */
  datatype Process = Process(kind: Kind, target: Target, plan: string, start: nat, place: Place,
                             snapshot: string, taken: nat, sent: nat)
  {
    function Time(): File { LockFile(TimeLock(target)) }

    /** The record file of the target, which is also its lock. */
    function Mine(): File { LockFile(TargetLock(target)) }

    function Task(): File { LockFile(TaskLock(target.dir, kind, if plan != "" then plan else target.id)) }

    function To(p: Place): Process { this.(place := p) }

    function At(s: Stage): Process
      requires place.Taking?
    {
      To(Taking(place.first, s))
    }

    predicate InTake() { place.Taking? }

    predicate InBody() {
      match place
      case HaveTask | TryTarget | PreSendFirst | WaitTarget | Taking(_, _) | PreSendLast | Send | AddPending => true
      case _ => false
    }

    predicate Ended() { place.Completed? || place.Exited? || place.Crashed? }

    predicate Waiting() { place.WaitTime? || place.WaitTarget? }

    /** The files a process has locked at this place. */
    function Held(): set<File> {
      (if place.InTime? || place.InTimeTarget? || place.Touched? || place.LeaveTime? then {Time()} else {})
      + (if place.InTimeTarget? || place.Touched? || InTake() then {Mine()} else {})
      + (if InBody() then {Task()} else {})
    }
  }

  /** What the world answers: external tools may fail, end the script or return a name. */
  datatype Choice = Go | Refuse(code: nat) | Recovery | Note | Failed(output: string) | Took(name: string)

  datatype LockOp = Keep | Acquire(file: File) | Release(file: File) | ReleaseAll

  /** What a step writes to the task file: nothing, its first line in place of all others, or another line. */
  datatype LogOp = Quiet | Init | Append

  datatype Next = Next(process: Process, op: LockOp, record: Record, log: LogOp)

  // ----- The record file

  function TimeIn(l: Line): seq<nat> {
    if l.LastTake? then [l.time] else []
  }

  function NameIn(l: Line): seq<string> {
    if l.SnapName? then [l.name] else []
  }

  /** `grep last_take`. */
  function Times(lines: seq<Line>): seq<nat> {
    if lines == [] then [] else TimeIn(lines[0]) + Times(lines[1..])
  }

  /** `grep snap_name`. */
  function Names(lines: seq<Line>): seq<string> {
    if lines == [] then [] else NameIn(lines[0]) + Names(lines[1..])
  }

  function LastSec(lines: seq<Line>): nat {
    var times := Times(lines);
    if times == [] then 0 else times[0]
  }

  function ReusedName(lines: seq<Line>): string {
    var names := Names(lines);
    if names == [] then "" else names[0]
  }

  // ----- Steps of one process

  /** try_take, one access to shared state at a time; the target lock is held throughout. */
  function TakeStep(now: nat, q: Process, record: Record, c: Choice): Option<(Process, Record)>
    requires q.InTake() && !q.place.stage.Return?
  {
    match q.place.stage
    case Enter =>
      var q := q.(taken := q.taken + 1);
      if c == Recovery then Some((q.At(Return), record))
      else if c != Go then None
      else if q.start - LastSec(record.lines) < 60 then
        Some((q.(snapshot := ReusedName(record.lines)).At(Return), record))
      else Some((q.At(Stamp), record))
    case Stamp => if c == Go then Some((q.At(Truncate(now)), record)) else None
    case Truncate(v) => if c == Go then Some((q.At(Write(v)), record.(lines := []))) else None
    case Write(v) =>
      if c == Go then
        Some((q.At(Snapping), Record(record.lines + [LastTake(v)], record.takes + [Take(v, None)])))
      else None
    case Snapping =>
      (match c
       case Note => Some((q, record.(lines := record.lines + [Other])))
       case Failed(output) => Some((q.(snapshot := output).At(Return), record.(lines := record.lines + [Other])))
       case Took(name) => Some((q.(snapshot := name).At(Taken), record.(takes := Named(record.takes, name))))
       case _ => None)
    case Taken =>
      if c == Note then Some((q, record.(lines := record.lines + [Other])))
      else if c == Go then Some((q.At(Finishing), record.(lines := record.lines + [SnapName(q.snapshot)])))
      else None
    case Finishing => if c == Go then Some((q.At(Return), record.(lines := record.lines + [Other]))) else None
  }

  /** The last take of the history gets the name of the snapshot it made. */
  function Named(takes: seq<Take>, name: string): seq<Take> {
    if takes == [] then [] else takes[|takes| - 1 := takes[|takes| - 1].(name := Some(name))]
  }

  /** The place behind try_take: local_task, and the two blocks of replication_task. */
  function AfterTake(q: Process): Place
    requires q.InTake()
  {
    if q.kind == Local then Completed
    else if q.kind == SystemdrLocal then AddPending
    else if q.place.first then PreSendLast
    else Send
  }

  /** One step of a process; None while it is blocked or has ended. `free` tells which of its files
      nobody has locked. */
  function Act(now: nat, q: Process, free: set<File>, record: Record, touched: nat, c: Choice): Option<Next> {
    if q.InTake() && !q.place.stage.Return? then
      if c.Refuse? && (q.place.stage.Snapping? || q.place.stage.Taken?) then
        Some(Next(q.To(Exited(c.code)), ReleaseAll, record, Quiet))
      else
        match TakeStep(now, q, record, c)
        case None => None
        case Some(r) => Some(Next(r.0, Keep, r.1, Quiet))
    else if c.Refuse? && (q.place.HaveTask? || q.place.Send? || q.place.AddPending?) then
      Some(Next(q.To(Exited(c.code)), ReleaseAll, record, Append))
    else if c != Go then None
    else
      match q.place
      case Opening => Some(Next(q.To(WaitTime), Keep, record, Quiet))
      case WaitTime => if q.Time() in free then Some(Next(q.To(InTime), Acquire(q.Time()), record, Quiet)) else None
      case InTime =>
        if q.Mine() in free then Some(Next(q.To(InTimeTarget), Acquire(q.Mine()), record, Quiet))
        else if q.start - touched > 60 then Some(Next(q.To(Exited(2)), ReleaseAll, record, Quiet))
        else Some(Next(q.To(LeaveTime), Keep, record, Quiet))
      case InTimeTarget => Some(Next(q.To(Touched), Keep, record, Quiet))
      case Touched => Some(Next(q.To(LeaveTime), Release(q.Mine()), record, Quiet))
      case LeaveTime => Some(Next(q.To(InitTask), Release(q.Time()), record, Quiet))
      case InitTask => Some(Next(q.To(TryTask), Keep, record, Init))
      case TryTask =>
        if q.Task() in free then Some(Next(q.To(HaveTask), Acquire(q.Task()), record, Quiet))
        else Some(Next(q.To(Exited(3)), ReleaseAll, record, Quiet))
      case HaveTask => Some(Next(q.To(if Replicates(q.kind) then TryTarget else WaitTarget), Keep, record, Append))
      case TryTarget =>
        if q.Mine() in free then Some(Next(q.To(Taking(true, Enter)), Acquire(q.Mine()), record, Quiet))
        else Some(Next(q.To(PreSendFirst), Keep, record, Quiet))
      case PreSendFirst => Some(Next(q.(sent := q.sent + 1).To(WaitTarget), Keep, record, Append))
      case WaitTarget =>
        if q.Mine() in free then Some(Next(q.To(Taking(false, Enter)), Acquire(q.Mine()), record, Quiet)) else None
      case Taking(first, _) =>
        if AfterTake(q) == Completed then Some(Next(q.To(Completed), ReleaseAll, record, Quiet))
        else Some(Next(q.To(AfterTake(q)), Release(q.Mine()), record, Quiet))
      case PreSendLast => Some(Next(q.(sent := q.sent + 1).To(Send), Keep, record, Append))
      case Send => Some(Next(q.To(Completed), ReleaseAll, record, Append))
      case AddPending => Some(Next(q.To(Completed), ReleaseAll, record, Append))
      case Completed => None
      case Exited(_) => None
      case Crashed => None
  }

  /** The file whose modification time a step sets; false if it only creates the file where it is missing. */
  function TouchOf(q: Process, n: Next, changed: bool): Option<(File, bool)> {
    if n.log != Quiet then Some((q.Task(), true))
    else
      match q.place
      case Opening => Some((q.Time(), false))
      case InTime => Some((q.Mine(), false))
      case InTimeTarget => Some((q.Time(), true))
      case Taking(_, stage) =>
        if stage.Enter? then Some((q.Task(), true))
        else if stage.Truncate? || changed then Some((q.Mine(), true))
        else None
      case _ => None
  }

  // ----- The whole system

  datatype State = State(now: nat, procs: seq<Process>, locks: map<File, nat>,
                         records: map<File, Record>, touched: map<File, nat>)
  {
    function RecordOf(f: File): Record { if f in records then records[f] else NO_RECORD }

    /** 0 for a file that does not exist. */
    function TouchedAt(f: File): nat { if f in touched then touched[f] else 0 }

    function Free(q: Process): set<File> {
      (if q.Time() in locks then {} else {q.Time()})
      + (if q.Mine() in locks then {} else {q.Mine()})
      + (if q.Task() in locks then {} else {q.Task()})
    }
  }

  /** Time passes, a script starts, a process takes a step, or a process is killed. */
  datatype Event =
    | Tick(seconds: nat)
    | Spawn(kind: Kind, target: Target, plan: string)
    | Move(p: nat, choice: Choice)
    | Kill(p: nat)

  function Relock(locks: map<File, nat>, p: nat, op: LockOp): map<File, nat> {
    match op
    case Keep => locks
    case Acquire(f) => locks[f := p]
    case Release(f) => locks - {f}
    case ReleaseAll => map f | f in locks && locks[f] != p :: locks[f]
  }

  function Put(records: map<File, Record>, f: File, r: Record): map<File, Record> {
    if r == (if f in records then records[f] else NO_RECORD) then records else records[f := r]
  }

  /** What the log of a task does to a file that may also be the record of a target. */
  function Logged(r: Record, log: LogOp): Record {
    match log
    case Quiet => r
    case Init => r.(lines := [Other])
    case Append => r.(lines := r.lines + [Other])
  }

  function Retouch(touched: map<File, nat>, touch: Option<(File, bool)>, now: nat): map<File, nat> {
    match touch
    case None => touched
    case Some((f, force)) => if force || f !in touched then touched[f := now] else touched
  }

  /** The state after process `p`, which was `q`, has taken step `n`. */
  function After(s: State, p: nat, q: Process, n: Next): State
    requires p < |s.procs|
  {
    var records := Put(s.records, q.Mine(), n.record);
    var logged := Logged(if q.Task() in records then records[q.Task()] else NO_RECORD, n.log);
    State(s.now, s.procs[p := n.process], Relock(s.locks, p, n.op), Put(records, q.Task(), logged),
          Retouch(s.touched, TouchOf(q, n, n.record != s.RecordOf(q.Mine())), s.now))
  }

  function Apply(s: State, e: Event): Option<State> {
    match e
    case Tick(seconds) => Some(s.(now := s.now + seconds))
    case Spawn(kind, target, plan) =>
      if target.dir == "" || target.id == "" || (kind == Local && plan != "") then None
      else Some(s.(procs := s.procs + [Process(kind, target, plan, s.now, Opening, "", 0, 0)]))
    case Move(p, c) =>
      if p >= |s.procs| then None
      else
        var q := s.procs[p];
        (match Act(s.now, q, s.Free(q), s.RecordOf(q.Mine()), s.TouchedAt(q.Time()), c)
         case None => None
         case Some(n) => Some(After(s, p, q, n)))
    case Kill(p) =>
      if p >= |s.procs| || s.procs[p].Ended() then None
      else
        Some(s.(procs := s.procs[p := s.procs[p].To(Crashed)], locks := Relock(s.locks, p, ReleaseAll)))
  }

  const INITIAL := State(0, [], map[], map[], map[])

  /** The state after a sequence of events, if each was possible. */
  function Run(events: seq<Event>): Option<State> {
    if events == [] then Some(INITIAL)
    else
      match Run(events[..|events| - 1])
      case None => None
      case Some(s) => Apply(s, events[|events| - 1])
  }
}
