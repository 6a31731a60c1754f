/**
  Runs on top of the queue (internal/pipeline/schedule.go, with enqueueReads in read.go and
  enqueueLookUps in portfolio.go).

  Callers of RunNow, the nightly command, StopRun, the restart clean-up and the workers all
  interleave statement by statement. The queue inside is QueueProtocol, step for step. A call
  is one piece of code that may queue jobs for a run: EnqueueDue, or the enqueueReads and
  enqueueLookUps of a handler. It may queue while its phase is `Passed`; looking at `ended`
  and queueing are separate steps.
*/
module RunProtocol {
  import opened Prelude
  import opened JobTable
  import opened RunKeys
  import Q = QueueProtocol

  datatype RunKind = Nightly | Manual | SingleCheck

  datatype Ended = Unended | GotThrough | Stopped | Restarted

  /** `ends` is a history of every value that was ever written to the column `ended`. */
  datatype Run = Run(kind: RunKind, finishedAt: Option<Time>, ended: Ended, ends: seq<Ended>)

  datatype Phase = Unchecked | Passed

  /** `owner` is the job whose handler makes the call, or None for EnqueueDue and CheckNow. */
  datatype Call = Call(run: nat, owner: Option<Handle>, phase: Phase)

  /** The advisory lock of RunNow and how far its holder got. */
  datatype Lock = Unlocked | Locked | Cleared | Queueing(call: nat)

  datatype State = State(
    q: Q.State,
    runs: map<nat, Run>,
    nextRun: nat,
    lock: Lock,
    calls: map<nat, Call>,
    active: set<Handle>,
    interrupted: set<nat>)

  const RUN_ATTEMPTS: nat := 1

  predicate RunJobKind(kind: string) {
    kind == "check_source" || kind == "read_event" || kind == "look_up_startup"
  }

  /** The job belongs to run r. RunTheorems.PatternsPickJobsOfRun ties this to the LIKE patterns of the SQL. */
  predicate OfRun(k: Slot, r: nat) {
    RunOf(k.key) == Some(r)
  }

  /** A queued or running check, read or lookup of run r. */
  ghost predicate HasJob(s: State, r: nat) {
    exists k :: k in s.q.table && RunJobKind(k.kind) && Outstanding(s.q.table[k]) && OfRun(k, r)
  }

  ghost predicate HasCall(s: State, r: nat) {
    exists id :: id in s.calls && s.calls[id].run == r
  }

  /** An unfinished nightly or manual run. */
  predicate Open(s: State, r: nat) {
    r in s.runs && s.runs[r].kind != SingleCheck && s.runs[r].finishedAt.None?
  }

  datatype Action =
    | Queue(a: Q.Action)                       // clock, sweep and prune steps of the queue
    | Claim(w: nat, choice: Option<Slot>)      // statement two of Claim, starting a handler
    | Report(h: Handle, ok: bool, msg: string) // a handler returned
    | QueueOther(slot: Slot, payload: string, runAfter: Option<Time>, max: nat) // seeds and pruning
    | OpenCall(id: nat, h: Handle, r: nat)     // a handler enters enqueueReads or enqueueLookUps
    | LookAtEnded(id: nat)
    | QueueJob(id: nat, slot: Slot, payload: string)
    | NextSection(id: nat)
    | CloseCall(id: nat)
    | TryLock
    | Look
    | GiveUp
    | StartManual(id: nat)
    | StartNightly(id: nat)
    | StartCheck(id: nat)
    | Replace(id: nat)
    | MarkStopped(r: nat)
    | DropQueued(r: nat, why: string)
    | FinishRun(r: nat)
    | CancelNightly(r: nat)
    | InterruptJobs
    | EndInterrupted
    | Crash

  ghost predicate Init(s: State) {
    && Q.Init(s.q) && s.runs == map[] && s.nextRun >= 1 && s.lock == Unlocked
    && s.calls == map[] && s.active == {} && s.interrupted == {}
  }

  /** Jobs whose key does not have the prefix of run r: EnqueueDue drops those that are queued. */
  function OlderJobs(s: State, r: nat): set<Slot> {
    set k | k in s.q.table && RunJobKind(k.kind) && !OfRun(k, r)
  }

  function JobsOf(s: State, r: nat): set<Slot> {
    set k | k in s.q.table && OfRun(k, r)
  }

  function RunJobs(s: State): set<Slot> {
    set k | k in s.q.table && RunJobKind(k.kind) && IsRunKey(k.key)
  }

  /** The runs whose jobs the restart clean-up ends. */
  function RunsAtWork(s: State): set<nat> {
    set k | k in s.q.table && RunJobKind(k.kind) && Outstanding(s.q.table[k]) && RunOf(k.key).Some? :: RunOf(k.key).value
  }

  function EndedByRestart(s: State): map<nat, Run> {
    map r | r in s.runs ::
      if r in s.interrupted && s.runs[r].finishedAt.None? then Ends(s.runs[r], Restarted, s.q.clock) else s.runs[r]
  }

  /** The queue step that a run step is made of, if any. */
  ghost function QueueStep(s: State, a: Action): Option<Q.Action> {
    match a
    case Queue(b) => Some(b)
    case Claim(w, choice) => Some(Q.Take(w, choice))
    case Report(h, ok, msg) => Some(if ok then Q.Complete(h) else Q.Fail(h, msg))
    case QueueOther(slot, payload, runAfter, max) => Some(Q.Enqueue(slot, payload, runAfter, max))
    case QueueJob(_, slot, payload) => Some(Q.Enqueue(slot, payload, None, RUN_ATTEMPTS))
    case Replace(id) =>
      if id in s.calls then Some(Q.Drop(OlderJobs(s, s.calls[id].run), "replaced")) else None
    case DropQueued(r, why) => Some(Q.Drop(JobsOf(s, r), why))
    case InterruptJobs => Some(Q.Interrupt(RunJobs(s), "the app stopped"))
    case _ => None
  }

  ghost predicate Enabled(s: State, a: Action) {
    && (QueueStep(s, a).Some? ==> Q.Enabled(s.q, QueueStep(s, a).value))
    && match a
       case Queue(b) => b.Tick? || b.ReadClock? || b.Sweep? || b.Prune?
       case Claim(_, _) => true
       case Report(h, _, _) => h in s.active && forall id | id in s.calls :: s.calls[id].owner != Some(h)
       case QueueOther(slot, _, _, _) => !IsRunKey(slot.key)
       case OpenCall(id, h, r) => id !in s.calls && h in s.active && OfRun(h.slot, r) && r in s.runs
       case LookAtEnded(id) => id in s.calls && s.calls[id].phase == Unchecked
       case QueueJob(id, slot, _) =>
         && id in s.calls && s.calls[id].phase == Passed
         && RunJobKind(slot.kind) && OfRun(slot, s.calls[id].run) && Built(slot.key)
       case NextSection(id) => id in s.calls
       case CloseCall(id) => id in s.calls
       case TryLock => s.lock == Unlocked
       case Look => s.lock == Locked
       case GiveUp => s.lock == Locked || s.lock == Cleared
       case StartManual(id) => s.lock == Cleared && id !in s.calls
       case StartNightly(id) => id !in s.calls
       case StartCheck(id) => id !in s.calls
       case Replace(id) => id in s.calls && s.calls[id].owner.None?
       case MarkStopped(r) => r in s.runs
       case DropQueued(r, _) => r in s.runs
       case FinishRun(r) => r in s.runs
       case CancelNightly(r) => r in s.runs
       case InterruptJobs => true
       case EndInterrupted => true
       case Crash => true
  }

  ghost function Started(s: State, id: nat, kind: RunKind): State {
    s.(runs := s.runs[s.nextRun := Run(kind, None, Unended, [])], nextRun := s.nextRun + 1,
       calls := s.calls[id := Call(s.nextRun, None, Passed)])
  }

  function Ends(r: Run, how: Ended, at: Time): Run {
    Run(r.kind, Some(at), how, r.ends + [how])
  }

  /** What a step does beside its queue step. */
  ghost function Around(c: Config, s: State, a: Action): State
    requires c.Valid() && Enabled(s, a)
  {
    match a
    case Claim(w, choice) =>
      if choice.None? then s
      else s.(active := s.active + {HandleOf(choice.value, TakenRow(s.q.table[choice.value], s.q.pending[w].now, c), c)})
    case Report(h, _, _) => s.(active := s.active - {h})
    case OpenCall(id, h, r) => s.(calls := s.calls[id := Call(r, Some(h), Unchecked)])
    case LookAtEnded(id) =>
      var r := s.calls[id].run;
      if r in s.runs && (s.runs[r].ended == Stopped || s.runs[r].ended == Restarted) then s
      else s.(calls := s.calls[id := s.calls[id].(phase := Passed)])
    case NextSection(id) => s.(calls := s.calls[id := s.calls[id].(phase := Unchecked)])
    case CloseCall(id) =>
      s.(calls := s.calls - {id}, lock := if s.lock == Queueing(id) then Unlocked else s.lock)
    case TryLock => s.(lock := Locked)
    case Look =>
      if exists r :: Open(s, r) && HasJob(s, r) then s.(lock := Unlocked) else s.(lock := Cleared)
    case GiveUp => s.(lock := Unlocked)
    case StartManual(id) => Started(s, id, Manual).(lock := Queueing(id))
    case StartNightly(id) => Started(s, id, Nightly)
    case StartCheck(id) => Started(s, id, SingleCheck)
    case MarkStopped(r) =>
      if s.runs[r].finishedAt.None? && s.runs[r].ended == Unended
         && exists k :: k in s.q.table && Outstanding(s.q.table[k]) && OfRun(k, r)
      then s.(runs := s.runs[r := Ends(s.runs[r], Stopped, s.q.clock)]) else s
    case FinishRun(r) =>
      if s.runs[r].ended == Unended then s.(runs := s.runs[r := Ends(s.runs[r], GotThrough, s.q.clock)]) else s
    case CancelNightly(r) =>
      if s.runs[r].ended == Unended then s.(runs := s.runs[r := Ends(s.runs[r], Stopped, s.q.clock)]) else s
    case InterruptJobs => s.(interrupted := RunsAtWork(s))
    case EndInterrupted => s.(interrupted := {}, runs := EndedByRestart(s))
    case Crash => s.(q := s.q.(pending := map[]), lock := Unlocked, calls := map[], active := {}, interrupted := {})
    case _ => s
  }

  ghost function Apply(c: Config, s: State, a: Action): State
    requires c.Valid() && Enabled(s, a)
  {
    var s' := Around(c, s, a);
    if QueueStep(s, a).Some? then s'.(q := Q.Apply(c, s.q, QueueStep(s, a).value)) else s'
  }

  ghost predicate Behaviour(c: Config, ss: seq<State>, acts: seq<Action>)
    requires c.Valid()
  {
    && |ss| == |acts| + 1 && Init(ss[0])
    && forall i {:trigger acts[i]} | 0 <= i < |acts| :: Enabled(ss[i], acts[i]) && ss[i + 1] == Apply(c, ss[i], acts[i])
  }

  // ----- What every step keeps, whoever takes it

  /** `ended` was written at most once, and is set exactly when finished_at is. */
  ghost predicate RunOk(r: Run) {
    && r.ends == (if r.ended == Unended then [] else [r.ended])
    && (r.finishedAt.Some? <==> r.ended != Unended)
  }

  ghost predicate Inv(c: Config, s: State)
    requires c.Valid()
  {
    && Q.Inv(c, s.q)
    && (forall r | r in s.runs :: r < s.nextRun && RunOk(s.runs[r]))
    && (forall id | id in s.calls :: s.calls[id].run in s.runs)
    && (forall k | k in s.q.table && IsRunKey(k.key) :: RunJobKind(k.kind) && RunOf(k.key).Some? && RunOf(k.key).value in s.runs)
    && (forall i | 0 <= i < |s.q.lives| && IsRunKey(s.q.lives[i].slot.key) :: s.q.lives[i].limit == RUN_ATTEMPTS)
  }
}
