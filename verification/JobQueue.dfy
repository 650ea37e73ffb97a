/** The job dispatch protocol as small steps: any number of Dispatch calls, workers,
    cancellations, restarts and crashes interleaved, with every failure the queue and the
    database can return. */
module JobQueue {
  import opened Prelude

  type JobId = nat

  /** The asynq task id: the caller's unique key, or one generated for the job. */
  datatype TaskId = Keyed(key: string) | Generated(job: JobId)

  function IdOf(job: JobId, key: string): (r: TaskId) {
    if key != "" then Keyed(key) else Generated(job)
  }

  datatype RowState = Queued | Running | Succeeded | Errored | Cancelled | Interrupted

  /** A retained task: waiting, in a handler, or kept after a failure. */
  datatype Stage = Taken | Marked | Finished
  datatype Phase = Pending | Active(stage: Stage) | Archived
  datatype Task = Task(id: TaskId, job: JobId, phase: Phase)

  /** How a Dispatch call ended. The *Lost outcomes are errors returned although the
      operation took effect. */
  datatype Ending = Accepted | Duplicate | FailedEarly | EnqueueRefused | EnqueueLost
                  | CommitRefused | CommitLost | DiedEarly | DiedLate

  datatype Progress = Begun | Inserted | Enqueued | Ended(ending: Ending)
  datatype Call = Call(key: string, progress: Progress)

  /** What happened to the queue and the jobs table, in order. */
  datatype Event = Stored(job: JobId, id: TaskId) | Refused(job: JobId, id: TaskId)
                 | Removed(id: TaskId) | Committed(job: JobId)

  datatype State = State(calls: map<JobId, Call>, rows: map<JobId, RowState>, tasks: seq<Task>, log: seq<Event>)

  const Initial := State(map[], map[], [], [])

  datatype Reply = Normal | Refuse | Lose

  datatype Step =
    | Begin(job: JobId, key: string)        // uuid.New, marshal, tx begin
    | Fail(job: JobId)                      // begin, insert or encode fails
    | InsertRow(job: JobId)                 // insert inside the transaction
    | Enqueue(job: JobId, reply: Reply)
    | Commit(job: JobId, reply: Reply)
    | Die(job: JobId)                       // the dispatching process crashes
    | Take(i: nat)                          // a worker picks up a task
    | Mark(i: nat, written: bool)           // markRunning
    | Finish(i: nat, ok: bool, written: bool)
    | Ack(i: nat, keep: bool)               // handler returned: task dropped or archived
    | WorkerDies(i: nat, retry: bool)
    | Purge(i: nat)
    | Cancel(job: JobId)
    | Restart                               // MarkRunningInterrupted

  // ----- the steps; a step that is not enabled changes nothing -----

  predicate HasId(tasks: seq<Task>, id: TaskId) {
    exists i :: 0 <= i < |tasks| && tasks[i].id == id
  }

  predicate InProgress(s: State, job: JobId, p: Progress) {
    job in s.calls && s.calls[job].progress == p
  }

  function Move(s: State, job: JobId, p: Progress): (r: State)
    requires job in s.calls
  {
    s.(calls := s.calls[job := s.calls[job].(progress := p)])
  }

  function Store(s: State, job: JobId): (r: State)
    requires job in s.calls
  {
    var id := IdOf(job, s.calls[job].key);
    s.(tasks := s.tasks + [Task(id, job, Pending)], log := s.log + [Stored(job, id)])
  }

  function EnqueueStep(s: State, job: JobId, reply: Reply): (r: State)
    requires InProgress(s, job, Inserted)
  {
    var id := IdOf(job, s.calls[job].key);
    if reply.Refuse? || (reply.Lose? && HasId(s.tasks, id)) then Move(s, job, Ended(EnqueueRefused))
    else if HasId(s.tasks, id) then Move(s, job, Ended(Duplicate)).(log := s.log + [Refused(job, id)])
    else Move(Store(s, job), job, if reply.Lose? then Ended(EnqueueLost) else Enqueued)
  }

  function CommitStep(s: State, job: JobId, reply: Reply): (r: State)
    requires InProgress(s, job, Enqueued)
  {
    if reply.Refuse? then Move(s, job, Ended(CommitRefused))
    else Move(s, job, Ended(if reply.Lose? then CommitLost else Accepted))
         .(rows := s.rows[job := Queued], log := s.log + [Committed(job)])
  }

  function SetPhase(s: State, i: nat, p: Phase): (r: State)
    requires i < |s.tasks|
  {
    s.(tasks := s.tasks[i := s.tasks[i].(phase := p)])
  }

  function Remove(s: State, i: nat): (r: State)
    requires i < |s.tasks|
  {
    s.(tasks := s.tasks[..i] + s.tasks[i + 1..], log := s.log + [Removed(s.tasks[i].id)])
  }

  /** MarkJobRunning: only from queued or interrupted, only if the row is there. */
  function RowRunning(rows: map<JobId, RowState>, job: JobId): (r: map<JobId, RowState>) {
    if job in rows && (rows[job].Queued? || rows[job].Interrupted?) then rows[job := Running] else rows
  }

  /** MarkJobFinished: only while still running. */
  function RowFinished(rows: map<JobId, RowState>, job: JobId, ok: bool): (r: map<JobId, RowState>) {
    if job in rows && rows[job].Running? then rows[job := if ok then Succeeded else Errored] else rows
  }

  function Next(s: State, step: Step): (r: State) {
    match step
    case Begin(job, key) =>
      if job in s.calls then s else s.(calls := s.calls[job := Call(key, Begun)])
    case Fail(job) =>
      if InProgress(s, job, Begun) || InProgress(s, job, Inserted) then Move(s, job, Ended(FailedEarly)) else s
    case InsertRow(job) =>
      if InProgress(s, job, Begun) then Move(s, job, Inserted) else s
    case Enqueue(job, reply) =>
      if InProgress(s, job, Inserted) then EnqueueStep(s, job, reply) else s
    case Commit(job, reply) =>
      if InProgress(s, job, Enqueued) then CommitStep(s, job, reply) else s
    case Die(job) =>
      if InProgress(s, job, Begun) || InProgress(s, job, Inserted) then Move(s, job, Ended(DiedEarly))
      else if InProgress(s, job, Enqueued) then Move(s, job, Ended(DiedLate)) else s
    case Take(i) =>
      if i < |s.tasks| && s.tasks[i].phase == Pending then SetPhase(s, i, Active(Taken)) else s
    case Mark(i, written) =>
      if i < |s.tasks| && s.tasks[i].phase == Active(Taken) then
        SetPhase(s, i, Active(Marked)).(rows := if written then RowRunning(s.rows, s.tasks[i].job) else s.rows)
      else s
    case Finish(i, ok, written) =>
      if i < |s.tasks| && s.tasks[i].phase == Active(Marked) then
        SetPhase(s, i, Active(Finished)).(rows := if written then RowFinished(s.rows, s.tasks[i].job, ok) else s.rows)
      else s
    case Ack(i, keep) =>
      // A handler that fails to decode, or never touches the row, acks straight from Taken.
      if i < |s.tasks| && (s.tasks[i].phase == Active(Taken) || s.tasks[i].phase == Active(Finished)) then
        (if keep then SetPhase(s, i, Archived) else Remove(s, i))
      else s
    case WorkerDies(i, retry) =>
      if i < |s.tasks| && s.tasks[i].phase.Active? then SetPhase(s, i, if retry then Pending else Archived) else s
    case Purge(i) =>
      if i < |s.tasks| && s.tasks[i].phase == Archived then Remove(s, i) else s
    case Cancel(job) =>
      if job in s.rows && (s.rows[job].Queued? || s.rows[job].Running?) then s.(rows := s.rows[job := Cancelled]) else s
    case Restart =>
      s.(rows := map j | j in s.rows :: if s.rows[j].Queued? || s.rows[j].Running? then Interrupted else s.rows[j])
  }

  function Run(s: State, steps: seq<Step>): (r: State) {
    if steps == [] then s else Next(Run(s, steps[..|steps| - 1]), steps[|steps| - 1])
  }

  lemma RunAppend(s: State, steps: seq<Step>, step: Step)
    ensures Run(s, steps + [step]) == Next(Run(s, steps), step)
  {
  }

  lemma RunTwo(s: State, a: Step, b: Step)
    ensures Run(s, [a, b]) == Next(Next(s, a), b)
  {
    RunAppend(s, [], a);
    RunAppend(s, [a], b);
    assert [] + [a] == [a] && [a] + [b] == [a, b];
  }

  lemma RunFour(s: State, a: Step, b: Step, c: Step, d: Step)
    ensures Run(s, [a, b, c]) == Next(Next(Next(s, a), b), c)
    ensures Run(s, [a, b, c, d]) == Next(Next(Next(Next(s, a), b), c), d)
  {
    RunTwo(s, a, b);
    RunAppend(s, [a, b], c);
    RunAppend(s, [a, b, c], d);
    assert [a, b] + [c] == [a, b, c] && [a, b, c] + [d] == [a, b, c, d];
  }

  // ----- the log -----

  ghost function StoredJobs(log: seq<Event>): (r: set<JobId>) {
    if log == [] then {}
    else
      var e := log[|log| - 1];
      if e.Stored? then StoredJobs(log[..|log| - 1]) + {e.job} else StoredJobs(log[..|log| - 1])
  }

  /** How many tasks under `id` were stored and not removed. */
  ghost function Balance(log: seq<Event>, id: TaskId): (r: int) {
    if log == [] then 0
    else
      var e := log[|log| - 1];
      Balance(log[..|log| - 1], id) +
      (if e.Stored? && e.id == id then 1 else if e.Removed? && e.id == id then -1 else 0)
  }

  /** Event `e` may follow `log`: a row is committed only after its task was stored; a task
      is stored only while none is retained under its id, and refused only while one is. */
  ghost predicate Follows(log: seq<Event>, e: Event) {
    match e
    case Committed(job) => job in StoredJobs(log)
    case Stored(_, id) => Balance(log, id) == 0
    case Refused(_, id) => Balance(log, id) == 1
    case Removed(id) => Balance(log, id) == 1
  }

  ghost predicate Ordered(log: seq<Event>) {
    forall k | 0 <= k < |log| :: Follows(log[..k], log[k])
  }

  lemma LogAppend(log: seq<Event>, e: Event, id: TaskId)
    ensures StoredJobs(log + [e]) == if e.Stored? then StoredJobs(log) + {e.job} else StoredJobs(log)
    ensures Balance(log + [e], id) == Balance(log, id) +
            (if e.Stored? && e.id == id then 1 else if e.Removed? && e.id == id then -1 else 0)
    ensures Ordered(log) && Follows(log, e) ==> Ordered(log + [e])
  {
    var log' := log + [e];
    assert log'[..|log|] == log;
    if Ordered(log) && Follows(log, e) {
      forall k | 0 <= k < |log'| ensures Follows(log'[..k], log'[k]) {
        if k < |log| {
          assert log'[..k] == log[..k] && log'[k] == log[k];
        }
      }
    }
  }

  // ----- the invariant -----

  ghost predicate HasTask(s: State, job: JobId) {
    exists i :: 0 <= i < |s.tasks| && s.tasks[i].job == job
  }

  /** The endings, and the stages before them, that leave neither row nor task. */
  predicate Traceless(p: Progress) {
    p.Begun? || p.Inserted? ||
    (p.Ended? && (p.ending.Duplicate? || p.ending.FailedEarly? || p.ending.EnqueueRefused? || p.ending.DiedEarly?))
  }

  predicate HasCommitted(p: Progress) {
    p.Ended? && (p.ending.Accepted? || p.ending.CommitLost?)
  }

  ghost predicate CallOk(s: State, job: JobId) {
    job in s.calls &&
    var p := s.calls[job].progress;
    && (job in s.rows <==> HasCommitted(p))
    && (job in StoredJobs(s.log) <==> !Traceless(p))
  }

  ghost predicate TaskOk(s: State, t: Task) {
    t.job in StoredJobs(s.log) && t.job in s.calls && t.id == IdOf(t.job, s.calls[t.job].key)
  }

  ghost predicate DistinctIds(tasks: seq<Task>) {
    forall i, j | 0 <= i < j < |tasks| :: tasks[i].id != tasks[j].id
  }

  ghost predicate Balanced(s: State) {
    forall id :: Balance(s.log, id) == if HasId(s.tasks, id) then 1 else 0
  }

  ghost predicate Inv(s: State) {
    && (forall j | j in s.calls :: CallOk(s, j))
    && s.rows.Keys <= s.calls.Keys && StoredJobs(s.log) <= s.calls.Keys
    && (forall i | 0 <= i < |s.tasks| :: TaskOk(s, s.tasks[i]))
    && DistinctIds(s.tasks) && Balanced(s) && Ordered(s.log)
  }

  // ----- every step keeps it -----

  /** Moving a call between two points with the same traces. */
  lemma MoveKeeps(s: State, job: JobId, p: Progress)
    requires Inv(s) && job in s.calls
    requires var q := s.calls[job].progress; Traceless(p) == Traceless(q) && HasCommitted(p) == HasCommitted(q)
    ensures Inv(Move(s, job, p))
  {
  }

  lemma EnqueueKeeps(s: State, job: JobId, reply: Reply)
    requires Inv(s) && InProgress(s, job, Inserted)
    ensures Inv(EnqueueStep(s, job, reply))
  {
    var id := IdOf(job, s.calls[job].key);
    if reply.Refuse? || (reply.Lose? && HasId(s.tasks, id)) {
      MoveKeeps(s, job, Ended(EnqueueRefused));
    } else if HasId(s.tasks, id) {
      MoveKeeps(s, job, Ended(Duplicate));
      RefusedKeeps(Move(s, job, Ended(Duplicate)), job, id);
    } else {
      StoreKeeps(s, job, if reply.Lose? then Ended(EnqueueLost) else Enqueued);
    }
  }

  lemma RefusedKeeps(s: State, job: JobId, id: TaskId)
    requires Inv(s) && HasId(s.tasks, id)
    ensures Inv(s.(log := s.log + [Refused(job, id)]))
  {
    var s' := s.(log := s.log + [Refused(job, id)]);
    forall other ensures Balance(s'.log, other) == Balance(s.log, other) {
      LogAppend(s.log, Refused(job, id), other);
    }
    LogAppend(s.log, Refused(job, id), id);
    assert forall j | j in s'.calls :: CallOk(s, j) ==> CallOk(s', j);
    assert forall i | 0 <= i < |s'.tasks| :: TaskOk(s, s.tasks[i]) ==> TaskOk(s', s'.tasks[i]);
  }

  lemma StoreKeeps(s: State, job: JobId, p: Progress)
    requires Inv(s) && InProgress(s, job, Inserted) && !HasId(s.tasks, IdOf(job, s.calls[job].key))
    requires !Traceless(p) && !HasCommitted(p)
    ensures Inv(Move(Store(s, job), job, p))
  {
    var id := IdOf(job, s.calls[job].key);
    var s' := Move(Store(s, job), job, p);
    var e := Stored(job, id);
    LogAppend(s.log, e, id);
    forall j | j in s'.calls ensures CallOk(s', j) {
      assert CallOk(s, j);
    }
    forall i | 0 <= i < |s'.tasks| ensures TaskOk(s', s'.tasks[i]) {
      if i < |s.tasks| {
        assert TaskOk(s, s.tasks[i]);
      }
    }
    forall other ensures Balance(s'.log, other) == if HasId(s'.tasks, other) then 1 else 0 {
      LogAppend(s.log, e, other);
      HasIdAppend(s.tasks, Task(id, job, Pending), other);
    }
  }

  lemma HasIdAppend(tasks: seq<Task>, t: Task, id: TaskId)
    ensures HasId(tasks + [t], id) <==> HasId(tasks, id) || t.id == id
  {
    var more := tasks + [t];
    assert more[|tasks|] == t;
    if HasId(tasks, id) {
      var i :| 0 <= i < |tasks| && tasks[i].id == id;
      assert more[i].id == id;
    }
  }

  lemma CommitKeeps(s: State, job: JobId, reply: Reply)
    requires Inv(s) && InProgress(s, job, Enqueued)
    ensures Inv(CommitStep(s, job, reply))
  {
    if reply.Refuse? {
      MoveKeeps(s, job, Ended(CommitRefused));
    } else {
      var s' := CommitStep(s, job, reply);
      assert CallOk(s, job);
      forall id ensures Balance(s'.log, id) == Balance(s.log, id) {
        LogAppend(s.log, Committed(job), id);
      }
      LogAppend(s.log, Committed(job), Generated(job));
      forall j | j in s'.calls ensures CallOk(s', j) {
        assert CallOk(s, j);
      }
      forall i | 0 <= i < |s'.tasks| ensures TaskOk(s', s'.tasks[i]) {
        assert TaskOk(s, s.tasks[i]);
      }
    }
  }

  /** Worker and row steps touch neither calls nor log, and keep ids, jobs and row keys. */
  lemma WorkerKeeps(s: State, s': State)
    requires Inv(s) && s'.calls == s.calls && s'.log == s.log && s'.rows.Keys == s.rows.Keys
    requires |s'.tasks| == |s.tasks|
    requires forall i | 0 <= i < |s.tasks| :: s'.tasks[i].id == s.tasks[i].id && s'.tasks[i].job == s.tasks[i].job
    ensures Inv(s')
  {
  }

  lemma RemoveKeeps(s: State, i: nat)
    requires Inv(s) && i < |s.tasks|
    ensures Inv(Remove(s, i))
  {
    var s' := Remove(s, i);
    var gone := s.tasks[i].id;
    assert HasId(s.tasks, gone);
    LogAppend(s.log, Removed(gone), gone);
    forall j | j in s'.calls ensures CallOk(s', j) {
      assert CallOk(s, j);
    }
    forall k | 0 <= k < |s'.tasks| ensures TaskOk(s', s'.tasks[k]) {
      assert s'.tasks[k] == s.tasks[if k < i then k else k + 1];
      assert TaskOk(s, s.tasks[if k < i then k else k + 1]);
    }
    forall id ensures Balance(s'.log, id) == if HasId(s'.tasks, id) then 1 else 0 {
      LogAppend(s.log, Removed(gone), id);
      RemovedId(s, i, id);
    }
  }

  lemma RemovedId(s: State, i: nat, id: TaskId)
    requires i < |s.tasks| && DistinctIds(s.tasks)
    ensures HasId(Remove(s, i).tasks, id) <==> HasId(s.tasks, id) && id != s.tasks[i].id
  {
    var tasks := Remove(s, i).tasks;
    if HasId(s.tasks, id) && id != s.tasks[i].id {
      var k :| 0 <= k < |s.tasks| && s.tasks[k].id == id;
      assert tasks[if k < i then k else k - 1] == s.tasks[k];
    }
    if HasId(tasks, id) {
      var k :| 0 <= k < |tasks| && tasks[k].id == id;
      assert tasks[k] == s.tasks[if k < i then k else k + 1];
    }
  }

  lemma {:induction false} CallStepKeeps(s: State, step: Step)
    requires Inv(s) && (step.Begin? || step.Fail? || step.InsertRow? || step.Enqueue? || step.Commit? || step.Die?)
    ensures Inv(Next(s, step))
  {
    if Next(s, step) != s {
      match step {
        case Begin(job, key) =>
          var s' := Next(s, step);
          assert forall j | j in s'.calls && j != job :: CallOk(s, j) ==> CallOk(s', j);
          assert forall i | 0 <= i < |s'.tasks| :: TaskOk(s, s.tasks[i]) ==> TaskOk(s', s'.tasks[i]);
        case Fail(job) => MoveKeeps(s, job, Ended(FailedEarly));
        case InsertRow(job) => MoveKeeps(s, job, Inserted);
        case Enqueue(job, reply) => EnqueueKeeps(s, job, reply);
        case Commit(job, reply) => CommitKeeps(s, job, reply);
        case Die(job) => MoveKeeps(s, job, Ended(if InProgress(s, job, Enqueued) then DiedLate else DiedEarly));
      }
    }
  }

  lemma {:induction false} StepKeeps(s: State, step: Step)
    requires Inv(s)
    ensures Inv(Next(s, step))
  {
    var s' := Next(s, step);
    if step.Begin? || step.Fail? || step.InsertRow? || step.Enqueue? || step.Commit? || step.Die? {
      CallStepKeeps(s, step);
    } else if (step.Ack? || step.Purge?) && |s'.tasks| < |s.tasks| {
      RemoveKeeps(s, step.i);
    } else {
      WorkerStepShape(s, step);
      WorkerKeeps(s, s');
    }
  }

  lemma WorkerStepShape(s: State, step: Step)
    requires !(step.Begin? || step.Fail? || step.InsertRow? || step.Enqueue? || step.Commit? || step.Die?)
    ensures var s' := Next(s, step);
            (|s'.tasks| < |s.tasks| && (step.Ack? || step.Purge?)) ||
            (&& s'.calls == s.calls && s'.log == s.log && s'.rows.Keys == s.rows.Keys && |s'.tasks| == |s.tasks|
             && forall i | 0 <= i < |s.tasks| :: s'.tasks[i].id == s.tasks[i].id && s'.tasks[i].job == s.tasks[i].job)
  {
  }

  lemma {:induction false} RunsKeepFrom(s: State, steps: seq<Step>)
    requires Inv(s)
    ensures Inv(Run(s, steps))
  {
    if steps != [] {
      RunsKeepFrom(s, steps[..|steps| - 1]);
      StepKeeps(Run(s, steps[..|steps| - 1]), steps[|steps| - 1]);
    }
  }

  /** The invariant holds in every reachable state. */
  lemma {:induction false} RunsKeep(steps: seq<Step>)
    ensures Inv(Run(Initial, steps))
  {
    RunsKeepFrom(Initial, steps);
  }

  // ----- main results -----

  /** A committed row's task was stored before the commit; the clean endings leave neither
      row nor task; success leaves a row; and a task without a row belongs to a call still
      before its commit or ended by a lost enqueue reply, a refused commit or a crash after
      the enqueue. */
  ghost predicate Safe(s: State) {
    && (forall k | 0 <= k < |s.log| && s.log[k].Committed? :: s.log[k].job in StoredJobs(s.log[..k]))
    && (forall j | j in s.calls && Traceless(s.calls[j].progress) :: j !in s.rows && !HasTask(s, j))
    && (forall j | j in s.calls && s.calls[j].progress == Ended(Accepted) :: j in s.rows && j in StoredJobs(s.log))
    && (forall i | 0 <= i < |s.tasks| && s.tasks[i].job !in s.rows :: Leftover(s, s.tasks[i]))
  }

  predicate Leftover(s: State, t: Task) {
    t.job in s.calls &&
    s.calls[t.job].progress in {Enqueued, Ended(EnqueueLost), Ended(CommitRefused), Ended(DiedLate)}
  }

  lemma InvIsSafe(s: State)
    requires Inv(s)
    ensures Safe(s)
  {
  }

  /** Every reachable state is safe, whatever the interleaving and the failures. */
  lemma {:induction false} DispatchIsSafe(steps: seq<Step>)
    ensures Safe(Run(Initial, steps))
  {
    RunsKeep(steps);
    InvIsSafe(Run(Initial, steps));
  }

  /** At most one retained task holds an id; over the whole history stores and removals of
      an id alternate, starting with a store; and a dispatch is refused as a duplicate at
      exactly those enqueues that find the id retained. */
  lemma {:induction false} UniqueKeysExclude(steps: seq<Step>, id: TaskId)
    ensures var s := Run(Initial, steps);
            && (forall i, j | 0 <= i < |s.tasks| && 0 <= j < |s.tasks| && s.tasks[i].id == s.tasks[j].id :: i == j)
            && 0 <= Balance(s.log, id) <= 1
            && (forall k | 0 <= k < |s.log| && s.log[k].Stored? :: Balance(s.log[..k], s.log[k].id) == 0)
            && (forall k | 0 <= k < |s.log| && s.log[k].Refused? :: Balance(s.log[..k], s.log[k].id) == 1)
  {
    RunsKeep(steps);
    var s := Run(Initial, steps);
    forall k | 0 <= k < |s.log| ensures Follows(s.log[..k], s.log[k]) {
    }
  }

  /** While a task is retained under a key, every dispatch with that key that reaches its
      enqueue step ends without a task or a row of its own. */
  lemma {:induction false} RetainedKeyRefuses(steps: seq<Step>, job: JobId, reply: Reply)
    requires var s := Run(Initial, steps);
             InProgress(s, job, Inserted) && s.calls[job].key != "" && HasId(s.tasks, Keyed(s.calls[job].key))
    ensures var s' := Run(Initial, steps + [Enqueue(job, reply)]);
            && s'.calls[job].progress == Ended(if reply.Normal? then Duplicate else EnqueueRefused)
            && s'.tasks == Run(Initial, steps).tasks && job !in s'.rows && !HasTask(s', job)
  {
    RunAppend(Initial, steps, Enqueue(job, reply));
    DispatchIsSafe(steps + [Enqueue(job, reply)]);
  }

  // ----- rows over time -----

  predicate Terminal(r: RowState) {
    r.Succeeded? || r.Errored? || r.Cancelled?
  }

  /** A row never disappears, and a terminal row never changes again: a finish that comes
      after a cancel is dropped. */
  lemma {:induction false} RowsPersist(s: State, steps: seq<Step>, job: JobId)
    requires Inv(s) && job in s.rows
    ensures job in Run(s, steps).rows
    ensures Terminal(s.rows[job]) ==> Run(s, steps).rows[job] == s.rows[job]
  {
    if steps != [] {
      var init, last := steps[..|steps| - 1], steps[|steps| - 1];
      RowsPersist(s, init, job);
      RunsKeepFrom(s, init);
      RowStep(Run(s, init), last, job);
    }
  }

  lemma RowStep(s: State, step: Step, job: JobId)
    requires Inv(s) && job in s.rows
    ensures job in Next(s, step).rows
    ensures Terminal(s.rows[job]) ==> Next(s, step).rows[job] == s.rows[job]
  {
  }

  // ----- what each step does -----

  /** Task `i` is in this phase. */
  predicate AtPhase(s: State, i: nat, p: Phase) {
    i < |s.tasks| && s.tasks[i].phase == p
  }

  /** A row appears exactly by a commit that is not refused, of a call that has enqueued, and
      it is queued then. */
  lemma RowAppearsExactly(s: State, step: Step, job: JobId)
    requires job !in s.rows
    ensures job in Next(s, step).rows <==>
            step.Commit? && step.job == job && InProgress(s, job, Enqueued) && !step.reply.Refuse?
    ensures job in Next(s, step).rows ==> Next(s, step).rows[job] == Queued
  {
  }

  /** How a row moves: a cancel ends what is queued or running; a restart interrupts it; a
      mark that is written starts what is queued or interrupted; a finish that is written
      ends what is running, as the work ended. Nothing else touches it. */
  lemma RowMovesExactly(s: State, step: Step, job: JobId)
    requires Inv(s) && job in s.rows
    ensures var r := s.rows[job];
            job in Next(s, step).rows && Next(s, step).rows[job] ==
            if step == Cancel(job) && (r == Queued || r == Running) then Cancelled
            else if step == Restart && (r == Queued || r == Running) then Interrupted
            else if step.Mark? && step.written && AtPhase(s, step.i, Active(Taken)) && s.tasks[step.i].job == job
                    && (r == Queued || r == Interrupted) then Running
            else if step.Finish? && step.written && AtPhase(s, step.i, Active(Marked)) && s.tasks[step.i].job == job
                    && r == Running then (if step.ok then Succeeded else Errored)
            else r
  {
    assert CallOk(s, job);
  }

  /** How the queue moves: one store under the caller's key, or one of its own; one phase on;
      one task gone. */
  lemma TasksMoveExactly(s: State, step: Step)
    ensures var tasks := Next(s, step).tasks;
            match step
            case Enqueue(job, reply) =>
              if InProgress(s, job, Inserted) && !reply.Refuse? && !HasId(s.tasks, IdOf(job, s.calls[job].key))
              then tasks == s.tasks + [Task(IdOf(job, s.calls[job].key), job, Pending)] else tasks == s.tasks
            case Take(i) => if AtPhase(s, i, Pending) then Phased(s.tasks, tasks, i, Active(Taken)) else tasks == s.tasks
            case Mark(i, _) => if AtPhase(s, i, Active(Taken)) then Phased(s.tasks, tasks, i, Active(Marked)) else tasks == s.tasks
            case Finish(i, _, _) => if AtPhase(s, i, Active(Marked)) then Phased(s.tasks, tasks, i, Active(Finished)) else tasks == s.tasks
            case Ack(i, keep) =>
              if !AtPhase(s, i, Active(Taken)) && !AtPhase(s, i, Active(Finished)) then tasks == s.tasks
              else if keep then Phased(s.tasks, tasks, i, Archived) else tasks == s.tasks[..i] + s.tasks[i + 1..]
            case WorkerDies(i, retry) =>
              if i < |s.tasks| && s.tasks[i].phase.Active? then Phased(s.tasks, tasks, i, if retry then Pending else Archived)
              else tasks == s.tasks
            case Purge(i) => if AtPhase(s, i, Archived) then tasks == s.tasks[..i] + s.tasks[i + 1..] else tasks == s.tasks
            case _ => tasks == s.tasks
  {
  }

  /** Only task `i` changed, and only its phase. */
  ghost predicate Phased(tasks: seq<Task>, tasks': seq<Task>, i: nat, p: Phase) {
    i < |tasks| && |tasks'| == |tasks| && tasks'[i] == Task(tasks[i].id, tasks[i].job, p) &&
    forall k | 0 <= k < |tasks| && k != i :: tasks'[k] == tasks[k]
  }

  /** How a call moves. */
  lemma CallMovesExactly(s: State, step: Step, job: JobId)
    requires job in s.calls
    ensures var p := s.calls[job].progress;
            job in Next(s, step).calls && Next(s, step).calls[job].key == s.calls[job].key &&
            Next(s, step).calls[job].progress ==
            if step == Fail(job) && (p == Begun || p == Inserted) then Ended(FailedEarly)
            else if step == InsertRow(job) && p == Begun then Inserted
            else if step == Die(job) && (p == Begun || p == Inserted) then Ended(DiedEarly)
            else if step == Die(job) && p == Enqueued then Ended(DiedLate)
            else if step.Enqueue? && step.job == job && p == Inserted then
              var taken := HasId(s.tasks, IdOf(job, s.calls[job].key));
              (match step.reply
               case Refuse => Ended(EnqueueRefused)
               case Normal => if taken then Ended(Duplicate) else Enqueued
               case Lose => Ended(if taken then EnqueueRefused else EnqueueLost))
            else if step.Commit? && step.job == job && p == Enqueued then
              Ended(match step.reply case Refuse => CommitRefused case Normal => Accepted case Lose => CommitLost)
            else p
  {
  }

  // ----- which rows can still finish -----

  predicate Done(r: RowState) {
    r.Succeeded? || r.Errored?
  }

  /** Some worker may still take, or is running, a task of the job. */
  ghost predicate HasLiveTask(s: State, job: JobId) {
    exists i :: 0 <= i < |s.tasks| && s.tasks[i].job == job && !s.tasks[i].phase.Archived?
  }

  /** A row nothing will ever bring to an end by running its job. */
  ghost predicate Stranded(s: State, job: JobId) {
    job in s.rows && !Done(s.rows[job]) && (s.rows[job].Cancelled? || !HasLiveTask(s, job))
  }

  /** A committed job's call has ended, so it stores no further task. */
  lemma StrandedStep(s: State, step: Step, job: JobId)
    requires Inv(s) && Stranded(s, job)
    ensures Stranded(Next(s, step), job)
    ensures !s.rows[job].Running? ==> !Next(s, step).rows[job].Running?
  {
    RowStep(s, step, job);
    if !s.rows[job].Cancelled? {
      assert CallOk(s, job) && HasCommitted(s.calls[job].progress);
      NoLiveTaskStep(s, step, job);
    }
  }

  lemma NoLiveTaskStep(s: State, step: Step, job: JobId)
    requires !HasLiveTask(s, job) && job in s.calls && HasCommitted(s.calls[job].progress)
    ensures !HasLiveTask(Next(s, step), job)
  {
    var s' := Next(s, step);
    if |s'.tasks| < |s.tasks| {
      NoLiveTaskLeft(s, step.i, job);
    } else {
      TasksAfter(s, step);
    }
  }

  lemma NoLiveTaskLeft(s: State, i: nat, job: JobId)
    requires !HasLiveTask(s, job) && i < |s.tasks|
    ensures !HasLiveTask(Remove(s, i), job)
  {
    var tasks := Remove(s, i).tasks;
    forall k | 0 <= k < |tasks| && tasks[k].job == job ensures tasks[k].phase.Archived? {
      assert tasks[k] == s.tasks[if k < i then k else k + 1];
    }
  }

  /** A step that removes no task keeps each one's job, wakes no archived one, and adds at
      most one, for a call that had just inserted its row. */
  lemma TasksAfter(s: State, step: Step)
    requires |Next(s, step).tasks| >= |s.tasks|
    ensures var s' := Next(s, step);
            && (forall i | 0 <= i < |s.tasks| ::
                  s'.tasks[i].job == s.tasks[i].job && (s.tasks[i].phase.Archived? ==> s'.tasks[i].phase.Archived?))
            && forall i | |s.tasks| <= i < |s'.tasks| :: InProgress(s, s'.tasks[i].job, Inserted)
  {
  }

  /** A stranded row stays stranded through every run: it is never marked running, and never
      succeeds or errors, though a cancel or a restart may rename it. */
  lemma {:induction false} StrandedForEver(s: State, steps: seq<Step>, job: JobId)
    requires Inv(s) && Stranded(s, job)
    ensures Stranded(Run(s, steps), job)
    ensures !s.rows[job].Running? ==> !Run(s, steps).rows[job].Running?
  {
    if steps != [] {
      var init, last := steps[..|steps| - 1], steps[|steps| - 1];
      StrandedForEver(s, init, job);
      RunsKeepFrom(s, init);
      StrandedStep(Run(s, init), last, job);
    }
  }

  /** A row with a live task is finished by a worker that is not disturbed. */
  lemma {:induction false} LiveCanFinish(s: State, job: JobId) returns (steps: seq<Step>)
    requires job in s.rows && !Done(s.rows[job]) && !Stranded(s, job)
    ensures job in Run(s, steps).rows && Done(Run(s, steps).rows[job])
  {
    var i: nat :| i < |s.tasks| && s.tasks[i].job == job && !s.tasks[i].phase.Archived?;
    var retry := WorkerDies(i, true);
    var s1 := Next(s, retry);
    assert s1.tasks[i].phase == Pending && s1.tasks[i].job == job && s1.rows == s.rows;
    steps := [retry, Take(i), Mark(i, true), Finish(i, true, true)];
    RunFour(s, retry, Take(i), Mark(i, true), Finish(i, true, true));
    UndisturbedFinishes(s1, i);
  }

  lemma UndisturbedFinishes(s: State, i: nat)
    requires i < |s.tasks| && s.tasks[i].phase == Pending && s.tasks[i].job in s.rows
    requires var row := s.rows[s.tasks[i].job]; row.Queued? || row.Interrupted? || row.Running?
    ensures var s' := Next(Next(Next(s, Take(i)), Mark(i, true)), Finish(i, true, true));
            s.tasks[i].job in s'.rows && s'.rows[s.tasks[i].job] == Succeeded
  {
    var s1 := Next(s, Take(i));
    assert s1.tasks[i].phase == Active(Taken);
    var s2 := Next(s1, Mark(i, true));
    assert s2.tasks[i].phase == Active(Marked) && s2.rows[s.tasks[i].job] == Running;
  }

  ghost predicate CanFinish(s: State, job: JobId) {
    exists steps :: job in Run(s, steps).rows && Done(Run(s, steps).rows[job])
  }

  /** An unfinished row can still be brought to success or error by some run if and only if
      it is not cancelled and a task of its job is waiting or running. */
  lemma {:induction false} CanFinishExactly(s: State, job: JobId)
    requires Inv(s) && job in s.rows && !Done(s.rows[job])
    ensures CanFinish(s, job) <==> !s.rows[job].Cancelled? && HasLiveTask(s, job)
  {
    if Stranded(s, job) {
      forall steps ensures job in Run(s, steps).rows && !Done(Run(s, steps).rows[job]) {
        StrandedForEver(s, steps, job);
      }
    } else {
      var steps := LiveCanFinish(s, job);
    }
  }

  /** A commit strands its own row exactly when a worker has overtaken it: the task is by
      then acknowledged and gone, or archived. */
  lemma {:induction false} CommitStrandsExactly(s: State, job: JobId, reply: Reply)
    requires Inv(s) && InProgress(s, job, Enqueued) && !reply.Refuse?
    ensures Stranded(Next(s, Commit(job, reply)), job) <==> !HasLiveTask(s, job)
  {
    var s' := Next(s, Commit(job, reply));
    assert s'.tasks == s.tasks && s'.rows[job] == Queued;
  }

  /** A worker can take the task before the commit: its row writes find nothing, the task
      is gone, and the committed row is never run by anybody, whatever happens next. */
  lemma WorkerMayOvertakeCommit(later: seq<Step>) returns (steps: seq<Step>)
    ensures var s := Run(Initial, steps);
            && s.rows == map[0 := Queued] && s.tasks == []
            && s.calls == map[0 := Call("", Ended(Accepted))]
            && Stranded(Run(s, later), 0) && !Run(s, later).rows[0].Running?
  {
    steps := Overtaken();
    RunsKeep(steps);
    StrandedForEver(Run(Initial, steps), later, 0);
  }

  lemma Overtaken() returns (steps: seq<Step>)
    ensures var s := Run(Initial, steps);
            && s.rows == map[0 := Queued] && s.tasks == []
            && s.calls == map[0 := Call("", Ended(Accepted))]
  {
    steps := [];
    steps := Extended(steps, Begin(0, ""));
    steps := Extended(steps, InsertRow(0));
    steps := Extended(steps, Enqueue(0, Normal));
    assert Run(Initial, steps).tasks == [Task(Generated(0), 0, Pending)];
    steps := Extended(steps, Take(0));
    steps := Extended(steps, Mark(0, true));
    steps := Extended(steps, Finish(0, true, true));
    steps := Extended(steps, Ack(0, false));
    steps := Extended(steps, Commit(0, Normal));
  }

  lemma Extended(steps: seq<Step>, step: Step) returns (more: seq<Step>)
    ensures more == steps + [step] && Run(Initial, more) == Next(Run(Initial, steps), step)
  {
    more := steps + [step];
    RunAppend(Initial, steps, step);
  }
}
