/** Dispatch as the caller sees it, and the unique keys its users choose. */
module Dispatcher {
  import opened Prelude
  import opened Strings
  import opened JobQueue

  /** The parts of a dispatch that can fail, as they turn out. */
  datatype Weather = Weather(marshal: bool, begin: bool, insert: bool, encode: bool, enqueue: Reply, commit: Reply)

  datatype Output = Job(id: JobId) | ErrDuplicate | ErrOther

  /** The steps of the protocol that an undisturbed call takes. */
  function Script(job: JobId, key: string, w: Weather): (steps: seq<Step>) {
    if !w.marshal || !w.begin || !w.insert then [Begin(job, key), Fail(job)]
    else if !w.encode then [Begin(job, key), InsertRow(job), Fail(job)]
    else [Begin(job, key), InsertRow(job), Enqueue(job, w.enqueue), Commit(job, w.commit)]
  }

  /** The state an undisturbed call leaves. */
  function Dispatched(s: State, job: JobId, key: string, w: Weather): (r: State)
    requires job !in s.calls
  {
    var begun := s.(calls := s.calls[job := Call(key, Begun)]);
    if !w.marshal || !w.begin || !w.insert || !w.encode then Move(begun, job, Ended(FailedEarly))
    else
      var tried := EnqueueStep(Move(begun, job, Inserted), job, w.enqueue);
      if tried.calls[job].progress != Enqueued then tried else CommitStep(tried, job, w.commit)
  }

  lemma DispatchRun(s: State, job: JobId, key: string, w: Weather)
    requires job !in s.calls
    ensures Run(s, Script(job, key, w)) == Dispatched(s, job, key, w)
  {
    var begun := s.(calls := s.calls[job := Call(key, Begun)]);
    assert Next(s, Begin(job, key)) == begun;
    if !w.marshal || !w.begin || !w.insert {
      RunTwo(s, Begin(job, key), Fail(job));
    } else {
      var inserted := Move(begun, job, Inserted);
      assert Next(begun, InsertRow(job)) == inserted;
      if w.encode {
        RunFour(s, Begin(job, key), InsertRow(job), Enqueue(job, w.enqueue), Commit(job, w.commit));
        assert Next(inserted, Enqueue(job, w.enqueue)) == EnqueueStep(inserted, job, w.enqueue);
      } else {
        RunFour(s, Begin(job, key), InsertRow(job), Fail(job), Fail(job));
        assert Next(inserted, Fail(job)) == Move(begun, job, Ended(FailedEarly));
      }
    }
  }

  /** How an undisturbed call ends and what it leaves, by what failed and whether a task is
      retained under its id. */
  lemma DispatchedExactly(s: State, job: JobId, key: string, w: Weather)
    requires job !in s.calls
    ensures var id := if key != "" then Keyed(key) else Generated(job);
            var taken := exists i :: 0 <= i < |s.tasks| && s.tasks[i].id == id;
            var reaches := w.marshal && w.begin && w.insert && w.encode;
            var r := Dispatched(s, job, key, w);
            && job in r.calls
            && (r.calls[job].progress == Ended(Accepted) <==> reaches && w.enqueue.Normal? && !taken && w.commit.Normal?)
            && (r.calls[job].progress == Ended(Duplicate) <==> reaches && w.enqueue.Normal? && taken)
            && (r.tasks == if reaches && !taken && !w.enqueue.Refuse? then s.tasks + [Task(id, job, Pending)] else s.tasks)
            && (r.rows == if reaches && !taken && w.enqueue.Normal? && !w.commit.Refuse? then s.rows[job := Queued] else s.rows)
  {
  }

  /** The queue and the jobs table as one call finds and leaves them. */
  class Backend {
    var rows: map<JobId, RowState>
    var tasks: seq<Task>
    /** Calls made so far; the dispatched counter counts the accepted ones. */
    var calls: map<JobId, Call>
    var log: seq<Event>
    var dispatched: nat

    ghost function View(): (s: State)
      reads this
    {
      State(calls, rows, tasks, log)
    }

    constructor ()
      ensures View() == Initial && dispatched == 0
    {
      rows, tasks, calls, log, dispatched := map[], [], map[], [], 0;
    }

    /** Dispatch: insert in a transaction, enqueue, commit; every early return rolls the
        transaction back. Undisturbed, it is the protocol run of its script. */
    method Dispatch(job: JobId, key: string, w: Weather) returns (out: Output)
      requires job !in calls
      modifies this
      ensures View() == Dispatched(old(View()), job, key, w) == Run(old(View()), Script(job, key, w)) && job in calls
      ensures out.Job? <==> calls[job].progress == Ended(Accepted)
      ensures out.Job? ==> out.id == job && job in rows && rows[job] == Queued
      ensures out.ErrDuplicate? <==> calls[job].progress == Ended(Duplicate)
      ensures !out.Job? && calls[job].progress != Ended(CommitLost) ==> rows == old(rows)
      ensures out.ErrDuplicate? ==> rows == old(rows) && tasks == old(tasks)
      ensures dispatched == old(dispatched) + if out.Job? then 1 else 0
      ensures var id := if key != "" then Keyed(key) else Generated(job);
              var taken := exists i :: 0 <= i < |old(tasks)| && old(tasks)[i].id == id;
              var reaches := w.marshal && w.begin && w.insert && w.encode;
              && (out.Job? <==> reaches && w.enqueue.Normal? && !taken && w.commit.Normal?)
              && (out.ErrDuplicate? <==> reaches && w.enqueue.Normal? && taken)
              && (tasks == if reaches && !taken && !w.enqueue.Refuse? then old(tasks) + [Task(id, job, Pending)] else old(tasks))
              && (rows == if reaches && !taken && w.enqueue.Normal? && !w.commit.Refuse? then old(rows)[job := Queued] else old(rows))
    {
      calls := calls[job := Call(key, Begun)];
      if !w.marshal || !w.begin || !w.insert {
        calls := calls[job := Call(key, Ended(FailedEarly))];
        out := ErrOther;
      } else {
        calls := calls[job := Call(key, Inserted)];
        if !w.encode {
          calls := calls[job := Call(key, Ended(FailedEarly))];
          out := ErrOther;
        } else {
          var error := EnqueueTask(job, w.enqueue);
          if error.Some? {
            out := error.value;
          } else {
            out := CommitRow(job, w.commit);
            if out.Job? {
              dispatched := dispatched + 1;
            }
          }
        }
      }
      DispatchRun(old(View()), job, key, w);
      DispatchedExactly(old(View()), job, key, w);
    }

    /** Success means the row is there and queued; failure means no row of any job changed
        unless only the reply was lost. The invariant is kept, and the row is stranded
        exactly when a worker has already finished with the task. */
    method CommitRow(job: JobId, reply: Reply) returns (out: Output)
      requires InProgress(View(), job, Enqueued)
      modifies this`rows, this`log, this`calls
      ensures View() == CommitStep(old(View()), job, reply)
      ensures out == if reply.Normal? then Job(job) else ErrOther
      ensures out.Job? ==> job in rows && rows[job] == Queued
      ensures !out.Job? ==> rows == old(rows) || (calls[job].progress == Ended(CommitLost) && rows == old(rows)[job := Queued])
      ensures old(Inv(View())) ==> Inv(View())
      ensures old(Inv(View())) && out.Job? ==> (Stranded(View(), job) <==> !HasLiveTask(View(), job))
    {
      if Inv(View()) {
        CommitKeeps(View(), job, reply);
      }
      if reply.Refuse? {
        calls := calls[job := calls[job].(progress := Ended(CommitRefused))];
        return ErrOther;
      }
      rows := rows[job := Queued];
      log := log + [Committed(job)];
      if reply.Lose? {
        calls := calls[job := calls[job].(progress := Ended(CommitLost))];
        return ErrOther;
      }
      calls := calls[job := calls[job].(progress := Ended(Accepted))];
      return Job(job);
    }

    /** EnqueueContext: a task id already retained is a conflict. */
    method EnqueueTask(job: JobId, reply: Reply) returns (error: Option<Output>)
      requires InProgress(View(), job, Inserted)
      modifies this`tasks, this`log, this`calls
      ensures View() == EnqueueStep(old(View()), job, reply)
      ensures match error
              case None => calls[job].progress == Enqueued
              case Some(ErrDuplicate) => calls[job].progress == Ended(Duplicate)
              case Some(e) => e == ErrOther && calls[job].progress in {Ended(EnqueueRefused), Ended(EnqueueLost)}
    {
      var id := IdOf(job, calls[job].key);
      var taken := false;
      for i := 0 to |tasks|
        invariant taken <==> exists k :: 0 <= k < i && tasks[k].id == id
      {
        taken := taken || tasks[i].id == id;
      }
      if reply.Refuse? || (reply.Lose? && taken) {
        calls := calls[job := calls[job].(progress := Ended(EnqueueRefused))];
        return Some(ErrOther);
      }
      if taken {
        log := log + [Refused(job, id)];
        calls := calls[job := calls[job].(progress := Ended(Duplicate))];
        return Some(ErrDuplicate);
      }
      tasks := tasks + [Task(id, job, Pending)];
      log := log + [Stored(job, id)];
      if reply.Lose? {
        calls := calls[job := calls[job].(progress := Ended(EnqueueLost))];
        return Some(ErrOther);
      }
      calls := calls[job := calls[job].(progress := Enqueued)];
      return None;
    }
  }

  /** How one handler run turns out: whether the body decodes, whether the two row writes
      reach the database, how the work ends, and whether the queue keeps a failed task. */
  datatype Work = Work(decode: bool, markWritten: bool, ok: bool, finishWritten: bool, keep: bool)

  function HandlerScript(i: nat, w: Work): (steps: seq<Step>) {
    if !w.decode then [Take(i), Ack(i, w.keep)]
    else [Take(i), Mark(i, w.markWritten), Finish(i, w.ok, w.finishWritten), Ack(i, w.keep && !w.ok)]
  }

  function RowsAfter(rows: map<JobId, RowState>, job: JobId, w: Work): (r: map<JobId, RowState>) {
    if !w.decode then rows
    else
      var marked := if w.markWritten then RowRunning(rows, job) else rows;
      if w.finishWritten then RowFinished(marked, job, w.ok) else marked
  }

  /** The state an undisturbed handler leaves. */
  function Handled(s: State, i: nat, w: Work): (r: State)
    requires i < |s.tasks|
  {
    var done := s.(rows := RowsAfter(s.rows, s.tasks[i].job, w));
    if w.keep && !(w.decode && w.ok) then SetPhase(done, i, Archived) else Remove(done, i)
  }

  class Worker {
    const backend: Backend
    /** Updates published for subscribers of a job, and handlers currently running. */
    var updates: seq<(JobId, bool)>
    var inFlight: int

    constructor (backend: Backend)
      ensures this.backend == backend && updates == [] && inFlight == 0
    {
      this.backend := backend;
      updates, inFlight := [], 0;
    }

    /** The shape every handler has, inside the metrics middleware: decode, mark the row
        running, do the work, finish the row, publish. Undisturbed, it is the protocol run
        of its script, and the gauge returns to where it was. */
    method Handle(i: nat, w: Work)
      requires i < |backend.tasks| && backend.tasks[i].phase == Pending
      modifies this, backend
      ensures backend.View() == Handled(old(backend.View()), i, w) == Run(old(backend.View()), HandlerScript(i, w))
      ensures backend.tasks == if w.keep && !(w.decode && w.ok)
                               then old(backend.tasks)[i := old(backend.tasks)[i].(phase := Archived)]
                               else old(backend.tasks)[..i] + old(backend.tasks)[i + 1..]
      ensures updates == old(updates) + if w.decode then [(old(backend.tasks[i].job), w.ok)] else []
      ensures inFlight == old(inFlight)
    {
      inFlight := inFlight + 1;
      Process(i, w);
      if w.keep && !(w.decode && w.ok) {
        SetTask(i, Archived);
        assert backend.tasks == old(backend.tasks)[i := old(backend.tasks)[i].(phase := Archived)];
      } else {
        backend.log := backend.log + [Removed(backend.tasks[i].id)];
        backend.tasks := backend.tasks[..i] + backend.tasks[i + 1..];
      }
      inFlight := inFlight - 1;
      HandlerRun(old(backend.View()), i, w);
    }

    /** The handler's own part; of the queue it touches only its task's phase. */
    method Process(i: nat, w: Work)
      requires i < |backend.tasks| && backend.tasks[i].phase == Pending
      modifies this`updates, backend`tasks, backend`rows
      ensures backend.rows == RowsAfter(old(backend.rows), old(backend.tasks)[i].job, w)
      ensures i < |backend.tasks| && backend.tasks == old(backend.tasks)[i := old(backend.tasks)[i].(phase := backend.tasks[i].phase)]
      ensures updates == old(updates) + if w.decode then [(old(backend.tasks)[i].job, w.ok)] else []
    {
      var job := backend.tasks[i].job;
      SetTask(i, Active(Taken));
      if w.decode {
        if w.markWritten {
          backend.rows := RowRunning(backend.rows, job);
        }
        SetTask(i, Active(Marked));
        if w.finishWritten {
          backend.rows := RowFinished(backend.rows, job, w.ok);
        }
        SetTask(i, Active(Finished));
        updates := updates + [(job, w.ok)];
      }
    }

    method SetTask(i: nat, p: Phase)
      requires i < |backend.tasks|
      modifies backend`tasks
      ensures backend.View() == SetPhase(old(backend.View()), i, p)
    {
      backend.tasks := backend.tasks[i := backend.tasks[i].(phase := p)];
    }
  }

  /** A handler creates no row and touches no other job's row. Its own, once running, which
      needs the mark to land on a queued or interrupted one, ends as the work did if the
      finish lands. */
  lemma {:induction false} HandlerMovesRow(s: State, i: nat, w: Work, job: JobId)
    requires i < |s.tasks| && s.tasks[i].phase == Pending
    ensures var s' := Run(s, HandlerScript(i, w));
            && (job in s'.rows <==> job in s.rows)
            && (job in s.rows ==>
                  var r := s.rows[job];
                  var runs := job == s.tasks[i].job && w.decode &&
                              (r == Running || (w.markWritten && (r == Queued || r == Interrupted)));
                  s'.rows[job] == if !runs then r else if !w.finishWritten then Running else if w.ok then Succeeded else Errored)
  {
    HandlerRun(s, i, w);
  }

  /** An undisturbed handler leaves an unfinished row stranded exactly when its body does not
      decode, its finish is not written, or its mark was needed and did not land. */
  lemma {:induction false} HandlerStrandsExactly(s: State, i: nat, w: Work)
    requires Inv(s) && i < |s.tasks| && s.tasks[i].phase == Pending
    requires s.tasks[i].job in s.rows && !JobQueue.Done(s.rows[s.tasks[i].job])
    ensures var row := s.rows[s.tasks[i].job];
            Stranded(Run(s, HandlerScript(i, w)), s.tasks[i].job) <==>
            !(w.decode && w.finishWritten && (row.Running? || (w.markWritten && !row.Cancelled?)))
  {
    var job := s.tasks[i].job;
    HandlerMovesRow(s, i, w, job);
    HandlerRun(s, i, w);
    OnlyTask(s, i);
    NoTaskLeft(s, i, w);
  }

  /** A job has one task at most. */
  lemma OnlyTask(s: State, i: nat)
    requires Inv(s) && i < |s.tasks|
    ensures forall k | 0 <= k < |s.tasks| && s.tasks[k].job == s.tasks[i].job :: k == i
  {
    forall k | 0 <= k < |s.tasks| && s.tasks[k].job == s.tasks[i].job ensures k == i {
      assert TaskOk(s, s.tasks[k]) && TaskOk(s, s.tasks[i]);
    }
  }

  lemma NoTaskLeft(s: State, i: nat, w: Work)
    requires i < |s.tasks| && forall k | 0 <= k < |s.tasks| && s.tasks[k].job == s.tasks[i].job :: k == i
    ensures !HasLiveTask(Handled(s, i, w), s.tasks[i].job)
  {
  }

  lemma HandlerRun(s: State, i: nat, w: Work)
    requires i < |s.tasks| && s.tasks[i].phase == Pending
    ensures Run(s, HandlerScript(i, w)) == Handled(s, i, w)
  {
    TakeStep(s, i);
    var s1 := Next(s, Take(i));
    if !w.decode {
      RunTwo(s, Take(i), Ack(i, w.keep));
      AckStep(s, s1, i, w.keep);
    } else {
      RunFour(s, Take(i), Mark(i, w.markWritten), Finish(i, w.ok, w.finishWritten), Ack(i, w.keep && !w.ok));
      MarkStep(s1, i, w.markWritten);
      var s2 := Next(s1, Mark(i, w.markWritten));
      FinishStep(s2, i, w.ok, w.finishWritten);
      var s3 := Next(s2, Finish(i, w.ok, w.finishWritten));
      AckStep(s.(rows := s3.rows), s3, i, w.keep && !w.ok);
    }
  }

  lemma TakeStep(s: State, i: nat)
    requires i < |s.tasks| && s.tasks[i].phase == Pending
    ensures Next(s, Take(i)) == SetPhase(s, i, Active(Taken))
  {
  }

  lemma MarkStep(s: State, i: nat, written: bool)
    requires i < |s.tasks| && s.tasks[i].phase == Active(Taken)
    ensures Next(s, Mark(i, written))
         == SetPhase(s, i, Active(Marked)).(rows := if written then RowRunning(s.rows, s.tasks[i].job) else s.rows)
  {
  }

  lemma FinishStep(s: State, i: nat, ok: bool, written: bool)
    requires i < |s.tasks| && s.tasks[i].phase == Active(Marked)
    ensures Next(s, Finish(i, ok, written))
         == SetPhase(s, i, Active(Finished)).(rows := if written then RowFinished(s.rows, s.tasks[i].job, ok) else s.rows)
  {
  }

  /** Acking a task leaves what the state before it was taken would have been left with. */
  lemma AckStep(s: State, active: State, i: nat, keep: bool)
    requires i < |s.tasks| && i < |active.tasks| && active.tasks[i].phase in {Active(Taken), Active(Finished)}
    requires active == s.(tasks := s.tasks[i := s.tasks[i].(phase := active.tasks[i].phase)])
    ensures Next(active, Ack(i, keep)) == if keep then SetPhase(s, i, Archived) else Remove(s, i)
  {
  }

  // ----- who dispatches under which key -----

  datatype Input = Input(kind: string, target: string, command: string, requestId: string, uniqueKey: string)

  function ScrubInput(pool: string, stop: bool, requestId: string): (r: Input) {
    Input("pool.scrub", pool, (if stop then "zpool scrub -s " else "zpool scrub ") + pool, requestId, ScrubKey(pool))
  }

  function ReplicationInput(job: string, requestId: string): (r: Input) {
    Input("replication:run", job, "replication.run " + job, requestId, ReplicationKey(job))
  }

  function ScrubKey(pool: string): (r: string) {
    "pool:" + pool + ":scrub"
  }

  function ReplicationKey(job: string): (r: string) {
    "replication:job:" + job
  }

  /** The key of the other pool operations. */
  function PoolKey(pool: string): (r: string) {
    "pool:" + pool
  }

  /** Scrubs collide exactly on the pool, whatever the action or the requester, replications
      exactly on the job, and the two never with each other; every one of them is keyed. */
  lemma KeysSeparate(p: string, q: string, stop: bool, stop': bool, j: string, k: string, r: string, r': string)
    ensures ScrubInput(p, stop, r).uniqueKey == ScrubInput(q, stop', r').uniqueKey <==> p == q
    ensures ReplicationInput(j, r).uniqueKey == ReplicationInput(k, r').uniqueKey <==> j == k
    ensures ScrubInput(p, stop, r).uniqueKey != ReplicationInput(j, r').uniqueKey
    ensures ScrubInput(p, stop, r).uniqueKey != "" && ReplicationInput(j, r).uniqueKey != ""
  {
    assert p == ScrubKey(p)[5..|ScrubKey(p)| - 6] && q == ScrubKey(q)[5..|ScrubKey(q)| - 6];
    assert j == ReplicationKey(j)[16..] && k == ReplicationKey(k)[16..];
    assert ScrubKey(p)[0] == 'p' && ReplicationKey(j)[0] == 'r';
  }

  /** Of any number of dispatches under one key, at most one has its task in the queue. */
  lemma {:induction false} OneInFlightPerKey(steps: seq<Step>, j: JobId, k: JobId)
    requires var s := Run(Initial, steps);
             j in s.calls && k in s.calls && s.calls[j].key == s.calls[k].key != "" && HasTask(s, j) && HasTask(s, k)
    ensures j == k
  {
    RunsKeep(steps);
    OneTaskPerKey(Run(Initial, steps), j, k);
  }

  lemma OneTaskPerKey(s: State, j: JobId, k: JobId)
    requires Inv(s) && j in s.calls && k in s.calls && HasTask(s, j) && HasTask(s, k)
    requires s.calls[j].key == s.calls[k].key != ""
    ensures j == k
  {
    var a :| 0 <= a < |s.tasks| && s.tasks[a].job == j;
    var b :| 0 <= b < |s.tasks| && s.tasks[b].job == k;
    assert TaskOk(s, s.tasks[a]) && TaskOk(s, s.tasks[b]);
  }

  /** A scrub shares its key with the other operations of exactly one pool: the one named
      after it with ":scrub" appended. */
  lemma ScrubKeyMeetsPoolKey(p: string, q: string)
    ensures ScrubKey(p) == PoolKey(q) <==> q == p + ":scrub"
  {
    assert PoolKey(q)[5..] == q && ScrubKey(p)[5..] == p + ":scrub";
    assert ScrubKey(p) == "pool:" + (p + ":scrub");
  }
}
