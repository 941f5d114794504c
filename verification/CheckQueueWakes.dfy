/**
 Notifications of the verification queue: whom one wakes, and that none is lost, so
 that checks never wait in the queue while all workers sleep.
 */
module CheckQueueWakes {
  import opened Basics
  import opened CheckQueue
  import opened CheckQueueProof
  import opened CheckQueueRuns

  /**
   After one check has been added exactly one sleeping worker is notified, if there is
   one; after more, every sleeping worker is. Nothing else changes.
   */
  lemma NotifyExactly(s: State, choice: int)
    requires s.master.Adding? && Next(s, Notify(choice)).Some?
    ensures var t := Next(s, Notify(choice)).value;
            && t == s.(master := Outside, workers := t.workers) && |t.workers| == |s.workers|
            && (s.master.count == 1 ==>
                  if Asleep in s.workers
                  then 0 <= choice < |s.workers| && s.workers[choice] == Asleep &&
                       t.workers == s.workers[choice := Notified]
                  else t.workers == s.workers)
            && (s.master.count != 1 ==>
                  forall i :: 0 <= i < |s.workers| ==>
                    t.workers[i] == if s.workers[i] == Asleep then Notified else s.workers[i])
  {
    hide WakeAll;
    WakeAllAt(s.workers);
  }

  /** The thread is in its loop with no check of its batch left to do, and not waiting. */
  predicate AtSection(t: Thread) {
    match t
    case Asleep => false
    case Busy(batch, done, _) => done == |batch|
    case _ => true
  }

  predicate Unfinished(t: Thread) { t.Busy? && t.done < |t.batch| }

  /**
   What can happen next, and nothing else: the scheduler may run any thread that does not
   wait, notify any sleeping worker, and wake any sleeping thread without cause.
   */
  lemma EnabledExactly(s: State, step: Step)
    requires Inv(s)
    ensures Next(s, step).Some? <==>
            match step
            case Add(checks) => s.master == Outside && checks != []
            case Notify(i) => s.master.Adding? && (s.master.count == 1 && Asleep in s.workers ==>
                                                     0 <= i < |s.workers| && s.workers[i] == Asleep)
            case CallWait => s.master == Outside
            case MasterSection => s.master.Inside? && AtSection(s.master.thread)
            case WorkerSection(i) => 0 <= i < |s.workers| && AtSection(s.workers[i])
            case MasterCheck => s.master.Inside? && Unfinished(s.master.thread)
            case WorkerCheck(i) => 0 <= i < |s.workers| && Unfinished(s.workers[i])
            case WakeMaster => s.master == Inside(Asleep)
            case WakeWorker(i) => 0 <= i < |s.workers| && s.workers[i] == Asleep
  {
    hide Inv, WorkerEnters, MasterEnters;
    match step
    case MasterSection => if s.master.Inside? && Ready(s.master.thread) { MasterEntersKeeps(s); }
    case WorkerSection(i) => if 0 <= i < |s.workers| && Ready(s.workers[i]) { WorkerEntersKeeps(s, i); }
    case _ =>
  }

  ghost predicate SomeAwake(s: State) {
    exists i :: 0 <= i < |s.workers| && !s.workers[i].Asleep?
  }

  /** Unless a notification is owed, checks in the queue have a worker that is not asleep. */
  ghost predicate Attended(s: State) {
    s.queue != [] && !s.master.Adding? && s.workers != [] ==> SomeAwake(s)
  }

  lemma NotifyAttends(s: State, choice: int)
    requires s.master.Adding? && Next(s, Notify(choice)).Some?
    ensures Attended(Next(s, Notify(choice)).value)
  {
    NotifyExactly(s, choice);
    var t := Next(s, Notify(choice)).value;
    hide Next;
    if s.workers != [] {
      var i := if 0 <= choice < |s.workers| then choice else 0;
      if Asleep !in s.workers { assert s.workers[i] != Asleep; }
      assert s.master.count == 1 && Asleep in s.workers ==> t.workers[choice] == Notified;
      assert !t.workers[i].Asleep?;
    }
  }

  lemma WorkerAttends(s: State, i: int)
    requires 0 <= i < |s.workers| && Ready(s.workers[i]) && WorkerEnters(s, i).Some?
    ensures Attended(WorkerEnters(s, i).value)
  {
    hide Share;
    var t := WorkerEnters(s, i).value;
    assert t.queue != [] ==> !t.workers[i].Asleep?;
  }

  lemma MasterAttends(s: State)
    requires s.master.Inside? && Ready(s.master.thread) && MasterEnters(s).Some? && Attended(s)
    ensures Attended(MasterEnters(s).value)
  {
    hide Share;
  }

  lemma StepAttends(s: State, step: Step)
    requires Attended(s) && Next(s, step).Some?
    ensures Attended(Next(s, step).value)
  {
    hide WorkerEnters, MasterEnters, WakeAll;
    match step
    case Notify(choice) => NotifyAttends(s, choice);
    case WorkerSection(i) => WorkerAttends(s, i);
    case MasterSection => MasterAttends(s);
    case WorkerCheck(i) => OneWorkerAttends(s, i, Execute(s.workers[i]));
    case WakeWorker(i) => OneWorkerAttends(s, i, Notified);
    case _ =>
  }

  lemma OneWorkerAttends(s: State, i: int, t: Thread)
    requires 0 <= i < |s.workers| && !t.Asleep?
    ensures Attended(s.(workers := s.workers[i := t]))
  {
    assert !s.workers[i := t][i].Asleep?;
  }

  lemma {:induction false} EveryRunAttends(batchSize: nat, n: nat, steps: seq<Step>)
    requires Run(Init(batchSize, n), steps).Some?
    ensures Attended(Run(Init(batchSize, n), steps).value)
  {
    hide Next, Attended;
    if steps == [] {
      assert Attended(Init(batchSize, n)) by { InitAttends(batchSize, n); }
    } else {
      var k := |steps| - 1;
      EveryRunAttends(batchSize, n, steps[..k]);
      StepAttends(Run(Init(batchSize, n), steps[..k]).value, steps[k]);
    }
  }

  lemma InitAttends(batchSize: nat, n: nat)
    ensures Attended(Init(batchSize, n))
  {
  }

  /**
   No wake-up is lost: after every run, if checks are queued, no notification is owed and
   there are workers, one of them can go on without being woken.
   */
  lemma NoWakeUpIsLost(batchSize: nat, n: nat, steps: seq<Step>) returns (step: Step)
    requires Run(Init(batchSize, n), steps).Some?
    requires var s := Run(Init(batchSize, n), steps).value; s.queue != [] && !s.master.Adding? && n > 0
    ensures Next(Run(Init(batchSize, n), steps).value, step).Some? && (step.WorkerSection? || step.WorkerCheck?)
  {
    hide Next, Inv, Conserved;
    var s := Run(Init(batchSize, n), steps).value;
    EveryRunIsSafe(batchSize, n, steps);
    EveryRunAttends(batchSize, n, steps);
    WorkersStay(batchSize, n, steps);
    var i :| 0 <= i < |s.workers| && !s.workers[i].Asleep?;
    step := WorkerCanStep(s, i);
  }

  lemma {:induction false} WorkersStay(batchSize: nat, n: nat, steps: seq<Step>)
    requires Run(Init(batchSize, n), steps).Some?
    ensures |Run(Init(batchSize, n), steps).value.workers| == n
  {
    if steps != [] {
      hide WorkerEnters, MasterEnters, WakeAll;
      var k := |steps| - 1;
      WorkersStay(batchSize, n, steps[..k]);
      StepWorkers(Run(Init(batchSize, n), steps[..k]).value, steps[k]);
      hide Next;
    }
  }

  lemma StepWorkers(s: State, step: Step)
    requires Next(s, step).Some?
    ensures |Next(s, step).value.workers| == |s.workers|
  {
    hide Share;
    WakeAllAt(s.workers);
  }

  // ---- batches ----

  /** A thread takes one check, or an even share of the queue that is not more than a batch, whichever is more. */
  lemma ShareExactly(s: State, d: int)
    requires s.nTotal >= 0 && s.nIdle >= 0 && d == s.nTotal + s.nIdle + 1
    ensures var n := Share(s);
            && n >= 1 && (n == 1 || (n <= s.batchSize && n * d <= |s.queue|))
            && (n >= s.batchSize || (n + 1) * d > |s.queue|)
  {
    ShareBounds(|s.queue|, d);
  }

  lemma ShareBounds(x: nat, d: int)
    requires d > 0
    ensures x / d * d <= x < (x / d + 1) * d
  {
  }

  /** It takes them from the end of the queue, and executes none of them once a failure is known. */
  lemma TakenExactly(s: State)
    requires s.nTotal >= 0 && s.nIdle >= 0 && s.queue != []
    ensures Share(s) <= |s.queue|
    ensures var (t, job) := Taken(s);
            && t == s.(queue := t.queue) && t.queue + job.batch == s.queue && |job.batch| == Share(s)
            && job.done == 0 && job.ok == s.allOk
  {
    ShareFits(s);
    hide Share;
  }
}
