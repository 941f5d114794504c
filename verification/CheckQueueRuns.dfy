/**
 Whole runs of the verification queue: every interleaving of every number of
 workers, spurious wake-ups included.
 */
module CheckQueueRuns {
  import opened Basics
  import opened CheckQueue
  import opened Sums
  import opened CheckQueueProof

  /** The state after a run of steps, if each of them can be taken. */
  function Run(s: State, steps: seq<Step>): Option<State> {
    if steps == [] then Some(s)
    else
      var t := Run(s, steps[..|steps| - 1]);
      if t.Some? then Next(t.value, steps[|steps| - 1]) else None
  }

  // ---- no check is lost, executed twice, or passed over without cause ----

  lemma CountJoin(c: Check, a: seq<Check>, b: seq<Check>)
    ensures Count(c, a + b) == Count(c, a) + Count(c, b)
  {
  }

  lemma ExecuteAhead(c: Check, t: Thread)
    requires t.Busy? && t.done < |t.batch|
    ensures Ahead(c)(t) == Ahead(c)(Execute(t)) + Count(c, [t.batch[t.done]])
  {
    assert t.batch[t.done..] == [t.batch[t.done]] + t.batch[t.done + 1..];
  }

  lemma TakenAhead(c: Check, s: State)
    requires s.nTotal + s.nIdle + 1 > 0 && Share(s) <= |s.queue|
    ensures var (v, job) := Taken(s); Count(c, v.queue) + Ahead(c)(job) == Count(c, s.queue)
  {
    var n := |s.queue| - Share(s);
    assert s.queue == s.queue[..n] + s.queue[n..];
    assert s.queue[n..][0..] == s.queue[n..];
  }

  lemma ReadyAhead(c: Check, t: Thread)
    requires Ready(t)
    ensures Ahead(c)(t) == 0
  {
    if t.Busy? { assert t.batch[t.done..] == []; }
  }

  lemma WorkerEntersPlaces(s: State, i: int, c: Check)
    requires 0 <= i < |s.workers| && Ready(s.workers[i]) && WorkerEnters(s, i).Some? && Placed(s, c)
    ensures Placed(WorkerEnters(s, i).value, c)
  {
    hide Count, Share;
    ReadyAhead(c, s.workers[i]);
    var t := CleanUp(s, s.workers[i]);
    if t.queue == [] {
      SumUpdate(Ahead(c), s.workers, i, Asleep);
    } else {
      var u := if s.workers[i].Busy? && t.nTodo == 0 && t.master == Inside(Asleep) then t.(master := Inside(Notified))
               else t;
      TakenAhead(c, u);
      SumUpdate(Ahead(c), s.workers, i, Taken(u).1);
    }
  }

  lemma MasterEntersPlaces(s: State, c: Check)
    requires s.master.Inside? && Ready(s.master.thread) && MasterEnters(s).Some? && Placed(s, c)
    requires !MasterEnters(s).value.master.Outside?
    ensures Placed(MasterEnters(s).value, c)
  {
    hide Count, Share;
    ReadyAhead(c, s.master.thread);
    var t := CleanUp(s, s.master.thread);
    if t.queue != [] { TakenAhead(c, t); }
  }

  /** When Wait returns, a check of the session was executed, or passed over. */
  lemma MasterLeavesPlaces(s: State, c: Check)
    requires Inv(s) && Placed(s, c) && s.master.Inside? && Ready(s.master.thread)
    requires MasterEnters(s).Some? && MasterEnters(s).value.master.Outside?
    ensures Placed(MasterEnters(s).value, c)
    ensures Count(c, s.added) == Count(c, s.executed) + Count(c, s.skipped)
  {
    hide Inv;
    MasterLeaves(s);
    var t := MasterEnters(s).value;
    assert s.workers == t.workers && s.queue == [];
    SumZero(Ahead(c), t.workers);
    ReadyAhead(c, s.master.thread);
  }

  /** When Wait returns, every check was executed once, or passed over after a failure. */
  lemma MasterLeavesConserves(s: State)
    requires Inv(s) && Conserved(s) && s.master.Inside? && Ready(s.master.thread)
    requires MasterEnters(s).Some? && MasterEnters(s).value.master.Outside?
    ensures Conserved(MasterEnters(s).value)
    ensures SessionOk(Session(s.added, AllTrue(s.added), s.executed))
  {
    hide Inv, Placed, AllTrue;
    MasterLeaves(s);
    forall c
      ensures Placed(MasterEnters(s).value, c)
      ensures multiset(s.added)[c] == multiset(s.executed)[c] + multiset(s.skipped)[c]
    {
      MasterLeavesPlaces(s, c);
    }
  }

  lemma RecordedPlaces(s: State, w: Thread, c: Check)
    requires w.Busy? && w.done < |w.batch|
    ensures var t := Recorded(s, w);
            Count(c, t.executed) + Count(c, t.skipped) ==
              Count(c, s.executed) + Count(c, s.skipped) + Count(c, [w.batch[w.done]])
  {
  }

  lemma StepPlaces(s: State, step: Step, c: Check)
    requires Inv(s) && Placed(s, c) && Next(s, step).Some?
    ensures Placed(Next(s, step).value, c)
  {
    hide Inv, MasterEnters, WorkerEnters, Count;
    var t := Next(s, step).value;
    match step
    case Add(checks) =>
      CountJoin(c, s.queue, checks);
      CountJoin(c, s.added, checks);
    case Notify(choice) => NotifyPlaces(s, choice, c);
    case CallWait =>
    case MasterSection => if t.master.Outside? { MasterLeavesPlaces(s, c); } else { MasterEntersPlaces(s, c); }
    case WorkerSection(i) => WorkerEntersPlaces(s, i, c);
    case MasterCheck =>
      ExecuteAhead(c, s.master.thread);
      RecordedPlaces(s, s.master.thread, c);
    case WorkerCheck(i) =>
      ExecuteAhead(c, s.workers[i]);
      RecordedPlaces(s, s.workers[i], c);
      SumUpdate(Ahead(c), s.workers, i, Execute(s.workers[i]));
    case WakeMaster =>
    case WakeWorker(i) => SumUpdate(Ahead(c), s.workers, i, Notified);
  }

  lemma NotifyPlaces(s: State, choice: int, c: Check)
    requires Placed(s, c) && Next(s, Notify(choice)).Some?
    ensures Placed(Next(s, Notify(choice)).value, c)
  {
    hide Count, WakeAll;
    WakeAllAt(s.workers);
    SumSame(Ahead(c), s.workers, WakeAll(s.workers));
    if 0 <= choice < |s.workers| { SumUpdate(Ahead(c), s.workers, choice, Notified); }
  }

  /** No step loses a check, executes one twice, or passes one over before a failure. */
  lemma StepConserves(s: State, step: Step)
    requires Inv(s) && Conserved(s) && Next(s, step).Some?
    ensures Conserved(Next(s, step).value)
  {
    hide Placed;
    var t := Next(s, step).value;
    forall c ensures Placed(t, c) { StepPlaces(s, step, c); }
    SkipsAfterFailure(s, step);
  }

  /** What a worker's section leaves alone. */
  lemma WorkerFrame(s: State, i: int)
    requires 0 <= i < |s.workers| && Ready(s.workers[i]) && WorkerEnters(s, i).Some?
    ensures var t := WorkerEnters(s, i).value;
            && t.added == s.added && t.sessions == s.sessions && t.executed == s.executed && t.skipped == s.skipped
            && (t.master.Inside? <==> s.master.Inside?)
  {
    hide Share;
  }

  /** What the master's section leaves alone while it stays inside, and what it clears on leaving. */
  lemma MasterFrame(s: State)
    requires s.master.Inside? && Ready(s.master.thread) && MasterEnters(s).Some?
    ensures var t := MasterEnters(s).value;
            if t.master.Inside? then
              t.added == s.added && t.sessions == s.sessions && t.executed == s.executed && t.skipped == s.skipped
            else t.master.Outside? && t.added == [] && t.skipped == [] && |t.sessions| == |s.sessions| + 1
  {
    hide Share;
  }

  lemma SkipsAfterFailure(s: State, step: Step)
    requires Inv(s) && Next(s, step).Some? && (AllTrue(s.added) ==> s.skipped == [])
    ensures var t := Next(s, step).value; AllTrue(t.added) ==> t.skipped == []
  {
    hide WorkerEnters, MasterEnters, Accounted;
    match step
    case Add(checks) => AllTrueJoin(s.added, checks);
    case MasterSection => MasterFrame(s);
    case WorkerSection(i) => WorkerFrame(s, i);
    case _ =>
  }

  // ---- safety over whole runs ----

  /** All checks handed to Add in a run, in order. */
  function AddedIn(steps: seq<Step>): seq<Check> {
    if steps == [] then []
    else AddedIn(steps[..|steps| - 1]) + (match steps[|steps| - 1] case Add(checks) => checks case _ => [])
  }

  function ChecksOf(sessions: seq<Session>): seq<Check> {
    if sessions == [] then [] else ChecksOf(sessions[..|sessions| - 1]) + sessions[|sessions| - 1].checks
  }

  ghost predicate SessionsOk(sessions: seq<Session>) {
    forall k :: 0 <= k < |sessions| ==> SessionOk(sessions[k])
  }

  /** A step ends a session with the right answer or leaves the record alone. */
  lemma StepSessions(s: State, step: Step)
    requires Inv(s) && Conserved(s) && Next(s, step).Some?
    ensures var t := Next(s, step).value;
            || (t.sessions == s.sessions && t.added == s.added + (match step case Add(checks) => checks case _ => []))
            || (&& step.MasterSection? && t.added == []
                && exists x :: SessionOk(x) && x.checks == s.added && t.sessions == s.sessions + [x])
  {
    hide WorkerEnters, MasterEnters, Inv, Conserved, SessionOk;
    assert s.added + [] == s.added;
    if step.MasterSection? {
      var t := Next(s, step).value;
      MasterFrame(s);
      if t.master.Outside? {
        MasterLeaves(s);
        MasterLeavesConserves(s);
        var x := Session(s.added, AllTrue(s.added), s.executed);
        assert SessionOk(x) && x.checks == s.added && t.sessions == s.sessions + [x];
      }
    } else if step.WorkerSection? {
      WorkerFrame(s, step.i);
    }
  }

  /**
   In every state of every run the invariant holds, every session that has ended
   returned the right answer, and the sessions partition the checks in order.
   */
  lemma {:induction false} EveryRunIsSafe(batchSize: nat, n: nat, steps: seq<Step>)
    requires Run(Init(batchSize, n), steps).Some?
    ensures var t := Run(Init(batchSize, n), steps).value;
            Inv(t) && Conserved(t) && SessionsOk(t.sessions) && ChecksOf(t.sessions) + t.added == AddedIn(steps)
  {
    hide Inv, Conserved, SessionOk, Next;
    if steps == [] {
      InitInv(batchSize, n);
      InitConserved(batchSize, n);
    } else {
      var k := |steps| - 1;
      EveryRunIsSafe(batchSize, n, steps[..k]);
      var s := Run(Init(batchSize, n), steps[..k]).value;
      StepKeeps(s, steps[k]);
      StepConserves(s, steps[k]);
      StepRecords(s, steps[k], AddedIn(steps[..k]));
    }
  }

  lemma StepRecords(s: State, step: Step, before: seq<Check>)
    requires Inv(s) && Conserved(s) && Next(s, step).Some? && SessionsOk(s.sessions)
    requires ChecksOf(s.sessions) + s.added == before
    ensures var t := Next(s, step).value;
            && SessionsOk(t.sessions)
            && ChecksOf(t.sessions) + t.added == before + (match step case Add(checks) => checks case _ => [])
  {
    hide Inv, Conserved, SessionOk, Next;
    StepSessions(s, step);
    var t := Next(s, step).value;
    if t.sessions != s.sessions {
      assert t.sessions[..|s.sessions|] == s.sessions;
    }
  }

  lemma InitConserved(batchSize: nat, n: nat)
    ensures Conserved(Init(batchSize, n))
  {
    forall c ensures Placed(Init(batchSize, n), c) {
      SumZero(Ahead(c), Init(batchSize, n).workers);
    }
  }

  // ---- progress ----

  predicate IsWakeUp(step: Step) { step.WakeMaster? || step.WakeWorker? }

  /** A thread that is not asleep can always take its next step. */
  lemma WorkerCanStep(s: State, i: int) returns (step: Step)
    requires Inv(s) && 0 <= i < |s.workers| && !s.workers[i].Asleep?
    ensures Next(s, step).Some? && (step == WorkerSection(i) || step == WorkerCheck(i))
  {
    assert ThreadOk(s.workers[i]);
    if Ready(s.workers[i]) {
      WorkerEntersKeeps(s, i);
      step := WorkerSection(i);
    } else {
      step := WorkerCheck(i);
    }
  }

  /** While the master is in Wait, something can happen without a spurious wake-up: no deadlock. */
  lemma WaitNeverStuck(s: State) returns (step: Step)
    requires Inv(s) && s.master.Inside?
    ensures Next(s, step).Some? && !IsWakeUp(step)
  {
    if s.master.thread.Asleep? {
      var i := SumPositive(Held, s.workers);
      step := WorkerCanStep(s, i);
    } else if Ready(s.master.thread) {
      MasterEntersKeeps(s);
      step := MasterSection;
    } else {
      step := MasterCheck;
    }
  }

  /** The steps a thread has still to take before it sleeps. */
  function Weight(t: Thread): int {
    match t
    case Starting => 1
    case Asleep => 0
    case Notified => 1
    case Busy(batch, done, _) => if done <= |batch| then 2 + 2 * (|batch| - done) else 0
  }

  function Work(s: State): int {
    4 * |s.queue| + Sum(Weight, s.workers) + MasterTerm(Weight, s.master)
  }

  lemma WorkerEntersWorks(s: State, i: int)
    requires Inv(s) && 0 <= i < |s.workers| && Ready(s.workers[i])
    ensures WorkerEnters(s, i).Some? && Work(WorkerEnters(s, i).value) < Work(s)
  {
    hide Inv, Sum;
    WorkerEntersKeeps(s, i);
    var t := CleanUp(s, s.workers[i]);
    if t.queue == [] {
      SumUpdate(Weight, s.workers, i, Asleep);
    } else {
      SumUpdate(Weight, s.workers, i, Taken(t).1);
    }
  }

  lemma MasterEntersWorks(s: State)
    requires Inv(s) && s.master.Inside? && Ready(s.master.thread)
    ensures MasterEnters(s).Some? && Work(MasterEnters(s).value) < Work(s)
  {
    hide Inv;
    MasterEntersKeeps(s);
  }

  /** Inside Wait every step does some of a bounded amount of work; a wake-up adds at most one. */
  lemma StepWorks(s: State, step: Step)
    requires Inv(s) && s.master.Inside? && Next(s, step).Some?
    ensures if IsWakeUp(step) then Work(Next(s, step).value) <= Work(s) + 1 else Work(Next(s, step).value) < Work(s)
  {
    hide Inv, MasterEnters, WorkerEnters;
    match step
    case MasterSection => MasterEntersWorks(s);
    case WorkerSection(i) => WorkerEntersWorks(s, i);
    case MasterCheck =>
    case WorkerCheck(i) => SumUpdate(Weight, s.workers, i, Execute(s.workers[i]));
    case WakeMaster =>
    case WakeWorker(i) => SumUpdate(Weight, s.workers, i, Notified);
  }

  /** The number of steps of a run that are wake-ups, or are not. */
  function CountSteps(steps: seq<Step>, wakeUps: bool): nat {
    if steps == [] then 0
    else CountSteps(steps[..|steps| - 1], wakeUps) + if IsWakeUp(steps[|steps| - 1]) == wakeUps then 1 else 0
  }

  lemma StepSessionsGrow(s: State, step: Step)
    requires Next(s, step).Some?
    ensures |s.sessions| <= |Next(s, step).value.sessions|
    ensures s.master.Inside? && |s.sessions| == |Next(s, step).value.sessions| ==> Next(s, step).value.master.Inside?
  {
    hide WorkerEnters, MasterEnters;
    if step.MasterSection? {
      MasterFrame(s);
    } else if step.WorkerSection? {
      WorkerFrame(s, step.i);
    }
  }

  lemma {:induction false} RunWorks(s: State, steps: seq<Step>)
    requires Inv(s) && s.master.Inside? && Run(s, steps).Some?
    ensures var t := Run(s, steps).value;
            && Inv(t) && |s.sessions| <= |t.sessions|
            && (|t.sessions| == |s.sessions| ==>
                  t.master.Inside? && Work(t) + CountSteps(steps, false) <= Work(s) + CountSteps(steps, true))
  {
    hide Inv, Next, Work;
    if steps != [] {
      var k := |steps| - 1;
      RunWorks(s, steps[..k]);
      var t := Run(s, steps[..k]).value;
      StepKeeps(t, steps[k]);
      StepSessionsGrow(t, steps[k]);
      if |t.sessions| == |s.sessions| { StepWorks(t, steps[k]); }
    }
  }

  lemma {:induction false} WeightBound(ws: seq<Thread>)
    requires forall i :: 0 <= i < |ws| ==> ThreadOk(ws[i])
    ensures 0 <= Sum(Weight, ws) <= 4 * Sum(Held, ws) + |ws|
  {
    if ws != [] { WeightBound(ws[..|ws| - 1]); }
  }

  /**
   A Wait that has not returned yet has taken at most four steps for each check to
   do, one for each thread, and one for each spurious wake-up. Since it can always
   take another step, it returns.
   */
  lemma WaitIsBounded(s: State, steps: seq<Step>)
    requires Inv(s) && s.master.Inside? && Run(s, steps).Some?
    requires |Run(s, steps).value.sessions| == |s.sessions|
    ensures CountSteps(steps, false) <= 4 * s.nTodo + |s.workers| + 1 + CountSteps(steps, true)
  {
    RunWorks(s, steps);
    var t := Run(s, steps).value;
    WeightBound(s.workers);
    WeightBound(t.workers);
  }
}
