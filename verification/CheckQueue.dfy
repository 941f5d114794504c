/**
 The verification queue: one master and any number of workers over a shared stack
 of checks, one mutex and two condition variables. A step is one critical
 section, the execution of one check outside it, a notification, or a wake-up.
 */
module CheckQueue {
  import opened Basics
  import opened Sums

  /** A queued verification and what it evaluates to. */
  datatype Check = Check(id: int, result: bool)

  predicate AllTrue(cs: seq<Check>) {
    forall i :: 0 <= i < |cs| ==> cs[i].result
  }

  /**
   Where a thread is in Loop: before its first critical section, in `wait`, woken
   but without the mutex, or executing a batch with the first `done` checks done.
   */
  datatype Thread = Starting | Asleep | Notified | Busy(batch: seq<Check>, done: nat, ok: bool)

  /** The master adds batches, owes a notification after each, and joins in Wait. */
  datatype Master = Outside | Adding(count: nat) | Inside(thread: Thread)

  /** A session that has ended: what was added, what Wait returned, what was executed. */
  datatype Session = Session(checks: seq<Check>, result: bool, executed: seq<Check>)

  datatype State = State(
    queue: seq<Check>,
    nIdle: int,
    nTotal: int,
    allOk: bool,
    nTodo: int,
    batchSize: nat,
    workers: seq<Thread>,
    master: Master,
    // history: the checks of the current session, those executed and those passed
    // over after a failure, and the sessions that have ended
    added: seq<Check>,
    executed: seq<Check>,
    skipped: seq<Check>,
    sessions: seq<Session>)

  function Init(batchSize: nat, n: nat): State {
    State([], 0, 0, true, 0, batchSize, seq(n, _ => Starting), Outside, [], [], [], [])
  }

  // ---- steps ----

  datatype Step =
    | Add(checks: seq<Check>)
    | Notify(choice: int)
    | CallWait
    | MasterSection
    | WorkerSection(i: int)
    | MasterCheck
    | WorkerCheck(i: int)
    | WakeMaster
    | WakeWorker(i: int)

  /** How many checks to take: at least one, at most a batch, fewer as the queue empties. */
  function Share(s: State): int
    requires s.nTotal + s.nIdle + 1 > 0
  {
    Max(1, Min(s.batchSize, |s.queue| / (s.nTotal + s.nIdle + 1)))
  }

  /** A thread may enter a critical section unless it is asleep or still has checks to do. */
  predicate Ready(t: Thread) {
    t.Starting? || t.Notified? || (t.Busy? && t.done == |t.batch|)
  }

  /** What a thread does first in a critical section: account for what it did. */
  function CleanUp(s: State, t: Thread): State
    requires Ready(t)
  {
    match t
    case Starting => s.(nTotal := s.nTotal + 1)
    case Notified => s.(nIdle := s.nIdle - 1)
    case Busy(batch, _, ok) => s.(allOk := s.allOk && ok, nTodo := s.nTodo - |batch|)
  }

  /** Then it takes a batch off the end of the queue. */
  function Taken(s: State): (State, Thread)
    requires s.nTotal + s.nIdle + 1 > 0 && Share(s) <= |s.queue|
  {
    var n := |s.queue| - Share(s);
    (s.(queue := s.queue[..n]), Busy(s.queue[n..], 0, s.allOk))
  }

  /** A worker's critical section: clean up, tell the master if all is done, take work or sleep. */
  function WorkerEnters(s: State, i: int): Option<State>
    requires 0 <= i < |s.workers| && Ready(s.workers[i])
  {
    var t := CleanUp(s, s.workers[i]);
    var u := if s.workers[i].Busy? && t.nTodo == 0 && t.master == Inside(Asleep) then t.(master := Inside(Notified))
             else t;
    if u.queue == [] then Some(u.(nIdle := u.nIdle + 1, workers := u.workers[i := Asleep]))
    else if u.nTotal + u.nIdle + 1 > 0 && Share(u) <= |u.queue| then
      var (v, job) := Taken(u);
      Some(v.(workers := v.workers[i := job]))
    else None
  }

  /** The master's critical section: like a worker's, but it leaves when nothing is left to do. */
  function MasterEnters(s: State): Option<State>
    requires s.master.Inside? && Ready(s.master.thread)
  {
    var u := CleanUp(s, s.master.thread);
    if u.queue == [] then
      if u.nTodo == 0 then
        Some(u.(nTotal := u.nTotal - 1, allOk := true, master := Outside,
                added := [], executed := [], skipped := [],
                sessions := u.sessions + [Session(u.added, u.allOk, u.executed)]))
      else Some(u.(nIdle := u.nIdle + 1, master := Inside(Asleep)))
    else if u.nTotal + u.nIdle + 1 > 0 && Share(u) <= |u.queue| then
      var (v, job) := Taken(u);
      Some(v.(master := Inside(job)))
    else None
  }

  /** The next check of a batch is executed only if none has failed so far. */
  function Execute(t: Thread): Thread
    requires t.Busy? && t.done < |t.batch|
  {
    t.(done := t.done + 1, ok := if t.ok then t.batch[t.done].result else t.ok)
  }

  /** The history of executing the next check of a batch. */
  function Recorded(s: State, t: Thread): State
    requires t.Busy? && t.done < |t.batch|
  {
    if t.ok then s.(executed := s.executed + [t.batch[t.done]]) else s.(skipped := s.skipped + [t.batch[t.done]])
  }

  function Wake(t: Thread): Thread {
    if t.Asleep? then Notified else t
  }

  function WakeAll(ws: seq<Thread>): seq<Thread> {
    if ws == [] then [] else WakeAll(ws[..|ws| - 1]) + [Wake(ws[|ws| - 1])]
  }

  /** The state after a step, if the step can be taken. */
  function Next(s: State, step: Step): Option<State> {
    match step
    case Add(checks) =>
      if s.master.Outside? && checks != [] then
        Some(s.(queue := s.queue + checks, nTodo := s.nTodo + |checks|,
                master := Adding(|checks|), added := s.added + checks))
      else None
    case Notify(choice) =>
      if !s.master.Adding? then None
      else if s.master.count == 1 then
        if 0 <= choice < |s.workers| && s.workers[choice].Asleep?
        then Some(s.(workers := s.workers[choice := Notified], master := Outside))
        else if Asleep in s.workers then None
        else Some(s.(master := Outside))
      else Some(s.(workers := WakeAll(s.workers), master := Outside))
    case CallWait => if s.master.Outside? then Some(s.(master := Inside(Starting))) else None
    case MasterSection =>
      if s.master.Inside? && Ready(s.master.thread) then MasterEnters(s) else None
    case WorkerSection(i) =>
      if 0 <= i < |s.workers| && Ready(s.workers[i]) then WorkerEnters(s, i) else None
    case MasterCheck =>
      if s.master.Inside? && s.master.thread.Busy? && s.master.thread.done < |s.master.thread.batch|
      then Some(Recorded(s, s.master.thread).(master := Inside(Execute(s.master.thread)))) else None
    case WorkerCheck(i) =>
      if 0 <= i < |s.workers| && s.workers[i].Busy? && s.workers[i].done < |s.workers[i].batch|
      then Some(Recorded(s, s.workers[i]).(workers := s.workers[i := Execute(s.workers[i])])) else None
    case WakeMaster =>
      if s.master == Inside(Asleep) then Some(s.(master := Inside(Notified))) else None
    case WakeWorker(i) =>
      if 0 <= i < |s.workers| && s.workers[i].Asleep? then Some(s.(workers := s.workers[i := Notified])) else None
  }

  lemma {:induction false} WakeAllAt(ws: seq<Thread>)
    ensures |WakeAll(ws)| == |ws|
    ensures forall i :: 0 <= i < |ws| ==> WakeAll(ws)[i] == Wake(ws[i])
  {
    if ws != [] { WakeAllAt(ws[..|ws| - 1]); }
  }

  // ---- the invariant ----

  function Held(t: Thread): int { if t.Busy? then |t.batch| else 0 }

  function Idle(t: Thread): int { if t.Asleep? || t.Notified? then 1 else 0 }

  function Running(t: Thread): int { if t.Starting? then 0 else 1 }

  function MasterTerm(f: Thread -> int, m: Master): int {
    if m.Inside? then f(m.thread) else 0
  }

  predicate ThreadOk(t: Thread) {
    t.Busy? ==> 1 <= |t.batch| && t.done <= |t.batch|
  }

  /** What a thread will still contribute to the result. */
  predicate Promising(t: Thread) {
    t.Busy? && t.done <= |t.batch| ==> t.ok && AllTrue(t.batch[t.done..])
  }

  ghost predicate AllPromising(s: State) {
    && s.allOk && AllTrue(s.queue)
    && (forall i :: 0 <= i < |s.workers| ==> Promising(s.workers[i]))
    && (s.master.Inside? ==> Promising(s.master.thread))
  }

  ghost predicate Accounted(s: State) {
    && s.nTodo == |s.queue| + Sum(Held, s.workers) + MasterTerm(Held, s.master)
    && s.nIdle == Sum(Idle, s.workers) + MasterTerm(Idle, s.master)
    && s.nTotal == Sum(Running, s.workers) + MasterTerm(Running, s.master)
  }

  function Count(c: Check, cs: seq<Check>): int { multiset(cs)[c] }

  /** How often a check is among those a thread has taken and not yet reached. */
  function Ahead(c: Check): Thread -> int {
    (t: Thread) => if t.Busy? && t.done <= |t.batch| then Count(c, t.batch[t.done..]) else 0
  }

  /** An added check is in the queue, ahead of one thread, executed or passed over. */
  ghost predicate Placed(s: State, c: Check) {
    Count(c, s.added) ==
    Count(c, s.queue) + Sum(Ahead(c), s.workers) + MasterTerm(Ahead(c), s.master) +
    Count(c, s.executed) + Count(c, s.skipped)
  }

  /** Every added check is in exactly one place, and a check is passed over only after a failure. */
  ghost predicate Conserved(s: State) {
    && (forall c :: Placed(s, c))
    && (AllTrue(s.added) ==> s.skipped == [])
  }

  /** Wait returned whether all checks of the session hold, and if so all were executed, each once. */
  ghost predicate SessionOk(x: Session) {
    && (x.result <==> AllTrue(x.checks))
    && multiset(x.executed) <= multiset(x.checks)
    && (x.result ==> multiset(x.executed) == multiset(x.checks))
  }

  ghost predicate Inv(s: State) {
    && Accounted(s)
    && (forall i :: 0 <= i < |s.workers| ==> ThreadOk(s.workers[i]))
    && (s.master.Inside? ==> ThreadOk(s.master.thread))
    && (AllPromising(s) <==> AllTrue(s.added))
    && (s.master == Inside(Asleep) ==> s.queue == [] && s.nTodo > 0)
  }
}
