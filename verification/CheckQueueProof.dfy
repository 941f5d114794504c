/**
 Safety of the verification queue in every interleaving, freedom from deadlock,
 and a bound on how long a Wait can take.
 */
module CheckQueueProof {
  import Digits
  import opened CheckQueue
  import opened Sums

  // ---- accounts ----

  lemma Accounts(s: State, i: int, t: Thread)
    requires 0 <= i < |s.workers|
    ensures Sum(Held, s.workers[i := t]) == Sum(Held, s.workers) - Held(s.workers[i]) + Held(t)
    ensures Sum(Idle, s.workers[i := t]) == Sum(Idle, s.workers) - Idle(s.workers[i]) + Idle(t)
    ensures Sum(Running, s.workers[i := t]) == Sum(Running, s.workers) - Running(s.workers[i]) + Running(t)
  {
    SumUpdate(Held, s.workers, i, t);
    SumUpdate(Idle, s.workers, i, t);
    SumUpdate(Running, s.workers, i, t);
  }

  lemma NonNegative(s: State)
    requires Accounted(s)
    ensures s.nIdle >= 0 && s.nTotal >= 0 && s.nTodo >= |s.queue|
    ensures forall i :: 0 <= i < |s.workers| && s.workers[i].Notified? ==> s.nIdle >= 1
    ensures forall i :: 0 <= i < |s.workers| ==> s.nTodo >= |s.queue| + Held(s.workers[i]) + MasterTerm(Held, s.master)
    ensures s.master.Inside? ==> s.nIdle >= Idle(s.master.thread)
  {
    SumAtLeast(Held, s.workers, 0);
    SumAtLeast(Idle, s.workers, 0);
    SumAtLeast(Running, s.workers, 0);
    forall i | 0 <= i < |s.workers|
      ensures s.nIdle >= Idle(s.workers[i])
      ensures s.nTodo >= |s.queue| + Held(s.workers[i]) + MasterTerm(Held, s.master)
    {
      SumAtLeast(Held, s.workers, i);
      SumAtLeast(Idle, s.workers, i);
    }
  }

  /** A share is never empty and never more than the queue. */
  lemma ShareFits(s: State)
    requires s.queue != [] && s.nTotal >= 0 && s.nIdle >= 0
    ensures 1 <= Share(s) <= |s.queue|
  {
    Digits.DivideLess(|s.queue|, s.nTotal + s.nIdle + 1);
  }

  lemma AllTrueSplit(cs: seq<Check>, n: int)
    requires 0 <= n <= |cs|
    ensures AllTrue(cs) <==> AllTrue(cs[..n]) && AllTrue(cs[n..])
  {
    if AllTrue(cs[..n]) && AllTrue(cs[n..]) {
      forall i | 0 <= i < |cs| ensures cs[i].result {
        if i < n { assert cs[..n][i].result; } else { assert cs[n..][i - n].result; }
      }
    }
  }

  lemma AllTrueJoin(a: seq<Check>, b: seq<Check>)
    ensures AllTrue(a + b) <==> AllTrue(a) && AllTrue(b)
  {
    AllTrueSplit(a + b, |a|);
    assert (a + b)[..|a|] == a && (a + b)[|a|..] == b;
  }

  // ---- what the threads still promise ----

  /** The promises of everyone but worker `i`. */
  ghost predicate OthersPromising(s: State, i: int) {
    && (forall j :: 0 <= j < |s.workers| && j != i ==> Promising(s.workers[j]))
    && (s.master.Inside? ==> Promising(s.master.thread))
  }

  lemma SplitPromises(s: State, i: int)
    requires 0 <= i < |s.workers|
    ensures AllPromising(s) <==>
            s.allOk && AllTrue(s.queue) && Promising(s.workers[i]) && OthersPromising(s, i)
  {
  }

  lemma OthersSame(s: State, t: State, i: int)
    requires |s.workers| == |t.workers| && s.master == t.master
    requires forall j :: 0 <= j < |s.workers| && j != i ==> s.workers[j] == t.workers[j]
    ensures OthersPromising(s, i) <==> OthersPromising(t, i)
  {
    assert forall j :: 0 <= j < |s.workers| && j != i ==> (Promising(s.workers[j]) <==> Promising(t.workers[j]));
  }

  /** Taking a batch hands its part of the promise from the queue to the thread. */
  lemma TakenPromises(s: State)
    requires s.queue != [] && s.nTotal >= 0 && s.nIdle >= 0
    ensures 1 <= Share(s) <= |s.queue|
    ensures var (v, job) := Taken(s);
            && ThreadOk(job) && Held(job) == |s.queue| - |v.queue|
            && (v.allOk && AllTrue(v.queue) && Promising(job) <==> s.allOk && AllTrue(s.queue))
  {
    ShareFits(s);
    var n := |s.queue| - Share(s);
    AllTrueSplit(s.queue, n);
    assert s.queue[n..][0..] == s.queue[n..];
  }

  lemma ExecutePromises(t: Thread)
    requires t.Busy? && t.done < |t.batch|
    ensures Promising(Execute(t)) <==> Promising(t)
  {
    var rest := t.batch[t.done..];
    AllTrueSplit(rest, 1);
    assert rest[..1] == [t.batch[t.done]] && rest[1..] == t.batch[t.done + 1..];
  }

  // ---- every step keeps the invariant ----

  lemma InitInv(batchSize: nat, n: nat)
    ensures Inv(Init(batchSize, n))
  {
    var s := Init(batchSize, n);
    SumZero(Held, s.workers);
    SumZero(Idle, s.workers);
    SumZero(Running, s.workers);
  }

  /** A worker that has cleaned up goes to sleep or takes work. */
  lemma WorkerSettles(s: State, u: State, i: int)
    requires Inv(s) && 0 <= i < |s.workers|
    requires u.workers == s.workers && u.added == s.added && u.sessions == s.sessions && u.batchSize == s.batchSize
    requires u.queue == s.queue
    // the accounts of `u` leave worker `i` out, except that it is running
    requires u.nTodo == |u.queue| + Sum(Held, s.workers) - Held(s.workers[i]) + MasterTerm(Held, u.master)
    requires u.nIdle == Sum(Idle, s.workers) - Idle(s.workers[i]) + MasterTerm(Idle, u.master)
    requires u.nTotal == Sum(Running, s.workers) - Running(s.workers[i]) + 1 + MasterTerm(Running, u.master)
    requires u.allOk && AllTrue(u.queue) && OthersPromising(u, i) <==> AllTrue(s.added)
    requires u.master.Inside? ==> ThreadOk(u.master.thread)
    requires u.master == Inside(Asleep) ==> u.queue == [] && u.nTodo > 0
    requires u.nIdle >= 0 && u.nTotal >= 0
    ensures u.queue == [] ==> Inv(u.(nIdle := u.nIdle + 1, workers := u.workers[i := Asleep]))
    ensures u.queue != [] ==>
              && 1 <= Share(u) <= |u.queue|
              && var (v, job) := Taken(u); Inv(v.(workers := v.workers[i := job]))
  {
    if u.queue == [] {
      var v := u.(nIdle := u.nIdle + 1, workers := u.workers[i := Asleep]);
      Accounts(s, i, Asleep);
      SplitPromises(v, i);
      OthersSame(u, v, i);
    } else {
      TakenPromises(u);
      var (r, job) := Taken(u);
      var v := r.(workers := r.workers[i := job]);
      Accounts(s, i, job);
      SplitPromises(v, i);
      OthersSame(u, v, i);
    }
  }

  lemma WorkerEntersKeeps(s: State, i: int)
    requires Inv(s) && 0 <= i < |s.workers| && Ready(s.workers[i])
    ensures WorkerEnters(s, i).Some? && Inv(WorkerEnters(s, i).value)
  {
    hide Inv, Taken, Share, Sum;
    InvParts(s);
    NonNegative(s);
    SplitPromises(s, i);
    var t := CleanUp(s, s.workers[i]);
    var u := if s.workers[i].Busy? && t.nTodo == 0 && t.master == Inside(Asleep) then t.(master := Inside(Notified))
             else t;
    SumsWithout(s, i);
    if s.workers[i].Busy? { assert s.workers[i].batch[s.workers[i].done..] == []; }
    WorkerSettles(s, u, i);
  }

  lemma InvParts(s: State)
    requires Inv(s)
    ensures Accounted(s) && (AllPromising(s) <==> AllTrue(s.added))
    ensures forall i :: 0 <= i < |s.workers| ==> ThreadOk(s.workers[i])
    ensures s.master.Inside? ==> ThreadOk(s.master.thread)
    ensures s.master == Inside(Asleep) ==> s.queue == [] && s.nTodo > 0
  {
  }

  lemma SumsWithout(s: State, i: int)
    requires 0 <= i < |s.workers|
    ensures Sum(Held, s.workers) >= Held(s.workers[i])
    ensures Sum(Idle, s.workers) >= Idle(s.workers[i])
    ensures Sum(Running, s.workers) >= Running(s.workers[i])
  {
    SumAtLeast(Held, s.workers, i);
    SumAtLeast(Idle, s.workers, i);
    SumAtLeast(Running, s.workers, i);
  }

  ghost predicate WorkersPromising(s: State) {
    forall j :: 0 <= j < |s.workers| ==> Promising(s.workers[j])
  }

  /**
   When the master leaves Wait, its result is right for exactly the checks added
   in this session, and nothing of the session is left behind.
   */
  lemma MasterLeaves(s: State)
    requires Inv(s) && s.master.Inside? && Ready(s.master.thread)
    requires MasterEnters(s).Some? && MasterEnters(s).value.master.Outside?
    ensures var t := MasterEnters(s).value;
            && t.sessions == s.sessions + [Session(s.added, AllTrue(s.added), s.executed)]
            && t.executed == [] && t.skipped == []
            && t.queue == [] && t.nTodo == 0 && t.allOk && t.added == []
            && forall i :: 0 <= i < |t.workers| ==> !t.workers[i].Busy?
  {
    var u := CleanUp(s, s.master.thread);
    forall i | 0 <= i < |s.workers|
      ensures !s.workers[i].Busy?
    {
      SumAtLeast(Held, s.workers, i);
      assert ThreadOk(s.workers[i]);
    }
    if s.master.thread.Busy? { assert s.master.thread.batch[s.master.thread.done..] == []; }
  }

  /** A master that has cleaned up and stays goes to sleep or takes work. */
  lemma MasterSettles(s: State, u: State)
    requires Inv(s)
    requires u.workers == s.workers && u.added == s.added && u.sessions == s.sessions
    // the accounts of `u` leave the master out, except that it is running
    requires u.nTodo == |u.queue| + Sum(Held, s.workers)
    requires u.nIdle == Sum(Idle, s.workers) && u.nIdle >= 0
    requires u.nTotal == Sum(Running, s.workers) + 1 && u.nTotal >= 0
    requires u.allOk && AllTrue(u.queue) && WorkersPromising(s) <==> AllTrue(s.added)
    ensures u.queue == [] && u.nTodo != 0 ==> Inv(u.(nIdle := u.nIdle + 1, master := Inside(Asleep)))
    ensures u.queue != [] ==>
              && 1 <= Share(u) <= |u.queue|
              && var (v, job) := Taken(u); Inv(v.(master := Inside(job)))
  {
    if u.queue != [] {
      TakenPromises(u);
      var (r, job) := Taken(u);
      var t := r.(master := Inside(job));
      assert AllPromising(t) <==> r.allOk && AllTrue(r.queue) && Promising(job) && WorkersPromising(s);
    } else if u.nTodo != 0 {
      SumAtLeast(Held, s.workers, 0);
      var t := u.(nIdle := u.nIdle + 1, master := Inside(Asleep));
      assert AllPromising(t) <==> u.allOk && AllTrue(u.queue) && WorkersPromising(s);
    }
  }

  lemma MasterEntersKeeps(s: State)
    requires Inv(s) && s.master.Inside? && Ready(s.master.thread)
    ensures MasterEnters(s).Some? && Inv(MasterEnters(s).value)
  {
    hide Taken, Share, Sum;
    var u := CleanUp(s, s.master.thread);
    SumAtLeast(Idle, s.workers, 0);
    SumAtLeast(Running, s.workers, 0);
    if s.master.thread.Busy? { assert s.master.thread.batch[s.master.thread.done..] == []; }
    assert AllPromising(s) <==> u.allOk && AllTrue(u.queue) && WorkersPromising(s);
    MasterSettles(s, u);
    if u.queue == [] && u.nTodo == 0 { MasterLeavesKeeps(s); }
  }

  lemma MasterLeavesKeeps(s: State)
    requires Inv(s) && s.master.Inside? && Ready(s.master.thread)
    requires MasterEnters(s).Some? && MasterEnters(s).value.master.Outside?
    ensures Inv(MasterEnters(s).value)
  {
    MasterLeaves(s);
    assert AllPromising(MasterEnters(s).value);
  }

  lemma AddKeeps(s: State, checks: seq<Check>)
    requires Inv(s) && s.master.Outside? && checks != []
    ensures Inv(Next(s, Add(checks)).value)
  {
    AllTrueJoin(s.queue, checks);
    AllTrueJoin(s.added, checks);
    var t := Next(s, Add(checks)).value;
    assert AllPromising(t) <==> AllPromising(s) && AllTrue(checks);
  }

  /** Replacing a worker by one with the same accounts and the same promise. */
  lemma WorkerChanges(s: State, t: State, i: int, w: Thread)
    requires Inv(s) && 0 <= i < |s.workers| && ThreadOk(w)
    requires t == s.(workers := s.workers[i := w], master := t.master, executed := t.executed, skipped := t.skipped)
    requires t.master == s.master || (s.master.Adding? && t.master.Outside?)
    requires Held(w) == Held(s.workers[i]) && Idle(w) == Idle(s.workers[i]) && Running(w) == Running(s.workers[i])
    requires Promising(w) <==> Promising(s.workers[i])
    ensures Inv(t)
  {
    Accounts(s, i, w);
    SplitPromises(s, i);
    SplitPromises(t, i);
    OthersSame(s.(master := t.master), t, i);
  }

  lemma MasterChanges(s: State, t: State)
    requires Inv(s) && s.master.Inside? && t.master.Inside? && !t.master.thread.Asleep? && ThreadOk(t.master.thread)
    requires t == s.(master := t.master, executed := t.executed, skipped := t.skipped)
    requires var (v, w) := (s.master.thread, t.master.thread);
             && Held(w) == Held(v) && Idle(w) == Idle(v) && Running(w) == Running(v)
             && (Promising(w) <==> Promising(v))
    ensures Inv(t)
  {
    assert AllPromising(s) <==> AllPromising(t);
  }

  /** Waking a thread changes neither its accounts nor its promise. */
  lemma WokenAlike(ws: seq<Thread>)
    ensures |WakeAll(ws)| == |ws|
    ensures forall i :: 0 <= i < |ws| ==>
              var (w, v) := (ws[i], WakeAll(ws)[i]);
              && Held(v) == Held(w) && Idle(v) == Idle(w) && Running(v) == Running(w)
              && (Promising(v) <==> Promising(w)) && (ThreadOk(w) ==> ThreadOk(v))
  {
    hide WakeAll;
    WakeAllAt(ws);
  }

  lemma WakeAllAccounts(s: State)
    requires Accounted(s) && s.master.Adding?
    ensures Accounted(s.(workers := WakeAll(s.workers), master := Outside))
  {
    hide WakeAll, Held, Idle, Running, Promising, ThreadOk, Sum;
    WokenAlike(s.workers);
    SumSame(Held, s.workers, WakeAll(s.workers));
    SumSame(Idle, s.workers, WakeAll(s.workers));
    SumSame(Running, s.workers, WakeAll(s.workers));
  }

  lemma WakeAllPromises(s: State)
    requires s.master.Adding?
    ensures AllPromising(s.(workers := WakeAll(s.workers), master := Outside)) <==> AllPromising(s)
  {
    hide WakeAll, Held, Idle, Running, Promising, ThreadOk, AllTrue;
    WokenAlike(s.workers);
  }

  lemma WakeAllKeeps(s: State)
    requires Inv(s) && s.master.Adding?
    ensures Inv(s.(workers := WakeAll(s.workers), master := Outside))
  {
    hide WakeAll, Held, Idle, Running, Promising, ThreadOk, AllTrue, AllPromising, Accounted;
    WokenAlike(s.workers);
    WakeAllAccounts(s);
    WakeAllPromises(s);
  }

  lemma NotifyKeeps(s: State, choice: int)
    requires Inv(s) && Next(s, Notify(choice)).Some?
    ensures Inv(Next(s, Notify(choice)).value)
  {
    var t := Next(s, Notify(choice)).value;
    if s.master.count != 1 {
      WakeAllKeeps(s);
    } else if 0 <= choice < |s.workers| && s.workers[choice].Asleep? {
      WorkerChanges(s, t, choice, Notified);
    } else {
      assert AllPromising(s) <==> AllPromising(t);
    }
  }

  /** Every step keeps the invariant. */
  lemma StepKeeps(s: State, step: Step)
    requires Inv(s) && Next(s, step).Some?
    ensures Inv(Next(s, step).value)
  {
    hide Inv, MasterEnters, WorkerEnters, Promising;
    InvParts(s);
    var t := Next(s, step).value;
    match step
    case Add(checks) => AddKeeps(s, checks);
    case Notify(choice) => NotifyKeeps(s, choice);
    case CallWait => CallWaitKeeps(s);
    case MasterSection => MasterEntersKeeps(s);
    case WorkerSection(i) => WorkerEntersKeeps(s, i);
    case MasterCheck =>
      ExecutePromises(s.master.thread);
      MasterChanges(s, t);
    case WorkerCheck(i) =>
      ExecutePromises(s.workers[i]);
      WorkerChanges(s, t, i, Execute(s.workers[i]));
    case WakeMaster => WakeMasterKeeps(s);
    case WakeWorker(i) => WakeWorkerKeeps(s, i);
  }

  lemma CallWaitKeeps(s: State)
    requires Inv(s) && s.master.Outside?
    ensures Inv(s.(master := Inside(Starting)))
  {
    assert AllPromising(s) <==> AllPromising(s.(master := Inside(Starting)));
  }

  lemma WakeMasterKeeps(s: State)
    requires Inv(s) && s.master == Inside(Asleep)
    ensures Inv(s.(master := Inside(Notified)))
  {
    MasterChanges(s, s.(master := Inside(Notified)));
  }

  lemma WakeWorkerKeeps(s: State, i: int)
    requires Inv(s) && 0 <= i < |s.workers| && s.workers[i].Asleep?
    ensures Inv(s.(workers := s.workers[i := Notified]))
  {
    WorkerChanges(s, s.(workers := s.workers[i := Notified]), i, Notified);
  }
}
