/** What thpool_destroy can leave behind: a worker that has still to unlock thcount_lock, and a caller of
    thpool_wait that is never signalled. */
module PoolLeftovers {
  import opened Counting
  import opened JobQueues
  import opened ThreadPool
  import opened PoolSafety
  import opened PoolProgress
  import opened PoolRuns
  import opened PoolShutdown

  // ---- Leaving ----

  // A worker that is told to leave, up to its last unlock.
  lemma CountsOut(s: State, w: nat) returns (actions: seq<Action>, t: State)
    requires w < |s.workers| && s.workers[w] == Test && !s.keepalive && CountLockFree(s)
    ensures Runs(s, actions, t) && t == s.(workers := s.workers[w := LastUnlock], alive := s.alive - 1)
  {
    var u: State;
    assert Runs(s, [], s);
    actions, u := Then(s, [], s, WorkerStep(w, Nobody));
    assert u == s.(workers := s.workers[w := Exit]) && CountLockFree(u);
    actions, t := Then(s, actions, u, WorkerStep(w, Nobody));
    assert t.workers == s.workers[w := LastUnlock];
  }

  lemma Leaves(s: State, w: nat) returns (actions: seq<Action>, t: State)
    requires w < |s.workers| && s.workers[w] == Test && !s.keepalive && CountLockFree(s)
    ensures Runs(s, actions, t) && t == s.(workers := s.workers[w := Exited], alive := s.alive - 1)
  {
    var u;
    actions, u := CountsOut(s, w);
    actions, t := Then(s, actions, u, WorkerStep(w, Nobody));
    assert t.workers == s.workers[w := Exited];
  }

  // The first k workers leave.
  lemma {:induction false} LeaveUpTo(s: State, k: nat) returns (actions: seq<Action>, t: State)
    requires k <= |s.workers| && AllAt(s.workers, 0, |s.workers|, Test)
    requires !s.keepalive && !HoldsCountLock(s.waiter)
    ensures Runs(s, actions, t) && t == s.(workers := t.workers, alive := s.alive - k)
    ensures |t.workers| == |s.workers|
    ensures AllAt(t.workers, 0, k, Exited) && AllAt(t.workers, k, |t.workers|, Test)
  {
    if k == 0 {
      actions, t := [], s;
    } else {
      var before, u := LeaveUpTo(s, k - 1);
      assert CountLockFree(u);
      var last;
      last, t := Leaves(u, k - 1);
      RunsJoin(s, before, u, last, t);
      actions := before + last;
    }
  }

  // ---- The last unlock ----

  /** When thpool_destroy is done every worker has unlocked thcount_lock, whatever the scheduling. */
  ghost predicate NobodyLeftOver(n: int) {
    forall actions, s, w :: Runs(Init(n), actions, s) && s.destroyer.Destroyed? && 0 <= w < |s.workers| ==>
      s.workers[w].Exited?
  }

  // Once num_threads_alive is 0 the destroyer is through in three tests, when nothing is queued.
  lemma DestroyedAtOnce(s: State) returns (actions: seq<Action>, t: State)
    requires s.destroyer.TimedTest? && s.alive == 0 && s.queue == [] && s.rw.Free?
    ensures Runs(s, actions, t) && t.destroyer.Destroyed? && t.workers == s.workers
  {
    assert Runs(s, [], s);
    actions, t := Then(s, [], s, DestroyStep(false));
    actions, t := Then(s, actions, t, DestroyStep(false));
    actions, t := Then(s, actions, t, DestroyStep(false));
  }

  /** For every pool with a worker there is a run in which thpool_destroy is done while the last worker
      still holds thcount_lock. */
  lemma UnlockAfterDestroy(n: nat) returns (actions: seq<Action>, s: State)
    requires n >= 1
    ensures Runs(Init(n), actions, s) && s.destroyer.Destroyed?
    ensures |s.workers| == n && AllAt(s.workers, 0, n - 1, Exited) && s.workers[n - 1] == LastUnlock
  {
    var t: State, xs: seq<Action>;
    actions, t := NewPool(n);
    actions, t := Then(Init(n), actions, t, DestroyCall);
    var u;
    xs, u := LeaveUpTo(t, n - 1);
    RunsJoin(Init(n), actions, t, xs, u);
    actions := actions + xs;
    var v;
    xs, v := CountsOut(u, n - 1);
    RunsJoin(Init(n), actions, u, xs, v);
    actions := actions + xs;
    xs, s := DestroyedAtOnce(v);
    RunsJoin(Init(n), actions, v, xs, s);
    actions := actions + xs;
  }

  /** So the pool is certain to be freed after its workers are through with it exactly if it has none. */
  lemma NobodyLeftOverIff(n: int)
    ensures NobodyLeftOver(n) <==> n <= 0
  {
    if n >= 1 {
      var actions, s := UnlockAfterDestroy(n);
      assert !s.workers[n - 1].Exited?;
    } else {
      forall actions, s | Runs(Init(n), actions, s)
        ensures |s.workers| == 0
      {
        Reached(n, actions, s);
      }
    }
  }

  // ---- The caller of thpool_wait ----

  /** Queued jobs for which no worker is on its way any more, once the workers are told to leave. */
  function Unserved(s: State): nat {
    var takers := Sum(OnWayBit, s.workers);
    if |s.queue| > takers then |s.queue| - takers else 0
  }

  // Inside thpool_wait, and not past a read of len that gave 0.
  predicate InWait(p: WaiterPc) {
    p.Locking? || p.ReadLen? || p.GoToSleep? || p.Sleeping? || p.Signalled?
  }

  // Everything but new calls.
  predicate NoSubmissions(actions: seq<Action>) {
    forall i :: 0 <= i < |actions| ==> NoCall(actions[i]) || actions[i].DestroyStep?
  }

  lemma UnservedAfterWorker(s: State, w: nat, wake: Wake)
    requires !s.keepalive && w < |s.workers| && WorkerEnabled(s, w, wake)
    ensures Unserved(ApplyWorker(s, w, wake)) == Unserved(s)
  {
    WorkersAfter(s, w, wake);
    HistoryAfter(s, w, wake);
    SumMoved(OnWayBit, s.workers, w, NextPc(s, w), if s.workers[w].Holding? then wake else Nobody);
  }

  lemma UnservedAfterDestroyer(s: State, timeout: bool)
    requires Enabled(s, DestroyStep(timeout)) && !Cleaning(s)
    ensures Unserved(ApplyDestroyer(s, timeout)) == Unserved(s)
  {
    SumAllWoken(OnWayBit, s.workers);
  }

  lemma UnservedKept(s: State, a: Action)
    requires !s.keepalive && Enabled(s, a) && !Cleaning(s) && (NoCall(a) || a.DestroyStep?)
    ensures Unserved(Apply(s, a)) == Unserved(s)
  {
    match a
    case WorkerStep(w, wake) => UnservedAfterWorker(s, w, wake);
    case DestroyStep(timeout) => UnservedAfterDestroyer(s, timeout);
    case PushEnd(wake) => SumWoken(OnWayBit, s.workers, wake);
    case Spurious(w) => SumUpdate(OnWayBit, s.workers, w, AtSem);
    case _ => ElsewhereAfter(s, a);
  }

  lemma InWaitKept(s: State, a: Action)
    requires Enabled(s, a) && (NoCall(a) || a.DestroyStep?)
    ensures InWait(s.waiter) && s.queue != [] ==> InWait(Apply(s, a).waiter)
    ensures !s.waiter.NotWaiting? ==> !Apply(s, a).waiter.NotWaiting?
  {
    WaiterAfter(s, a);
  }

  lemma {:induction false} WaitAlong(s: State, actions: seq<Action>, t: State)
    requires !s.keepalive && Runs(s, actions, t) && NoSubmissions(actions) && !Cleaning(t)
    ensures Unserved(t) == Unserved(s)
    ensures InWait(s.waiter) && Unserved(s) > 0 ==> InWait(t.waiter)
    ensures !s.waiter.NotWaiting? ==> !t.waiter.NotWaiting?
    decreases |actions|
  {
    if actions != [] {
      if Cleaning(s) {
        CleaningAlong(s, actions, t);
      } else {
        UnservedKept(s, actions[0]);
        InWaitKept(s, actions[0]);
        KeepaliveStays(s, actions[0]);
        WaitAlong(Apply(s, actions[0]), actions[1..], t);
      }
    }
  }

  /** A caller that is in thpool_wait when thpool_destroy begins: with more jobs queued than workers on
      their way to the queue it does not return, however often it wakes spuriously, before the destroyer
      clears the queue; and where the pool comes to rest before that, it has returned exactly if there
      were not more. */
  lemma WaitReturnsIff(n: int, before: seq<Action>, s: State, actions: seq<Action>, t: State)
    requires Runs(Init(n), before, s) && !s.keepalive
    requires Runs(s, actions, t) && NoSubmissions(actions)
    ensures InWait(s.waiter) && !Cleaning(t) && |s.queue| > Sum(OnWayBit, s.workers) ==> InWait(t.waiter)
    ensures InWait(s.waiter) && !Cleaning(t) && Quiescent(t) ==>
      (t.waiter.Returned? <==> |s.queue| <= Sum(OnWayBit, s.workers))
  {
    if InWait(s.waiter) && !Cleaning(t) {
      WaitAlong(s, actions, t);
      Reached(n, before, s);
      InvAlong(s, actions, t);
      if Quiescent(t) {
        QuiescentMeans(t);
        SumZero(OnWayBit, t.workers);
      }
    }
  }

  lemma GoneForGood(s: State, a: Action)
    requires AllAt(s.workers, 0, |s.workers|, Exited) && s.waiter.Sleeping?
    requires Enabled(s, a) && !a.SpuriousWaiter?
    ensures var t := Apply(s, a); AllAt(t.workers, 0, |t.workers|, Exited) && t.waiter.Sleeping?
  {
  }

  lemma {:induction false} SleepsForGood(s: State, actions: seq<Action>, t: State)
    requires AllAt(s.workers, 0, |s.workers|, Exited) && s.waiter.Sleeping?
    requires Runs(s, actions, t) && SpuriousWaiter !in actions
    ensures t.waiter.Sleeping?
    decreases |actions|
  {
    if actions != [] {
      assert actions[0] in actions;
      GoneForGood(s, actions[0]);
      SleepsForGood(Apply(s, actions[0]), actions[1..], t);
    }
  }

  // A new pool that is given a job, and then waited for.
  lemma GivenAJob(n: nat, job: Job) returns (actions: seq<Action>, s: State)
    ensures Runs(Init(n), actions, s) && s.waiter.NotWaiting? && s.queue == [job] && s.rw.Free? && s.ready
    ensures s.keepalive && s.destroyer.NotDestroying? && |s.workers| == n && AllAt(s.workers, 0, n, Test)
  {
    actions, s := NewPool(n);
    actions, s := Then(Init(n), actions, s, PushBegin(job));
    actions, s := Then(Init(n), actions, s, PushEnd(Nobody));
  }

  lemma FallsAsleep(s: State) returns (actions: seq<Action>, t: State)
    requires s.ready && s.waiter.NotWaiting? && s.queue != [] && CountLockFree(s)
    ensures Runs(s, actions, t) && t == s.(waiter := Sleeping, mark := |s.pushed|)
  {
    assert Runs(s, [], s);
    actions, t := Then(s, [], s, WaitCall);
    actions, t := Then(s, actions, t, WaiterStep);
    actions, t := Then(s, actions, t, WaiterStep);
    actions, t := Then(s, actions, t, WaiterStep);
  }

  lemma AllGoneIsRest(s: State)
    requires AllAt(s.workers, 0, |s.workers|, Exited) && s.waiter.Sleeping? && s.rw.Free? && s.ready
    ensures Quiescent(s)
  {
  }

  // The workers of a pool leave while the caller of thpool_wait sleeps.
  lemma WorkersLeave(s: State) returns (actions: seq<Action>, t: State)
    requires s.ready && s.destroyer.NotDestroying? && s.waiter.Sleeping?
    requires AllAt(s.workers, 0, |s.workers|, Test)
    ensures Runs(s, actions, t) && t.destroyer.TimedTest? && AllAt(t.workers, 0, |t.workers|, Exited)
    ensures |t.workers| == |s.workers| && t.waiter == s.waiter && t.queue == s.queue && t.rw == s.rw && t.ready
  {
    var u := Apply(s, DestroyCall);
    actions, t := LeaveUpTo(u, |s.workers|);
    assert ([DestroyCall] + actions)[1..] == actions;
    actions := [DestroyCall] + actions;
  }

  /** For every pool and job there is a run in which thpool_wait never returns once thpool_destroy is called:
      the workers are gone, the job is queued, the caller sleeps, and nobody will signal it. */
  lemma WaitMayNeverReturn(n: nat, job: Job) returns (actions: seq<Action>, s: State)
    ensures Runs(Init(n), actions, s) && Quiescent(s) && s.waiter.Sleeping? && !Cleaning(s) && s.queue == [job]
    ensures |s.workers| == n && AllAt(s.workers, 0, n, Exited)
    ensures forall more, t :: Runs(s, more, t) && SpuriousWaiter !in more ==> t.waiter.Sleeping?
  {
    var given, r := GivenAJob(n, job);
    var wait, t := FallsAsleep(r);
    var leave;
    leave, s := WorkersLeave(t);
    RunsJoin(Init(n), given, r, wait, t);
    RunsJoin(Init(n), given + wait, t, leave, s);
    actions := given + wait + leave;
    AllGoneIsRest(s);
    forall more, u | Runs(s, more, u) && SpuriousWaiter !in more
      ensures u.waiter.Sleeping?
    {
      SleepsForGood(s, more, u);
    }
  }
}
