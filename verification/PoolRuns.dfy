/** What the pool can do: runs of it, for any number of workers and jobs, and from every state it can be in. */
module PoolRuns {
  import opened Counting
  import opened JobQueues
  import opened ThreadPool
  import opened PoolSafety
  import opened PoolProgress

  // One more step at the end of a run.
  lemma Then(s: State, xs: seq<Action>, t: State, a: Action) returns (ys: seq<Action>, u: State)
    requires Runs(s, xs, t) && Enabled(t, a)
    ensures u == Apply(t, a) && Runs(s, ys, u)
  {
    ys, u := xs + [a], Apply(t, a);
    assert [a][1..] == [] && Runs(u, [], u);
    RunsJoin(s, xs, t, [a], u);
  }

  predicate AllAt(ws: seq<Pc>, lo: nat, hi: nat, pc: Pc)
    requires hi <= |ws|
  {
    forall w :: lo <= w < hi ==> ws[w] == pc
  }

  // The first k threads of a new pool have started.
  lemma {:induction false} StartUpTo(n: nat, k: nat) returns (actions: seq<Action>, s: State)
    requires k <= n
    ensures Runs(Init(n), actions, s) && s == Init(n).(workers := s.workers, alive := k)
    ensures |s.workers| == n && AllAt(s.workers, 0, k, Test) && AllAt(s.workers, k, n, Start)
  {
    if k == 0 {
      actions, s := [], Init(n);
    } else {
      var before, t := StartUpTo(n, k - 1);
      assert t.workers[k - 1] == Start && CountLockFree(t);
      actions, s := Then(Init(n), before, t, WorkerStep(k - 1, Nobody));
    }
  }

  // A pool that has just been made.
  lemma NewPool(n: nat) returns (actions: seq<Action>, s: State)
    ensures Runs(Init(n), actions, s) && s == Init(n).(workers := s.workers, alive := n, ready := true)
    ensures |s.workers| == n && AllAt(s.workers, 0, n, Test)
  {
    actions, s := StartUpTo(n, n);
    actions, s := Then(Init(n), actions, s, InitReturns);
  }

  // ---- Submitting ----

  // One more job for a pool whose workers have not looked yet.
  lemma Submitted(s: State, job: Job) returns (actions: seq<Action>, t: State)
    requires s.ready && s.rw.Free? && s.destroyer.NotDestroying? && AllAt(s.workers, 0, |s.workers|, Test)
    ensures Runs(s, actions, t)
    ensures t == s.(queue := s.queue + [job], pushed := s.pushed + [job], v := 1)
  {
    assert Runs(s, [], s);
    actions, t := Then(s, [], s, PushBegin(job));
    actions, t := Then(s, actions, t, PushEnd(Nobody));
  }

  /** Any number of jobs can be queued, in the order they are submitted. */
  lemma {:induction false} ManyJobs(n: nat, jobs: seq<Job>) returns (actions: seq<Action>, s: State)
    ensures Runs(Init(n), actions, s) && s.pushed == s.queue == jobs && s.rw.Free? && |s.workers| == n
    ensures AllAt(s.workers, 0, n, Test)
    ensures s == Init(n).(workers := s.workers, alive := n, ready := true, queue := jobs, pushed := jobs,
                          v := if jobs == [] then 0 else 1)
    decreases |jobs|
  {
    if jobs == [] {
      actions, s := NewPool(n);
    } else {
      var last := |jobs| - 1;
      var before, t := ManyJobs(n, jobs[..last]);
      var more;
      more, s := Submitted(t, jobs[last]);
      assert jobs == jobs[..last] + [jobs[last]];
      RunsJoin(Init(n), before, t, more, s);
      actions := before + more;
    }
  }

  // ---- Mutexes are given back ----

  // What holding on for a mutex leaves as it is.
  predicate Meanwhile(s: State, t: State) {
    && |t.workers| == |s.workers| && t.keepalive == s.keepalive && t.ready == s.ready && t.destroyer == s.destroyer
    && t.pushed == s.pushed && t.pulled == s.pulled && t.queue == s.queue && t.done == s.done
  }

  lemma PusherPosts(s: State, wake: Wake)
    requires Inv(s) && s.rw.HeldByPusher? && WakeOk(s.workers, wake)
    ensures var t := Apply(s, PushEnd(wake));
      && Inv(t) && t.rw.Free? && Meanwhile(s, t)
      && forall w :: 0 <= w < |s.workers| ==> t.workers[w] == s.workers[w] || s.workers[w].Asleep?
  {
    InvKept(s, PushEnd(wake));
  }

  lemma HolderPosts(s: State, x: nat, wake: Wake)
    requires Inv(s) && x < |s.workers| && s.workers[x].Holding? && WakeOk(s.workers, wake)
    ensures var t := Apply(s, WorkerStep(x, wake));
      && Inv(t) && t.rw.Free? && Meanwhile(s, t)
      && forall w :: 0 <= w < |s.workers| ==> t.workers[w] == s.workers[w] || s.workers[w].Asleep? || w == x
  {
    InvKept(s, WorkerStep(x, wake));
  }

  /** Whoever holds rwmutex gives it back in its next step. */
  lemma FreeRw(s: State) returns (actions: seq<Action>, t: State)
    requires Inv(s)
    ensures Runs(s, actions, t) && |actions| <= 1 && Inv(t) && t.rw.Free? && Meanwhile(s, t)
    ensures forall w :: 0 <= w < |s.workers| ==>
      t.workers[w] == s.workers[w] || s.workers[w].Asleep? || s.workers[w].Holding?
  {
    var wake := SomeWake(s.workers);
    match s.rw
    case Free => actions, t := [], s;
    case HeldByPusher =>
      PusherPosts(s, wake);
      actions, t := OneStep(s, PushEnd(wake));
    case HeldByWorker(x) =>
      HolderPosts(s, x, wake);
      actions, t := OneStep(s, WorkerStep(x, wake));
  }

  lemma OneStep(s: State, a: Action) returns (actions: seq<Action>, t: State)
    requires Enabled(s, a)
    ensures Runs(s, actions, t) && |actions| == 1 && t == Apply(s, a)
  {
    actions, t := [a], Apply(s, a);
    assert [a][1..] == [] && Runs(t, [], t);
  }

  // The waiter gives thcount_lock back before it sleeps.
  lemma {:induction false} WaiterUnlocks(s: State) returns (actions: seq<Action>, t: State)
    requires Inv(s)
    ensures Runs(s, actions, t) && Inv(t) && !HoldsCountLock(t.waiter)
    ensures Meanwhile(s, t) && t.workers == s.workers && t.rw == s.rw
    decreases WaiterRank(s.waiter)
  {
    if HoldsCountLock(s.waiter) {
      var u := Apply(s, WaiterStep);
      InvKept(s, WaiterStep);
      var rest;
      rest, t := WaiterUnlocks(u);
      actions := [WaiterStep] + rest;
      assert actions[1..] == rest;
    } else {
      actions, t := [], s;
    }
  }

  lemma LastUnlockStep(s: State, w: nat)
    requires Inv(s) && w < |s.workers| && s.workers[w] == LastUnlock
    ensures Enabled(s, WorkerStep(w, Nobody))
    ensures var t := Apply(s, WorkerStep(w, Nobody));
      && t == s.(workers := s.workers[w := Exited]) && Inv(t) && Measure(t) < Measure(s)
  {
    InvKept(s, WorkerStep(w, Nobody));
    WorkerStepDecreases(s, w, Nobody);
  }

  // And so does a worker that leaves.
  lemma {:induction false} WorkersUnlock(s: State) returns (actions: seq<Action>, t: State)
    requires Inv(s)
    ensures Runs(s, actions, t) && Inv(t) && t == s.(workers := t.workers) && |t.workers| == |s.workers|
    ensures forall w :: 0 <= w < |t.workers| ==> t.workers[w] != LastUnlock
    ensures forall w :: 0 <= w < |s.workers| ==> t.workers[w] == s.workers[w] || s.workers[w] == LastUnlock
    decreases Measure(s)
  {
    if w: nat :| w < |s.workers| && s.workers[w] == LastUnlock {
      LastUnlockStep(s, w);
      var rest;
      rest, t := WorkersUnlock(Apply(s, WorkerStep(w, Nobody)));
      actions := [WorkerStep(w, Nobody)] + rest;
      assert actions[1..] == rest;
    } else {
      actions, t := [], s;
    }
  }

  /** Whoever holds thcount_lock gives it back without waiting for anybody. */
  lemma FreeCountLock(s: State) returns (actions: seq<Action>, t: State)
    requires Inv(s)
    ensures Runs(s, actions, t) && Inv(t) && CountLockFree(t) && Meanwhile(s, t) && t.rw == s.rw
    ensures forall w :: 0 <= w < |s.workers| ==> t.workers[w] == s.workers[w] || s.workers[w] == LastUnlock
  {
    var xs, u := WaiterUnlocks(s);
    var ys;
    ys, t := WorkersUnlock(u);
    RunsJoin(s, xs, u, ys, t);
    actions := xs + ys;
  }

  // ---- What does not wait for a job ----

  // The step of a worker that needs no mutex another holds.
  lemma FreeStep(s: State, w: nat) returns (t: State, wake: Wake)
    requires Inv(s) && w < |s.workers| && s.rw.Free? && CountLockFree(s)
    requires !s.workers[w].Asleep? && !s.workers[w].Exited? && !s.workers[w].Run?
    ensures Enabled(s, WorkerStep(w, wake)) && t == Apply(s, WorkerStep(w, wake))
    ensures |t.workers| == |s.workers| && t.workers[w] == NextPc(s, w) != s.workers[w] && t.done == s.done
  {
    wake := SomeWake(s.workers);
    t := Apply(s, WorkerStep(w, wake));
    WorkersAfter(s, w, wake);
    HistoryAfter(s, w, wake);
  }

  /** A worker that is awake and not in a job gets on without any job coming to its end: it waits for no
      other worker's job, however long that takes. */
  lemma NobodyWaitsForAJob(n: int, before: seq<Action>, s: State, w: nat) returns (actions: seq<Action>, t: State)
    requires Runs(Init(n), before, s) && w < |s.workers|
    requires !s.workers[w].Asleep? && !s.workers[w].Exited? && !s.workers[w].Run?
    ensures Runs(s, actions, t) && w < |t.workers| && t.workers[w] != s.workers[w] && t.done == s.done
  {
    Reached(n, before, s);
    var xs, u := FreeRw(s);
    var ys, v := FreeCountLock(u);
    RunsJoin(s, xs, u, ys, v);
    if v.workers[w] != s.workers[w] {
      actions, t := xs + ys, v;
    } else {
      var wake;
      t, wake := FreeStep(v, w);
      actions, t := Then(s, xs + ys, v, WorkerStep(w, wake));
    }
  }

  /** A submission takes at most three steps from every state in which it is allowed, whatever the workers
      are at. */
  lemma SubmissionGoesThrough(n: int, before: seq<Action>, s: State, job: Job)
      returns (actions: seq<Action>, t: State)
    requires Runs(Init(n), before, s) && s.ready && !Cleaning(s)
    ensures Runs(s, actions, t) && |actions| <= 3
    ensures t.pushed == s.pushed + [job] && t.queue == s.queue + [job] && t.v == 1 && t.rw.Free? && t.done == s.done
  {
    Reached(n, before, s);
    var xs, u := FreeRw(s);
    var ys, v := OneStep(u, PushBegin(job));
    var wake := SomeWake(v.workers);
    var zs;
    zs, t := OneStep(v, PushEnd(wake));
    RunsJoin(s, xs, u, ys, v);
    RunsJoin(s, xs + ys, v, zs, t);
    actions := xs + ys + zs;
  }

  /** Nor does the caller of thpool_wait wait for a job but where it sleeps. */
  lemma WaiterGetsOn(n: int, before: seq<Action>, s: State) returns (actions: seq<Action>, t: State)
    requires Runs(Init(n), before, s)
    requires !s.waiter.NotWaiting? && !s.waiter.Sleeping? && !s.waiter.Returned?
    ensures Runs(s, actions, t) && t.waiter != s.waiter && t.done == s.done
  {
    Reached(n, before, s);
    var xs, u := FreeCountLock(s);
    if u.waiter != s.waiter {
      actions, t := xs, u;
    } else {
      actions, t := Then(s, xs, u, WaiterStep);
    }
  }

  lemma DestroyerMoves(s: State, timeout: bool)
    requires Enabled(s, DestroyStep(timeout))
    ensures var t := Apply(s, DestroyStep(timeout));
      && t.done == s.done
      && (t.destroyer != s.destroyer || (s.destroyer.Clearing? && |t.queue| < |s.queue|))
  {
    HistoryAfterDestroyer(s, timeout);
  }

  /** Undisturbed, the caller of thpool_wait returns from its test in three steps if nothing is queued and
      nobody works, and sleeps otherwise. */
  lemma WaitDecides(s: State) returns (actions: seq<Action>, t: State)
    requires s.waiter.ReadLen?
    ensures Runs(s, actions, t) && |actions| <= 3
    ensures forall i :: 0 <= i < |actions| ==> actions[i] == WaiterStep
    ensures t == s.(waiter := if s.queue == [] && s.working == 0 then Returned else Sleeping, mark := |s.pushed|)
  {
    var u := Apply(s, WaiterStep);
    var v := Apply(u, WaiterStep);
    assert [WaiterStep][1..] == [] && [WaiterStep, WaiterStep][1..] == [WaiterStep];
    if s.queue != [] {
      actions, t := [WaiterStep, WaiterStep], v;
      assert Runs(v, [], v) && Runs(u, [WaiterStep], v);
    } else {
      var w := Apply(v, WaiterStep);
      actions, t := [WaiterStep, WaiterStep, WaiterStep], w;
      assert [WaiterStep, WaiterStep, WaiterStep][1..] == [WaiterStep, WaiterStep];
      assert Runs(w, [], w) && Runs(v, [WaiterStep], w) && Runs(u, [WaiterStep, WaiterStep], w);
    }
  }

  /** Nor the caller of thpool_destroy: it is at its next place after at most two steps. */
  lemma DestroyerGetsOn(n: int, before: seq<Action>, s: State, timeout: bool) returns (actions: seq<Action>, t: State)
    requires Runs(Init(n), before, s) && !s.destroyer.NotDestroying? && !s.destroyer.Destroyed?
    ensures Runs(s, actions, t) && |actions| <= 2 && t.done == s.done
    ensures t.destroyer != s.destroyer || (s.destroyer.Clearing? && |t.queue| < |s.queue|)
  {
    Reached(n, before, s);
    var xs, u := FreeRw(s);
    DestroyerMoves(u, timeout);
    var ys;
    ys, t := OneStep(u, DestroyStep(timeout));
    RunsJoin(s, xs, u, ys, t);
    actions := xs + ys;
  }

  /** Before thpool_init has returned nobody can call anything; from then on thpool_wait and thpool_destroy
      start whenever their one caller is not in them, and a submission whenever no other thread holds rwmutex
      and the queue is not being cleared. */
  lemma CallsStartExactly(n: int, before: seq<Action>, s: State, job: Job)
    requires Runs(Init(n), before, s)
    ensures Enabled(s, WaitCall) <==> s.ready && (s.waiter.NotWaiting? || s.waiter.Returned?)
    ensures Enabled(s, DestroyCall) <==> s.ready && s.keepalive
    ensures Enabled(s, PushBegin(job)) <==> s.ready && s.rw.Free? && !Cleaning(s)
  {
    Reached(n, before, s);
  }

  /** Spurious wakeups may come to every sleeper at any time, and to nobody else. */
  lemma ExactlySleepersMayWake(n: int, before: seq<Action>, s: State, w: nat)
    requires Runs(Init(n), before, s)
    ensures Enabled(s, Spurious(w)) <==> w < |s.workers| && s.workers[w] == Asleep
    ensures Enabled(s, Spurious(w)) ==> Apply(s, Spurious(w)) == s.(workers := s.workers[w := AtSem])
    ensures Enabled(s, SpuriousWaiter) <==> s.waiter.Sleeping?
    ensures Enabled(s, SpuriousWaiter) ==> Apply(s, SpuriousWaiter) == s.(waiter := Signalled)
  {
  }

  // ---- All at work ----

  // A worker at the posted semaphore comes to the queue.
  lemma GetsToPull(s: State, w: nat) returns (actions: seq<Action>, t: State)
    requires w < |s.workers| && s.workers[w] == AtSem && s.keepalive && s.v == 1 && CountLockFree(s)
    ensures Runs(s, actions, t)
    ensures t == s.(workers := s.workers[w := Pull], working := s.working + 1, v := 0)
  {
    assert Runs(s, [], s);
    actions, t := Then(s, [], s, WorkerStep(w, Nobody));
    assert t.workers == s.workers[w := Retest];
    actions, t := Then(s, actions, t, WorkerStep(w, Nobody));
    assert t.workers == s.workers[w := Enter] && CountLockFree(t);
    actions, t := Then(s, actions, t, WorkerStep(w, Nobody));
    assert t.workers == s.workers[w := Pull];
  }

  // And takes the next job, posting again if there are more.
  lemma Takes(s: State, w: nat) returns (actions: seq<Action>, t: State)
    requires w < |s.workers| && s.workers[w] == Pull && s.rw.Free? && s.queue != []
    requires |s.queue| > 1 ==> forall x :: 0 <= x < |s.workers| ==> s.workers[x] != Asleep
    ensures Runs(s, actions, t)
    ensures t == s.(workers := s.workers[w := Run(|s.pulled|)], queue := s.queue[1..],
                    pulled := s.pulled + [s.queue[0]], v := if |s.queue| > 1 then 1 else s.v)
  {
    assert Runs(s, [], s);
    actions, t := Then(s, [], s, WorkerStep(w, Nobody));
    if |s.queue| > 1 {
      assert t.workers == s.workers[w := Holding(|s.pulled|)];
      actions, t := Then(s, actions, t, WorkerStep(w, Nobody));
    }
    assert t.workers == s.workers[w := Run(|s.pulled|)];
  }

  lemma TakesFromSem(s: State, w: nat) returns (actions: seq<Action>, t: State)
    requires w < |s.workers| && s.workers[w] == AtSem && s.keepalive && s.v == 1 && CountLockFree(s)
    requires s.rw.Free? && s.queue != []
    requires |s.queue| > 1 ==> forall x :: 0 <= x < |s.workers| ==> s.workers[x] != Asleep
    ensures Runs(s, actions, t)
    ensures t == s.(workers := s.workers[w := Run(|s.pulled|)], working := s.working + 1, queue := s.queue[1..],
                    pulled := s.pulled + [s.queue[0]], v := if |s.queue| > 1 then 1 else 0)
  {
    var xs, u := GetsToPull(s, w);
    var ys;
    ys, t := Takes(u, w);
    RunsJoin(s, xs, u, ys, t);
    actions := xs + ys;
    assert t.workers == s.workers[w := Run(|s.pulled|)];
  }

  lemma TakesNext(s: State, w: nat) returns (actions: seq<Action>, t: State)
    requires w < |s.workers| && s.workers[w] == Test && s.keepalive && s.v == 1 && CountLockFree(s)
    requires s.rw.Free? && s.queue != [] && forall x :: 0 <= x < |s.workers| ==> s.workers[x] != Asleep
    ensures Runs(s, actions, t)
    ensures t == s.(workers := s.workers[w := Run(|s.pulled|)], working := s.working + 1, queue := s.queue[1..],
                    pulled := s.pulled + [s.queue[0]], v := if |s.queue| > 1 then 1 else 0)
  {
    var u := Apply(s, WorkerStep(w, Nobody));
    assert u == s.(workers := s.workers[w := AtSem]);
    var rest;
    rest, t := TakesFromSem(u, w);
    actions := [WorkerStep(w, Nobody)] + rest;
    assert actions[1..] == rest;
    assert t.workers == s.workers[w := Run(|s.pulled|)];
  }

  // Workers 0 to k - 1 have each a job, in order.
  lemma {:induction false} BusyUpTo(n: nat, jobs: seq<Job>, k: nat) returns (actions: seq<Action>, s: State)
    requires k <= |jobs| <= n
    ensures Runs(Init(n), actions, s) && |s.workers| == n && AllAt(s.workers, k, n, Test)
    ensures forall w: nat :: w < k ==> s.workers[w] == Run(w)
    ensures s.keepalive && s.rw.Free? && s.waiter.NotWaiting? && s.done == multiset{}
    ensures s.pushed == jobs && s.pulled == jobs[..k] && s.queue == jobs[k..] && (k < |jobs| ==> s.v == 1)
  {
    if k == 0 {
      actions, s := ManyJobs(n, jobs);
    } else {
      var before, t := BusyUpTo(n, jobs, k - 1);
      var more;
      more, s := TakesNext(t, k - 1);
      RunsJoin(Init(n), before, t, more, s);
      actions := before + more;
    }
  }

  /** As many jobs as there are workers can be run at the same time, each by a worker of its own. */
  lemma AllBusy(n: nat, jobs: seq<Job>) returns (actions: seq<Action>, s: State)
    requires |jobs| <= n
    ensures Runs(Init(n), actions, s) && |s.workers| == n && s.pulled == s.pushed == jobs && s.done == multiset{}
    ensures forall w: nat :: w < |jobs| ==> s.workers[w] == Run(w)
  {
    actions, s := BusyUpTo(n, jobs, |jobs|);
  }

  // A job for a pool of sleepers, of whom one is signalled.
  lemma SubmittedTo(s: State, job: Job, w: nat) returns (actions: seq<Action>, t: State)
    requires s.ready && s.rw.Free? && s.destroyer.NotDestroying? && w < |s.workers| && s.workers[w] == Asleep
    ensures Runs(s, actions, t)
    ensures t == s.(workers := s.workers[w := AtSem], queue := s.queue + [job], pushed := s.pushed + [job], v := 1)
  {
    assert Runs(s, [], s);
    actions, t := Then(s, [], s, PushBegin(job));
    actions, t := Then(s, actions, t, PushEnd(Wakes(w)));
  }

  /** In a serving pool at rest any of the sleepers can be the one that gets the next job. */
  lemma AnySleeperMayServe(n: int, before: seq<Action>, s: State, w: nat, job: Job)
      returns (actions: seq<Action>, t: State)
    requires n >= 1 && Runs(Init(n), before, s) && s.keepalive && Quiescent(s) && w < n
    ensures Runs(s, actions, t) && t.pulled == s.pulled + [job]
    ensures |t.workers| == n && t.workers[w] == Run(|s.pulled|)
    ensures forall x :: 0 <= x < n && x != w ==> t.workers[x] == Asleep
  {
    RestMeansDone(n, before, s);
    Reached(n, before, s);
    ReadyAtRest(s);
    var xs, u := SubmittedTo(s, job, w);
    var ys;
    ys, t := TakesFromSem(u, w);
    RunsJoin(s, xs, u, ys, t);
    actions := xs + ys;
  }

  lemma ReadyAtRest(s: State)
    requires Inv(s) && Quiescent(s)
    ensures s.ready && (s.keepalive ==> s.destroyer.NotDestroying?)
  {
    QuiescentMeans(s);
  }

  // ---- Coming to rest ----

  /** From every state the pool can come to rest by itself. */
  lemma {:induction false} ComesToRest(s: State) returns (actions: seq<Action>, t: State)
    requires Inv(s)
    ensures Runs(s, actions, t) && AllInternal(actions) && Quiescent(t) && Inv(t)
    decreases Measure(s)
  {
    if a :| Internal(a) && Enabled(s, a) {
      StepMeasure(s, a);
      InvKept(s, a);
      var rest;
      rest, t := ComesToRest(Apply(s, a));
      actions := [a] + rest;
      assert actions[1..] == rest;
    } else {
      actions, t := [], s;
    }
  }

  lemma WaitCanReturnFrom(n: int, before: seq<Action>, s: State) returns (actions: seq<Action>, t: State)
    requires n >= 1 && Runs(Init(n), before, s) && s.keepalive && !s.waiter.NotWaiting?
    ensures Runs(s, actions, t) && t.waiter.Returned? && t.pushed == s.pushed
    ensures forall k: nat :: k < |s.pushed| ==> t.done[k] == 1
  {
    Reached(n, before, s);
    actions, t := ComesToRest(s);
    PoolDrains(n, before, s, actions, t);
    StillWaiting(s, actions, t);
  }

  lemma {:induction false} StillWaiting(s: State, actions: seq<Action>, t: State)
    requires Runs(s, actions, t) && !s.waiter.NotWaiting?
    ensures !t.waiter.NotWaiting?
    decreases |actions|
  {
    if actions != [] {
      WaiterAfter(s, actions[0]);
      StillWaiting(Apply(s, actions[0]), actions[1..], t);
    }
  }

  /** In a serving pool thpool_wait can be called whenever it is not being executed, also again, and can
      return, with all jobs run. */
  lemma WaitCanReturn(n: int, before: seq<Action>, s: State) returns (actions: seq<Action>, t: State)
    requires n >= 1 && Runs(Init(n), before, s) && s.ready && s.keepalive
    ensures Runs(s, actions, t) && t.waiter.Returned? && t.pushed == s.pushed
    ensures s.waiter.NotWaiting? || s.waiter.Returned? ==> WaitCall in actions
    ensures forall k: nat :: k < |s.pushed| ==> t.done[k] == 1
  {
    if s.waiter.NotWaiting? || s.waiter.Returned? {
      var until, u := Then(Init(n), before, s, WaitCall);
      var rest;
      rest, t := WaitCanReturnFrom(n, until, u);
      actions := [WaitCall] + rest;
      assert actions[1..] == rest;
    } else {
      actions, t := WaitCanReturnFrom(n, before, s);
    }
  }
}
