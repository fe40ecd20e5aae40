/** The pool comes to rest: every run of it is bounded, and where it ends all work is done. */
module PoolProgress {
  import opened Counting
  import opened ThreadPool
  import opened PoolSafety

  /** How many steps a worker may still take before it sleeps, not counting a new post. */
  function Rank(p: Pc): nat {
    match p
    case Retest => 9
    case Enter => 8
    case Pull => 7
    case Holding(_) => 6
    case Run(_) => 5
    case Leave => 4
    case Start => 4
    case Test => 3
    case Exit => 2
    case AtSem => 1
    case LastUnlock => 1
    case Asleep => 0
    case Exited => 0
  }

  function WaiterRank(p: WaiterPc): nat {
    match p
    case Locking => 4
    case Signalled => 4
    case ReadLen => 3
    case ReadWorking => 2
    case GoToSleep => 1
    case Unlock => 1
    case _ => 0
  }

  /** What waits for the workers: queued jobs, a post still to be made, a post made, the waiter. */
  function Waiting(s: State): nat {
    43 * |s.queue| + (if s.rw.Free? then 0 else 47) + (if s.v == 1 then 41 else 0)
    + WaiterRank(s.waiter) + (if s.ready then 0 else 1)
  }

  function Measure(s: State): nat {
    Waiting(s) + 5 * Sum(Rank, s.workers)
  }

  /** What a call from outside or a spurious wakeup may add to the measure, and itself. */
  function Cost(a: Action): nat {
    match a
    case PushBegin(_) => 91
    case WaitCall => 5
    case DestroyCall => 1
    case Spurious(_) => 6
    case SpuriousWaiter => 5
    case _ => 0
  }

  /** Steps without a new call: the pool's own and spurious wakeups. */
  predicate NoCall(a: Action) {
    Internal(a) || a.Spurious? || a.SpuriousWaiter?
  }

  predicate NoCalls(actions: seq<Action>) {
    forall i :: 0 <= i < |actions| ==> NoCall(actions[i])
  }

  predicate WithoutDestroyer(actions: seq<Action>) {
    forall i :: 0 <= i < |actions| ==> !actions[i].DestroyStep?
  }

  // A post wakes at most one sleeper.
  lemma RankWoken(ws: seq<Pc>, wake: Wake)
    requires WakeOk(ws, wake)
    ensures Sum(Rank, Woken(ws, wake)) <= Sum(Rank, ws) + 1
  {
    if wake.Wakes? {
      SumUpdate(Rank, ws, wake.sleeper, AtSem);
    }
  }

  lemma RankAfterWorker(s: State, w: nat, wake: Wake)
    requires Enabled(s, WorkerStep(w, wake))
    ensures Sum(Rank, Apply(s, WorkerStep(w, wake)).workers) <=
      Sum(Rank, s.workers) + Rank(NextPc(s, w)) - Rank(s.workers[w]) + (if s.workers[w].Holding? then 1 else 0)
  {
    WorkersAfter(s, w, wake);
    SumUpdate(Rank, s.workers, w, NextPc(s, w));
    if s.workers[w].Holding? {
      assert forall i :: 0 <= i < |s.workers| && i != w ==> s.workers[w := NextPc(s, w)][i] == s.workers[i];
      RankWoken(s.workers[w := NextPc(s, w)], wake);
    }
  }

  // What a worker's step takes from Waiting pays for what it adds to the ranks.
  ghost predicate Pays(s: State, w: nat, t: State)
    requires w < |s.workers|
  {
    Waiting(t) + 5 * (Rank(NextPc(s, w)) - Rank(s.workers[w]) + (if s.workers[w].Holding? then 1 else 0)) < Waiting(s)
  }

  lemma PullPays(s: State, w: nat, wake: Wake)
    requires w < |s.workers| && WorkerEnabled(s, w, wake) && s.workers[w].Pull?
    ensures Pays(s, w, ApplyWorker(s, w, wake))
  {
  }

  lemma PostPays(s: State, w: nat, wake: Wake)
    requires Counters(s) && w < |s.workers| && WorkerEnabled(s, w, wake) && s.workers[w].Holding?
    ensures Pays(s, w, ApplyWorker(s, w, wake))
  {
  }

  lemma WakingPays(s: State, w: nat, wake: Wake)
    requires w < |s.workers| && WorkerEnabled(s, w, wake) && s.workers[w].AtSem?
    ensures Pays(s, w, ApplyWorker(s, w, wake))
  {
  }

  lemma LeavingPays(s: State, w: nat, wake: Wake)
    requires w < |s.workers| && WorkerEnabled(s, w, wake) && s.workers[w].Leave?
    ensures Pays(s, w, ApplyWorker(s, w, wake))
  {
  }

  lemma OthersPay(s: State, w: nat, wake: Wake)
    requires w < |s.workers| && WorkerEnabled(s, w, wake)
    requires !s.workers[w].Pull? && !s.workers[w].Holding? && !s.workers[w].AtSem? && !s.workers[w].Leave?
    ensures Pays(s, w, ApplyWorker(s, w, wake))
  {
  }

  lemma WorkerStepDecreases(s: State, w: nat, wake: Wake)
    requires Counters(s) && Enabled(s, WorkerStep(w, wake))
    ensures Measure(Apply(s, WorkerStep(w, wake))) < Measure(s)
  {
    RankAfterWorker(s, w, wake);
    match s.workers[w]
    case Pull => PullPays(s, w, wake);
    case Holding(_) => PostPays(s, w, wake);
    case AtSem => WakingPays(s, w, wake);
    case Leave => LeavingPays(s, w, wake);
    case _ => OthersPay(s, w, wake);
  }

  lemma ElsewhereMeasure(s: State, a: Action)
    requires Counters(s) && Enabled(s, a) && Elsewhere(a)
    ensures Measure(Apply(s, a)) + 1 <= Measure(s) + Cost(a)
  {
    ElsewhereAfter(s, a);
  }

  lemma StepMeasure(s: State, a: Action)
    requires Counters(s) && Enabled(s, a) && !a.DestroyStep?
    ensures Measure(Apply(s, a)) + 1 <= Measure(s) + Cost(a)
  {
    match a
    case WorkerStep(w, wake) => WorkerStepDecreases(s, w, wake);
    case PushEnd(wake) => RankWoken(s.workers, wake);
    case Spurious(w) => SumUpdate(Rank, s.workers, w, AtSem);
    case _ => ElsewhereMeasure(s, a);
  }

  /** Every run without the destroyer's steps is bounded by where it starts, by the calls made during it
      and by its spurious wakeups: 91 steps for a submitted job, 5 for a call of thpool_wait, 1 for that
      of thpool_destroy, 6 and 5 for a spurious wakeup of a worker and of the waiter. */
  lemma {:induction false} RunsAreBounded(s: State, actions: seq<Action>, t: State)
    requires Inv(s) && Runs(s, actions, t)
    requires WithoutDestroyer(actions)
    ensures |actions| + Measure(t) <= Measure(s) + Sum(Cost, actions)
    decreases |actions|
  {
    if actions != [] {
      StepMeasure(s, actions[0]);
      InvKept(s, actions[0]);
      RunsAreBounded(Apply(s, actions[0]), actions[1..], t);
    }
  }

  // ---- Where runs end ----

  lemma QuiescentMeans(s: State)
    requires Inv(s) && Quiescent(s)
    ensures s.ready && s.rw.Free? && !HoldsCountLock(s.waiter)
    ensures s.waiter.NotWaiting? || s.waiter.Sleeping? || s.waiter.Returned?
    ensures forall w :: 0 <= w < |s.workers| ==> s.workers[w].Asleep? || s.workers[w].Exited?
    ensures s.v == 0 || forall w :: 0 <= w < |s.workers| ==> s.workers[w].Exited?
    ensures s.working == 0
  {
    var wake := SomeWake(s.workers);
    NobodyUnlocks(s, wake);
    assert !Enabled(s, WaiterStep) && !Enabled(s, PushEnd(wake));
    assert CountLockFree(s);
    if s.rw.HeldByWorker? {
      assert Enabled(s, WorkerStep(s.rw.w, wake));
    }
    NobodyMoves(s, wake);
    SumZero(WorkBit, s.workers);
    InitHasReturned(s);
  }

  lemma NobodyMoves(s: State, wake: Wake)
    requires Quiescent(s) && CountLockFree(s) && s.rw.Free? && WakeOk(s.workers, wake)
    ensures forall w :: 0 <= w < |s.workers| ==> s.workers[w].Asleep? || s.workers[w].Exited?
  {
    forall w | 0 <= w < |s.workers|
      ensures s.workers[w].Asleep? || s.workers[w].Exited?
    {
      assert !Enabled(s, WorkerStep(w, wake));
    }
  }

  lemma InitHasReturned(s: State)
    requires Core(s) && Quiescent(s)
    requires forall w :: 0 <= w < |s.workers| ==> s.workers[w].Asleep? || s.workers[w].Exited?
    ensures s.ready
  {
    assert !Enabled(s, InitReturns);
    SumFull(AliveBit, s.workers);
    assert s.keepalive ==> forall w :: 0 <= w < |s.workers| ==> AliveBit(s.workers[w]) == 1;
  }

  lemma NobodyUnlocks(s: State, wake: Wake)
    requires Quiescent(s)
    ensures forall w :: 0 <= w < |s.workers| ==> s.workers[w] != LastUnlock
  {
    forall w | 0 <= w < |s.workers|
      ensures s.workers[w] != LastUnlock
    {
      assert !Enabled(s, WorkerStep(w, wake));
    }
  }

  /** Where the pool rests, with at least one worker and not being destroyed, every submitted job has
      been run once, nothing is announced, every worker sleeps, and thpool_wait has returned. */
  lemma RestMeansDone(n: int, actions: seq<Action>, s: State)
    requires n >= 1 && Runs(Init(n), actions, s) && s.keepalive && Quiescent(s)
    ensures |s.workers| == n && s.queue == [] && s.v == 0 && s.rw.Free? && s.working == 0
    ensures s.pulled == s.pushed && forall k: nat :: k < |s.pushed| ==> s.done[k] == 1
    ensures forall w :: 0 <= w < n ==> s.workers[w] == Asleep
    ensures s.waiter.NotWaiting? || s.waiter.Returned?
  {
    Reached(n, actions, s);
    QuiescentMeans(s);
    assert s.workers[0] == Asleep;
    NobodyWorks(s);
    assert s.freed == multiset{};
    assert forall k: nat :: Ended(s, k) == s.done[k];
  }

  /** Before thpool_destroy has begun to clear the queue, the caller of thpool_wait sleeps on in a pool
      at rest only when the workers have been told to leave with jobs still queued. */
  lemma SleeperAtRest(n: int, actions: seq<Action>, s: State)
    requires n >= 1 && Runs(Init(n), actions, s) && Quiescent(s) && !Cleaning(s)
    requires s.waiter.Sleeping?
    ensures !s.keepalive && s.queue != []
  {
    Reached(n, actions, s);
    QuiescentMeans(s);
    assert s.workers[0].Asleep? || s.workers[0].Exited?;
  }

  lemma BoundedByItself(s: State, after: seq<Action>, t: State)
    requires Inv(s) && Runs(s, after, t) && NoCalls(after)
    ensures |after| <= Measure(s) + Sum(Cost, after)
    ensures AllInternal(after) ==> |after| <= Measure(s)
  {
    RunsAreBounded(s, after, t);
    if AllInternal(after) { SumZero(Cost, after); }
  }

  /** With no further call every run of the pool is finite, whatever the scheduling, if the spurious
      wakeups are: a pool of n >= 1 workers that has been given jobs takes at most Measure(s) more steps,
      and 6 or 5 for each spurious wakeup; and where no step is left all jobs have been run and a caller
      of thpool_wait has returned. */
  lemma PoolDrains(n: int, before: seq<Action>, s: State, after: seq<Action>, t: State)
    requires n >= 1 && Runs(Init(n), before, s) && s.keepalive
    requires Runs(s, after, t) && NoCalls(after)
    ensures |t.workers| == n && |after| <= Measure(s) + Sum(Cost, after)
    ensures AllInternal(after) ==> |after| <= Measure(s)
    ensures Quiescent(t) ==> t.pushed == s.pushed && forall k: nat :: k < |s.pushed| ==> t.done[k] == 1
    ensures Quiescent(t) ==> t.queue == [] && t.v == 0 && forall w :: 0 <= w < n ==> t.workers[w] == Asleep
    ensures Quiescent(t) ==> t.waiter.NotWaiting? || t.waiter.Returned?
  {
    Reached(n, before, s);
    InvAlong(s, after, t);
    BoundedByItself(s, after, t);
    StaysOpen(s, after, t);
    RunsJoin(Init(n), before, s, after, t);
    if Quiescent(t) {
      RestMeansDone(n, before + after, t);
    }
  }

  lemma OpenAfter(s: State, a: Action)
    requires Enabled(s, a) && NoCall(a)
    ensures var t := Apply(s, a); t.keepalive == s.keepalive && t.pushed == s.pushed && t.destroyer == s.destroyer
  {
    if a.WorkerStep? {
      PhaseAfter(s, a.w, a.wake);
      HistoryAfter(s, a.w, a.wake);
    }
  }

  lemma {:induction false} StaysOpen(s: State, actions: seq<Action>, t: State)
    requires Runs(s, actions, t) && NoCalls(actions)
    ensures t.keepalive == s.keepalive && t.pushed == s.pushed && t.destroyer == s.destroyer
    decreases |actions|
  {
    if actions != [] {
      OpenAfter(s, actions[0]);
      StaysOpen(Apply(s, actions[0]), actions[1..], t);
    }
  }

  lemma {:induction false} RunsJoin(s: State, xs: seq<Action>, t: State, ys: seq<Action>, u: State)
    requires Runs(s, xs, t) && Runs(t, ys, u)
    ensures Runs(s, xs + ys, u)
    decreases |xs|
  {
    if xs == [] {
      assert xs + ys == ys;
    } else {
      RunsJoin(Apply(s, xs[0]), xs[1..], t, ys, u);
      assert (xs + ys)[1..] == xs[1..] + ys;
    }
  }
}
