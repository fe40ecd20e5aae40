/** Who changes what: the counters under thcount_lock, the signal to the waiter, and the binary semaphore. */
module PoolDiscipline {
  import opened Counting
  import opened ThreadPool
  import opened PoolSafety
  import opened PoolRuns

  // ---- thcount_lock ----

  // Nobody but one thread is between two steps with thcount_lock held.
  ghost predicate OneHolder(s: State) {
    && (HoldsCountLock(s.waiter) ==> forall w :: 0 <= w < |s.workers| ==> s.workers[w] != LastUnlock)
    && (forall w, x :: 0 <= w < x < |s.workers| && s.workers[w] == LastUnlock ==> s.workers[x] != LastUnlock)
  }

  // A thread that holds thcount_lock shuts the others out.
  ghost predicate ShutOut(s: State, t: State) {
    && |t.workers| == |s.workers| && t.working == s.working && t.alive == s.alive
    && (HoldsCountLock(t.waiter) ==> HoldsCountLock(s.waiter))
    && (forall w :: 0 <= w < |s.workers| && t.workers[w] == LastUnlock ==> s.workers[w] == LastUnlock)
  }

  lemma ShutOutByWorker(s: State, w: nat, wake: Wake)
    requires w < |s.workers| && WorkerEnabled(s, w, wake) && !CountLockFree(s)
    ensures ShutOut(s, ApplyWorker(s, w, wake))
  {
    WorkersAfter(s, w, wake);
    WorkingAfter(s, w, wake);
    AliveAfter(s, w, wake);
  }

  lemma ShutOutByDestroyer(s: State, timeout: bool)
    requires Enabled(s, DestroyStep(timeout))
    ensures ShutOut(s, ApplyDestroyer(s, timeout))
  {
  }

  lemma ShutOutElsewhere(s: State, a: Action)
    requires Enabled(s, a) && Elsewhere(a) && !CountLockFree(s)
    ensures ShutOut(s, Apply(s, a))
  {
    ElsewhereAfter(s, a);
  }

  lemma ShutOutWhileHeld(s: State, a: Action)
    requires Enabled(s, a) && !CountLockFree(s)
    ensures ShutOut(s, Apply(s, a))
  {
    match a
    case WorkerStep(w, wake) => ShutOutByWorker(s, w, wake);
    case DestroyStep(timeout) => ShutOutByDestroyer(s, timeout);
    case PushEnd(_) =>
    case Spurious(_) =>
    case _ => ShutOutElsewhere(s, a);
  }

  lemma TakenByWorker(s: State, w: nat, wake: Wake)
    requires w < |s.workers| && WorkerEnabled(s, w, wake) && CountLockFree(s)
    ensures OneHolder(ApplyWorker(s, w, wake))
  {
    WorkersAfter(s, w, wake);
    NoLockTaken(s, w, wake);
  }

  lemma NoLockTaken(s: State, w: nat, wake: Wake)
    requires w < |s.workers| && WorkerEnabled(s, w, wake) && !HoldsCountLock(s.waiter)
    ensures !HoldsCountLock(ApplyWorker(s, w, wake).waiter)
  {
  }

  lemma OneHolderKept(s: State, a: Action)
    requires OneHolder(s) && Enabled(s, a)
    ensures OneHolder(Apply(s, a))
  {
    if !CountLockFree(s) {
      ShutOutWhileHeld(s, a);
    } else {
      match a
      case WorkerStep(w, wake) => TakenByWorker(s, w, wake);
      case DestroyStep(_) =>
      case PushEnd(_) =>
      case Spurious(_) =>
      case _ => ElsewhereAfter(s, a);
    }
  }

  lemma {:induction false} OneHolderAlong(s: State, actions: seq<Action>, t: State)
    requires OneHolder(s) && Runs(s, actions, t)
    ensures OneHolder(t)
    decreases |actions|
  {
    if actions != [] {
      OneHolderKept(s, actions[0]);
      OneHolderAlong(Apply(s, actions[0]), actions[1..], t);
    }
  }

  /** At most one thread holds thcount_lock, and while one does nobody else takes it or changes
      num_threads_working or num_threads_alive. */
  lemma CountLockExcludes(n: int, actions: seq<Action>, s: State, a: Action)
    requires Runs(Init(n), actions, s) && Enabled(s, a)
    ensures OneHolder(s)
    ensures !CountLockFree(s) ==> ShutOut(s, Apply(s, a))
  {
    OneHolderAlong(Init(n), actions, s);
    if !CountLockFree(s) {
      ShutOutWhileHeld(s, a);
    }
  }

  // ---- rwmutex ----

  lemma QueueKeptByWorker(s: State, w: nat, wake: Wake)
    requires Counters(s) && !s.rw.Free? && w < |s.workers| && WorkerEnabled(s, w, wake)
    ensures var t := ApplyWorker(s, w, wake);
      && t.queue == s.queue && t.pushed == s.pushed && t.pulled == s.pulled
      && t.rw == if s.rw == HeldByWorker(w) then Free else s.rw
  {
    HistoryAfter(s, w, wake);
    LockAfter(s, w, wake);
  }

  /** While a thread is between its change of the queue and its post, rwmutex held, nobody changes the queue,
      and only that thread gives the mutex back. */
  lemma QueueLockExcludes(n: int, actions: seq<Action>, s: State, a: Action)
    requires Runs(Init(n), actions, s) && Enabled(s, a) && !s.rw.Free?
    ensures var t := Apply(s, a);
      && t.queue == s.queue && t.pushed == s.pushed && t.pulled == s.pulled
      && (t.rw == s.rw
          || (t.rw.Free? && (if s.rw.HeldByPusher? then a.PushEnd? else a.WorkerStep? && a.w == s.rw.w)))
  {
    Reached(n, actions, s);
    match a
    case WorkerStep(w, wake) => QueueKeptByWorker(s, w, wake);
    case DestroyStep(_) =>
    case PushEnd(_) =>
    case Spurious(_) =>
    case _ => ElsewhereAfter(s, a);
  }

  // ---- The signal to the waiter ----

  lemma SignalByWorker(s: State, w: nat, wake: Wake)
    requires Counters(s) && w < |s.workers| && WorkerEnabled(s, w, wake) && s.waiter.Sleeping?
    ensures var t := ApplyWorker(s, w, wake);
      t.waiter == if s.working > 0 && t.working == 0 then Signalled else Sleeping
  {
    if s.workers[w].Leave? { WorkingHere(s, w); }
  }

  /** The sleeping caller of thpool_wait is woken, but for spurious wakeups, exactly by the step that brings
      num_threads_working down to 0. */
  lemma WokenExactlyWhenIdle(n: int, actions: seq<Action>, s: State, a: Action)
    requires Runs(Init(n), actions, s) && Enabled(s, a) && s.waiter.Sleeping? && !a.SpuriousWaiter?
    ensures var t := Apply(s, a);
      t.waiter == if s.working > 0 && t.working == 0 then Signalled else Sleeping
  {
    Reached(n, actions, s);
    match a
    case WorkerStep(w, wake) => SignalByWorker(s, w, wake);
    case DestroyStep(_) =>
    case PushEnd(_) =>
    case Spurious(_) =>
    case _ => ElsewhereAfter(s, a);
  }

  // ---- The binary semaphore ----

  /** The step is a bsem_post or bsem_post_all, or the post inside a pull that frees a job. */
  predicate IsPost(s: State, a: Action) {
    || a.PushEnd?
    || (a.WorkerStep? && a.w < |s.workers| && s.workers[a.w].Holding?)
    || (a.DestroyStep? && (s.destroyer.TimedPost? || s.destroyer.PollPost? || (s.destroyer.Clearing? && |s.queue| > 1)))
  }

  /** The step is a worker's that comes to the second test of threads_keepalive. */
  predicate IsPass(s: State, a: Action)
    requires Enabled(s, a)
  {
    a.WorkerStep? && !s.workers[a.w].Retest? && a.w < |Apply(s, a).workers| && Apply(s, a).workers[a.w].Retest?
  }

  function Posts(s: State, actions: seq<Action>): nat
    decreases |actions|
  {
    if actions == [] || !Enabled(s, actions[0]) then
      0
    else
      (if IsPost(s, actions[0]) then 1 else 0) + Posts(Apply(s, actions[0]), actions[1..])
  }

  function Passes(s: State, actions: seq<Action>): nat
    decreases |actions|
  {
    if actions == [] || !Enabled(s, actions[0]) then
      0
    else
      (if IsPass(s, actions[0]) then 1 else 0) + Passes(Apply(s, actions[0]), actions[1..])
  }

  lemma PassByWorker(s: State, w: nat, wake: Wake)
    requires w < |s.workers| && WorkerEnabled(s, w, wake)
    ensures var t := ApplyWorker(s, w, wake);
      if s.workers[w].Holding? then t.v == 1
      else if s.workers[w].AtSem? && s.v == 1 then t.v == 0 && t.workers[w] == Retest
      else t.v == s.v && (s.workers[w].AtSem? ==> t.workers[w] == Asleep)
    ensures var t := ApplyWorker(s, w, wake);
      !s.workers[w].AtSem? ==> w < |t.workers| && !t.workers[w].Retest?
  {
    WorkersAfter(s, w, wake);
  }

  lemma PostAndPass(s: State, a: Action)
    requires Inv(s) && Enabled(s, a)
    ensures var t := Apply(s, a);
      (if IsPass(s, a) then 1 else 0) + t.v <= (if IsPost(s, a) then 1 else 0) + s.v
    ensures IsPost(s, a) ==> Apply(s, a).v == 1
  {
    match a
    case WorkerStep(w, wake) => PassByWorker(s, w, wake);
    case DestroyStep(_) =>
    case PushEnd(_) =>
    case Spurious(_) =>
    case _ => ElsewhereAfter(s, a);
  }

  /** Every return from bsem_wait is paid for by a post of its own: in no run do more workers pass than posts
      were made, the one that may be there at the beginning included. */
  lemma {:induction false} PassesArePaid(s: State, actions: seq<Action>, t: State)
    requires Inv(s) && Runs(s, actions, t)
    ensures Passes(s, actions) + t.v <= Posts(s, actions) + s.v
    decreases |actions|
  {
    if actions != [] {
      PostAndPass(s, actions[0]);
      InvKept(s, actions[0]);
      PassesArePaid(Apply(s, actions[0]), actions[1..], t);
    }
  }

  lemma PullLeaves(s: State, w: nat, wake: Wake)
    requires w < |s.workers| && WorkerEnabled(s, w, wake) && s.workers[w].Pull?
    ensures var t := ApplyWorker(s, w, wake);
      && |t.workers| == |s.workers| && t.v == s.v
      && (t.workers[w].Holding? <==> |s.queue| > 1) && (t.workers[w].Leave? <==> s.queue == [])
      && t.rw == if |s.queue| > 1 then HeldByWorker(w) else Free
  {
  }

  /** A worker that pulls takes the head of the queue, and holds rwmutex to post the semaphore again exactly
      when jobs remain. */
  lemma PullPostsIffMoreJobs(s: State, w: nat, wake: Wake)
    requires Enabled(s, WorkerStep(w, wake)) && s.workers[w].Pull?
    ensures var t := Apply(s, WorkerStep(w, wake));
      && t.pulled + t.queue == s.pulled + s.queue && |t.queue| == (if s.queue == [] then 0 else |s.queue| - 1)
      && w < |t.workers| && t.v == s.v
      && (t.workers[w].Holding? <==> t.queue != [])
      && t.rw == if t.queue != [] then HeldByWorker(w) else Free
  {
    HistoryAfter(s, w, wake);
    PullLeaves(s, w, wake);
    if s.queue != [] {
      assert [s.queue[0]] + s.queue[1..] == s.queue;
    }
  }
}
