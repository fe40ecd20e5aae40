/** thpool_destroy: every worker leaves, and every job is then run or freed, never both. */
module PoolShutdown {
  import opened Counting
  import opened ThreadPool
  import opened PoolSafety
  import opened PoolProgress

  // A worker that does not wait for the semaphore.
  function PastBit(p: Pc): nat {
    if p.AtSem? || p.Asleep? then 0 else 1
  }

  /** Workers that need no post any more, and the post that is still there. */
  function Passed(s: State): nat {
    Sum(PastBit, s.workers) + s.v
  }

  // Once threads_keepalive is 0 a worker that has passed the semaphore does not come back to it, and
  // a post is used up only by a worker that passes.
  lemma PassedByWorker(s: State, w: nat, wake: Wake)
    requires Inv(s) && !s.keepalive && Enabled(s, WorkerStep(w, wake))
    ensures Passed(Apply(s, WorkerStep(w, wake))) >= Passed(s)
  {
    WorkersAfter(s, w, wake);
    SumMoved(PastBit, s.workers, w, NextPc(s, w), if s.workers[w].Holding? then wake else Nobody);
    VAfterWorker(s, w, wake);
  }

  lemma VAfterWorker(s: State, w: nat, wake: Wake)
    requires w < |s.workers| && WorkerEnabled(s, w, wake)
    ensures var t := ApplyWorker(s, w, wake);
      t.v == if s.workers[w].Holding? then 1 else if s.workers[w].AtSem? && s.v == 1 then 0 else s.v
  {
  }

  lemma PassedKept(s: State, a: Action)
    requires Inv(s) && !s.keepalive && Enabled(s, a) && !a.DestroyStep?
    ensures Passed(Apply(s, a)) >= Passed(s) && !Apply(s, a).keepalive
  {
    match a
    case WorkerStep(w, wake) => PassedByWorker(s, w, wake);
    case PushEnd(wake) => SumWoken(PastBit, s.workers, wake);
    case Spurious(w) => SumUpdate(PastBit, s.workers, w, AtSem);
    case _ => ElsewhereAfter(s, a);
  }

  lemma {:induction false} PassedAlong(s: State, actions: seq<Action>, t: State)
    requires Inv(s) && !s.keepalive && Runs(s, actions, t)
    requires WithoutDestroyer(actions)
    ensures Passed(t) >= Passed(s) && !t.keepalive && Inv(t) && t.destroyer == s.destroyer
    decreases |actions|
  {
    if actions != [] {
      InvKept(s, actions[0]);
      PassedKept(s, actions[0]);
      assert Apply(s, actions[0]).destroyer == s.destroyer;
      PassedAlong(Apply(s, actions[0]), actions[1..], t);
    }
  }

  lemma PostAllPasses(s: State, timeout: bool)
    requires Inv(s) && (s.destroyer.TimedPost? || s.destroyer.PollPost?)
    ensures Passed(Apply(s, DestroyStep(timeout))) >= NumGone(s) + 1
    ensures Inv(Apply(s, DestroyStep(timeout))) && !Apply(s, DestroyStep(timeout)).keepalive
  {
    SumAllWoken(PastBit, s.workers);
    SumMonotone(GoneBit, PastBit, s.workers, s.workers);
    InvKept(s, DestroyStep(timeout));
  }

  /** Each bsem_post_all lets at least one more worker leave: when the pool has come to rest after it,
      whatever happened in between, more workers have left than before, unless all had. */
  lemma EveryPostAllFreesAWorker(s: State, timeout: bool, actions: seq<Action>, t: State)
    requires Inv(s) && (s.destroyer.TimedPost? || s.destroyer.PollPost?)
    requires Runs(Apply(s, DestroyStep(timeout)), actions, t) && Quiescent(t)
    requires WithoutDestroyer(actions)
    ensures NumGone(t) > NumGone(s) || NumGone(t) == |t.workers|
    ensures Inv(t) && t.destroyer == Apply(s, DestroyStep(timeout)).destroyer
  {
    PostAllPasses(s, timeout);
    PassedAlong(Apply(s, DestroyStep(timeout)), actions, t);
    QuiescentMeans(t);
    SumMonotone(PastBit, GoneBit, t.workers, t.workers);
    if forall w :: 0 <= w < |t.workers| ==> Gone(t.workers[w]) {
      SumFull(GoneBit, t.workers);
    }
  }

  /** The second loop of thpool_destroy, when each sleep lets the pool come to rest: each round posts
      to all, rests, and tests num_threads_alive again. */
  ghost predicate PollRounds(s: State, rounds: seq<seq<Action>>, t: State)
    decreases |rounds|
  {
    if rounds == [] then
      s == t
    else
      && s.destroyer.PollPost?
      && exists u ::
           && Runs(Apply(s, DestroyStep(false)), rounds[0], u) && Quiescent(u)
           && WithoutDestroyer(rounds[0])
           && u.destroyer.PollTest?
           && PollRounds(Apply(u, DestroyStep(false)), rounds[1..], t)
  }

  lemma AliveAndGone(s: State)
    requires Inv(s) && s.ready
    ensures s.alive + NumGone(s) == |s.workers|
  {
    AliveAndGoneCount(s.workers);
  }

  lemma {:induction false} AliveAndGoneCount(ws: seq<Pc>)
    requires forall i :: 0 <= i < |ws| ==> !ws[i].Start?
    ensures Sum(AliveBit, ws) + Sum(GoneBit, ws) == |ws|
  {
    if ws != [] {
      AliveAndGoneCount(ws[1..]);
    }
  }

  lemma PollTestStep(u: State)
    requires Inv(u) && u.destroyer.PollTest?
    ensures var x := Apply(u, DestroyStep(false));
      && Inv(x) && x.workers == u.workers
      && (if NumGone(u) == |u.workers| then x.destroyer.Clearing? else x.destroyer.PollPost?)
  {
    AliveAndGone(u);
    InvKept(u, DestroyStep(false));
  }

  lemma OneRound(s: State, actions: seq<Action>, u: State)
    requires Inv(s) && s.destroyer.PollPost? && u.destroyer.PollTest?
    requires Runs(Apply(s, DestroyStep(false)), actions, u) && Quiescent(u)
    requires WithoutDestroyer(actions)
    ensures var x := Apply(u, DestroyStep(false));
      && Inv(x) && |x.workers| == |s.workers|
      && (NumGone(s) < NumGone(x) <= |x.workers| || NumGone(x) == |x.workers|)
      && (if NumGone(x) == |x.workers| then x.destroyer.Clearing? else x.destroyer.PollPost?)
  {
    SumFull(GoneBit, u.workers);
    EveryPostAllFreesAWorker(s, false, actions, u);
    InvKept(s, DestroyStep(false));
    SizeKept(s, DestroyStep(false));
    InvAlong(Apply(s, DestroyStep(false)), actions, u);
    PollTestStep(u);
  }

  /** So the loop is left after at most as many rounds as there are workers. */
  lemma {:induction false} PollRoundsAreBounded(s: State, rounds: seq<seq<Action>>, t: State)
    requires Inv(s) && PollRounds(s, rounds, t)
    requires s.destroyer.PollPost? ==> NumGone(s) < |s.workers|
    ensures Inv(t)
    ensures |rounds| + NumGone(s) <= |s.workers|
    ensures |rounds| == |s.workers| - NumGone(s) > 0 ==> t.destroyer.Clearing?
    decreases |rounds|
  {
    SumFull(GoneBit, s.workers);
    if rounds != [] {
      var u :| Runs(Apply(s, DestroyStep(false)), rounds[0], u) && Quiescent(u)
        && WithoutDestroyer(rounds[0])
        && u.destroyer.PollTest? && PollRounds(Apply(u, DestroyStep(false)), rounds[1..], t);
      OneRound(s, rounds[0], u);
      var x := Apply(u, DestroyStep(false));
      assert x.destroyer.PollPost? ==> NumGone(x) < |x.workers|;
      PollRoundsAreBounded(x, rounds[1..], t);
    }
  }

  // A worker that is certain to ask the queue for a job.
  function OnWayBit(p: Pc): nat {
    if p.Enter? || p.Pull? then 1 else 0
  }

  /** Jobs taken and jobs certain to be taken. */
  function Takers(s: State): nat {
    |s.pulled| + Sum(OnWayBit, s.workers)
  }

  lemma NoNewTakersByWorker(s: State, w: nat, wake: Wake)
    requires !s.keepalive && Enabled(s, WorkerStep(w, wake))
    ensures Takers(Apply(s, WorkerStep(w, wake))) <= Takers(s)
  {
    WorkersAfter(s, w, wake);
    SumMoved(OnWayBit, s.workers, w, NextPc(s, w), if s.workers[w].Holding? then wake else Nobody);
    HistoryAfter(s, w, wake);
  }

  lemma NoNewTakers(s: State, a: Action)
    requires !s.keepalive && Enabled(s, a) && !Cleaning(s)
    ensures Takers(Apply(s, a)) <= Takers(s)
  {
    match a
    case WorkerStep(w, wake) => NoNewTakersByWorker(s, w, wake);
    case PushEnd(wake) => SumWoken(OnWayBit, s.workers, wake);
    case DestroyStep(timeout) => NoNewTakersByDestroyer(s, timeout);
    case Spurious(w) => SumUpdate(OnWayBit, s.workers, w, AtSem);
    case _ => ElsewhereAfter(s, a);
  }

  lemma NoNewTakersByDestroyer(s: State, timeout: bool)
    requires Enabled(s, DestroyStep(timeout)) && !Cleaning(s)
    ensures Takers(ApplyDestroyer(s, timeout)) <= Takers(s)
  {
    SumAllWoken(OnWayBit, s.workers);
  }

  predicate TakesAJob(s: State, a: Action, w: nat) {
    a.WorkerStep? && a.w == w < |s.workers| && s.workers[w].Pull? && s.queue != []
  }

  /** How often worker w takes a job from the queue in a run. */
  function JobsTaken(s: State, actions: seq<Action>, w: nat): nat
    decreases |actions|
  {
    if actions == [] || !Enabled(s, actions[0]) then
      0
    else
      (if TakesAJob(s, actions[0], w) then 1 else 0) + JobsTaken(Apply(s, actions[0]), actions[1..], w)
  }

  lemma TakerAfterWorker(s: State, x: nat, wake: Wake, w: nat)
    requires !s.keepalive && x < |s.workers| && WorkerEnabled(s, x, wake) && w < |s.workers|
    ensures |ApplyWorker(s, x, wake).workers| == |s.workers|
    ensures OnWayBit(ApplyWorker(s, x, wake).workers[w]) + (if TakesAJob(s, WorkerStep(x, wake), w) then 1 else 0)
      <= OnWayBit(s.workers[w])
  {
    WorkersAfter(s, x, wake);
  }

  lemma TakerAfter(s: State, a: Action, w: nat)
    requires !s.keepalive && Enabled(s, a) && w < |s.workers|
    ensures |Apply(s, a).workers| == |s.workers|
    ensures OnWayBit(Apply(s, a).workers[w]) + (if TakesAJob(s, a, w) then 1 else 0) <= OnWayBit(s.workers[w])
  {
    match a
    case WorkerStep(x, wake) => TakerAfterWorker(s, x, wake, w);
    case PushEnd(_) =>
    case Spurious(_) =>
    case DestroyStep(_) =>
    case _ => ElsewhereAfter(s, a);
  }

  lemma {:induction false} TakesAtMostOne(s: State, actions: seq<Action>, t: State, w: nat)
    requires !s.keepalive && Runs(s, actions, t) && w < |s.workers|
    ensures |t.workers| == |s.workers|
    ensures JobsTaken(s, actions, w) + OnWayBit(t.workers[w]) <= OnWayBit(s.workers[w])
    decreases |actions|
  {
    if actions != [] {
      TakerAfter(s, actions[0], w);
      KeepaliveStays(s, actions[0]);
      TakesAtMostOne(Apply(s, actions[0]), actions[1..], t, w);
    }
  }

  lemma {:induction false} TakersAlong(s: State, actions: seq<Action>, t: State)
    requires !s.keepalive && Runs(s, actions, t) && !Cleaning(t)
    ensures Takers(t) <= Takers(s)
    decreases |actions|
  {
    if actions != [] {
      if Cleaning(s) {
        CleaningAlong(s, actions, t);
      } else {
        NoNewTakers(s, actions[0]);
        KeepaliveStays(s, actions[0]);
        TakersAlong(Apply(s, actions[0]), actions[1..], t);
      }
    }
  }

  /** After thpool_destroy has cleared threads_keepalive, only a worker that is then already past both
      tests and has not pulled still takes a job, at most one; and no more leave the queue than there are
      such workers, until the destroyer clears it. */
  lemma DestroyStopsNewJobs(s: State, actions: seq<Action>, t: State)
    requires !s.keepalive && Runs(s, actions, t)
    ensures forall w: nat :: w < |s.workers| ==>
      JobsTaken(s, actions, w) <= if s.workers[w].Enter? || s.workers[w].Pull? then 1 else 0
    ensures !Cleaning(t) ==> |t.pulled| <= |s.pulled| + Sum(OnWayBit, s.workers)
  {
    forall w: nat | w < |s.workers|
      ensures JobsTaken(s, actions, w) <= OnWayBit(s.workers[w])
    {
      TakesAtMostOne(s, actions, t, w);
    }
    if !Cleaning(t) { TakersAlong(s, actions, t); }
  }

  lemma KeepaliveStays(s: State, a: Action)
    requires Enabled(s, a)
    ensures !s.keepalive ==> !Apply(s, a).keepalive
    ensures Cleaning(s) ==> Cleaning(Apply(s, a))
  {
  }

  lemma {:induction false} CleaningAlong(s: State, actions: seq<Action>, t: State)
    requires Cleaning(s) && Runs(s, actions, t)
    ensures Cleaning(t)
    decreases |actions|
  {
    if actions != [] {
      KeepaliveStays(s, actions[0]);
      CleaningAlong(Apply(s, actions[0]), actions[1..], t);
    }
  }

  lemma CleaningMeans(s: State)
    requires Core(s) && Cleaning(s)
    ensures forall w :: 0 <= w < |s.workers| ==> Gone(s.workers[w])
    ensures forall k: nat :: k < |s.pulled| ==> Ended(s, k) == 1
  {
    forall k: nat | k < |s.pulled|
      ensures Ended(s, k) == 1
    {
      assert !InHand(s, k);
    }
  }

  // What a worker that has counted itself out still does.
  lemma GoneStep(s: State, w: nat, wake: Wake)
    requires w < |s.workers| && Gone(s.workers[w])
    ensures WorkerEnabled(s, w, wake) <==> s.workers[w] == LastUnlock
    ensures WorkerEnabled(s, w, wake) ==> ApplyWorker(s, w, wake) == s.(workers := s.workers[w := Exited])
  {
  }

  /** Once both loops are left a worker takes another step if and only if it has counted itself out and
      not yet unlocked thcount_lock, and that step is the unlocking. */
  lemma NoWorkerAfterTheLoops(n: int, actions: seq<Action>, s: State, w: nat, wake: Wake)
    requires Runs(Init(n), actions, s) && Cleaning(s) && w < |s.workers|
    ensures Enabled(s, WorkerStep(w, wake)) <==> s.workers[w] == LastUnlock
    ensures Enabled(s, WorkerStep(w, wake)) ==>
      Apply(s, WorkerStep(w, wake)) == s.(workers := s.workers[w := Exited])
    ensures !Enabled(s, Spurious(w))
  {
    Reached(n, actions, s);
    CleaningMeans(s);
    GoneStep(s, w, wake);
  }

  /** Nobody but the destroyer touches the queue any more. */
  lemma QueueIsTheDestroyers(n: int, actions: seq<Action>, s: State, a: Action)
    requires Runs(Init(n), actions, s) && Cleaning(s) && Enabled(s, a) && !a.DestroyStep?
    ensures var t := Apply(s, a);
      && t.queue == s.queue && t.pulled == s.pulled && t.done == s.done && t.freed == s.freed
      && (!a.PushEnd? ==> t.v == s.v)
  {
    Reached(n, actions, s);
    CleaningMeans(s);
    if a.WorkerStep? {
      GoneStep(s, a.w, a.wake);
    } else if Elsewhere(a) {
      ElsewhereAfter(s, a);
    }
  }

  /** When thpool_destroy is done, every job ever submitted was run once or freed once, never both. */
  lemma RunOrFreed(n: int, actions: seq<Action>, s: State)
    requires Runs(Init(n), actions, s) && s.destroyer.Destroyed?
    ensures s.pulled == s.pushed && forall w :: 0 <= w < |s.workers| ==> Gone(s.workers[w])
    ensures forall k: nat :: k < |s.pushed| ==> s.done[k] + s.freed[k] == 1
  {
    Reached(n, actions, s);
    CleaningMeans(s);
    assert forall k: nat :: Ended(s, k) == s.done[k] + s.freed[k];
  }

  lemma ClearingStep(s: State, a: Action)
    requires Inv(s) && Cleaning(s) && Enabled(s, a)
    ensures Apply(s, a).done == s.done && Apply(s, a).pushed == s.pushed && Cleaning(Apply(s, a))
  {
    if a.WorkerStep? { GoneStep(s, a.w, a.wake); }
  }

  lemma {:induction false} ClearingAlong(s: State, actions: seq<Action>, t: State)
    requires Inv(s) && Cleaning(s) && Runs(s, actions, t)
    ensures t.done == s.done && t.pushed == s.pushed && Inv(t)
    decreases |actions|
  {
    if actions != [] {
      ClearingStep(s, actions[0]);
      InvKept(s, actions[0]);
      ClearingAlong(Apply(s, actions[0]), actions[1..], t);
    }
  }

  // Nothing is run after the loops, so what was pulled before was run and what was pulled after freed.
  lemma FreedWhileClearing(s: State, t: State)
    requires Inv(s) && Cleaning(s) && s.freed == multiset{}
    requires Inv(t) && t.destroyer.Destroyed? && t.done == s.done && t.pushed == s.pushed
    ensures forall k: nat :: k < |t.pushed| ==> (t.freed[k] == 1 <==> k >= |s.pulled|)
  {
    CleaningMeans(s);
    CleaningMeans(t);
    forall k: nat | k < |t.pushed|
      ensures t.freed[k] == 1 <==> k >= |s.pulled|
    {
      assert Ended(t, k) == 1 == t.done[k] + t.freed[k];
      assert Ended(s, k) == s.done[k];
    }
  }

  lemma LoopsLeft(s: State)
    requires Inv(s) && s.destroyer.PollTest? && s.alive == 0
    ensures var u := Apply(s, DestroyStep(false));
      Inv(u) && Cleaning(u) && u.freed == multiset{} && u.pulled == s.pulled && u.pushed == s.pushed
  {
    InvKept(s, DestroyStep(false));
  }

  /** Freed are exactly the jobs that were in the queue when the second loop was left; none is submitted
      after that. */
  lemma ExactlyTheQueueIsFreed(n: int, before: seq<Action>, s: State, after: seq<Action>, t: State)
    requires Runs(Init(n), before, s) && s.destroyer.PollTest? && s.alive == 0
    requires Runs(Apply(s, DestroyStep(false)), after, t) && t.destroyer.Destroyed?
    ensures t.pushed == s.pushed == s.pulled + s.queue
    ensures forall k: nat :: k < |t.pushed| ==> (t.freed[k] == 1 <==> k >= |s.pulled|)
    ensures forall k: nat :: k < |t.pushed| ==> (t.done[k] == 1 <==> k < |s.pulled|)
  {
    Reached(n, before, s);
    LoopsLeft(s);
    var u := Apply(s, DestroyStep(false));
    ClearingAlong(u, after, t);
    FreedWhileClearing(u, t);
    CleaningMeans(t);
    assert forall k: nat :: Ended(t, k) == t.done[k] + t.freed[k];
  }
}
