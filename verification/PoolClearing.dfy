/** thpool_destroy comes to its end: its loops, and the clearing of the queue. */
module PoolClearing {
  import opened Counting
  import opened JobQueues
  import opened ThreadPool
  import opened PoolSafety
  import opened PoolProgress
  import opened PoolRuns
  import opened PoolShutdown
  import opened PoolLeftovers

  // ---- Clearing ----

  /** How many steps of the destroyer a run has. */
  function DestroySteps(actions: seq<Action>): nat {
    if actions == [] then 0 else (if actions[0].DestroyStep? then 1 else 0) + DestroySteps(actions[1..])
  }

  // The destroyer frees the job at the head of the queue, or is done; nobody else comes near.
  lemma ClearingOne(s: State, a: Action)
    requires Inv(s) && s.destroyer.Clearing? && Enabled(s, a)
    ensures var t := Apply(s, a);
      if !a.DestroyStep? then t.queue == s.queue && t.destroyer.Clearing? && t.freed == s.freed
      else if s.queue == [] then t.queue == [] && t.destroyer.Destroyed? && t.freed == s.freed
      else t.queue == s.queue[1..] && t.destroyer.Clearing? && t.freed == s.freed + multiset{|s.pulled|}
  {
    if a.WorkerStep? { GoneStep(s, a.w, a.wake); }
  }

  lemma DoneStays(s: State, a: Action)
    requires s.destroyer.Destroyed? && Enabled(s, a)
    ensures Apply(s, a).destroyer.Destroyed? && !a.DestroyStep? && Apply(s, a).queue == s.queue
    requires Inv(s)
  {
    if a.WorkerStep? {
      CleaningMeans(s);
      GoneStep(s, a.w, a.wake);
    }
  }

  lemma {:induction false} DoneForGood(s: State, actions: seq<Action>, t: State)
    requires Inv(s) && s.destroyer.Destroyed? && Runs(s, actions, t)
    ensures t.destroyer.Destroyed? && t.queue == s.queue && DestroySteps(actions) == 0
    decreases |actions|
  {
    if actions != [] {
      DoneStays(s, actions[0]);
      InvKept(s, actions[0]);
      DoneForGood(Apply(s, actions[0]), actions[1..], t);
    }
  }

  /** In every run from the clearing on, each step of the destroyer frees the job at the head of the queue
      until none is left, and one more step ends thpool_destroy; whatever the others do. */
  lemma {:induction false} ClearingCounts(s: State, actions: seq<Action>, t: State)
    requires Inv(s) && s.destroyer.Clearing? && Runs(s, actions, t)
    ensures DestroySteps(actions) <= |s.queue| + 1
    ensures var k := DestroySteps(actions);
      if k <= |s.queue| then t.destroyer.Clearing? && t.queue == s.queue[k..]
      else t.destroyer.Destroyed? && t.queue == []
    decreases |actions|
  {
    if actions != [] {
      var u := Apply(s, actions[0]);
      ClearingOne(s, actions[0]);
      InvKept(s, actions[0]);
      if u.destroyer.Clearing? {
        ClearingCounts(u, actions[1..], t);
      } else {
        DoneForGood(u, actions[1..], t);
      }
    }
  }

  /** From the clearing on the destroyer needs nobody: it is done in one step for each queued job and one
      more. */
  lemma {:induction false} ClearingEnds(s: State) returns (actions: seq<Action>, t: State)
    requires s.destroyer.Clearing? && s.rw.Free?
    ensures Runs(s, actions, t) && |actions| == |s.queue| + 1 && t.destroyer.Destroyed?
    ensures t.workers == s.workers && t.done == s.done && t.pushed == s.pushed && t.pulled == s.pulled + s.queue
    decreases |s.queue|
  {
    if s.queue == [] {
      actions, t := OneStep(s, DestroyStep(false));
    } else {
      var u := Apply(s, DestroyStep(false));
      var rest;
      rest, t := ClearingEnds(u);
      actions := [DestroyStep(false)] + rest;
      assert actions[1..] == rest;
      assert s.queue == [s.queue[0]] + s.queue[1..];
    }
  }

  // At most a submission has to be finished before.
  lemma DestroyerFinishes(s: State) returns (actions: seq<Action>, t: State)
    requires Inv(s) && s.destroyer.Clearing?
    ensures Runs(s, actions, t) && |actions| <= |s.queue| + 2 && t.destroyer.Destroyed?
  {
    var xs, u := FreeRw(s);
    var ys;
    ys, t := ClearingEnds(u);
    RunsJoin(s, xs, u, ys, t);
    actions := xs + ys;
  }

  ghost predicate Reset(s: State) {
    s.destroyer.Destroyed? ==> s.v == 0 && s.queue == [] && s.rw.Free?
  }

  lemma ResetKept(s: State, a: Action)
    requires Inv(s) && Reset(s) && Enabled(s, a)
    ensures Reset(Apply(s, a))
  {
    if a.WorkerStep? && s.destroyer.Destroyed? {
      CleaningMeans(s);
      GoneStep(s, a.w, a.wake);
    } else if a.WorkerStep? {
      PhaseAfter(s, a.w, a.wake);
    }
  }

  lemma {:induction false} ResetAlong(s: State, actions: seq<Action>, t: State)
    requires Inv(s) && Reset(s) && Runs(s, actions, t)
    ensures Reset(t)
    decreases |actions|
  {
    if actions != [] {
      ResetKept(s, actions[0]);
      InvKept(s, actions[0]);
      ResetAlong(Apply(s, actions[0]), actions[1..], t);
    }
  }

  /** When thpool_destroy is done the queue is empty, the semaphore at 0 and rwmutex free, and stay so. */
  lemma DestroyedIsReset(n: int, actions: seq<Action>, s: State)
    requires Runs(Init(n), actions, s) && s.destroyer.Destroyed?
    ensures s.queue == [] && s.v == 0 && s.rw.Free?
  {
    InitInv(n);
    ResetAlong(Init(n), actions, s);
  }

  /** Jobs that no worker has taken are freed: for every pool and every sequence of jobs there is a run in
      which the workers leave before they look, and exactly these jobs are freed, none is run. */
  lemma AllFreed(n: nat, jobs: seq<Job>) returns (actions: seq<Action>, s: State)
    ensures Runs(Init(n), actions, s) && s.destroyer.Destroyed? && s.pushed == jobs && s.done == multiset{}
    ensures forall k: nat :: s.freed[k] == if k < |jobs| then 1 else 0
  {
    var before, r := ManyJobs(n, jobs);
    var xs, t := LeftAlone(r);
    var ys;
    ys, s := ClearingEnds(t);
    RunsJoin(Init(n), before, r, xs, t);
    RunsJoin(Init(n), before + xs, t, ys, s);
    actions := before + xs + ys;
    FreedAtTheEnd(n, actions, s);
  }

  // The destroyer comes and the workers leave before they have looked at the queue.
  lemma LeftAlone(s: State) returns (actions: seq<Action>, t: State)
    requires s.ready && s.destroyer.NotDestroying? && !HoldsCountLock(s.waiter) && s.alive == |s.workers|
    requires AllAt(s.workers, 0, |s.workers|, Test)
    ensures Runs(s, actions, t) && t.destroyer.Clearing? && t.queue == s.queue && t.pulled == s.pulled
    ensures t.pushed == s.pushed && t.done == s.done && t.rw == s.rw
  {
    var xs, u := OneStep(s, DestroyCall);
    var ys, v := LeaveUpTo(u, |s.workers|);
    RunsJoin(s, xs, u, ys, v);
    actions, t := Then(s, xs + ys, v, DestroyStep(false));
    actions, t := Then(s, actions, t, DestroyStep(false));
  }

  lemma FreedAtTheEnd(n: int, actions: seq<Action>, s: State)
    requires Runs(Init(n), actions, s) && s.destroyer.Destroyed? && s.done == multiset{}
    ensures forall k: nat :: s.freed[k] == if k < |s.pushed| then 1 else 0
  {
    Reached(n, actions, s);
    RunOrFreed(n, actions, s);
    assert forall k: nat :: Ended(s, k) == s.freed[k];
  }

  // ---- The loops ----

  /** From the first test of the second loop on, thpool_destroy posts to all at most n times, when each
      sleep lets the pool come to rest: then every worker has left, and it goes on to its end. */
  lemma DestroyEnds(n: nat, before: seq<Action>, s: State, rounds: seq<seq<Action>>, t: State)
      returns (clear: seq<Action>, end: State)
    requires Runs(Init(n), before, s) && s.destroyer.PollTest?
    requires PollRounds(Apply(s, DestroyStep(false)), rounds, t)
    ensures |rounds| <= n
    ensures |rounds| == n > 0 ==> t.destroyer.Clearing?
    ensures t.destroyer.Clearing? ==> Runs(t, clear, end) && |clear| <= |t.queue| + 2 && end.destroyer.Destroyed?
  {
    Reached(n, before, s);
    PollTestStep(s);
    SumFull(GoneBit, s.workers);
    PollRoundsAreBounded(Apply(s, DestroyStep(false)), rounds, t);
    if t.destroyer.Clearing? {
      clear, end := DestroyerFinishes(t);
    } else {
      clear, end := [], t;
    }
  }

  /** The first loop: while a worker is alive it posts to all as often as the time allows, none included, and
      goes on to the second when the time is up. */
  lemma {:induction false} TimedRounds(s: State, k: nat) returns (actions: seq<Action>, t: State)
    requires s.destroyer.TimedTest? && s.alive != 0
    ensures Runs(s, actions, t) && |actions| == DestroySteps(actions) == 2 * k + 1 && t.destroyer.PollTest?
    ensures if k == 0 then t == s.(destroyer := PollTest)
            else t == s.(destroyer := PollTest, v := 1, workers := AllWoken(s.workers))
    decreases k
  {
    if k == 0 {
      actions, t := OneStep(s, DestroyStep(true));
      assert actions[1..] == [];
    } else {
      var u := Apply(s, DestroyStep(false));
      var v := Apply(u, DestroyStep(false));
      var rest;
      rest, t := TimedRounds(v, k - 1);
      assert AllWoken(v.workers) == v.workers;
      actions := [DestroyStep(false), DestroyStep(false)] + rest;
      assert actions[1..][1..] == rest;
      assert actions[1..] == [DestroyStep(false)] + rest;
    }
  }

  // One round of the second loop: it posts to all, rests, and comes to its test again.
  lemma PollRound(s: State) returns (actions: seq<Action>, t: State)
    requires Inv(s) && s.destroyer.PollPost? && NumGone(s) < |s.workers|
    ensures Runs(s, actions, t) && Inv(t) && t.destroyer.PollTest? && Quiescent(t)
    ensures |t.workers| == |s.workers| && NumGone(s) < NumGone(t) <= |t.workers|
  {
    var xs, u := OneStep(s, DestroyStep(false));
    InvKept(s, DestroyStep(false));
    var ys;
    ys, t := ComesToRest(u);
    RestedAfterPost(s, ys, t);
    RunsJoin(s, xs, u, ys, t);
    actions := xs + ys;
  }

  // From the second loop's test, in a pool at rest.
  lemma {:induction false} PollingEnds(s: State) returns (actions: seq<Action>, t: State)
    requires Inv(s) && s.destroyer.PollTest? && Quiescent(s)
    ensures Runs(s, actions, t) && t.destroyer.Destroyed?
    decreases |s.workers| - NumGone(s)
  {
    PollTestStep(s);
    SumFull(GoneBit, s.workers);
    var xs, u := OneStep(s, DestroyStep(false));
    var ys: seq<Action>;
    if u.destroyer.Clearing? {
      ys, t := DestroyerFinishes(u);
    } else {
      var round, v := PollRound(u);
      var rest;
      rest, t := PollingEnds(v);
      RunsJoin(u, round, v, rest, t);
      ys := round + rest;
    }
    RunsJoin(s, xs, u, ys, t);
    actions := xs + ys;
  }

  lemma RestedAfterPost(u: State, actions: seq<Action>, w: State)
    requires Inv(u) && u.destroyer.PollPost? && NumGone(u) < |u.workers|
    requires Runs(Apply(u, DestroyStep(false)), actions, w) && AllInternal(actions) && Quiescent(w)
    ensures Inv(w) && w.destroyer.PollTest? && |w.workers| == |u.workers| && NumGone(u) < NumGone(w) <= |w.workers|
  {
    assert WithoutDestroyer(actions);
    EveryPostAllFreesAWorker(u, false, actions, w);
    InvKept(u, DestroyStep(false));
    SizeKept(u, DestroyStep(false));
    InvAlong(Apply(u, DestroyStep(false)), actions, w);
    SumFull(GoneBit, w.workers);
  }

  // From any place of the destroyer to the second loop's test.
  lemma ToPolling(s: State) returns (actions: seq<Action>, t: State)
    requires Inv(s) && s.ready && !Cleaning(s)
    ensures Runs(s, actions, t) && Inv(t) && t.destroyer.PollTest?
  {
    var u: State;
    assert Runs(s, [], s);
    actions, u := [], s;
    if u.destroyer.NotDestroying? {
      InvKept(u, DestroyCall);
      actions, u := Then(s, actions, u, DestroyCall);
    }
    if u.destroyer.TimedPost? || u.destroyer.PollPost? {
      InvKept(u, DestroyStep(true));
      actions, u := Then(s, actions, u, DestroyStep(true));
    }
    if u.destroyer.TimedTest? {
      InvKept(u, DestroyStep(true));
      actions, u := Then(s, actions, u, DestroyStep(true));
    }
    t := u;
  }

  /** From every state after thpool_init, whatever is queued and whoever sleeps, thpool_destroy can be called
      if it has not been and can come to its end. */
  lemma DestroyCanFinish(n: int, before: seq<Action>, s: State) returns (actions: seq<Action>, t: State)
    requires Runs(Init(n), before, s) && s.ready
    ensures Runs(s, actions, t) && t.destroyer.Destroyed?
  {
    Reached(n, before, s);
    if s.destroyer.Destroyed? {
      actions, t := [], s;
    } else if s.destroyer.Clearing? {
      actions, t := DestroyerFinishes(s);
    } else {
      var xs, u := ToPolling(s);
      var ys, v := ComesToRest(u);
      StaysOpen(u, ys, v);
      var zs;
      zs, t := PollingEnds(v);
      RunsJoin(s, xs, u, ys, v);
      RunsJoin(s, xs + ys, v, zs, t);
      actions := xs + ys + zs;
    }
  }
}
