/** What every reachable state of the pool keeps: the counters count, every job runs once and in
    order, no wakeup is lost, and thpool_wait tells the truth. */
module PoolSafety {
  import opened Counting
  import opened JobQueues
  import opened ThreadPool

  // num_threads_working and num_threads_alive count what their names say; rwmutex is held by the
  // worker that is about to post, and by no other.
  ghost predicate Counters(s: State) {
    && s.working == Working(s)
    && s.alive == Alive(s)
    && s.v <= 1
    && (s.rw.HeldByWorker? ==> s.rw.w < |s.workers| && s.workers[s.rw.w].Holding?)
    && (forall w :: 0 <= w < |s.workers| && s.workers[w].Holding? ==> s.rw == HeldByWorker(w))
  }

  // The life cycle of the pool.
  ghost predicate Phases(s: State) {
    && (s.destroyer.NotDestroying? <==> s.keepalive)
    && (!s.destroyer.NotDestroying? ==> s.ready)
    && (!s.waiter.NotWaiting? ==> s.ready)
    && (s.ready ==> forall w :: 0 <= w < |s.workers| ==> !s.workers[w].Start?)
    && (s.keepalive ==> forall w :: 0 <= w < |s.workers| ==> !s.workers[w].Exit? && !Gone(s.workers[w]))
    && (Cleaning(s) ==> forall w :: 0 <= w < |s.workers| ==> Gone(s.workers[w]))
    && (!Cleaning(s) ==> s.freed == multiset{})
    && (s.destroyer.Destroyed? ==> s.queue == [])
  }

  predicate Cleaning(s: State) {
    s.destroyer.Clearing? || s.destroyer.Destroyed?
  }

  // The number of the job a worker has in hand, -1 when it has none.
  function JobOf(p: Pc): int {
    match p
    case Holding(k) => k
    case Run(k) => k
    case _ => -1
  }

  ghost predicate InHand(s: State, k: nat) {
    exists w :: 0 <= w < |s.workers| && JobOf(s.workers[w]) == k
  }

  // How often a pulled job has met its end: run by a worker or freed by the destroyer.
  function Ended(s: State, k: nat): nat {
    s.done[k] + s.freed[k]
  }

  // Every pulled job is in the hands of exactly one worker, or was run once, or was freed once.
  ghost predicate OnceEach(s: State) {
    && s.pushed == s.pulled + s.queue
    && (forall k: nat :: Ended(s, k) <= if k < |s.pulled| then 1 else 0)
    && (forall w :: 0 <= w < |s.workers| ==> JobOf(s.workers[w]) < |s.pulled|)
    && (forall w :: 0 <= w < |s.workers| && JobOf(s.workers[w]) >= 0 ==> Ended(s, JobOf(s.workers[w])) == 0)
    && (forall w, x :: 0 <= w < x < |s.workers| && JobOf(s.workers[w]) == JobOf(s.workers[x]) ==>
          JobOf(s.workers[w]) == -1)
    && (forall k: nat :: k < |s.pulled| && Ended(s, k) == 0 ==> InHand(s, k))
  }

  // A posted semaphore is never left to sleepers alone.
  ghost predicate PostNotLost(s: State) {
    s.v == 1 && (exists w :: 0 <= w < |s.workers| && s.workers[w] == Asleep) ==>
      exists w :: 0 <= w < |s.workers| && s.workers[w] == AtSem
  }

  predicate AboutToPull(p: Pc) {
    p.Retest? || p.Enter? || p.Pull?
  }

  // Jobs in the queue are announced by the semaphore, or a worker is on its way to them, or the
  // thread that changed the queue last has still to post.
  ghost predicate JobsAnnounced(s: State) {
    s.keepalive && s.queue != [] ==>
      || s.v == 1
      || !s.rw.Free?
      || exists w :: 0 <= w < |s.workers| && AboutToPull(s.workers[w])
  }

  // The caller of thpool_wait does not sleep through the last job.
  ghost predicate IdleNotLost(s: State) {
    (s.waiter.GoToSleep? || s.waiter.Sleeping?) && !Cleaning(s) ==> s.queue != [] || s.working > 0
  }

  // What the caller of thpool_wait knows at each place.
  ghost predicate WaitKnows(s: State) {
    && s.mark <= |s.pushed|
    && (s.waiter.ReadWorking? ==> s.mark <= |s.pulled|)
    && (s.waiter.Unlock? || s.waiter.Returned? ==> forall k :: 0 <= k < s.mark ==> Ended(s, k) == 1)
  }

  ghost predicate Core(s: State) {
    Counters(s) && Phases(s) && OnceEach(s)
  }

  ghost predicate Inv(s: State) {
    Core(s) && PostNotLost(s) && JobsAnnounced(s) && IdleNotLost(s) && WaitKnows(s)
  }

  lemma InitInv(n: int)
    ensures Inv(Init(n))
  {
    var s := Init(n);
    SumZero(WorkBit, s.workers);
    SumZero(AliveBit, s.workers);
  }

  // ---- Sums after one step ----

  // Moving one worker, and perhaps one sleeper, changes a sum by what the moved worker changes,
  // provided sleeping and being signalled weigh the same.
  lemma SumMoved(f: Pc -> nat, ws: seq<Pc>, w: nat, pc: Pc, wake: Wake)
    requires w < |ws| && f(Asleep) == f(AtSem)
    requires wake.Wakes? && wake.sleeper < |ws| ==> ws[w := pc][wake.sleeper] == Asleep
    ensures Sum(f, ws[w := pc]) + f(ws[w]) == Sum(f, ws) + f(pc)
    ensures Sum(f, Woken(ws[w := pc], wake)) == Sum(f, ws[w := pc])
  {
    SumUpdate(f, ws, w, pc);
    SumWoken(f, ws[w := pc], wake);
  }

  lemma SumWoken(f: Pc -> nat, ws: seq<Pc>, wake: Wake)
    requires f(Asleep) == f(AtSem)
    requires wake.Wakes? && wake.sleeper < |ws| ==> ws[wake.sleeper] == Asleep
    ensures Sum(f, Woken(ws, wake)) == Sum(f, ws)
  {
    if wake.Wakes? && wake.sleeper < |ws| {
      SumUpdate(f, ws, wake.sleeper, AtSem);
    }
  }

  lemma SumAllWoken(f: Pc -> nat, ws: seq<Pc>)
    requires f(Asleep) == f(AtSem)
    ensures Sum(f, AllWoken(ws)) == Sum(f, ws)
  {
    SumMonotone(f, f, ws, AllWoken(ws));
    SumMonotone(f, f, AllWoken(ws), ws);
  }

  function NextPc(s: State, w: nat): Pc
    requires w < |s.workers|
  {
    match s.workers[w]
    case Start => Test
    case Test => if s.keepalive then AtSem else Exit
    case AtSem => if s.v == 1 then Retest else Asleep
    case Retest => if s.keepalive then Enter else Test
    case Enter => Pull
    case Pull =>
      if s.queue == [] then Leave else if |s.queue| == 1 then Run(|s.pulled|) else Holding(|s.pulled|)
    case Holding(k) => Run(k)
    case Run(k) => Leave
    case Leave => Test
    case Exit => LastUnlock
    case LastUnlock => Exited
    case Asleep => Asleep
    case Exited => Exited
  }

  // How a step moves the workers.
  lemma WorkersAfter(s: State, w: nat, wake: Wake)
    requires w < |s.workers| && WorkerEnabled(s, w, wake)
    ensures var t := ApplyWorker(s, w, wake);
      t.workers == if s.workers[w].Holding? then Woken(s.workers[w := NextPc(s, w)], wake)
                   else s.workers[w := NextPc(s, w)]
  {
  }

  // How a step moves the two counters.
  lemma WorkingAfter(s: State, w: nat, wake: Wake)
    requires w < |s.workers| && WorkerEnabled(s, w, wake)
    ensures ApplyWorker(s, w, wake).working == s.working + WorkBit(NextPc(s, w)) - WorkBit(s.workers[w])
  {
  }

  lemma AliveAfter(s: State, w: nat, wake: Wake)
    requires w < |s.workers| && WorkerEnabled(s, w, wake)
    ensures ApplyWorker(s, w, wake).alive == s.alive + AliveBit(NextPc(s, w)) - AliveBit(s.workers[w])
  {
  }

  lemma CountsMoved(s: State, t: State, w: nat, pc: Pc, wake: Wake)
    requires Counters(s) && w < |s.workers| && t.workers == Woken(s.workers[w := pc], wake)
    requires wake.Wakes? && wake.sleeper < |s.workers| ==> s.workers[w := pc][wake.sleeper] == Asleep
    requires t.working == s.working + WorkBit(pc) - WorkBit(s.workers[w])
    requires t.alive == s.alive + AliveBit(pc) - AliveBit(s.workers[w])
    ensures t.working == Working(t) && t.alive == Alive(t)
  {
    SumMoved(WorkBit, s.workers, w, pc, wake);
    SumMoved(AliveBit, s.workers, w, pc, wake);
  }

  lemma CountsKeptByWorker(s: State, w: nat, wake: Wake)
    requires Counters(s) && Enabled(s, WorkerStep(w, wake))
    ensures var t := Apply(s, WorkerStep(w, wake)); t.working == Working(t) && t.alive == Alive(t)
  {
    WorkersAfter(s, w, wake);
    WorkingAfter(s, w, wake);
    AliveAfter(s, w, wake);
    var woken := if s.workers[w].Holding? then wake else Nobody;
    CountsMoved(s, Apply(s, WorkerStep(w, wake)), w, NextPc(s, w), woken);
  }

  // What a step does to rwmutex and to v.
  lemma LockAfter(s: State, w: nat, wake: Wake)
    requires w < |s.workers| && WorkerEnabled(s, w, wake) && s.v <= 1
    ensures var t := ApplyWorker(s, w, wake);
      && t.v <= 1
      && (NextPc(s, w).Holding? ==> s.rw.Free?)
      && t.rw == if NextPc(s, w).Holding? then HeldByWorker(w) else if s.workers[w].Holding? then Free else s.rw
  {
  }

  lemma LockKeptByWorker(s: State, w: nat, wake: Wake)
    requires Counters(s) && Enabled(s, WorkerStep(w, wake))
    ensures var t := Apply(s, WorkerStep(w, wake));
      && t.v <= 1
      && (t.rw.HeldByWorker? ==> t.rw.w < |t.workers| && t.workers[t.rw.w].Holding?)
      && (forall w :: 0 <= w < |t.workers| && t.workers[w].Holding? ==> t.rw == HeldByWorker(w))
  {
    var t := Apply(s, WorkerStep(w, wake));
    WorkersAfter(s, w, wake);
    LockAfter(s, w, wake);
    assert forall x :: 0 <= x < |s.workers| && x != w ==> (t.workers[x].Holding? <==> s.workers[x].Holding?);
  }

  lemma CountersKeptByPost(s: State, t: State, wake: Wake)
    requires Counters(s) && WakeOk(s.workers, wake)
    requires t.workers == Woken(s.workers, wake) || t.workers == AllWoken(s.workers)
    requires t.working == s.working && t.alive == s.alive && t.v == 1
    requires t.rw == s.rw || (s.rw.HeldByPusher? && t.rw.Free?)
    ensures Counters(t)
  {
    SumWoken(WorkBit, s.workers, wake);
    SumWoken(AliveBit, s.workers, wake);
    SumAllWoken(WorkBit, s.workers);
    SumAllWoken(AliveBit, s.workers);
  }

  lemma SomeWake(workers: seq<Pc>) returns (wake: Wake)
    ensures WakeOk(workers, wake)
  {
    if i :| 0 <= i < |workers| && workers[i] == Asleep {
      wake := Wakes(i);
    } else {
      wake := Nobody;
    }
  }

  lemma CountersKeptByDestroyer(s: State, timeout: bool)
    requires Counters(s) && Enabled(s, DestroyStep(timeout))
    ensures Counters(ApplyDestroyer(s, timeout))
  {
    if s.destroyer.TimedPost? || s.destroyer.PollPost? {
      var wake := SomeWake(s.workers);
      CountersKeptByPost(s, ApplyDestroyer(s, timeout), wake);
    }
  }

  lemma CountersKeptBySpurious(s: State, w: nat)
    requires Counters(s) && w < |s.workers| && s.workers[w] == Asleep
    ensures Counters(Goto(s, w, AtSem))
  {
    SumUpdate(WorkBit, s.workers, w, AtSem);
    SumUpdate(AliveBit, s.workers, w, AtSem);
  }

  lemma CountersKeptByOthers(s: State, t: State)
    requires Counters(s) && t.workers == s.workers
    requires t.working == s.working && t.alive == s.alive && t.v == s.v
    requires t.rw == s.rw || (s.rw.Free? && t.rw.HeldByPusher?)
    ensures Counters(t)
  {
  }

  // Actions that move no worker.
  predicate Elsewhere(a: Action) {
    !a.WorkerStep? && !a.PushEnd? && !a.DestroyStep? && !a.Spurious?
  }

  // What an action that moves no worker leaves as it was.
  lemma ElsewhereAfter(s: State, a: Action)
    requires Enabled(s, a) && Elsewhere(a)
    ensures var t := Apply(s, a);
      && t.workers == s.workers && t.working == s.working && t.alive == s.alive && t.v == s.v
      && t.pulled == s.pulled && t.done == s.done && t.freed == s.freed
      && (if a.PushBegin? then
            t.queue == s.queue + [a.job] && t.pushed == s.pushed + [a.job] && s.rw.Free? && t.rw.HeldByPusher?
          else
            t.queue == s.queue && t.pushed == s.pushed && t.rw == s.rw)
  {
  }

  lemma CountersKept(s: State, a: Action)
    requires Counters(s) && Enabled(s, a)
    ensures Counters(Apply(s, a))
  {
    match a
    case WorkerStep(w, wake) =>
      CountsKeptByWorker(s, w, wake);
      LockKeptByWorker(s, w, wake);
    case PushEnd(wake) => CountersKeptByPost(s, Apply(s, a), wake);
    case DestroyStep(timeout) => CountersKeptByDestroyer(s, timeout);
    case Spurious(w) => CountersKeptBySpurious(s, w);
    case _ =>
      ElsewhereAfter(s, a);
      CountersKeptByOthers(s, Apply(s, a));
  }

  lemma AllAlive(s: State)
    requires Counters(s) && s.alive == |s.workers|
    ensures forall w :: 0 <= w < |s.workers| ==> !s.workers[w].Start? && !Gone(s.workers[w])
  {
    SumFull(AliveBit, s.workers);
    assert forall w :: 0 <= w < |s.workers| ==> AliveBit(s.workers[w]) == 1;
  }

  lemma NoneAlive(s: State)
    requires Counters(s) && s.alive == 0
    ensures forall w :: 0 <= w < |s.workers| ==> s.workers[w].Start? || Gone(s.workers[w])
  {
    SumZero(AliveBit, s.workers);
    assert forall w :: 0 <= w < |s.workers| ==> AliveBit(s.workers[w]) == 0;
  }

  // A worker that moves from one place to another within the phase the pool is in.
  predicate Fits(keepalive: bool, from: Pc, to: Pc) {
    || to == from
    || (!to.Start? && (keepalive ==> !to.Exit? && !Gone(to)) && (Gone(from) ==> Gone(to)))
  }

  lemma PhasesKeptIfMoved(s: State, t: State)
    requires Phases(s) && |t.workers| == |s.workers|
    requires forall w :: 0 <= w < |s.workers| ==> Fits(s.keepalive, s.workers[w], t.workers[w])
    requires t.ready == s.ready && t.keepalive == s.keepalive && t.destroyer == s.destroyer
    requires (t.waiter.NotWaiting? <==> s.waiter.NotWaiting?) && t.freed == s.freed
    requires s.queue == [] ==> t.queue == []
    ensures Phases(t)
  {
  }

  lemma PhaseAfter(s: State, w: nat, wake: Wake)
    requires w < |s.workers| && WorkerEnabled(s, w, wake)
    ensures var t := ApplyWorker(s, w, wake);
      && t.ready == s.ready && t.keepalive == s.keepalive && t.destroyer == s.destroyer
      && (t.waiter.NotWaiting? <==> s.waiter.NotWaiting?) && t.freed == s.freed
      && (s.queue == [] ==> t.queue == [])
  {
  }

  lemma NextFits(s: State, w: nat)
    requires Phases(s) && w < |s.workers|
    ensures Fits(s.keepalive, s.workers[w], NextPc(s, w))
  {
  }

  lemma PhasesKeptByWorker(s: State, w: nat, wake: Wake)
    requires Phases(s) && w < |s.workers| && WorkerEnabled(s, w, wake)
    ensures Phases(ApplyWorker(s, w, wake))
  {
    WorkersAfter(s, w, wake);
    PhaseAfter(s, w, wake);
    NextFits(s, w);
    PhasesKeptIfMoved(s, ApplyWorker(s, w, wake));
  }

  lemma PhasesKeptByDestroyer(s: State, timeout: bool)
    requires Counters(s) && Phases(s) && Enabled(s, DestroyStep(timeout))
    ensures Phases(ApplyDestroyer(s, timeout))
  {
    if s.alive == 0 { NoneAlive(s); }
  }

  lemma PhasesKeptElsewhere(s: State, a: Action)
    requires Counters(s) && Phases(s) && Enabled(s, a) && Elsewhere(a)
    ensures Phases(Apply(s, a))
  {
    if a.InitReturns? { AllAlive(s); }
  }

  lemma PhasesKept(s: State, a: Action)
    requires Counters(s) && Phases(s) && Enabled(s, a)
    ensures Phases(Apply(s, a))
  {
    match a
    case WorkerStep(w, wake) => PhasesKeptByWorker(s, w, wake);
    case DestroyStep(timeout) => PhasesKeptByDestroyer(s, timeout);
    case PushEnd(_) => PhasesKeptIfMoved(s, Apply(s, a));
    case Spurious(_) => PhasesKeptIfMoved(s, Apply(s, a));
    case _ => PhasesKeptElsewhere(s, a);
  }

  ghost predicate SameHandsBut(s: State, t: State, w: int) {
    && |s.workers| == |t.workers|
    && forall x :: 0 <= x < |s.workers| && x != w ==> JobOf(t.workers[x]) == JobOf(s.workers[x])
  }

  lemma InHandKept(s: State, t: State, w: int, k: nat)
    requires SameHandsBut(s, t, w) && InHand(s, k)
    requires 0 <= w < |s.workers| ==> JobOf(s.workers[w]) != k
    ensures InHand(t, k)
  {
    var x :| 0 <= x < |s.workers| && JobOf(s.workers[x]) == k;
    assert JobOf(t.workers[x]) == k;
  }

  lemma OnceEachIfMoved(s: State, t: State)
    requires OnceEach(s) && SameHandsBut(s, t, -1)
    requires t.pushed == t.pulled + t.queue
    requires t.pulled == s.pulled && t.done == s.done && t.freed == s.freed
    ensures OnceEach(t)
  {
    assert forall k: nat :: Ended(t, k) == Ended(s, k);
    forall k: nat | InHand(s, k)
      ensures InHand(t, k)
    {
      InHandKept(s, t, -1, k);
    }
  }

  lemma OnceEachIfPulled(s: State, t: State, w: nat)
    requires OnceEach(s) && SameHandsBut(s, t, w) && w < |s.workers|
    requires s.queue != [] && t.pushed == s.pushed
    requires t.queue == s.queue[1..] && t.pulled == s.pulled + [s.queue[0]]
    requires t.done == s.done && t.freed == s.freed
    requires JobOf(s.workers[w]) == -1 && JobOf(t.workers[w]) == |s.pulled|
    ensures OnceEach(t)
  {
    assert forall k: nat :: Ended(t, k) == Ended(s, k);
    forall k: nat | k < |t.pulled| && Ended(t, k) == 0
      ensures InHand(t, k)
    {
      if k < |s.pulled| {
        InHandKept(s, t, w, k);
      } else {
        assert JobOf(t.workers[w]) == k;
      }
    }
  }

  lemma OnceEachIfRun(s: State, t: State, w: nat, k: nat)
    requires OnceEach(s) && SameHandsBut(s, t, w) && w < |s.workers| && JobOf(s.workers[w]) == k
    requires t.pushed == s.pushed && t.queue == s.queue && t.pulled == s.pulled
    requires t.done == s.done + multiset{k} && t.freed == s.freed
    requires JobOf(t.workers[w]) == -1
    ensures OnceEach(t)
  {
    assert forall j: nat :: Ended(t, j) == if j == k then 1 else Ended(s, j);
    forall j: nat | j < |t.pulled| && Ended(t, j) == 0
      ensures InHand(t, j)
    {
      InHandKept(s, t, w, j);
    }
  }

  lemma OnceEachIfFreed(s: State, t: State)
    requires OnceEach(s) && s.workers == t.workers
    requires forall w :: 0 <= w < |s.workers| ==> JobOf(s.workers[w]) == -1
    requires s.queue != [] && t.pushed == s.pushed
    requires t.queue == s.queue[1..] && t.pulled == s.pulled + [s.queue[0]]
    requires t.done == s.done && t.freed == s.freed + multiset{|s.pulled|}
    ensures OnceEach(t)
  {
    assert forall k: nat :: Ended(t, k) == if k == |s.pulled| then 1 else Ended(s, k);
  }

  // What a worker's step does to the queue and to the history.
  ghost predicate HistoryMoves(s: State, w: nat, t: State)
    requires w < |s.workers|
  {
    && t.pushed == s.pushed && t.freed == s.freed
    && (if s.workers[w].Pull? && s.queue != [] then
          t.queue == s.queue[1..] && t.pulled == s.pulled + [s.queue[0]]
        else
          t.queue == s.queue && t.pulled == s.pulled)
    && t.done == if s.workers[w].Run? then s.done + multiset{s.workers[w].k} else s.done
  }

  lemma HistoryAfter(s: State, w: nat, wake: Wake)
    requires w < |s.workers| && WorkerEnabled(s, w, wake)
    ensures HistoryMoves(s, w, ApplyWorker(s, w, wake))
  {
  }

  lemma OnceEachIfHistoryMoves(s: State, t: State, w: nat)
    requires OnceEach(s) && w < |s.workers| && SameHandsBut(s, t, w) && HistoryMoves(s, w, t)
    requires JobOf(t.workers[w]) == JobOf(NextPc(s, w))
    ensures OnceEach(t)
  {
    match s.workers[w]
    case Pull => if s.queue == [] { OnceEachIfMoved(s, t); } else { OnceEachIfPulled(s, t, w); }
    case Run(k) => OnceEachIfRun(s, t, w, k);
    case _ => OnceEachIfMoved(s, t);
  }

  lemma HandsAfter(s: State, w: nat, wake: Wake, t: State)
    requires w < |s.workers|
    requires t.workers == if s.workers[w].Holding? then Woken(s.workers[w := NextPc(s, w)], wake)
                          else s.workers[w := NextPc(s, w)]
    requires s.workers[w].Holding? ==> WakeOk(s.workers, wake)
    ensures SameHandsBut(s, t, w) && JobOf(t.workers[w]) == JobOf(NextPc(s, w))
  {
  }

  lemma OnceEachKeptByWorker(s: State, w: nat, wake: Wake)
    requires OnceEach(s) && Enabled(s, WorkerStep(w, wake))
    ensures OnceEach(Apply(s, WorkerStep(w, wake)))
  {
    var t := Apply(s, WorkerStep(w, wake));
    WorkersAfter(s, w, wake);
    HistoryAfter(s, w, wake);
    HandsAfter(s, w, wake, t);
    OnceEachIfHistoryMoves(s, t, w);
  }

  lemma OnceEachKeptByDestroyer(s: State, timeout: bool)
    requires OnceEach(s) && Phases(s) && Enabled(s, DestroyStep(timeout))
    ensures OnceEach(ApplyDestroyer(s, timeout))
  {
    if s.destroyer.Clearing? && s.queue != [] {
      OnceEachIfFreed(s, ApplyDestroyer(s, timeout));
    } else {
      OnceEachIfMoved(s, ApplyDestroyer(s, timeout));
    }
  }

  lemma OnceEachKept(s: State, a: Action)
    requires OnceEach(s) && Phases(s) && Enabled(s, a)
    ensures OnceEach(Apply(s, a))
  {
    match a
    case WorkerStep(w, wake) => OnceEachKeptByWorker(s, w, wake);
    case DestroyStep(timeout) => OnceEachKeptByDestroyer(s, timeout);
    case PushEnd(_) => OnceEachIfMoved(s, Apply(s, a));
    case Spurious(_) => OnceEachIfMoved(s, Apply(s, a));
    case _ =>
      ElsewhereAfter(s, a);
      OnceEachIfMoved(s, Apply(s, a));
  }

  lemma PostNotLostKept(s: State, a: Action)
    requires Phases(s) && PostNotLost(s) && Enabled(s, a)
    ensures PostNotLost(Apply(s, a))
  {
    var t := Apply(s, a);
    match a
    case WorkerStep(w, wake) =>
      PostNotLostKeptByWorker(s, w, wake);
    case PushEnd(wake) =>
      if wake.Wakes? { assert t.workers[wake.sleeper] == AtSem; }
    case DestroyStep(timeout) => PostNotLostKeptByDestroyer(s, timeout);
    case Spurious(w) => assert t.workers[w] == AtSem;
    case _ => ElsewhereAfter(s, a);
  }

  lemma PostNotLostKeptByDestroyer(s: State, timeout: bool)
    requires Phases(s) && PostNotLost(s) && Enabled(s, DestroyStep(timeout))
    ensures PostNotLost(ApplyDestroyer(s, timeout))
  {
    if s.destroyer.Clearing? {
      assert forall w :: 0 <= w < |s.workers| ==> Gone(s.workers[w]);
    }
  }

  lemma PostNotLostKeptByWorker(s: State, w: nat, wake: Wake)
    requires PostNotLost(s) && Enabled(s, WorkerStep(w, wake))
    ensures PostNotLost(Apply(s, WorkerStep(w, wake)))
  {
    var t := Apply(s, WorkerStep(w, wake));
    WorkersAfter(s, w, wake);
    if t.v == 1 && exists x :: 0 <= x < |t.workers| && t.workers[x] == Asleep {
      var x :| 0 <= x < |t.workers| && t.workers[x] == Asleep;
      assert s.workers[x] == Asleep;
      if s.workers[w].Holding? {
        assert wake.Wakes? && t.workers[wake.sleeper] == AtSem;
      } else {
        var y :| 0 <= y < |s.workers| && s.workers[y] == AtSem;
        assert t.workers[y] == AtSem;
      }
    }
  }

  lemma JobsAnnouncedIfMoved(s: State, t: State, w: nat)
    requires JobsAnnounced(s) && |t.workers| == |s.workers|
    requires forall x :: 0 <= x < |s.workers| && x != w && AboutToPull(s.workers[x]) ==> t.workers[x] == s.workers[x]
    requires t.keepalive ==> s.keepalive
    requires t.queue != [] && t.v != 1 && t.rw.Free? ==>
      s.queue != [] && ((s.v != 1 && s.rw.Free?) || (w < |t.workers| && AboutToPull(t.workers[w])))
    requires w < |s.workers| && AboutToPull(s.workers[w]) && t.queue != [] && t.rw.Free? && t.keepalive ==>
      AboutToPull(t.workers[w])
    ensures JobsAnnounced(t)
  {
    if t.keepalive && t.queue != [] && t.v != 1 && t.rw.Free? && !(w < |t.workers| && AboutToPull(t.workers[w])) {
      var x :| 0 <= x < |s.workers| && AboutToPull(s.workers[x]);
      assert AboutToPull(t.workers[x]);
    }
  }

  // What a step of a worker means for the announcement of the jobs.
  lemma AnnouncedAfter(s: State, w: nat, wake: Wake)
    requires Counters(s) && w < |s.workers| && WorkerEnabled(s, w, wake)
    ensures var t := ApplyWorker(s, w, wake);
      && t.keepalive == s.keepalive
      && (t.queue != [] && t.v != 1 && t.rw.Free? ==>
            s.queue != [] && ((s.v != 1 && s.rw.Free?) || AboutToPull(NextPc(s, w))))
      && (AboutToPull(s.workers[w]) && t.queue != [] && t.rw.Free? && t.keepalive ==> AboutToPull(NextPc(s, w)))
  {
  }

  lemma JobsAnnouncedKeptByWorker(s: State, w: nat, wake: Wake)
    requires Counters(s) && JobsAnnounced(s) && w < |s.workers| && WorkerEnabled(s, w, wake)
    ensures JobsAnnounced(ApplyWorker(s, w, wake))
  {
    var t := ApplyWorker(s, w, wake);
    WorkersAfter(s, w, wake);
    AnnouncedAfter(s, w, wake);
    assert s.workers[w].Holding? ==> t.v == 1;
    JobsAnnouncedIfMoved(s, t, w);
  }

  lemma JobsAnnouncedKeptByDestroyer(s: State, timeout: bool)
    requires JobsAnnounced(s) && Enabled(s, DestroyStep(timeout))
    ensures JobsAnnounced(ApplyDestroyer(s, timeout))
  {
    JobsAnnouncedIfMoved(s, ApplyDestroyer(s, timeout), |s.workers|);
  }

  lemma JobsAnnouncedKept(s: State, a: Action)
    requires Counters(s) && JobsAnnounced(s) && Enabled(s, a)
    ensures JobsAnnounced(Apply(s, a))
  {
    match a
    case WorkerStep(w, wake) => JobsAnnouncedKeptByWorker(s, w, wake);
    case Spurious(w) => JobsAnnouncedIfMoved(s, Apply(s, a), w);
    case DestroyStep(timeout) => JobsAnnouncedKeptByDestroyer(s, timeout);
    case PushEnd(_) =>
    case _ =>
      ElsewhereAfter(s, a);
      JobsAnnouncedIfMoved(s, Apply(s, a), |s.workers|);
  }

  lemma IdleNotLostKeptByWorker(s: State, w: nat, wake: Wake)
    requires Counters(s) && IdleNotLost(s) && w < |s.workers| && WorkerEnabled(s, w, wake)
    ensures IdleNotLost(ApplyWorker(s, w, wake))
  {
    if s.workers[w].Pull? { WorkingHere(s, w); }
  }

  lemma IdleNotLostKeptByDestroyer(s: State, timeout: bool)
    requires IdleNotLost(s) && Enabled(s, DestroyStep(timeout))
    ensures IdleNotLost(ApplyDestroyer(s, timeout))
  {
  }

  lemma IdleNotLostKept(s: State, a: Action)
    requires Counters(s) && IdleNotLost(s) && Enabled(s, a)
    ensures IdleNotLost(Apply(s, a))
  {
    match a
    case WorkerStep(w, wake) => IdleNotLostKeptByWorker(s, w, wake);
    case DestroyStep(timeout) => IdleNotLostKeptByDestroyer(s, timeout);
    case PushEnd(_) =>
    case Spurious(_) =>
    case _ => ElsewhereAfter(s, a);
  }

  lemma WorkingHere(s: State, w: nat)
    requires Counters(s) && w < |s.workers| && WorkBit(s.workers[w]) == 1
    ensures s.working > 0
  {
    SumZero(WorkBit, s.workers);
  }

  // When no worker is between Pull and Leave, no job is in hand.
  lemma NobodyWorks(s: State)
    requires Counters(s) && OnceEach(s) && s.working == 0
    ensures forall k :: 0 <= k < |s.pulled| ==> Ended(s, k) == 1
  {
    SumZero(WorkBit, s.workers);
    forall k | 0 <= k < |s.pulled|
      ensures Ended(s, k) == 1
    {
      assert forall w :: 0 <= w < |s.workers| ==> WorkBit(s.workers[w]) == 0;
      assert !InHand(s, k);
    }
  }

  lemma HistoryAfterDestroyer(s: State, timeout: bool)
    requires Enabled(s, DestroyStep(timeout))
    ensures var t := ApplyDestroyer(s, timeout);
      && t.pushed == s.pushed && t.done == s.done && s.pulled <= t.pulled
      && (t.freed == s.freed || t.freed == s.freed + multiset{|s.pulled|})
  {
  }

  // The history only grows, so a job that has ended stays ended.
  lemma HistoryGrows(s: State, a: Action)
    requires Enabled(s, a)
    ensures var t := Apply(s, a);
      s.pushed <= t.pushed && s.pulled <= t.pulled && s.done <= t.done && s.freed <= t.freed
  {
    match a
    case WorkerStep(w, wake) => HistoryAfter(s, w, wake);
    case DestroyStep(timeout) => HistoryAfterDestroyer(s, timeout);
    case PushEnd(_) =>
    case Spurious(_) =>
    case _ => ElsewhereAfter(s, a);
  }

  lemma WaiterAfter(s: State, a: Action)
    requires Enabled(s, a)
    ensures var t := Apply(s, a);
      if a.WaiterStep? then
        && t.done == s.done && t.freed == s.freed && t.pulled == s.pulled && t.pushed == s.pushed
        && t.waiter == ApplyWaiter(s).waiter && t.mark == ApplyWaiter(s).mark
      else
        t.mark == s.mark && (t.waiter == s.waiter || t.waiter.Locking? || t.waiter.Signalled?)
  {
  }

  lemma WaitKnowsIfOther(s: State, t: State)
    requires OnceEach(t) && WaitKnows(s)
    requires t.mark == s.mark && (t.waiter == s.waiter || t.waiter.Locking? || t.waiter.Signalled?)
    requires s.pushed <= t.pushed && s.pulled <= t.pulled && s.done <= t.done && s.freed <= t.freed
    ensures WaitKnows(t)
  {
    assert forall k: nat :: Ended(s, k) <= Ended(t, k);
  }

  lemma WaitKnowsKept(s: State, a: Action)
    requires Counters(s) && OnceEach(s) && WaitKnows(s) && Enabled(s, a)
    requires OnceEach(Apply(s, a))
    ensures WaitKnows(Apply(s, a))
  {
    var t := Apply(s, a);
    WaiterAfter(s, a);
    if a.WaiterStep? {
      if s.working == 0 { NobodyWorks(s); }
      assert forall k: nat :: Ended(t, k) == Ended(s, k);
    } else {
      HistoryGrows(s, a);
      WaitKnowsIfOther(s, t);
    }
  }

  lemma SizeKept(s: State, a: Action)
    requires Enabled(s, a)
    ensures |Apply(s, a).workers| == |s.workers|
  {
    match a
    case WorkerStep(w, wake) => WorkersAfter(s, w, wake);
    case DestroyStep(_) =>
    case _ =>
  }

  lemma CoreKept(s: State, a: Action)
    requires Core(s) && Enabled(s, a)
    ensures Core(Apply(s, a))
  {
    CountersKept(s, a);
    PhasesKept(s, a);
    OnceEachKept(s, a);
  }

  lemma InvKept(s: State, a: Action)
    requires Inv(s) && Enabled(s, a)
    ensures Inv(Apply(s, a))
  {
    CoreKept(s, a);
    PostNotLostKept(s, a);
    JobsAnnouncedKept(s, a);
    IdleNotLostKept(s, a);
    WaitKnowsKept(s, a);
  }

  lemma {:induction false} InvAlong(s: State, actions: seq<Action>, t: State)
    requires Inv(s) && Runs(s, actions, t)
    ensures Inv(t) && |t.workers| == |s.workers|
    decreases |actions|
  {
    if actions != [] {
      InvKept(s, actions[0]);
      SizeKept(s, actions[0]);
      InvAlong(Apply(s, actions[0]), actions[1..], t);
    }
  }

  lemma Reached(n: int, actions: seq<Action>, s: State)
    requires Runs(Init(n), actions, s)
    ensures Inv(s) && |s.workers| == if n < 0 then 0 else n
  {
    InitInv(n);
    InvAlong(Init(n), actions, s);
  }

  // ---- What this means for the users of the pool ----

  /** thpool_init returns only when every thread is up, and until thpool_destroy all stay up. */
  lemma AllThreadsServe(n: int, actions: seq<Action>, s: State)
    requires Runs(Init(n), actions, s) && s.ready && s.keepalive
    ensures s.alive == |s.workers| == if n < 0 then 0 else n
    ensures forall w :: 0 <= w < |s.workers| ==> AliveBit(s.workers[w]) == 1
  {
    Reached(n, actions, s);
    SumFull(AliveBit, s.workers);
  }

  /** num_threads_working counts exactly the workers between its two updates, in every state. */
  lemma WorkingIsExact(n: int, actions: seq<Action>, s: State)
    requires Runs(Init(n), actions, s)
    ensures s.working == Working(s) && 0 <= s.working <= |s.workers|
    ensures s.working == 0 <==> forall w :: 0 <= w < |s.workers| ==> WorkBit(s.workers[w]) == 0
  {
    Reached(n, actions, s);
    SumZero(WorkBit, s.workers);
    SumFull(WorkBit, s.workers);
  }

  /** Jobs leave the queue in the order they came, and each job that left it is either in the hands
      of exactly one worker and not ended, or has ended once and is in nobody's hands. Before the
      destroyer clears the queue, to have ended is to have been run. */
  lemma ExactlyOnceInOrder(n: int, actions: seq<Action>, s: State)
    requires Runs(Init(n), actions, s)
    ensures s.pushed == s.pulled + s.queue
    ensures forall k: nat :: k < |s.pulled| ==> (Ended(s, k) == 1 <==> !InHand(s, k)) && Ended(s, k) <= 1
    ensures forall k: nat :: k >= |s.pulled| ==> Ended(s, k) == 0 && !InHand(s, k)
    ensures forall w, x :: 0 <= w < x < |s.workers| && JobOf(s.workers[w]) == JobOf(s.workers[x]) ==>
      JobOf(s.workers[w]) == -1
    ensures !Cleaning(s) ==> forall k: nat :: s.done[k] == Ended(s, k)
  {
    Reached(n, actions, s);
  }

  lemma NotAllAsleep(s: State)
    requires PostNotLost(s) && s.v == 1 && |s.workers| >= 1
    ensures exists w :: 0 <= w < |s.workers| && s.workers[w] != Asleep
  {
    if s.workers[0] == Asleep {
      var w :| 0 <= w < |s.workers| && s.workers[w] == AtSem;
      assert s.workers[w] != Asleep;
    }
  }

  /** A posted semaphore never waits for workers that all sleep, and while the pool serves neither do
      queued jobs once the thread that changed the queue has posted. */
  lemma NoLostWakeup(n: int, actions: seq<Action>, s: State)
    requires Runs(Init(n), actions, s)
    ensures s.v == 1 && n >= 1 ==> exists w :: 0 <= w < |s.workers| && s.workers[w] != Asleep
    ensures s.keepalive && s.rw.Free? && s.queue != [] ==>
      s.v == 1 || exists w :: 0 <= w < |s.workers| && AboutToPull(s.workers[w])
    ensures s.keepalive && s.queue != [] && n >= 1 ==>
      !s.rw.Free? || exists w :: 0 <= w < |s.workers| && s.workers[w] != Asleep
  {
    Reached(n, actions, s);
    if s.v == 1 && n >= 1 {
      NotAllAsleep(s);
    } else if s.keepalive && s.rw.Free? && s.queue != [] && s.v != 1 {
      var w :| 0 <= w < |s.workers| && AboutToPull(s.workers[w]);
      assert s.workers[w] != Asleep;
    }
  }

  /** The caller of thpool_wait does not go to sleep, nor sleep on, with nothing left to happen: there is
      a job in the queue or a worker that has to pass the decrement. */
  lemma NoLostIdleSignal(n: int, actions: seq<Action>, s: State)
    requires Runs(Init(n), actions, s) && !Cleaning(s)
    requires s.waiter.GoToSleep? || s.waiter.Sleeping?
    ensures s.queue != [] || exists w :: 0 <= w < |s.workers| && WorkBit(s.workers[w]) == 1
  {
    Reached(n, actions, s);
    SumZero(WorkBit, s.workers);
  }

  lemma {:induction false} MarkAlong(since: nat, s: State, actions: seq<Action>, t: State)
    requires Runs(s, actions, t) && since <= |s.pushed|
    requires s.waiter.Locking? || s.waiter.ReadLen? || since <= s.mark
    ensures t.waiter.Locking? || t.waiter.ReadLen? || since <= t.mark
    decreases |actions|
  {
    if actions != [] {
      WaiterAfter(s, actions[0]);
      HistoryGrows(s, actions[0]);
      MarkAlong(since, Apply(s, actions[0]), actions[1..], t);
    }
  }

  lemma AllWaitedFor(t: State, pushed: seq<Job>)
    requires Core(t) && WaitKnows(t) && !Cleaning(t) && (t.waiter.Unlock? || t.waiter.Returned?)
    requires pushed <= t.pushed && |pushed| <= t.mark
    ensures pushed <= t.pulled && forall k: nat :: k < |pushed| ==> t.done[k] == 1
  {
    forall k: nat | k < |pushed|
      ensures k < |t.pulled| && t.done[k] == 1
    {
      assert Ended(t, k) == 1;
    }
    if pushed != [] {
      assert Ended(t, |pushed| - 1) == 1;
    }
  }

  /** When thpool_wait returns, every job pushed before it was called has been run to its end, and so
      has every job pushed before any of its reads of len, the last one included; before the
      destroyer clears the queue. */
  lemma WaitIsSound(n: int, before: seq<Action>, s: State, after: seq<Action>, t: State)
    requires Runs(Init(n), before, s) && Runs(s, after, t)
    requires s.waiter.Locking? || s.waiter.ReadLen?
    requires t.waiter.Unlock? || t.waiter.Returned?
    requires !Cleaning(t)
    ensures s.pushed <= t.pulled && forall k: nat :: k < |s.pushed| ==> t.done[k] == 1
  {
    Reached(n, before, s);
    InvAlong(s, after, t);
    MarkAlong(|s.pushed|, s, after, t);
    PushedAlong(s, after, t);
    AllWaitedFor(t, s.pushed);
  }

  lemma {:induction false} PushedAlong(s: State, actions: seq<Action>, t: State)
    requires Runs(s, actions, t)
    ensures s.pushed <= t.pushed
    decreases |actions|
  {
    if actions != [] {
      HistoryGrows(s, actions[0]);
      PushedAlong(Apply(s, actions[0]), actions[1..], t);
    }
  }
}
