/** The thread pool as a state machine. One action is one mutex-protected block, or one access to
    shared data outside a mutex, of one thread; the name of a program counter is the place the
    thread has reached. Any number of workers, one thread that calls thpool_wait, one that calls
    thpool_destroy, and any number of threads that call thpool_add_work. */
module ThreadPool {
  import opened Counting
  import opened JobQueues

  /** Where a worker is in thread_do (thpool.c, line numbers on the right). `Holding` and `Run` carry
      the number of the job in the order in which jobs were pulled. */
  datatype Pc =
    | Start            // 345  before num_threads_alive is raised
    | Test             // 349  at the loop test of threads_keepalive
    | AtSem            // 542  about to test v; also after being signalled
    | Asleep           // 543  on the semaphore's condition, not signalled
    | Retest           // 353  after bsem_wait, at the second test of threads_keepalive
    | Enter            // 355  before num_threads_working++
    | Pull             // 362  before jobqueue_pull
    | Holding(k: nat)  // 481  in jobqueue_pull, holding rwmutex, before bsem_post
    | Run(k: nat)      // 366  in the job's function
    | Leave            // 370  before num_threads_working--
    | Exit             // 379  before num_threads_alive--
    | LastUnlock       // 381  after it, thcount_lock still held
    | Exited           // 383

  /** Where the caller of thpool_wait is. It holds thcount_lock from ReadLen to GoToSleep or Unlock. */
  datatype WaiterPc =
    | NotWaiting
    | Locking          // 198
    | ReadLen          // 199  before it reads len
    | ReadWorking      // 199  after reading 0, before it reads num_threads_working
    | GoToSleep        // 200  before pthread_cond_wait
    | Sleeping         // 200  asleep, the lock released
    | Signalled        // 200  woken, waiting for the lock
    | Unlock           // 202
    | Returned

  /** Where the caller of thpool_destroy is; the first loop has a timeout, the second has not. */
  datatype DestroyPc =
    | NotDestroying
    | TimedTest        // 221
    | TimedPost        // 222
    | PollTest         // 228
    | PollPost         // 229
    | Clearing         // 234  in jobqueue_clear
    | Destroyed

  /** Who holds rwmutex between two actions: only a thread that has changed the queue and has not
      posted the semaphore yet. */
  datatype RwOwner = Free | HeldByPusher | HeldByWorker(w: nat)

  /** Which sleeper pthread_cond_signal wakes. */
  datatype Wake = Nobody | Wakes(sleeper: nat)

  datatype State = State(
    workers: seq<Pc>,
    ready: bool,          // thpool_init has returned
    keepalive: bool,
    working: int,
    alive: int,
    queue: seq<Job>,
    v: nat,
    rw: RwOwner,
    waiter: WaiterPc,
    destroyer: DestroyPc,
    // History: what was pushed and pulled so far; how often each pulled job (by its number) was
    // run to its end or freed unexecuted; how many jobs had been pushed when the waiter last read len.
    pushed: seq<Job>,
    pulled: seq<Job>,
    done: multiset<nat>,
    freed: multiset<nat>,
    mark: nat)

  datatype Action =
    | InitReturns
    | PushBegin(job: Job)
    | PushEnd(wake: Wake)
    | WorkerStep(w: nat, wake: Wake)
    | WaitCall
    | WaiterStep
    | DestroyCall
    | DestroyStep(timeout: bool)
    | Spurious(w: nat)
    | SpuriousWaiter

  function Init(numThreads: int): State {
    var n := if numThreads < 0 then 0 else numThreads;
    State(seq(n, _ => Start), false, true, 0, 0, [], 0, Free, NotWaiting, NotDestroying,
          [], [], multiset{}, multiset{}, 0)
  }

  predicate HoldsCountLock(p: WaiterPc) {
    p.ReadLen? || p.ReadWorking? || p.GoToSleep? || p.Unlock?
  }

  /** Nobody holds thcount_lock between two actions. */
  predicate CountLockFree(s: State) {
    !HoldsCountLock(s.waiter) && forall w :: 0 <= w < |s.workers| ==> s.workers[w] != LastUnlock
  }

  /** Signalling wakes a sleeper when there is one. A signal that wakes more of them is this one
      followed by spurious wakeups of the others. */
  predicate WakeOk(workers: seq<Pc>, wake: Wake) {
    match wake
    case Nobody => forall i :: 0 <= i < |workers| ==> workers[i] != Asleep
    case Wakes(x) => x < |workers| && workers[x] == Asleep
  }

  function Woken(workers: seq<Pc>, wake: Wake): seq<Pc> {
    if wake.Wakes? && wake.sleeper < |workers| then workers[wake.sleeper := AtSem] else workers
  }

  function AllWoken(workers: seq<Pc>): (ws: seq<Pc>)
    ensures |ws| == |workers|
    ensures forall i :: 0 <= i < |ws| ==> ws[i] == if workers[i] == Asleep then AtSem else workers[i]
  {
    seq(|workers|, i requires 0 <= i < |workers| => if workers[i] == Asleep then AtSem else workers[i])
  }

  /** bsem_post */
  function Posted(s: State, wake: Wake): State {
    s.(v := 1, workers := Woken(s.workers, wake))
  }

  predicate Enabled(s: State, a: Action) {
    match a
    case InitReturns => !s.ready && s.alive == |s.workers|
    case PushBegin(_) => s.ready && s.rw.Free? && !s.destroyer.Clearing? && !s.destroyer.Destroyed?
    case PushEnd(wake) => s.rw.HeldByPusher? && WakeOk(s.workers, wake)
    case WorkerStep(w, wake) => w < |s.workers| && WorkerEnabled(s, w, wake)
    case WaitCall => s.ready && (s.waiter.NotWaiting? || s.waiter.Returned?)
    case WaiterStep =>
      && !s.waiter.NotWaiting? && !s.waiter.Sleeping? && !s.waiter.Returned?
      && (s.waiter.Locking? || s.waiter.Signalled? ==> CountLockFree(s))
    case DestroyCall => s.ready && s.destroyer.NotDestroying?
    case DestroyStep(_) =>
      !s.destroyer.NotDestroying? && !s.destroyer.Destroyed? && (s.destroyer.Clearing? ==> s.rw.Free?)
    case Spurious(w) => w < |s.workers| && s.workers[w].Asleep?
    case SpuriousWaiter => s.waiter.Sleeping?
  }

  predicate WorkerEnabled(s: State, w: nat, wake: Wake)
    requires w < |s.workers|
  {
    match s.workers[w]
    case Test => true
    case AtSem => true
    case Retest => true
    case Run(_) => true
    case Asleep => false
    case Exited => false
    case Pull => s.rw.Free?
    case Holding(_) => WakeOk(s.workers, wake)
    case LastUnlock => true
    case Start => CountLockFree(s)
    case Enter => CountLockFree(s)
    case Leave => CountLockFree(s)
    case Exit => CountLockFree(s)
  }

  function Apply(s: State, a: Action): State
    requires Enabled(s, a)
  {
    match a
    case InitReturns => s.(ready := true)
    case PushBegin(job) =>
      s.(queue := s.queue + [job], pushed := s.pushed + [job], rw := HeldByPusher)
    case PushEnd(wake) => Posted(s, wake).(rw := Free)
    case WorkerStep(w, wake) => ApplyWorker(s, w, wake)
    case WaitCall => s.(waiter := Locking)
    case WaiterStep => ApplyWaiter(s)
    case DestroyCall => s.(destroyer := TimedTest, keepalive := false)
    case DestroyStep(timeout) => ApplyDestroyer(s, timeout)
    case Spurious(w) => Goto(s, w, AtSem)
    case SpuriousWaiter => s.(waiter := Signalled)
  }

  function Goto(s: State, w: nat, pc: Pc): State
    requires w < |s.workers|
  {
    s.(workers := s.workers[w := pc])
  }

  function ApplyWorker(s: State, w: nat, wake: Wake): State
    requires w < |s.workers| && WorkerEnabled(s, w, wake)
  {
    match s.workers[w]
    case Start => Goto(s, w, Test).(alive := s.alive + 1)
    case Test => Goto(s, w, if s.keepalive then AtSem else Exit)
    case AtSem => if s.v == 1 then Goto(s, w, Retest).(v := 0) else Goto(s, w, Asleep)
    case Retest => Goto(s, w, if s.keepalive then Enter else Test)
    case Enter => Goto(s, w, Pull).(working := s.working + 1)
    case Pull =>
      if s.queue == [] then
        Goto(s, w, Leave)
      else
        var taken := s.(queue := s.queue[1..], pulled := s.pulled + [s.queue[0]]);
        if |s.queue| == 1 then
          Goto(taken, w, Run(|s.pulled|))
        else
          Goto(taken, w, Holding(|s.pulled|)).(rw := HeldByWorker(w))
    case Holding(k) => Posted(Goto(s, w, Run(k)), wake).(rw := Free)
    case Run(k) => Goto(s, w, Leave).(done := s.done + multiset{k})
    case Leave =>
      Goto(s, w, Test).(
        working := s.working - 1,
        waiter := if s.working - 1 == 0 && s.waiter.Sleeping? then Signalled else s.waiter)
    case Exit => Goto(s, w, LastUnlock).(alive := s.alive - 1)
    case LastUnlock => Goto(s, w, Exited)
    case Asleep => s
    case Exited => s
  }

  function ApplyWaiter(s: State): State {
    match s.waiter
    case Locking => s.(waiter := ReadLen)
    case Signalled => s.(waiter := ReadLen)
    case ReadLen => s.(waiter := if |s.queue| != 0 then GoToSleep else ReadWorking, mark := |s.pushed|)
    case ReadWorking => s.(waiter := if s.working != 0 then GoToSleep else Unlock)
    case GoToSleep => s.(waiter := Sleeping)
    case Unlock => s.(waiter := Returned)
    case _ => s
  }

  function ApplyDestroyer(s: State, timeout: bool): State {
    match s.destroyer
    case TimedTest => s.(destroyer := if timeout || s.alive == 0 then PollTest else TimedPost)
    case TimedPost => s.(v := 1, workers := AllWoken(s.workers), destroyer := TimedTest)
    case PollTest => s.(destroyer := if s.alive == 0 then Clearing else PollPost)
    case PollPost => s.(v := 1, workers := AllWoken(s.workers), destroyer := PollTest)
    case Clearing =>
      if s.queue == [] then
        s.(v := 0, destroyer := Destroyed)
      else
        s.(queue := s.queue[1..], pulled := s.pulled + [s.queue[0]],
           freed := s.freed + multiset{|s.pulled|},
           v := if |s.queue| > 1 then 1 else s.v)
    case _ => s
  }

  /** `actions` is a run of the pool from s to t. */
  predicate Runs(s: State, actions: seq<Action>, t: State)
    decreases |actions|
  {
    if actions == [] then
      s == t
    else
      Enabled(s, actions[0]) && Runs(Apply(s, actions[0]), actions[1..], t)
  }

  /** The steps the pool takes by itself: no new call, no spurious wakeup, not the destroyer. */
  predicate Internal(a: Action) {
    a.WorkerStep? || a.PushEnd? || a.WaiterStep? || a.InitReturns?
  }

  predicate AllInternal(actions: seq<Action>) {
    forall i :: 0 <= i < |actions| ==> Internal(actions[i])
  }

  // Nothing the pool can do by itself: every thread of it is blocked, asleep or gone.
  ghost predicate Quiescent(s: State) {
    forall a :: Internal(a) ==> !Enabled(s, a)
  }

  function WorkBit(p: Pc): nat {
    if p.Pull? || p.Holding? || p.Run? || p.Leave? then 1 else 0
  }

  // The worker has counted itself out.
  predicate Gone(p: Pc) {
    p.LastUnlock? || p.Exited?
  }

  function AliveBit(p: Pc): nat {
    if p.Start? || Gone(p) then 0 else 1
  }

  function GoneBit(p: Pc): nat {
    if Gone(p) then 1 else 0
  }

  function Working(s: State): nat { Sum(WorkBit, s.workers) }

  function Alive(s: State): nat { Sum(AliveBit, s.workers) }

  function NumGone(s: State): nat { Sum(GoneBit, s.workers) }
}
