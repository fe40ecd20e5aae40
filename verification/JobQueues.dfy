/** The linked job queue of the thread pool: single-linked through `prev`, from `front` to `rear`. */
module JobQueues {

  datatype Job = Job(routine: nat, arg: int)

  /** struct job: the link and the work. */
  class JobNode {
    var prev: JobNode?
    const job: Job

    constructor (job: Job)
      ensures this.job == job && prev == null
    {
      this.job := job;
      this.prev := null;
    }
  }

  /** The value part of struct bsem. Who is asleep on its condition is part of ThreadPool. */
  class Bsem {
    var v: nat

    constructor (value: nat)
      requires value <= 1
      ensures v == value
    {
      v := value;
    }

    method Reset()
      modifies this
      ensures v == 0
    {
      v := 0;
    }

    method Post()
      modifies this
      ensures v == 1
    {
      v := 1;
    }
  }

  ghost function Works(nodes: seq<JobNode>): (works: seq<Job>)
    ensures |works| == |nodes| && forall i :: 0 <= i < |nodes| ==> works[i] == nodes[i].job
  {
    seq(|nodes|, i requires 0 <= i < |nodes| => nodes[i].job)
  }

  class JobQueue {
    var front: JobNode?
    var rear: JobNode?
    var len: nat
    const hasJobs: Bsem

    // The jobs in the queue, front first.
    ghost var spine: seq<JobNode>

    ghost predicate Valid()
      reads this, spine
    {
      && len == |spine|
      && (forall i, j :: 0 <= i < j < |spine| ==> spine[i] != spine[j])
      && (forall i :: 0 <= i < |spine| - 1 ==> spine[i].prev == spine[i + 1])
      && (if spine == [] then
            front == null && rear == null
          else
            front == spine[0] && rear == spine[|spine| - 1] && spine[|spine| - 1].prev == null)
    }

    /** What the queue means to its users: the sequence of jobs to be done. */
    ghost function Contents(): seq<Job>
      reads this
    {
      Works(spine)
    }

    constructor ()
      ensures Valid() && fresh(hasJobs) && Contents() == [] && spine == [] && hasJobs.v == 0
    {
      front, rear, len := null, null, 0;
      hasJobs := new Bsem(0);
      spine := [];
    }

    /** jobqueue_push */
    method Push(newjob: JobNode)
      requires Valid() && newjob !in spine
      modifies this, hasJobs, newjob`prev, if rear == null then {} else {rear}
      ensures Valid()
      ensures spine == old(spine) + [newjob]
      ensures Contents() == old(Contents()) + [newjob.job]
      ensures hasJobs.v == 1
    {
      newjob.prev := null;
      if len == 0 {
        front := newjob;
        rear := newjob;
      } else {
        rear.prev := newjob;
        rear := newjob;
      }
      len := len + 1;
      spine := spine + [newjob];
      hasJobs.Post();
    }

    /** jobqueue_pull: the head of the queue, or null. */
    method Pull() returns (job: JobNode?)
      requires Valid()
      modifies this, hasJobs
      ensures Valid()
      ensures old(spine) == [] ==> job == null && spine == [] && hasJobs.v == old(hasJobs.v)
      ensures old(spine) != [] ==> job == old(spine)[0] && spine == old(spine)[1..]
      ensures old(spine) != [] ==> old(Contents()) == [job.job] + Contents()
      // The semaphore is posted again exactly when jobs remain.
      ensures old(spine) != [] ==> hasJobs.v == if spine != [] then 1 else old(hasJobs.v)
    {
      job := front;
      if len == 0 {
      } else if len == 1 {
        front := null;
        rear := null;
        len := 0;
        spine := [];
      } else {
        front := job.prev;
        len := len - 1;
        spine := spine[1..];
        hasJobs.Post();
      }
    }

    /** jobqueue_clear: frees what is left, each job once and in order. */
    method Clear() returns (freed: seq<JobNode>)
      requires Valid()
      modifies this, hasJobs
      ensures Valid() && spine == [] && Contents() == []
      ensures freed == old(spine)
      ensures forall i, j :: 0 <= i < j < |freed| ==> freed[i] != freed[j]
      ensures hasJobs.v == 0
    {
      freed := [];
      while len != 0
        invariant Valid() && |freed| + |spine| == |old(spine)|
        invariant freed == old(spine)[..|freed|] && spine == old(spine)[|freed|..]
        decreases len
      {
        var job := Pull();
        freed := freed + [job];
      }
      front := null;
      rear := null;
      hasJobs.Reset();
      len := 0;
    }

    /** thpool_add_work: a fresh job is appended. */
    method AddWork(work: Job)
      requires Valid()
      modifies this, hasJobs, if rear == null then {} else {rear}
      ensures Valid()
      ensures Contents() == old(Contents()) + [work]
      ensures hasJobs.v == 1
    {
      var newjob := new JobNode(work);
      Push(newjob);
    }
  }

  /** The nodes met by following `prev` from `n` for as long as it lasts, at most `fuel` of them. */
  ghost function Walk(n: JobNode?, fuel: nat): seq<JobNode>
    reads *
  {
    if n == null || fuel == 0 then [] else [n] + Walk(n.prev, fuel - 1)
  }

  lemma {:induction false} WalkFrom(q: JobQueue, i: nat, fuel: nat)
    requires q.Valid() && i < |q.spine| <= i + fuel
    ensures Walk(q.spine[i], fuel) == q.spine[i..]
    decreases fuel
  {
    if i + 1 < |q.spine| {
      WalkFrom(q, i + 1, fuel - 1);
      assert q.spine[i..] == [q.spine[i]] + q.spine[i + 1..];
    }
  }

  /** Following `prev` from `front` meets exactly `len` distinct jobs, in the order they are to run,
      and ends at `rear`: with any larger bound on the walk the same nodes come out. */
  lemma WalkIsContents(q: JobQueue, fuel: nat)
    requires q.Valid() && q.len <= fuel
    ensures |Walk(q.front, fuel)| == q.len
    ensures forall i, j :: 0 <= i < j < q.len ==> Walk(q.front, fuel)[i] != Walk(q.front, fuel)[j]
    ensures forall i :: 0 <= i < q.len ==> Walk(q.front, fuel)[i].job == q.Contents()[i]
    ensures q.len > 0 ==> Walk(q.front, fuel)[q.len - 1] == q.rear && q.rear.prev == null
  {
    if q.spine != [] {
      WalkFrom(q, 0, fuel);
      assert Walk(q.front, fuel) == q.spine;
    }
  }
}
