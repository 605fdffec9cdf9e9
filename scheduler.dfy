/**
 * The lifecycle job queue: `enqueueJob`, `scheduleUpdate` and `processJobs`.
 * The microtask `scheduleUpdate` queues is an explicit `Flush` step. A job is
 * described by what running it does to the queue: the jobs it enqueues while it
 * runs, and whether it throws synchronously (a returned promise that rejects is
 * only logged, so such a job counts as not throwing).
 */
module Scheduler {

  /** A job: what it stands for, the jobs it enqueues while running, and whether it throws. */
  datatype Job<T> = Job(tag: T, enqueues: seq<Job<T>>, throws: bool)

  function Size<T>(j: Job<T>): nat
    decreases j, 1
  {
    1 + SizeSeq(j.enqueues)
  }

  /** Number of jobs in a queue, counting those they will enqueue. */
  function SizeSeq<T>(q: seq<Job<T>>): nat
    decreases q, 0
  {
    if q == [] then 0 else assert q[0] in q; Size(q[0]) + SizeSeq(q[1..])
  }

  lemma {:induction false} SizeSeqConcat<T>(a: seq<Job<T>>, b: seq<Job<T>>)
    ensures SizeSeq(a + b) == SizeSeq(a) + SizeSeq(b)
  {
    if a == [] {
      assert a + b == b;
    } else {
      assert (a + b)[0] == a[0] && (a + b)[1..] == a[1..] + b;
      SizeSeqConcat(a[1..], b);
    }
  }

  /** The queue after the first job has run: the rest, then what it enqueued. */
  function AfterFirst<T>(q: seq<Job<T>>): (r: seq<Job<T>>)
    requires q != []
    ensures SizeSeq(r) == SizeSeq(q) - 1
  {
    SizeSeqConcat(q[1..], q[0].enqueues);
    q[1..] + q[0].enqueues
  }

  function Labels<T>(q: seq<Job<T>>): (r: seq<T>)
    ensures |r| == |q| && forall i :: 0 <= i < |q| ==> r[i] == q[i].tag
  {
    if q == [] then [] else [q[0].tag] + Labels(q[1..])
  }

  /** No job, nor any job it enqueues, throws. */
  predicate Safe<T>(j: Job<T>)
    decreases j
  {
    !j.throws && forall i :: 0 <= i < |j.enqueues| ==> Safe(j.enqueues[i])
  }

  predicate SafeSeq<T>(q: seq<Job<T>>)
  {
    forall i :: 0 <= i < |q| ==> Safe(q[i])
  }

  /** What the `while` loop of `processJobs` does: the jobs run, in order, jobs left, and whether it got to the end. */
  datatype Drained<T> = Drained(order: seq<T>, left: seq<Job<T>>, completed: bool)

  /** The drain as written: a job that throws ends the loop, leaving the rest queued. */
  function Drain<T>(q: seq<Job<T>>): (d: Drained<T>)
    ensures d.completed ==> d.left == []
    ensures q != [] ==> |d.order| >= 1 && d.order[0] == q[0].tag
    decreases SizeSeq(q)
  {
    if q == [] then Drained([], [], true)
    else if q[0].throws then Drained([q[0].tag], AfterFirst(q), false)
    else
      var d := Drain(AfterFirst(q));
      Drained([q[0].tag] + d.order, d.left, d.completed)
  }

  /** The drain when a thrown error is caught like a rejected promise: every job runs. */
  function DrainCatching<T>(q: seq<Job<T>>): (order: seq<T>)
    ensures |order| == SizeSeq(q)
    decreases SizeSeq(q)
  {
    if q == [] then [] else [q[0].tag] + DrainCatching(AfterFirst(q))
  }

  /** FIFO: the queued jobs run first, in queue order, before any job they enqueue. */
  lemma {:induction false} DrainCatchingFifo<T>(q: seq<Job<T>>)
    ensures |q| <= |DrainCatching(q)| && DrainCatching(q)[..|q|] == Labels(q)
    decreases SizeSeq(q)
  {
    if q != [] {
      var r := AfterFirst(q);
      DrainCatchingFifo(r);
      assert Labels(r)[..|q| - 1] == Labels(q[1..]);
      assert DrainCatching(r)[..|q| - 1] == Labels(q[1..]);
      assert DrainCatching(q)[..|q|] == [q[0].tag] + DrainCatching(r)[..|q| - 1];
    }
  }

  lemma SafeAfterFirst<T>(q: seq<Job<T>>)
    requires q != [] && SafeSeq(q)
    ensures SafeSeq(AfterFirst(q))
  {
    assert Safe(q[0]);
    var r := AfterFirst(q);
    forall i | 0 <= i < |r| ensures Safe(r[i]) {
      if i < |q| - 1 { assert r[i] == q[i + 1]; } else { assert r[i] == q[0].enqueues[i - |q| + 1]; }
    }
  }

  /** When no job throws, the drain as written runs every job, in the catching order, and empties the queue. */
  lemma {:induction false} DrainSafe<T>(q: seq<Job<T>>)
    requires SafeSeq(q)
    ensures Drain(q) == Drained(DrainCatching(q), [], true)
    decreases SizeSeq(q)
  {
    if q != [] {
      assert Safe(q[0]);
      SafeAfterFirst(q);
      DrainSafe(AfterFirst(q));
    }
  }

  /** A job that throws stops the drain: the job queued after it is not run and stays queued. */
  lemma DrainStopsAtThrow()
    ensures Drain([Job(0, [], true), Job(1, [], false)]) == Drained([0], [Job(1, [], false)], false)
    ensures DrainCatching([Job(0, [], true), Job(1, [], false)]) == [0, 1]
  {
    var q := [Job(0, [], true), Job(1, [], false)];
    assert AfterFirst(q) == [Job(1, [], false)];
    assert AfterFirst([Job(1, [], false)]) == [];
  }

  /** The module-level `jobs` array and `isScheduled` flag, with the queued microtasks and the jobs that ran, in order. */
  class JobQueue<T> {
    var jobs: seq<Job<T>>
    var isScheduled: bool
    /** Flush microtasks queued and not yet run. */
    var pending: nat
    var ran: seq<T>

    /** At most one flush is ever pending, and only while `isScheduled` is set. */
    ghost predicate Valid()
      reads this
    {
      pending <= 1 && (pending == 1 ==> isScheduled)
    }

    /** Every queued job will be run by the pending flush. */
    ghost predicate Live()
      reads this
    {
      Valid() && (isScheduled <==> pending == 1) && (jobs != [] ==> isScheduled)
    }

    constructor()
      ensures Live()
      ensures jobs == [] && !isScheduled && pending == 0 && ran == []
    {
      jobs := [];
      isScheduled := false;
      pending := 0;
      ran := [];
    }

    /** `scheduleUpdate()`: queue one flush unless one is already scheduled. */
    method ScheduleUpdate()
      requires Valid()
      modifies this
      ensures Valid() && isScheduled
      ensures pending == if old(isScheduled) then old(pending) else old(pending) + 1
      ensures jobs == old(jobs) && ran == old(ran)
      ensures old(Live()) ==> Live()
    {
      if isScheduled {
        return;
      }
      isScheduled := true;
      pending := pending + 1;
    }

    /** `enqueueJob(job)`: append the job, then `scheduleUpdate()`. */
    method EnqueueJob(job: Job<T>)
      requires Valid()
      modifies this
      ensures Valid() && isScheduled
      ensures jobs == old(jobs) + [job]
      ensures pending == if old(isScheduled) then old(pending) else old(pending) + 1
      ensures ran == old(ran)
      ensures old(Live()) ==> Live()
    {
      jobs := jobs + [job];
      ScheduleUpdate();
    }

    /**
     * `processJobs()` as written. It runs as the flush microtask, which is then
     * no longer pending and was queued when `isScheduled` was set, so the jobs a
     * job enqueues are only appended. A job that throws ends the loop before
     * `isScheduled` is cleared.
     */
    method ProcessJobsAsWritten()
      requires isScheduled && pending == 0
      modifies this
      ensures Valid()
      ensures ran == old(ran) + Drain(old(jobs)).order
      ensures jobs == Drain(old(jobs)).left
      ensures isScheduled == !Drain(old(jobs)).completed
      ensures pending == 0
    {
      ghost var q0 := jobs;
      ghost var done: seq<T> := [];
      while jobs != []
        invariant isScheduled && pending == old(pending)
        invariant ran == old(ran) + done
        invariant Drain(q0) == Drained(done + Drain(jobs).order, Drain(jobs).left, Drain(jobs).completed)
        decreases SizeSeq(jobs)
      {
        var job := jobs[0];
        ghost var before := jobs;
        jobs := AfterFirst(jobs);
        ran := ran + [job.tag];
        done := done + [job.tag];
        if job.throws {
          assert Drain(before) == Drained([job.tag], jobs, false);
          return;
        }
        assert Drain(before).order == [job.tag] + Drain(jobs).order;
      }
      assert Drain(q0).order == done + [];
      isScheduled := false;
    }

    /** `processJobs()` with a synchronous throw caught and logged like a rejection: the loop runs every job. */
    method ProcessJobs()
      requires isScheduled && pending == 0
      modifies this
      ensures Valid()
      ensures ran == old(ran) + DrainCatching(old(jobs))
      ensures jobs == [] && !isScheduled && pending == 0
    {
      ghost var q0 := jobs;
      ghost var done: seq<T> := [];
      while jobs != []
        invariant isScheduled && pending == old(pending)
        invariant ran == old(ran) + done
        invariant DrainCatching(q0) == done + DrainCatching(jobs)
        decreases SizeSeq(jobs)
      {
        var job := jobs[0];
        jobs := AfterFirst(jobs);
        ran := ran + [job.tag];
        done := done + [job.tag];
      }
      assert DrainCatching(q0) == done + [];
      isScheduled := false;
    }

    /** The flush microtask as written, when one is pending. */
    method FlushAsWritten()
      requires Valid()
      modifies this
      ensures Valid()
      ensures old(pending) == 0 ==> jobs == old(jobs) && ran == old(ran) && isScheduled == old(isScheduled) && pending == 0
      ensures old(pending) == 1 ==>
        pending == 0 && ran == old(ran) + Drain(old(jobs)).order && jobs == Drain(old(jobs)).left &&
        isScheduled == !Drain(old(jobs)).completed
    {
      if pending > 0 {
        pending := pending - 1;
        ProcessJobsAsWritten();
      }
    }

    /** The flush microtask with the catching drain: it leaves the queue empty and the queue stays live. */
    method Flush()
      requires Valid()
      modifies this
      ensures Valid()
      ensures old(Live()) ==> Live()
      ensures old(pending) == 0 ==> jobs == old(jobs) && ran == old(ran) && isScheduled == old(isScheduled) && pending == 0
      ensures old(pending) == 1 ==>
        jobs == [] && !isScheduled && pending == 0 && ran == old(ran) + DrainCatching(old(jobs))
    {
      if pending > 0 {
        pending := pending - 1;
        ProcessJobs();
      }
    }
  }

  /**
   * After a job throws, the next job enqueued is never flushed: `isScheduled`
   * stays set, so `scheduleUpdate` queues nothing, while jobs wait in the queue.
   */
  method StuckAfterThrow() returns (q: JobQueue<nat>)
    ensures q.Valid() && !q.Live()
    ensures q.pending == 0 && q.isScheduled
    ensures q.jobs == [Job(1, [], false), Job(2, [], false)]
    ensures q.ran == [0]
  {
    q := new JobQueue<nat>();
    q.EnqueueJob(Job(0, [], true));
    q.EnqueueJob(Job(1, [], false));
    DrainStopsAtThrow();
    q.FlushAsWritten();
    q.EnqueueJob(Job(2, [], false));
  }
}
