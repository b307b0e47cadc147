/** The web server's thread pool: producers append requests under a mutex and then post
    a semaphore; workers wait on the semaphore and then take a request under the
    mutex. A worker does not look at whether its wait succeeded. Any number of threads,
    every interleaving of their steps. */
module ThreadPool {
  type Thread = nat
  type Request = nat

  datatype Holder =
    | Free
    | Appending(t: Thread, r: Request)   // holds the mutex, size not looked at yet
    | Appended(t: Thread)                // pushed, mutex not released yet
    | Taking(t: Thread)                  // a worker holds the mutex

  datatype Pool = Pool(
    max: nat,
    queue: seq<Request>, sem: nat, holder: Holder,
    posting: set<Thread>,                // released the mutex, about to post
    woken: set<Thread>,                  // past the semaphore, before the mutex
    accepted: seq<Request>, dequeued: seq<Request>,
    failed: nat, barren: nat)            // waits that failed; workers that found the queue empty

  datatype Step =
    | Lock(t: Thread, r: Request)
    | Refuse(t: Thread)
    | Push(t: Thread)
    | Unlock(t: Thread)
    | Post(t: Thread)
    | Wait(t: Thread)
    | WaitFails(t: Thread)               // interrupted: no permit is taken
    | LockToTake(t: Thread)
    | FindEmpty(t: Thread)
    | Take(t: Thread)

  /** A thread that is between two calls. */
  predicate Idle(p: Pool, t: Thread) {
    && t !in p.posting && t !in p.woken
    && (p.holder.Appending? ==> p.holder.t != t) && (p.holder.Appended? ==> p.holder.t != t)
    && (p.holder.Taking? ==> p.holder.t != t)
  }

  predicate Next(p: Pool, q: Pool, step: Step) {
    match step
    case Lock(t, r) => p.holder.Free? && Idle(p, t) && q == p.(holder := Appending(t, r))
    case Refuse(t) => p.holder.Appending? && p.holder.t == t && |p.queue| > p.max && q == p.(holder := Free)
    case Push(t) =>
      && p.holder.Appending? && p.holder.t == t && |p.queue| <= p.max
      && q == p.(queue := p.queue + [p.holder.r], accepted := p.accepted + [p.holder.r], holder := Appended(t))
    case Unlock(t) => p.holder == Appended(t) && q == p.(holder := Free, posting := p.posting + {t})
    case Post(t) => t in p.posting && q == p.(sem := p.sem + 1, posting := p.posting - {t})
    case Wait(t) => Idle(p, t) && p.sem > 0 && q == p.(sem := p.sem - 1, woken := p.woken + {t})
    case WaitFails(t) => Idle(p, t) && q == p.(woken := p.woken + {t}, failed := p.failed + 1)
    case LockToTake(t) => t in p.woken && p.holder.Free? && q == p.(holder := Taking(t), woken := p.woken - {t})
    case FindEmpty(t) => p.holder == Taking(t) && p.queue == [] && q == p.(holder := Free, barren := p.barren + 1)
    case Take(t) =>
      && p.holder == Taking(t) && p.queue != []
      && q == p.(queue := p.queue[1..], dequeued := p.dequeued + [p.queue[0]], holder := Free)
  }

  predicate Initial(p: Pool) {
    && p.queue == [] && p.sem == 0 && p.holder.Free? && p.posting == {} && p.woken == {}
    && p.accepted == [] && p.dequeued == [] && p.failed == p.barren == 0
  }

  /** The permits: in the semaphore, on their way there, or with a worker past its wait. */
  function Permits(p: Pool): nat {
    p.sem + |p.posting| + |p.woken| + (if p.holder.Appended? || p.holder.Taking? then 1 else 0)
  }

  /** Each queued request is matched by a permit; each failed wait makes one too many,
      until a worker finds the queue empty. */
  predicate Inv(p: Pool) {
    && p.accepted == p.dequeued + p.queue
    && |p.queue| + p.failed == Permits(p) + p.barren && p.barren <= p.failed
    && |p.queue| <= p.max + 1
    && (p.holder.Appending? || p.holder.Appended? ==> p.holder.t !in p.posting)
  }

  lemma NextKeeps(p: Pool, q: Pool, step: Step)
    requires Inv(p) && Next(p, q, step)
    ensures Inv(q) && q.max == p.max
  {
    NextInOrder(p, q, step);
    match step
    case Push(t) =>
    case Take(t) =>
    case _ =>
  }

  lemma NextInOrder(p: Pool, q: Pool, step: Step)
    requires p.accepted == p.dequeued + p.queue && Next(p, q, step)
    ensures q.accepted == q.dequeued + q.queue
  {
    match step
    case Push(t) =>
      assert p.accepted + [p.holder.r] == p.dequeued + (p.queue + [p.holder.r]);
    case Take(t) =>
      assert p.queue == [p.queue[0]] + p.queue[1..];
      assert p.dequeued + p.queue == (p.dequeued + [p.queue[0]]) + p.queue[1..];
    case _ =>
  }

  predicate IsRun(run: seq<Pool>, steps: seq<Step>) {
    && |run| == |steps| + 1 && Initial(run[0])
    && forall i :: 0 <= i < |steps| ==> Next(run[i], run[i + 1], steps[i])
  }

  /** In every interleaving: accepted requests are dequeued in order and none is lost;
      as many workers at most find the queue empty as waits failed; the queue is never
      longer than one more than the limit. */
  lemma {:induction false} PoolSafe(run: seq<Pool>, steps: seq<Step>, i: nat)
    requires IsRun(run, steps) && i < |run|
    ensures Inv(run[i]) && run[i].max == run[0].max
    ensures run[i].accepted == run[i].dequeued + run[i].queue
    ensures run[i].barren <= run[i].failed
    ensures |run[i].queue| <= run[i].max + 1
    decreases i
  {
    hide Next;
    if i > 0 {
      PoolSafe(run, steps, i - 1);
      assert Next(run[i - 1], run[i - 1 + 1], steps[i - 1]);
      NextKeeps(run[i - 1], run[i], steps[i - 1]);
    }
  }

  lemma NextKeepsFailed(p: Pool, q: Pool, step: Step)
    requires Next(p, q, step)
    ensures q.failed == p.failed + (if step.WaitFails? then 1 else 0)
  {
  }

  lemma {:induction false} NoneFailed(run: seq<Pool>, steps: seq<Step>, i: nat)
    requires IsRun(run, steps) && i < |run| && forall j :: 0 <= j < i ==> !steps[j].WaitFails?
    ensures run[i].failed == 0
    decreases i
  {
    hide Next;
    if i > 0 {
      NoneFailed(run, steps, i - 1);
      assert Next(run[i - 1], run[i - 1 + 1], steps[i - 1]);
      NextKeepsFailed(run[i - 1], run[i], steps[i - 1]);
    }
  }

  /** So, as long as no wait has failed, the branch for an empty queue is not taken. */
  lemma NeverEmpty(run: seq<Pool>, steps: seq<Step>, i: nat)
    requires IsRun(run, steps) && i < |steps| && forall j :: 0 <= j < i ==> !steps[j].WaitFails?
    ensures !steps[i].FindEmpty?
    ensures run[i].holder.Taking? ==> run[i].queue != []
  {
    PoolSafe(run, steps, i);
    NoneFailed(run, steps, i);
    assert Next(run[i], run[i + 1], steps[i]);
  }

  function Start(max: nat): Pool { Pool(max, [], 0, Free, {}, {}, [], [], 0, 0) }

  lemma Extend(run: seq<Pool>, steps: seq<Step>, q: Pool, step: Step) returns (run2: seq<Pool>, steps2: seq<Step>)
    requires IsRun(run, steps) && Next(run[|steps|], q, step)
    ensures IsRun(run2, steps2) && |run2| == |steps2| + 1 && run2[|steps2|] == q
  {
    hide Next;
    run2, steps2 := run + [q], steps + [step];
    forall i | 0 <= i < |steps| + 1 ensures Next((run + [q])[i], (run + [q])[i + 1], (steps + [step])[i]) {
      assert i < |steps| ==> Next(run[i], run[i + 1], steps[i]);
    }
  }

  /** After one failed wait it is. */
  lemma EmptyAfterFailedWait(max: nat) returns (run: seq<Pool>, steps: seq<Step>)
    ensures IsRun(run, steps) && steps == [WaitFails(0), LockToTake(0), FindEmpty(0)]
  {
    var p := Start(max);
    var q := p.(woken := p.woken + {0}, failed := 1);
    var r := q.(holder := Taking(0), woken := q.woken - {0});
    run, steps := [p, q, r, r.(holder := Free, barren := 1)], [WaitFails(0), LockToTake(0), FindEmpty(0)];
    assert Next(run[0], run[1], steps[0]) && Next(run[1], run[2], steps[1]) && Next(run[2], run[3], steps[2]);
  }

  // ---------------------------------------------------------------- the limit

  /** A pool at rest with `k` requests queued. */
  predicate Holds(p: Pool, max: nat, k: nat) {
    p.max == max && |p.queue| == k && p.holder.Free? && Idle(p, 0)
  }

  /** One call that appends. */
  lemma AppendOne(run: seq<Pool>, steps: seq<Step>, max: nat, k: nat) returns (run2: seq<Pool>, steps2: seq<Step>)
    requires IsRun(run, steps) && Holds(run[|steps|], max, k) && k <= max
    ensures IsRun(run2, steps2) && Holds(run2[|steps2|], max, k + 1)
  {
    var p := run[|steps|];
    hide IsRun;
    var a := p.(holder := Appending(0, 0));
    var b := a.(queue := a.queue + [0], accepted := a.accepted + [0], holder := Appended(0));
    var c := b.(holder := Free, posting := b.posting + {0});
    var d := c.(sem := c.sem + 1, posting := c.posting - {0});
    run2, steps2 := Extend(run, steps, a, Lock(0, 0));
    run2, steps2 := Extend(run2, steps2, b, Push(0));
    run2, steps2 := Extend(run2, steps2, c, Unlock(0));
    run2, steps2 := Extend(run2, steps2, d, Post(0));
  }

  lemma {:induction false} Filled(max: nat, k: nat) returns (run: seq<Pool>, steps: seq<Step>)
    requires k <= max + 1
    ensures IsRun(run, steps) && Holds(run[|steps|], max, k)
  {
    if k == 0 {
      run, steps := [Start(max)], [];
    } else {
      run, steps := Filled(max, k - 1);
      run, steps := AppendOne(run, steps, max, k - 1);
    }
  }

  /** The limit is exceeded: for every limit some run queues one request more. */
  lemma ExceedsLimit(max: nat)
    ensures exists run: seq<Pool>, steps: seq<Step> :: IsRun(run, steps) && run[0].max == max && |run[|steps|].queue| == max + 1
  {
    hide Next;
    var run, steps := Filled(max, max + 1);
    PoolSafe(run, steps, |steps|);
  }

  /** Exactly then: a step of a run takes the queue over the limit if and only if it
      appends to a queue that holds the limit. */
  lemma ExceedsIff(run: seq<Pool>, steps: seq<Step>, i: nat)
    requires IsRun(run, steps) && i < |steps|
    ensures |run[i].queue| <= run[i].max < |run[i + 1].queue| <==> steps[i].Push? && |run[i].queue| == run[i].max
  {
    assert Next(run[i], run[i + 1], steps[i]);
  }
}
