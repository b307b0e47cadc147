/** The background thread of one job type: jobs are appended under a mutex; the thread
    looks at the first list node, works on its job without the mutex, and then removes
    that node, wherever in the list it may be by then. */
module BackgroundJobs {
  type Job = nat

  /** A list node: nodes are told apart by when they were made. */
  datatype Queued = Queued(id: nat, job: Job)

  datatype Phase = Looking | Working(ln: Queued) | Worked(ln: Queued)

  datatype Queue = Queue(
    list: seq<Queued>, pending: int, phase: Phase,
    created: seq<Job>, effects: seq<Job>, finished: seq<Job>)

  datatype Step =
    | Create(job: Job)     // any thread, under the mutex
    | Look                 // the worker, under the mutex
    | Work                 // without the mutex
    | Remove(at: nat)      // under the mutex again
    | Ask(answer: int)     // the number of pending jobs, under the mutex

  predicate Next(q: Queue, r: Queue, step: Step) {
    match step
    case Create(job) =>
      r == q.(list := q.list + [Queued(|q.created|, job)], pending := q.pending + 1, created := q.created + [job])
    case Look => q.phase.Looking? && q.list != [] && r == q.(phase := Working(q.list[0]))
    case Work => q.phase.Working? && r == q.(phase := Worked(q.phase.ln), effects := q.effects + [q.phase.ln.job])
    case Remove(at) =>
      && q.phase.Worked? && at < |q.list| && q.list[at] == q.phase.ln
      && r == q.(list := q.list[..at] + q.list[at + 1..], pending := q.pending - 1, phase := Looking,
                 finished := q.finished + [q.phase.ln.job])
    case Ask(answer) => answer == q.pending && r == q
  }

  /** The nodes of the jobs from the `n`-th on. */
  predicate Pending(list: seq<Queued>, created: seq<Job>, n: nat)
    requires |created| == n + |list|
  {
    forall i :: 0 <= i < |list| ==> list[i] == Queued(n + i, created[n + i])
  }

  lemma PendingCreate(list: seq<Queued>, created: seq<Job>, n: nat, job: Job)
    requires |created| == n + |list| && Pending(list, created, n)
    ensures Pending(list + [Queued(|created|, job)], created + [job], n)
  {
  }

  /** A node is where its number says, so the first node's place is the first. */
  lemma PendingRemove(list: seq<Queued>, created: seq<Job>, n: nat, at: nat)
    requires |created| == n + |list| && Pending(list, created, n) && at < |list| && list[at] == list[0]
    ensures at == 0 && list[0].job == created[n] && list[..at] + list[at + 1..] == list[1..]
    ensures Pending(list[1..], created, n + 1)
  {
    assert list[at].id == n + at;
  }

  /** The list holds the jobs not finished yet, in order; the worker's node is its
      first. */
  predicate Inv(q: Queue) {
    && |q.created| == |q.finished| + |q.list| && q.pending == |q.list|
    && q.finished <= q.created
    && Pending(q.list, q.created, |q.finished|)
    && (!q.phase.Looking? ==> q.list != [] && q.list[0] == q.phase.ln)
    && q.effects == q.finished + (if q.phase.Worked? then [q.phase.ln.job] else [])
  }

  lemma NextKeeps(q: Queue, r: Queue, step: Step)
    requires Inv(q) && Next(q, r, step)
    ensures Inv(r)
  {
    hide Pending;
    match step
    case Create(job) => PendingCreate(q.list, q.created, |q.finished|, job);
    case Remove(at) =>
      PendingRemove(q.list, q.created, |q.finished|, at);
      assert r.finished == q.created[..|q.finished| + 1];
    case _ =>
  }

  predicate IsRun(run: seq<Queue>, steps: seq<Step>) {
    && |run| == |steps| + 1 && run[0] == Queue([], 0, Looking, [], [], [])
    && forall i :: 0 <= i < |steps| ==> Next(run[i], run[i + 1], steps[i])
  }

  lemma {:induction false} RunInv(run: seq<Queue>, steps: seq<Step>, i: nat)
    requires IsRun(run, steps) && i < |run|
    ensures Inv(run[i])
    decreases i
  {
    hide Next, Inv;
    if i == 0 {
      StartInv();
    } else {
      RunInv(run, steps, i - 1);
      assert Next(run[i - 1], run[i - 1 + 1], steps[i - 1]);
      NextKeeps(run[i - 1], run[i], steps[i - 1]);
    }
  }

  lemma StartInv()
    ensures Inv(Queue([], 0, Looking, [], [], []))
  {
  }

  /** In every interleaving jobs take effect and finish in the order of their creation,
      each once; the node removed is in the list, as its first; and the number of
      pending jobs is zero exactly when every job created so far has finished. */
  lemma JobsInOrder(run: seq<Queue>, steps: seq<Step>, i: nat)
    requires IsRun(run, steps) && i < |run|
    ensures run[i].finished <= run[i].created && run[i].effects <= run[i].created
    ensures run[i].phase.Worked? ==> run[i].list != [] && run[i].list[0] == run[i].phase.ln
    ensures run[i].pending == |run[i].created| - |run[i].finished| >= 0
    ensures run[i].pending == 0 <==> run[i].finished == run[i].created
    ensures i < |steps| && steps[i].Ask? ==> (steps[i].answer == 0 <==> run[i].finished == run[i].created)
  {
    RunInv(run, steps, i);
    var q := run[i];
    if q.phase.Worked? {
      assert q.effects == q.created[..|q.finished| + 1];
    }
    if i < |steps| {
      assert Next(run[i], run[i + 1], steps[i]);
    }
  }
}
