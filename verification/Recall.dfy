/** Blocks of transactions on a state that remembers what it has loaded: what each push goes by is a function of the
    transactions, of what the state remembered before, and of where it loads accounts from. */
module Recall {
  import opened Types
  import opened Accounts
  import opened Memory
  import opened Vm
  import opened Execution
  import Tx = Transaction
  import TransactionLaws
  import Spec = BlockSpec
  import Journal

  /** The old balances of the loaded accounts. */
  type Olds = map<Address, Option<nat>>

  /** One transaction of a block, and what its code does. */
  datatype Job = Job(t: Tx.Transaction, builtin: BuiltinRun, frame: Frame)

  /** What the code does, and nothing of what is remembered. */
  function Bare(job: Job): Tx.Oracle {
    Tx.Oracle(job.builtin, job.frame, map[], true)
  }

  predicate JobFits(env: Env, job: Job) {
    Tx.OracleFits(env, job.t, Bare(job))
  }

  /** Whether a push gets to executing its transaction. */
  predicate Runs(env: Env, b: Spec.Block, job: Job) {
    job.t.hash !in b.seen && !Spec.Rejected(env, b, job.t)
  }

  function RunOf(env: Env, b: Spec.Block, job: Job): (run: Run)
    requires JobFits(env, job) && Runs(env, b, job)
    ensures Tx.GasLeft(run.result) <= job.t.gas
  {
    TransactionLaws.OuterGas(env, Spec.InfoOf(b), b.world, job.t, true, Bare(job));
    Tx.OuterRun(env, b.world, job.t, Bare(job))
  }

  /** What a push goes by. */
  function Recalled(env: Env, r: Reader, olds: Olds, b: Spec.Block, job: Job): (o: Tx.Oracle)
    requires JobFits(env, job)
    ensures Tx.OracleFits(env, job.t, o) && o.builtin == job.builtin && o.frame == job.frame
    ensures o.senderLoaded || !Tx.RaisesNonce(env, job.t)
  {
    if !Runs(env, b, job) then Bare(job)
    else
      Tx.OracleAtEnd(env, Spec.InfoOf(b), b.world, job.t, job.builtin, job.frame, RunOf(env, b, job), r, olds)
  }

  /** What is remembered after it. A transaction that is refused by its checks has its sender read. */
  function OldsAfter(env: Env, r: Reader, olds: Olds, b: Spec.Block, job: Job): Olds
    requires JobFits(env, job)
  {
    if job.t.hash in b.seen then olds
    else if Spec.Rejected(env, b, job.t) then Replay(r, Between(olds), [Asked(job.t.sender)]).olds
    else
      var run := RunOf(env, b, job);
      Forgotten(Tx.OldsAtEnd(env, Spec.InfoOf(b), b.world, job.t, run, r, olds),
                Tx.RemovedAtEnd(env, Spec.InfoOf(b), job.t, run, Recalled(env, r, olds, b, job)))
  }

  /** The steps that the jobs of a block lead to, and what is remembered after them. */
  datatype Course = Course(steps: seq<Spec.Step>, olds: Olds)

  /** The steps push the jobs one by one, and each sender whose nonce rises is loaded. */
  ghost predicate Follow(env: Env, steps: seq<Spec.Step>, jobs: seq<Job>) {
    && |steps| == |jobs|
    && (forall i :: 0 <= i < |steps| ==> Spec.StepFits(env, steps[i]))
    && (forall i :: 0 <= i < |steps| ==> Does(steps[i], jobs[i]))
    && (forall i :: 0 <= i < |steps| ==>
          steps[i].Push? && (steps[i].o.senderLoaded || !Tx.RaisesNonce(env, jobs[i].t)))
  }

  lemma FollowMore(env: Env, steps: seq<Spec.Step>, jobs: seq<Job>, s: Spec.Step)
    requires jobs != [] && Follow(env, steps, jobs[..|jobs| - 1])
    requires Spec.StepFits(env, s) && Does(s, jobs[|jobs| - 1])
    requires s.o.senderLoaded || !Tx.RaisesNonce(env, jobs[|jobs| - 1].t)
    ensures Follow(env, steps + [s], jobs)
  {
  }

  function Played(env: Env, r: Reader, b: Spec.Block, olds: Olds, jobs: seq<Job>): (c: Course)
    requires forall i :: 0 <= i < |jobs| ==> JobFits(env, jobs[i])
    ensures Follow(env, c.steps, jobs)
  {
    if jobs == [] then Course([], olds)
    else
      var last := |jobs| - 1;
      var c := Played(env, r, b, olds, jobs[..last]);
      var next := Next(env, r, b, c, jobs[last]);
      FollowMore(env, c.steps, jobs, next.steps[last]);
      next
  }

  /** Whether a step pushes the transaction of a job, with its code doing what the job says. */
  predicate Does(s: Spec.Step, job: Job) {
    s.Push? && s.t == job.t && s.h.None? && s.o.builtin == job.builtin && s.o.frame == job.frame
  }

  /** One more push. */
  function Next(env: Env, r: Reader, b: Spec.Block, c: Course, job: Job): (next: Course)
    requires JobFits(env, job) && forall i :: 0 <= i < |c.steps| ==> Spec.StepFits(env, c.steps[i])
    ensures |next.steps| == |c.steps| + 1 && next.steps == c.steps + [next.steps[|c.steps|]]
    ensures var s := next.steps[|c.steps|];
            Spec.StepFits(env, s) && Does(s, job) && (s.o.senderLoaded || !Tx.RaisesNonce(env, job.t))
  {
    var now := Spec.Steps(env, Spec.Open(b), c.steps).block;
    Course(c.steps + [Spec.Push(job.t, None, Recalled(env, r, c.olds, now, job))],
           OldsAfter(env, r, c.olds, now, job))
  }

  lemma {:induction false} PlayedLast(env: Env, r: Reader, b: Spec.Block, olds: Olds, jobs: seq<Job>)
    requires jobs != [] && forall k :: 0 <= k < |jobs| ==> JobFits(env, jobs[k])
    ensures var last := |jobs| - 1;
            Played(env, r, b, olds, jobs) == Next(env, r, b, Played(env, r, b, olds, jobs[..last]), jobs[last])
  {
  }

  lemma {:induction false} PlayedNext(env: Env, r: Reader, b: Spec.Block, olds: Olds, jobs: seq<Job>, i: nat)
    requires i < |jobs| && forall k :: 0 <= k < |jobs| ==> JobFits(env, jobs[k])
    ensures Played(env, r, b, olds, jobs[..i + 1]) == Next(env, r, b, Played(env, r, b, olds, jobs[..i]), jobs[i])
  {
    assert jobs[..i + 1][..i] == jobs[..i];
  }
}
