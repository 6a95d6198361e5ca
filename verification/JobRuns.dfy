/** Safety of the job queue over whole runs, with workers that may vanish at any time. */
module JobRuns {
  import opened Options
  import opened Jobs
  import opened Powers

  /** A handler in flight, and when its claim was committed. */
  datatype Runner = Runner(job: nat, claimedAt: int)

  /** What has happened to one job: handler errors, claims taken over after a lapse, seconds of backoff. */
  datatype Ledger = Ledger(errors: nat, takenOver: nat, backoff: nat)

  datatype World = World(now: int, jobs: seq<Job>, runners: map<nat, Runner>, ledgers: seq<Ledger>)

  datatype Step =
    | Wait(seconds: nat)
    | Enqueue(key: string, maxAttempts: nat, availableAt: int)
    | Claim(runner: nat, worker: string, job: nat)
    | Settle(runner: nat, outcome: Outcome)
    | Vanish(runner: nat)

  ghost predicate Enabled(w: World, lease: nat, step: Step) {
    && |w.ledgers| == |w.jobs|
    && match step
       case Wait(seconds) => true
       case Enqueue(key, maxAttempts, availableAt) =>
         maxAttempts >= 1 && forall i :: 0 <= i < |w.jobs| ==> w.jobs[i].key != key
       // SKIP LOCKED may pass over rows that another worker is claiming, so any claimable job can be next.
       case Claim(runner, worker, job) => runner !in w.runners && job < |w.jobs| && Claimable(w.jobs[job], w.now, lease)
       case Settle(runner, outcome) => runner in w.runners && w.runners[runner].job < |w.jobs|
       case Vanish(runner) => runner in w.runners
  }

  function Settled(w: World, job: nat, outcome: Outcome): World
    requires job < |w.jobs| == |w.ledgers|
  {
    var row, ledger := w.jobs[job], w.ledgers[job];
    w.(jobs := w.jobs[job := SettledJob(row, outcome, w.now)],
       ledgers := if outcome != Raised then w.ledgers
         else w.ledgers[job := ledger.(errors := ledger.errors + 1,
           backoff := ledger.backoff + if row.attempts < row.maxAttempts then Backoff(row.attempts) else 0)])
  }

  ghost function Apply(w: World, lease: nat, step: Step): World
    requires Enabled(w, lease, step)
  {
    match step
    case Wait(seconds) => w.(now := w.now + seconds)
    case Enqueue(key, maxAttempts, availableAt) =>
      w.(jobs := w.jobs + [Job(key, Pending, 0, maxAttempts, availableAt, None, None)],
         ledgers := w.ledgers + [Ledger(0, 0, 0)])
    case Claim(runner, worker, job) =>
      w.(jobs := w.jobs[job := ClaimedJob(w.jobs[job], w.now, worker)],
         runners := w.runners[runner := Runner(job, w.now)],
         ledgers := if w.jobs[job].status == Running
           then w.ledgers[job := w.ledgers[job].(takenOver := w.ledgers[job].takenOver + 1)] else w.ledgers)
    case Settle(runner, outcome) => Settled(w, w.runners[runner].job, outcome).(runners := w.runners - {runner})
    case Vanish(runner) => w.(runners := w.runners - {runner})
  }

  /** A runner that may still come back. */
  predicate Live(w: World, lease: nat, runner: nat) {
    runner in w.runners && w.now <= w.runners[runner].claimedAt + lease
  }

  /** Handlers end inside their lease, or never. */
  ghost predicate EndsInLease(w: World, lease: nat, step: Step) {
    step.Settle? ==> Live(w, lease, step.runner)
  }

  /** A handler settles only while the row still carries its claim: the check the settling commit lacks. */
  ghost predicate KeepsLock(w: World, step: Step) {
    step.Settle? && step.runner in w.runners ==> HoldsLock(w, step.runner)
  }

  // ----- Accounting of one job -----

  function CountsOne(status: JobStatus): nat {
    if status == Running || status == Done then 1 else 0
  }

  /** The most backoff that errors at the first `n` attempts can add up to. */
  function BackoffUpTo(n: nat): nat {
    if n == 0 then 0 else BackoffUpTo(n - 1) + Backoff(n)
  }

  function Min(a: int, b: int): int {
    if a <= b then a else b
  }

  ghost predicate Accounted(job: Job, ledger: Ledger) {
    && job.maxAttempts >= 1
    && job.attempts == ledger.errors + ledger.takenOver + CountsOne(job.status)
    && ledger.errors <= job.maxAttempts
    && (job.status != Failed ==> ledger.errors < job.maxAttempts)
    && ledger.backoff <= BackoffUpTo(Min(job.attempts - CountsOne(job.status), job.maxAttempts - 1))
  }

  lemma {:induction false} BackoffMonotone(a: nat, b: nat)
    requires a <= b
    ensures BackoffUpTo(a) <= BackoffUpTo(b)
    decreases b
  {
    if a < b { BackoffMonotone(a, b - 1); }
  }

  lemma {:induction false} BackoffBounds(n: nat)
    ensures BackoffUpTo(n) <= Pow2(n + 1) - 2 && BackoffUpTo(n) <= 300 * n
  {
    if n > 0 { BackoffBounds(n - 1); }
  }

  /** Whatever the mix of deferrals, interruptions and crashes, total backoff has both bounds. */
  lemma TotalBackoffBounded(job: Job, ledger: Ledger)
    requires Accounted(job, ledger)
    ensures ledger.backoff <= Pow2(job.maxAttempts) - 2
    ensures ledger.backoff <= 300 * (job.maxAttempts - 1)
  {
    BackoffMonotone(Min(job.attempts - CountsOne(job.status), job.maxAttempts - 1), job.maxAttempts - 1);
    BackoffBounds(job.maxAttempts - 1);
  }

  lemma ClaimAccounted(job: Job, ledger: Ledger, now: int, worker: string)
    requires Accounted(job, ledger) && (job.status == Pending || job.status == Running)
    ensures Accounted(ClaimedJob(job, now, worker),
      if job.status == Running then ledger.(takenOver := ledger.takenOver + 1) else ledger)
  {
    BackoffMonotone(Min(job.attempts - CountsOne(job.status), job.maxAttempts - 1),
      Min(job.attempts, job.maxAttempts - 1));
  }

  lemma SettleAccounted(job: Job, ledger: Ledger, outcome: Outcome, now: int)
    requires Accounted(job, ledger) && job.status == Running
    ensures Accounted(SettledJob(job, outcome, now),
      if outcome != Raised then ledger
      else ledger.(errors := ledger.errors + 1,
        backoff := ledger.backoff + if job.attempts < job.maxAttempts then Backoff(job.attempts) else 0))
  {
    if outcome == Raised {
      if job.attempts < job.maxAttempts {
        assert BackoffUpTo(job.attempts) == BackoffUpTo(job.attempts - 1) + Backoff(job.attempts);
      } else {
        BackoffMonotone(Min(job.attempts - 1, job.maxAttempts - 1), Min(job.attempts, job.maxAttempts - 1));
      }
    }
  }

  // ----- Whole worlds -----

  ghost predicate AllAccounted(w: World) {
    |w.ledgers| == |w.jobs| && forall i :: 0 <= i < |w.jobs| ==> Accounted(w.jobs[i], w.ledgers[i])
  }

  /** A live runner holds the lock its claim took, and no other live runner has the same job. */
  ghost predicate LocksHeld(w: World, lease: nat) {
    && (forall r :: r in w.runners ==> w.runners[r].job < |w.jobs| && w.runners[r].claimedAt <= w.now)
    && (forall r :: Live(w, lease, r) ==> HoldsLock(w, r))
    && (forall q, r :: Live(w, lease, q) && Live(w, lease, r) && w.runners[q].job == w.runners[r].job ==> q == r)
    && (forall i :: 0 <= i < |w.jobs| && w.jobs[i].status == Running ==> w.jobs[i].lockedAt.Some?)
  }

  ghost predicate HoldsLock(w: World, r: nat)
    requires r in w.runners
  {
    w.runners[r].job < |w.jobs| && w.jobs[w.runners[r].job].status == Running
    && w.jobs[w.runners[r].job].lockedAt == Some(w.runners[r].claimedAt)
  }

  ghost predicate Sound(w: World, lease: nat) {
    AllAccounted(w) && LocksHeld(w, lease) && KeysDistinct(w.jobs)
  }

  /** A finished job keeps its row. */
  ghost predicate FinishedStay(w: World, next: World) {
    |w.jobs| <= |next.jobs|
    && forall i :: 0 <= i < |w.jobs| && (w.jobs[i].status == Done || w.jobs[i].status == Failed) ==>
      next.jobs[i] == w.jobs[i]
  }

  lemma ClaimKeepsLocks(w: World, lease: nat, runner: nat, worker: string, job: nat)
    requires LocksHeld(w, lease) && Enabled(w, lease, Claim(runner, worker, job))
    ensures LocksHeld(Apply(w, lease, Claim(runner, worker, job)), lease)
  {
    hide KeysDistinct, AllAccounted;
    var next := Apply(w, lease, Claim(runner, worker, job));
    forall r | Live(next, lease, r) && r != runner
      ensures w.runners[r].job != job && Live(w, lease, r)
    {
      assert Live(w, lease, r) && HoldsLock(w, r);
    }
  }

  lemma ClaimIsSound(w: World, lease: nat, runner: nat, worker: string, job: nat)
    requires Sound(w, lease) && Enabled(w, lease, Claim(runner, worker, job))
    ensures Sound(Apply(w, lease, Claim(runner, worker, job)), lease)
    ensures FinishedStay(w, Apply(w, lease, Claim(runner, worker, job)))
  {
    hide LocksHeld;
    ClaimKeepsLocks(w, lease, runner, worker, job);
    ClaimAccounted(w.jobs[job], w.ledgers[job], w.now, worker);
    hide Accounted;
  }

  lemma SettleIsSound(w: World, lease: nat, runner: nat, outcome: Outcome)
    requires Sound(w, lease) && Enabled(w, lease, Settle(runner, outcome)) && HoldsLock(w, runner)
    ensures Sound(Apply(w, lease, Settle(runner, outcome)), lease)
    ensures FinishedStay(w, Apply(w, lease, Settle(runner, outcome)))
  {
    var next := Apply(w, lease, Settle(runner, outcome));
    var job := w.runners[runner].job;
    SettleAccounted(w.jobs[job], w.ledgers[job], outcome, w.now);
    forall r | Live(next, lease, r)
      ensures w.runners[r].job != job && Live(w, lease, r)
    {
      assert Live(w, lease, r) && HoldsLock(w, r);
    }
    hide Accounted, Backoff;
  }

  lemma OtherStepsAreSound(w: World, lease: nat, step: Step)
    requires Sound(w, lease) && Enabled(w, lease, step) && (step.Wait? || step.Enqueue? || step.Vanish?)
    ensures Sound(Apply(w, lease, step), lease) && FinishedStay(w, Apply(w, lease, step))
  {
    var next := Apply(w, lease, step);
    forall r | Live(next, lease, r)
      ensures Live(w, lease, r) && HoldsLock(next, r)
    {
      assert HoldsLock(w, r);
    }
  }

  lemma StepIsSound(w: World, lease: nat, step: Step)
    requires Sound(w, lease) && Enabled(w, lease, step) && KeepsLock(w, step)
    ensures Sound(Apply(w, lease, step), lease) && FinishedStay(w, Apply(w, lease, step))
  {
    hide Sound, FinishedStay;
    match step {
      case Claim(runner, worker, job) => ClaimIsSound(w, lease, runner, worker, job);
      case Settle(runner, outcome) => SettleIsSound(w, lease, runner, outcome);
      case _ => OtherStepsAreSound(w, lease, step);
    }
  }

  /** A handler that ends inside its lease still holds its lock. */
  lemma LeaseKeepsLock(w: World, lease: nat, step: Step)
    requires Sound(w, lease) && EndsInLease(w, lease, step)
    ensures KeepsLock(w, step)
  {
  }

  ghost predicate RunWithLocks(w: World, lease: nat, steps: seq<Step>, end: World)
    decreases |steps|
  {
    if steps == [] then
      w == end
    else
      && Enabled(w, lease, steps[0])
      && KeepsLock(w, steps[0])
      && RunWithLocks(Apply(w, lease, steps[0]), lease, steps[1..], end)
  }

  /** Over any run whose handlers settle only while they hold their lock, lapsed or not: attempts are errors plus
      lapsed claims plus the current or final one, errors stay in budget, one live runner per job, and DONE and
      FAILED are final. */
  lemma {:induction false} RunsAreSound(w: World, lease: nat, steps: seq<Step>, end: World)
    requires Sound(w, lease) && RunWithLocks(w, lease, steps, end)
    ensures Sound(end, lease) && FinishedStay(w, end)
    decreases |steps|
  {
    if steps != [] {
      StepIsSound(w, lease, steps[0]);
      RunsAreSound(Apply(w, lease, steps[0]), lease, steps[1..], end);
    }
    hide Sound, Apply, Enabled;
  }

  // ----- Exactly which late settlements break the ledgers and the locks -----

  function LedgerAfter(job: Job, ledger: Ledger, outcome: Outcome): Ledger {
    if outcome != Raised then ledger
    else ledger.(errors := ledger.errors + 1,
      backoff := ledger.backoff + if job.attempts < job.maxAttempts then Backoff(job.attempts) else 0)
  }

  /** A settlement of a job that is waiting or failed, unless it gives back an attempt where there is none. */
  predicate Miscounts(job: Job, outcome: Outcome) {
    && (job.status == Pending || job.status == Failed)
    && !((outcome.Deferred? || outcome.Interrupted?) && job.attempts == 0)
  }

  lemma LedgerStaysExactly(job: Job, ledger: Ledger, outcome: Outcome, now: int)
    requires Accounted(job, ledger)
    ensures Accounted(SettledJob(job, outcome, now), LedgerAfter(job, ledger, outcome)) <==> !Miscounts(job, outcome)
  {
    if job.status == Running {
      SettleAccounted(job, ledger, outcome, now);
    } else if job.status == Done && outcome == Raised {
      var ran := job.(status := Running);
      SettleAccounted(ran, ledger, outcome, now);
    }
    hide Backoff, BackoffUpTo;
  }

  ghost predicate MiscountsAt(w: World, step: Step) {
    && step.Settle? && step.runner in w.runners && w.runners[step.runner].job < |w.jobs|
    && Miscounts(w.jobs[w.runners[step.runner].job], step.outcome)
  }

  /** A settlement under another runner that is live on the job. */
  ghost predicate TakesLock(w: World, lease: nat, step: Step) {
    && step.Settle? && step.runner in w.runners
    && exists r :: Live(w, lease, r) && r != step.runner && w.runners[r].job == w.runners[step.runner].job
  }

  lemma LateSettleExactly(w: World, lease: nat, runner: nat, outcome: Outcome)
    requires Sound(w, lease) && Enabled(w, lease, Settle(runner, outcome))
    ensures var step := Settle(runner, outcome);
      && (AllAccounted(Apply(w, lease, step)) <==> !MiscountsAt(w, step))
      && (LocksHeld(Apply(w, lease, step), lease) <==> !TakesLock(w, lease, step))
      && KeysDistinct(Apply(w, lease, step).jobs)
  {
    var job := w.runners[runner].job;
    LedgerStaysExactly(w.jobs[job], w.ledgers[job], outcome, w.now);
    LateAccounts(w, lease, runner, outcome);
    LateLocks(w, lease, runner, outcome);
    hide Accounted, AllAccounted, LocksHeld, TakesLock, MiscountsAt;
  }

  lemma LateAccounts(w: World, lease: nat, runner: nat, outcome: Outcome)
    requires AllAccounted(w) && Enabled(w, lease, Settle(runner, outcome))
    ensures AllAccounted(Apply(w, lease, Settle(runner, outcome))) <==> !MiscountsAt(w, Settle(runner, outcome))
  {
    var job := w.runners[runner].job;
    var next := Apply(w, lease, Settle(runner, outcome));
    LedgerStaysExactly(w.jobs[job], w.ledgers[job], outcome, w.now);
    hide Accounted, SettledJob, Backoff, Miscounts;
    assert Accounted(w.jobs[job], w.ledgers[job]);
    assert next.jobs[job] == SettledJob(w.jobs[job], outcome, w.now);
    assert next.ledgers[job] == LedgerAfter(w.jobs[job], w.ledgers[job], outcome);
  }

  lemma LateLocks(w: World, lease: nat, runner: nat, outcome: Outcome)
    requires LocksHeld(w, lease) && Enabled(w, lease, Settle(runner, outcome))
    ensures var step := Settle(runner, outcome);
      LocksHeld(Apply(w, lease, step), lease) <==> !TakesLock(w, lease, step)
  {
    var step := Settle(runner, outcome);
    var next := Apply(w, lease, step);
    hide Backoff, GivenBack;
    assert forall r :: Live(next, lease, r) <==> Live(w, lease, r) && r != runner;
    if TakesLock(w, lease, step) {
      var r :| Live(w, lease, r) && r != runner && w.runners[r].job == w.runners[runner].job;
      assert Live(next, lease, r) && !HoldsLock(next, r);
    } else {
      forall r | Live(next, lease, r)
        ensures HoldsLock(next, r)
      {
        assert HoldsLock(w, r);
      }
    }
  }

  ghost predicate Unsettles(w: World, lease: nat, step: Step) {
    MiscountsAt(w, step) || TakesLock(w, lease, step)
  }

  /** Lapsed or not, holding the lock or not: a step breaks the error budget, the ledgers or the one live runner
      of a job exactly when it is a settlement of one of the two kinds. */
  lemma SoundExactly(w: World, lease: nat, step: Step)
    requires Sound(w, lease) && Enabled(w, lease, step)
    ensures Sound(Apply(w, lease, step), lease) <==> !Unsettles(w, lease, step)
  {
    if step.Settle? {
      LateSettleExactly(w, lease, step.runner, step.outcome);
    } else {
      assert !Unsettles(w, lease, step);
      StepIsSound(w, lease, step);
    }
    hide AllAccounted, LocksHeld, KeysDistinct, MiscountsAt, TakesLock;
  }

  ghost predicate Run(w: World, lease: nat, steps: seq<Step>)
    decreases |steps|
  {
    steps == [] || (Enabled(w, lease, steps[0]) && Run(Apply(w, lease, steps[0]), lease, steps[1..]))
  }

  ghost predicate SoundAlong(w: World, lease: nat, steps: seq<Step>)
    decreases |steps|
  {
    Sound(w, lease)
    && (steps == [] || (Enabled(w, lease, steps[0]) && SoundAlong(Apply(w, lease, steps[0]), lease, steps[1..])))
  }

  ghost predicate NoneUnsettlesAlong(w: World, lease: nat, steps: seq<Step>)
    decreases |steps|
  {
    steps == []
    || (Enabled(w, lease, steps[0]) && !Unsettles(w, lease, steps[0])
        && NoneUnsettlesAlong(Apply(w, lease, steps[0]), lease, steps[1..]))
  }

  lemma {:induction false} RunsSoundExactly(w: World, lease: nat, steps: seq<Step>)
    requires Sound(w, lease) && Run(w, lease, steps)
    ensures SoundAlong(w, lease, steps) <==> NoneUnsettlesAlong(w, lease, steps)
    decreases |steps|
  {
    hide Sound, Enabled, Apply, Unsettles;
    if steps != [] {
      SoundExactly(w, lease, steps[0]);
      if !Unsettles(w, lease, steps[0]) {
        RunsSoundExactly(Apply(w, lease, steps[0]), lease, steps[1..]);
      } else {
        assert !SoundAlong(Apply(w, lease, steps[0]), lease, steps[1..]);
      }
    }
  }

  // ----- Exactly when a finished job stays finished -----

  predicate IsFinished(job: Job) {
    job.status == Done || job.status == Failed
  }

  /** Finished rows carry no lock; no step of any run breaks this. */
  ghost predicate FinishedUnlocked(w: World) {
    forall i :: 0 <= i < |w.jobs| && IsFinished(w.jobs[i]) ==> w.jobs[i].lockedAt == None && w.jobs[i].lockedBy == None
  }

  /** A settlement that says what the finished row says already. */
  predicate Agrees(job: Job, outcome: Outcome) {
    (job.status == Done && outcome == Succeeded)
    || (job.status == Failed && outcome == Raised && job.attempts >= job.maxAttempts)
  }

  /** A late settlement of this job that contradicts how it finished. */
  ghost predicate Overwrites(w: World, step: Step, i: nat) {
    && step.Settle? && step.runner in w.runners && w.runners[step.runner].job == i
    && i < |w.jobs| && !Agrees(w.jobs[i], step.outcome)
  }

  /** Whoever holds which lock: one step changes a finished row exactly when it is such a settlement. */
  lemma FinishedStayExactly(w: World, lease: nat, step: Step, i: nat)
    requires Enabled(w, lease, step) && FinishedUnlocked(w) && i < |w.jobs| && IsFinished(w.jobs[i])
    ensures FinishedUnlocked(Apply(w, lease, step)) && i < |Apply(w, lease, step).jobs|
    ensures Apply(w, lease, step).jobs[i] == w.jobs[i] <==> !Overwrites(w, step, i)
  {
    hide Backoff;
  }

  ghost predicate NoOverwriteAlong(w: World, lease: nat, steps: seq<Step>, i: nat)
    decreases |steps|
  {
    steps == []
    || (Enabled(w, lease, steps[0]) && !Overwrites(w, steps[0], i)
        && NoOverwriteAlong(Apply(w, lease, steps[0]), lease, steps[1..], i))
  }

  ghost predicate SameAlong(w: World, lease: nat, steps: seq<Step>, i: nat, job: Job)
    decreases |steps|
  {
    && i < |w.jobs| && w.jobs[i] == job
    && (steps == [] || (Enabled(w, lease, steps[0]) && SameAlong(Apply(w, lease, steps[0]), lease, steps[1..], i, job)))
  }

  /** Along any run a finished job keeps its row at every moment exactly when no late settlement contradicts it. */
  lemma {:induction false} FinishedIsFinal(w: World, lease: nat, steps: seq<Step>, i: nat)
    requires Run(w, lease, steps) && FinishedUnlocked(w) && i < |w.jobs| && IsFinished(w.jobs[i])
    ensures SameAlong(w, lease, steps, i, w.jobs[i]) <==> NoOverwriteAlong(w, lease, steps, i)
    decreases |steps|
  {
    hide Enabled, Apply, FinishedUnlocked, Overwrites;
    if steps != [] {
      FinishedStayExactly(w, lease, steps[0], i);
      if !Overwrites(w, steps[0], i) {
        FinishedIsFinal(Apply(w, lease, steps[0]), lease, steps[1..], i);
      }
    }
  }

  // ----- A handler that outlives its lease -----

  function Fresh(status: JobStatus, attempts: nat, lockedAt: Option<int>, owner: Option<string>): Job {
    Job("k", status, attempts, 5, 0, lockedAt, owner)
  }

  /** Two claims of one job, the first lapsed: its late success is undone by the second's error. */
  lemma LateFinishIsUndone(lease: nat) returns (w: World, done: World, first: Step, second: Step, end: World)
    ensures Sound(w, lease) && Enabled(w, lease, first) && done == Apply(w, lease, first) && |done.jobs| == 1
    ensures done.jobs[0].status == Done
    ensures Enabled(done, lease, second) && end == Apply(done, lease, second)
    ensures |end.jobs| == 1 && end.jobs[0].status == Pending
    ensures !EndsInLease(w, lease, first) && EndsInLease(done, lease, second)
    ensures !KeepsLock(w, first) && Overwrites(done, second, 0)
  {
    var now := lease + 1;
    w := World(now, [Fresh(Running, 2, Some(now), Some("b"))], map[1 := Runner(0, 0), 2 := Runner(0, now)],
      [Ledger(0, 1, 0)]);
    first, second := Settle(1, Succeeded), Settle(2, Raised);
    assert forall r :: Live(w, lease, r) ==> r == 2;
    assert BackoffUpTo(1) == BackoffUpTo(0) + Backoff(1);
    assert Accounted(w.jobs[0], w.ledgers[0]);
    done := Apply(w, lease, first);
    end := Apply(done, lease, second);
  }
}
