/** When a job can be claimed: after it was queued, claimed or settled, in the times of the steps alone. */
module JobTimes {
  import opened Options
  import opened Jobs
  import opened JobRuns
  import opened Powers

  /** No claim and no settlement of the job on the way. */
  ghost predicate LeavesAlone(w: World, lease: nat, steps: seq<Step>, end: World, j: nat)
    decreases |steps|
  {
    if steps == [] then w == end
    else
      && Enabled(w, lease, steps[0]) && !Touches(w, steps[0], j)
      && LeavesAlone(Apply(w, lease, steps[0]), lease, steps[1..], end, j)
  }

  ghost predicate Touches(w: World, step: Step, j: nat) {
    || (step.Claim? && step.job == j)
    || (step.Settle? && step.runner in w.runners && w.runners[step.runner].job == j)
  }

  lemma {:induction false} RowRests(w: World, lease: nat, steps: seq<Step>, end: World, j: nat)
    requires LeavesAlone(w, lease, steps, end, j) && j < |w.jobs|
    ensures j < |end.jobs| == |end.ledgers| || steps == []
    ensures j < |end.jobs| && end.jobs[j] == w.jobs[j] && end.now >= w.now
    decreases |steps|
  {
    if steps != [] {
      OneStepRests(w, lease, steps[0], j);
      hide Enabled, Apply, Touches;
      RowRests(Apply(w, lease, steps[0]), lease, steps[1..], end, j);
    }
  }

  lemma OneStepRests(w: World, lease: nat, step: Step, j: nat)
    requires Enabled(w, lease, step) && !Touches(w, step, j) && j < |w.jobs|
    ensures var next := Apply(w, lease, step);
      j < |next.jobs| == |next.ledgers| && next.jobs[j] == w.jobs[j] && next.now >= w.now
  {
    hide SettledJob, Backoff;
  }

  /** Two to the number of attempts, in seconds, but five minutes at most. */
  ghost predicate IsCharge(seconds: int, attempts: nat) {
    && seconds <= 300 && seconds <= Pow2(attempts) && (seconds == 300 || seconds == Pow2(attempts))
  }

  /** From when a settled job can be claimed again, if ever. */
  ghost predicate IsAvailable(outcome: Outcome, job: Job, now: int, at: Option<int>) {
    match outcome
    case Succeeded => at == None
    case Deferred(until) => at == Some(until)
    case Interrupted => at == Some(now)
    case Raised =>
      if job.attempts >= job.maxAttempts then at == None
      else at.Some? && IsCharge(at.value - now, job.attempts)
  }

  function AvailableAfter(outcome: Outcome, job: Job, now: int): Option<int> {
    match outcome
    case Succeeded => None
    case Deferred(until) => Some(until)
    case Interrupted => Some(now)
    case Raised => if job.attempts >= job.maxAttempts then None else Some(now + Backoff(job.attempts))
  }

  /** Settled by its runner and not claimed or settled again since, a job can be claimed exactly from the time its
      outcome gives: at once, at the time it was deferred to, or after the backoff its ledger was charged. */
  lemma RetryIsTimed(w: World, lease: nat, runner: nat, outcome: Outcome, steps: seq<Step>, end: World, other: nat,
      worker: string) returns (at: Option<int>)
    requires Enabled(w, lease, Settle(runner, outcome))
    requires LeavesAlone(Apply(w, lease, Settle(runner, outcome)), lease, steps, end, w.runners[runner].job)
    requires other !in end.runners && |end.jobs| == |end.ledgers|
    ensures var j := w.runners[runner].job;
      && IsAvailable(outcome, w.jobs[j], w.now, at)
      && (Enabled(end, lease, Claim(other, worker, j)) <==> at.Some? && end.now >= at.value)
    ensures var j := w.runners[runner].job; var after := Apply(w, lease, Settle(runner, outcome));
      j < |after.ledgers| == |w.ledgers|
      && (outcome == Raised && at.Some? ==>
            IsCharge(after.ledgers[j].backoff - w.ledgers[j].backoff, w.jobs[j].attempts))
      && (!(outcome == Raised && at.Some?) ==> after.ledgers[j].backoff == w.ledgers[j].backoff)
  {
    var j := w.runners[runner].job;
    var after := Apply(w, lease, Settle(runner, outcome));
    at := AvailableAfter(outcome, w.jobs[j], w.now);
    RowRests(after, lease, steps, end, j);
    hide LeavesAlone;
  }

  /** A deferral and an interruption give the attempt back, an error keeps it. */
  lemma AttemptIsGivenBack(job: Job, outcome: Outcome, now: int)
    ensures var after := SettledJob(job, outcome, now);
      && after.key == job.key && after.maxAttempts == job.maxAttempts
      && after.lockedAt == None && after.lockedBy == None
      && ((outcome.Deferred? || outcome.Interrupted?) && job.attempts > 0 ==> after.attempts == job.attempts - 1)
      && (outcome == Raised || outcome == Succeeded ==> after.attempts == job.attempts)
      && (outcome == Succeeded ==> after.status == Done)
      && (outcome == Raised ==> after.status == if job.attempts < job.maxAttempts then Pending else Failed)
      && (outcome.Deferred? || outcome.Interrupted? ==> after.status == Pending)
  {
  }

  /** A claimed job is out of reach until its lease has lapsed, and then it is not. */
  lemma LeaseIsTimed(w: World, lease: nat, runner: nat, worker: string, j: nat, steps: seq<Step>, end: World,
      other: nat, next: string)
    requires Enabled(w, lease, Claim(runner, worker, j))
    requires LeavesAlone(Apply(w, lease, Claim(runner, worker, j)), lease, steps, end, j)
    requires other !in end.runners && |end.jobs| == |end.ledgers|
    ensures j < |end.jobs| && end.jobs[j].status == Running && end.jobs[j].lockedBy == Some(worker)
    ensures end.jobs[j].attempts == w.jobs[j].attempts + 1
    ensures Enabled(end, lease, Claim(other, next, j)) <==>
      end.now > w.now + lease && end.now >= w.jobs[j].availableAt
  {
    RowRests(Apply(w, lease, Claim(runner, worker, j)), lease, steps, end, j);
    hide LeavesAlone;
  }

  /** A queued job has its key and all its attempts, and can be claimed exactly from the time it was queued for. */
  lemma NewJobIsTimed(w: World, lease: nat, key: string, maxAttempts: nat, availableAt: int, steps: seq<Step>,
      end: World, other: nat, worker: string)
    requires Enabled(w, lease, Enqueue(key, maxAttempts, availableAt))
    requires LeavesAlone(Apply(w, lease, Enqueue(key, maxAttempts, availableAt)), lease, steps, end, |w.jobs|)
    requires other !in end.runners && |end.jobs| == |end.ledgers|
    ensures Enabled(end, lease, Claim(other, worker, |w.jobs|)) <==> end.now >= availableAt
    ensures |w.jobs| < |end.jobs| && end.jobs[|w.jobs|].key == key && end.jobs[|w.jobs|].attempts == 0
    ensures end.jobs[|w.jobs|].maxAttempts == maxAttempts
  {
    RowRests(Apply(w, lease, Enqueue(key, maxAttempts, availableAt)), lease, steps, end, |w.jobs|);
    hide LeavesAlone;
  }
}
