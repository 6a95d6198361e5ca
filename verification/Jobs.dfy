/** The leased job queue of `app/jobs.py`: claims, leases, the retry budget, deferral,
    cancellation and crashes. A claim and the commit that settles it are separate steps. */
module Jobs {

  import opened Options
  import opened Powers

  datatype JobStatus = Pending | Running | Done | Failed

  datatype Job = Job(
    key: string, status: JobStatus, attempts: nat, maxAttempts: nat, availableAt: int,
    lockedAt: Option<int>, lockedBy: Option<string>)

  /** How a handler ended. */
  datatype Outcome = Succeeded | Deferred(until: int) | Interrupted | Raised

  function Backoff(attempts: nat): (seconds: nat) {
    if Pow2(attempts) < 300 then Pow2(attempts) else 300
  }

  // ----- The two commits -----

  predicate Claimable(job: Job, now: int, lease: nat) {
    && job.availableAt <= now
    && (job.status == Pending
        || (job.status == Running && job.lockedAt.Some? && job.lockedAt.value < now - lease))
  }

  function ClaimedJob(job: Job, now: int, worker: string): Job {
    job.(status := Running, lockedAt := Some(now), lockedBy := Some(worker), attempts := job.attempts + 1)
  }

  function Released(job: Job): Job {
    job.(lockedAt := None, lockedBy := None)
  }

  /** The attempt is given back after a deferral or an interruption. */
  function GivenBack(attempts: nat): nat {
    if attempts >= 1 then attempts - 1 else 0
  }

  function SettledJob(job: Job, outcome: Outcome, now: int): Job {
    match outcome
    case Succeeded => Released(job.(status := Done))
    case Deferred(until) => Released(job.(status := Pending, attempts := GivenBack(job.attempts), availableAt := until))
    case Interrupted => Released(job.(status := Pending, attempts := GivenBack(job.attempts), availableAt := now))
    case Raised =>
      if job.attempts >= job.maxAttempts then Released(job.(status := Failed))
      else Released(job.(status := Pending, availableAt := now + Backoff(job.attempts)))
  }

  // ----- The queue as mutable rows, in order of id -----

  ghost predicate KeysDistinct(jobs: seq<Job>) {
    forall i, j :: 0 <= i < j < |jobs| ==> jobs[i].key != jobs[j].key
  }

  ghost predicate FirstClaimable(jobs: seq<Job>, now: int, lease: nat, id: nat) {
    id < |jobs| && Claimable(jobs[id], now, lease) && forall i :: 0 <= i < id ==> !Claimable(jobs[i], now, lease)
  }

  class JobQueue {
    var jobs: seq<Job>

    constructor ()
      ensures jobs == []
    {
      jobs := [];
    }

    /** `false` stands for the conflicting insert, which leaves the table as it was. */
    method Enqueue(key: string, maxAttempts: nat, availableAt: int) returns (created: bool)
      requires KeysDistinct(jobs)
      modifies this
      ensures KeysDistinct(jobs)
      ensures created <==> forall i :: 0 <= i < |old(jobs)| ==> old(jobs)[i].key != key
      ensures jobs
        == if created then old(jobs) + [Job(key, Pending, 0, maxAttempts, availableAt, None, None)] else old(jobs)
    {
      for i := 0 to |jobs|
        invariant jobs == old(jobs) && forall j :: 0 <= j < i ==> jobs[j].key != key
      {
        if jobs[i].key == key {
          return false;
        }
      }
      jobs := jobs + [Job(key, Pending, 0, maxAttempts, availableAt, None, None)];
      created := true;
    }

    /** With no other worker's claim in flight, so that SKIP LOCKED skips nothing. */
    method Claim(worker: string, now: int, lease: nat) returns (id: Option<nat>)
      modifies this
      ensures id.None? ==> jobs == old(jobs) && forall i :: 0 <= i < |jobs| ==> !Claimable(jobs[i], now, lease)
      ensures id.Some? ==> FirstClaimable(old(jobs), now, lease, id.value)
      ensures id.Some? ==> jobs == old(jobs)[id.value := ClaimedJob(old(jobs)[id.value], now, worker)]
    {
      for i := 0 to |jobs|
        invariant jobs == old(jobs) && forall j :: 0 <= j < i ==> !Claimable(jobs[j], now, lease)
      {
        if Claimable(jobs[i], now, lease) {
          jobs := jobs[i := ClaimedJob(jobs[i], now, worker)];
          return Some(i);
        }
      }
      id := None;
    }

    /** The settling commit re-reads the row by id and never looks at `lockedBy`. */
    method Settle(id: nat, outcome: Outcome, now: int)
      requires id < |jobs|
      modifies this
      ensures jobs == old(jobs)[id := SettledJob(old(jobs)[id], outcome, now)]
    {
      var job := jobs[id];
      match outcome {
        case Succeeded =>
          job := job.(status := Done, lockedAt := None, lockedBy := None);
        case Deferred(until) =>
          job := job.(status := Pending, attempts := GivenBack(job.attempts), availableAt := until,
            lockedAt := None, lockedBy := None);
        case Interrupted =>
          job := job.(status := Pending, attempts := GivenBack(job.attempts), availableAt := now,
            lockedAt := None, lockedBy := None);
        case Raised =>
          if job.attempts >= job.maxAttempts {
            job := job.(status := Failed);
          } else {
            job := job.(status := Pending, availableAt := now + Backoff(job.attempts));
          }
          job := job.(lockedAt := None, lockedBy := None);
      }
      jobs := jobs[id := job];
    }
  }
}
