/** Pause and resume as inverses on the outbox, for the campaign concerned: exactly when nothing
    stopped by an earlier pause is left over, and which steps leave something over. */
module CampaignPauses {
  import opened Campaigns
  import opened CampaignExclusivity
  import opened CampaignLifecycle

  // ----- What the rows stopped by a pause do -----

  /** Only the campaign's own pause and resume change which of its rows a resume would find. */
  lemma MarksStay(w: World, step: Step, c: nat)
    requires WellFormed(w.store) && Enabled(w, step) && step != Pause(c)
    requires !(step.Resume? && step.campaign == c)
    ensures ResumeTargets(Apply(w, step).store, c) == ResumeTargets(w.store, c)
  {
    hide ResumeTargets, SelectRows, CommitStart, PauseRows, ResumeRows, CancelRows, SkipRow, SyncRows, ReplyRows,
      FreezeRow, WellFormed, CanCommitStart, LocksFree;
    var s := w.store;
    match step {
      case Select(d, rows, on) => SelectKeepsMarks(s, d, rows, on, c);
      case ReadStart(_, _) =>
      case LockStart(_) =>
      case CommitTx(tx, slots) =>
        CommitKeepsMarks(s, w.starts[tx].campaign, w.starts[tx].chosen, w.starts[tx].reserved, slots, c);
      case AbandonTx(_) =>
      case Pause(d) => PauseKeepsMarks(s, d, c);
      case Resume(d, now) => ResumeKeepsMarks(s, d, now, c);
      case Cancel(d) => CancelKeepsMarks(s, d, c);
      case Freeze(r, o, at) => FreezeKeepsMarks(s, r, o, at, c);
      case SkipScheduled(r) => SkipKeepsMarks(s, r, c);
      case GuardSkip(r) => SkipKeepsMarks(s, r, c);
      case Sync => SyncKeepsMarks(s, c);
      case Reply(r) => ReplyKeepsMarks(s, r, c);
      case Deliver(o, status, note) => DeliverKeepsMarks(s, o, status, note, c);
    }
  }

  lemma SelectKeepsMarks(s: Store, d: nat, rows: set<nat>, on: bool, c: nat)
    ensures ResumeTargets(SelectRows(s, d, rows, on), c) == ResumeTargets(s, c)
  {
    assert forall o :: o in ResumeTargets(SelectRows(s, d, rows, on), c) <==> o in ResumeTargets(s, c);
  }

  lemma CommitKeepsMarks(s: Store, d: nat, chosen: set<nat>, reserved: set<nat>, slots: map<nat, int>, c: nat)
    ensures ResumeTargets(CommitStart(s, d, chosen, reserved, slots), c) == ResumeTargets(s, c)
  {
    assert forall o :: o in ResumeTargets(CommitStart(s, d, chosen, reserved, slots), c) <==> o in ResumeTargets(s, c);
  }

  lemma PauseKeepsMarks(s: Store, d: nat, c: nat)
    requires d != c
    ensures ResumeTargets(PauseRows(s, d), c) == ResumeTargets(s, c)
  {
    assert forall o :: o in ResumeTargets(PauseRows(s, d), c) <==> o in ResumeTargets(s, c);
  }

  lemma ResumeKeepsMarks(s: Store, d: nat, now: int, c: nat)
    requires d != c
    ensures ResumeTargets(ResumeRows(s, d, now), c) == ResumeTargets(s, c)
  {
    assert forall o :: o in ResumeTargets(ResumeRows(s, d, now), c) <==> o in ResumeTargets(s, c);
  }

  lemma CancelKeepsMarks(s: Store, d: nat, c: nat)
    ensures ResumeTargets(CancelRows(s, d), c) == ResumeTargets(s, c)
  {
    assert forall o :: o in ResumeTargets(CancelRows(s, d), c) <==> o in ResumeTargets(s, c);
  }

  lemma FreezeKeepsMarks(s: Store, r: nat, o: nat, at: int, c: nat)
    requires WellFormed(s) && r in s.recipients && KeyFree(s, r) && o !in s.outboxes
    ensures ResumeTargets(FreezeRow(s, r, o, at), c) == ResumeTargets(s, c)
  {
    assert forall p :: p in ResumeTargets(FreezeRow(s, r, o, at), c) <==> p in ResumeTargets(s, c);
  }

  lemma SkipKeepsMarks(s: Store, r: nat, c: nat)
    requires r in s.recipients
    ensures ResumeTargets(SkipRow(s, r), c) == ResumeTargets(s, c)
  {
    assert forall o :: o in ResumeTargets(SkipRow(s, r), c) <==> o in ResumeTargets(s, c);
  }

  lemma SyncKeepsMarks(s: Store, c: nat)
    ensures ResumeTargets(SyncRows(s), c) == ResumeTargets(s, c)
  {
    SyncFacts(s);
    hide SyncRows;
    assert forall o :: o in ResumeTargets(SyncRows(s), c) <==> o in ResumeTargets(s, c);
  }

  lemma ReplyKeepsMarks(s: Store, r: nat, c: nat)
    requires r in s.recipients
    ensures ResumeTargets(ReplyRows(s, r), c) == ResumeTargets(s, c)
  {
    assert forall o :: o in ResumeTargets(ReplyRows(s, r), c) <==> o in ResumeTargets(s, c);
  }

  lemma DeliverKeepsMarks(s: Store, o: nat, status: DeliveryStatus, note: Note, c: nat)
    requires o in s.outboxes && s.outboxes[o].status != Stopped && (status == Stopped ==> note == OtherNote)
    ensures var t := s.(outboxes := s.outboxes[o := s.outboxes[o].(status := status, note := note)]);
      ResumeTargets(t, c) == ResumeTargets(s, c)
  {
    var t := s.(outboxes := s.outboxes[o := s.outboxes[o].(status := status, note := note)]);
    assert forall p :: p in ResumeTargets(t, c) <==> p in ResumeTargets(s, c);
  }

  /** Sync between pause and resume skips no recipient whose row the pause stopped. */
  lemma SyncSparesPaused(s: Store, c: nat, r: nat)
    requires r in s.recipients && s.recipients[r].outbox.Some? && s.recipients[r].outbox.value in ResumeTargets(s, c)
    ensures SyncRows(s).recipients[r] == s.recipients[r]
  {
  }

  /** A pause adds the rows it stops to those an earlier pause left, and never stops one of them twice. */
  lemma PauseAddsMarks(s: Store, c: nat)
    ensures ResumeTargets(PauseRows(s, c), c) == PauseTargets(s, c) + ResumeTargets(s, c)
    ensures PauseTargets(s, c) !! ResumeTargets(s, c)
  {
    var t := PauseRows(s, c);
    forall o
      ensures o in ResumeTargets(t, c) <==> o in PauseTargets(s, c) + ResumeTargets(s, c)
    {
    }
  }

  lemma ResumeClearsMarks(s: Store, c: nat, now: int)
    ensures ResumeTargets(ResumeRows(s, c, now), c) == {}
  {
    forall o ensures o !in ResumeTargets(ResumeRows(s, c, now), c) {
    }
  }

  // ----- Pause, wait, resume -----

  /** A pause stops the very rows the next resume will find exactly when no earlier pause left any. */
  lemma PauseMarks(s: Store, c: nat)
    ensures ResumeTargets(PauseRows(s, c), c) == PauseTargets(s, c) <==> ResumeTargets(s, c) == {}
  {
    PauseAddsMarks(s, c);
    hide PauseRows, PauseTargets, ResumeTargets;
    if ResumeTargets(PauseRows(s, c), c) == PauseTargets(s, c) {
      assert ResumeTargets(s, c) <= PauseTargets(s, c);
      assert ResumeTargets(s, c) * PauseTargets(s, c) == {};
    }
  }

  ghost predicate RunWhilePaused(w: World, steps: seq<Step>, end: World, c: nat)
    decreases |steps|
  {
    StatusIs(w.store, c, Paused)
    && if steps == [] then w == end
       else Enabled(w, steps[0]) && RunWhilePaused(Apply(w, steps[0]), steps[1..], end, c)
  }

  /** While the campaign stays paused, no step adds or loses a row stopped by a pause. */
  lemma PausedRowsStay(w: World, step: Step, c: nat)
    requires WellFormed(w.store) && Enabled(w, step)
    requires StatusIs(w.store, c, Paused) && StatusIs(Apply(w, step).store, c, Paused)
    ensures ResumeTargets(Apply(w, step).store, c) == ResumeTargets(w.store, c)
  {
    ResumeRuns(w, step, c);
    hide Apply, Enabled, WellFormed, ResumeTargets;
    MarksStay(w, step, c);
  }

  lemma ResumeRuns(w: World, step: Step, c: nat)
    requires Enabled(w, step)
    ensures step.Resume? && step.campaign == c ==> StatusIs(Apply(w, step).store, c, Running)
    ensures step == Pause(c) ==> StatusIs(w.store, c, Running)
  {
  }

  lemma {:induction false} PausedRowsStayAlong(w: World, steps: seq<Step>, end: World, c: nat)
    requires Linked(w) && RunWhilePaused(w, steps, end, c)
    ensures ResumeTargets(end.store, c) == ResumeTargets(w.store, c)
    decreases |steps|
  {
    hide Apply, Enabled, ResumeTargets, WellFormed, OwnRows;
    if steps != [] {
      var next := Apply(w, steps[0]);
      StepKeepsLinks(w, steps[0]);
      assert RunWhilePaused(next, steps[1..], end, c);
      PausedRowsStay(w, steps[0], c);
      PausedRowsStayAlong(next, steps[1..], end, c);
    }
  }

  /** After any steps of a pause, a resume finds the rows that pause stopped and those left by an earlier one. */
  lemma PausedRowsReachResume(w: World, c: nat, steps: seq<Step>, end: World)
    requires Linked(w) && StatusIs(w.store, c, Running)
    requires RunWhilePaused(w.(store := PauseRows(w.store, c)), steps, end, c)
    ensures ResumeTargets(end.store, c) == PauseTargets(w.store, c) + ResumeTargets(w.store, c)
  {
    assert Enabled(w, Pause(c)) && Apply(w, Pause(c)) == w.(store := PauseRows(w.store, c));
    hide Linked, PauseRows, RunWhilePaused, PauseTargets, ResumeTargets, Enabled, Apply;
    StepKeepsLinks(w, Pause(c));
    PauseAddsMarks(w.store, c);
    PausedRowsStayAlong(w.(store := PauseRows(w.store, c)), steps, end, c);
  }

  /** The resume re-arms every row of `rows`, none before its slot, and touches no other row. */
  ghost predicate RearmsExactly(s: Store, resumed: Store, rows: set<nat>, now: int) {
    && resumed.outboxes.Keys == s.outboxes.Keys
    && (forall o :: o in rows ==>
          && o in resumed.outboxes && resumed.outboxes[o].status == Pending && resumed.outboxes[o].availableAt >= now
          && Owner(resumed, o) in s.recipients
            && NotBeforeSlot(s.recipients[Owner(resumed, o)], resumed.outboxes[o].availableAt))
    && (forall o :: o in resumed.outboxes && o !in rows ==> resumed.outboxes[o] == s.outboxes[o])
  }

  predicate NotBeforeSlot(row: Recipient, at: int) {
    row.scheduledFor.Some? ==> at >= row.scheduledFor.value
  }

  /** What one resume does to the rows it finds and to all the others. */
  lemma ResumeRearms(s: Store, c: nat, now: int)
    ensures RearmsExactly(s, ResumeRows(s, c, now), ResumeTargets(s, c), now)
  {
  }

  /** Only one set of stopped rows fits what a resume did. */
  lemma RearmedRowsAreUnique(s: Store, resumed: Store, a: set<nat>, b: set<nat>, now: int)
    requires a <= StoppedRows(s) && b <= StoppedRows(s)
    requires RearmsExactly(s, resumed, a, now) && RearmsExactly(s, resumed, b, now)
    ensures a == b
  {
    assert forall o :: o in a || o in b ==> resumed.outboxes[o].status != s.outboxes[o].status;
  }

  /** Rows stopped for whatever reason. */
  function StoppedRows(s: Store): set<nat> {
    set o | o in s.outboxes && s.outboxes[o].status == Stopped
  }

  /** Pause, any steps, resume: exactly the rows the pause stopped are re-armed, none before its scheduled slot,
      and no other row is touched, if and only if no row stopped by an earlier pause was left when it began. */
  lemma ResumeUndoesPause(w: World, c: nat, steps: seq<Step>, end: World, now: int)
    requires Linked(w) && StatusIs(w.store, c, Running)
    requires RunWhilePaused(w.(store := PauseRows(w.store, c)), steps, end, c)
    ensures PauseTargets(w.store, c) <= StoppedRows(end.store)
    ensures RearmsExactly(end.store, ResumeRows(end.store, c, now), PauseTargets(w.store, c), now)
      <==> ResumeTargets(w.store, c) == {}
  {
    hide *;
    PausedRowsReachResume(w, c, steps, end);
    PauseAddsMarks(w.store, c);
    TargetsAreStopped(end.store, c);
    ResumeRearms(end.store, c, now);
    var stopped, left := PauseTargets(w.store, c), ResumeTargets(w.store, c);
    var resumed := ResumeRows(end.store, c, now);
    assert stopped <= stopped + left && (stopped + left == stopped ==> left <= stopped);
    if RearmsExactly(end.store, resumed, stopped, now) {
      RearmedRowsAreUnique(end.store, resumed, stopped, stopped + left, now);
      assert left == left * stopped;
    }
    if left == {} { assert stopped + left == stopped; }
  }

  lemma TargetsAreStopped(s: Store, c: nat)
    ensures ResumeTargets(s, c) <= StoppedRows(s)
  {
  }

  // ----- When something is left over -----

  /** Only a paused or cancelled campaign has rows stopped by a pause. */
  ghost predicate NotesAt(s: Store, c: nat) {
    ResumeTargets(s, c) != {} ==> PausedOrCancelled(s, c)
  }

  predicate PausedOrCancelled(s: Store, c: nat) {
    StatusIs(s, c, Paused) || StatusIs(s, c, Cancelled)
  }

  /** The step commits a start of a campaign that has rows stopped by a pause. */
  ghost predicate OutrunsResume(w: World, step: Step, c: nat) {
    CommitsOn(w, step, c) && ResumeTargets(w.store, c) != {}
  }

  /** A step leaves such rows to a campaign that is neither exactly when it is such a commit. */
  lemma NotesExactly(w: World, step: Step, c: nat)
    requires Linked(w) && Enabled(w, step) && NotesAt(w.store, c)
    ensures NotesAt(Apply(w, step).store, c) <==> !OutrunsResume(w, step, c)
  {
    StatusAfter(w, step, c);
    hide ResumeTargets, WellFormed, OwnRows, Apply, Enabled;
    if step == Pause(c) {
    } else if step.Resume? && step.campaign == c {
      ResumeStore(w, step, c);
      ResumeClearsMarks(w.store, c, step.now);
    } else {
      MarksStay(w, step, c);
    }
  }

  lemma ResumeStore(w: World, step: Step, c: nat)
    requires Enabled(w, step) && step.Resume? && step.campaign == c
    ensures Apply(w, step).store == ResumeRows(w.store, c, step.now)
  {
  }

  /** How a paused or cancelled campaign can change its status. */
  lemma StatusAfter(w: World, step: Step, c: nat)
    requires Enabled(w, step)
    ensures CommitsOn(w, step, c) ==> StatusIs(Apply(w, step).store, c, Running)
    ensures step == Pause(c) ==> StatusIs(Apply(w, step).store, c, Paused)
    ensures PausedOrCancelled(w.store, c) && !CommitsOn(w, step, c) && !(step.Resume? && step.campaign == c) ==>
      PausedOrCancelled(Apply(w, step).store, c)
  {
  }

  ghost predicate NoneOutrunAlong(w: World, steps: seq<Step>, c: nat)
    decreases |steps|
  {
    steps == []
    || (Enabled(w, steps[0]) && !OutrunsResume(w, steps[0], c) && NoneOutrunAlong(Apply(w, steps[0]), steps[1..], c))
  }

  ghost predicate NotesAlong(w: World, steps: seq<Step>, c: nat)
    decreases |steps|
  {
    NotesAt(w.store, c)
    && (steps == [] || (Enabled(w, steps[0]) && NotesAlong(Apply(w, steps[0]), steps[1..], c)))
  }

  /** Along a run a running campaign never has rows left over by an earlier pause, so that every pause of it is
      undone by its resume, exactly when no start of it commits over such rows. */
  lemma {:induction false} NothingIsLeftOver(w: World, steps: seq<Step>, end: World, c: nat)
    requires Linked(w) && NotesAt(w.store, c) && Run(w, steps, end)
    ensures NotesAlong(w, steps, c) <==> NoneOutrunAlong(w, steps, c)
    ensures NoneOutrunAlong(w, steps, c) && StatusIs(end.store, c, Running) ==> ResumeTargets(end.store, c) == {}
    decreases |steps|
  {
    hide Apply, Enabled, Linked, OutrunsResume, ResumeTargets;
    if steps != [] {
      StepKeepsLinks(w, steps[0]);
      NotesExactly(w, steps[0], c);
      if !OutrunsResume(w, steps[0], c) {
        NothingIsLeftOver(Apply(w, steps[0]), steps[1..], end, c);
      } else {
        hide NotesAt;
        assert !NotesAlong(Apply(w, steps[0]), steps[1..], c);
      }
    }
  }

  // ----- Starts that do read their campaign again -----

  /** A start commits only while its campaign is still a draft. */
  ghost predicate StartsInDraft(w: World, step: Step) {
    step.CommitTx? && step.tx in w.starts ==> StatusIs(w.store, w.starts[step.tx].campaign, Draft)
  }

  /** Such a start breaks none of the three promises. */
  lemma DraftStartsAreHarmless(w: World, step: Step, c: nat)
    requires Linked(w) && Enabled(w, step) && StartsInDraft(w, step)
    requires UnfrozenAt(w.store, c) && NotesAt(w.store, c)
    ensures ClosedIn(w.store, c) ==> !CommitsOn(w, step, c)
    ensures !ReschedulesFrozen(w, step, c) && !OutrunsResume(w, step, c)
  {
    if CommitsOn(w, step, c) {
      assert StatusIs(w.store, c, Draft);
      forall r | r in w.starts[step.tx].chosen && r in w.store.recipients
        ensures w.store.recipients[r].outbox.None?
      {
        assert w.store.recipients[r].campaign == c;
      }
    }
  }
}
