/** Where the campaign guarantees end: what a start that does not re-read its campaign allows. */
module CampaignRaces {
  import opened Options
  import opened Campaigns
  import opened CampaignExclusivity
  import opened CampaignLifecycle
  import opened CampaignPauses

  const ALPHA: nat := 100
  const BETA: nat := 200

  function Row(campaign: nat, contact: nat, selected: bool): Recipient {
    Recipient(campaign, contact, if selected then Selected else Candidate, true, selected, None, None)
  }

  lemma RunCons(w: World, step: Step, next: World, rest: seq<Step>, end: World)
    requires Enabled(w, step) && Apply(w, step) == next && Run(next, rest, end)
    ensures Run(w, [step] + rest, end)
  {
    assert ([step] + rest)[1..] == rest;
  }

  lemma RunEnd(w: World)
    ensures Run(w, [], w)
  {
  }

  lemma StepRead(w: World, tx: nat, c: nat)
    requires tx !in w.starts && StatusIs(w.store, c, Draft) && Selectable(w.store, c) != {}
    ensures Enabled(w, ReadStart(tx, c))
    ensures Apply(w, ReadStart(tx, c)) == w.(starts := w.starts[tx := Reading(c, Selectable(w.store, c))])
  {
  }

  lemma StepLock(w: World, tx: nat)
    requires tx in w.starts && w.starts[tx].Reading? && LocksFree(w, tx, ContactsOf(w.store, w.starts[tx].chosen))
    ensures Enabled(w, LockStart(tx))
    ensures Apply(w, LockStart(tx)) == w.(starts := w.starts[tx := Locked(w.starts[tx].campaign, w.starts[tx].chosen,
      ReservedContacts(w.store, w.starts[tx].campaign, ContactsOf(w.store, w.starts[tx].chosen)))])
  {
  }

  lemma StepCommit(w: World, tx: nat)
    requires tx in w.starts && w.starts[tx].Locked?
    requires CanCommitStart(w.store, w.starts[tx].campaign, w.starts[tx].chosen, w.starts[tx].reserved)
    ensures Enabled(w, CommitTx(tx, map[]))
    ensures Apply(w, CommitTx(tx, map[])) == World(
      CommitStart(w.store, w.starts[tx].campaign, w.starts[tx].chosen, w.starts[tx].reserved, map[]), w.starts - {tx})
  {
  }

  // ----- A selection during a start -----

  /** Campaign 2 runs with BETA; draft 1 holds ALPHA and leaves BETA unselected. */
  function Before(betaSelected: bool): Store {
    Store(map[1 := Draft, 2 := Running],
          map[10 := Row(1, ALPHA, true), 11 := Row(1, BETA, betaSelected),
            20 := Row(2, BETA, true).(status := Scheduled)],
          map[])
  }

  function After(): Store {
    Store(map[1 := Running, 2 := Running],
          map[10 := Row(1, ALPHA, true).(status := Scheduled), 11 := Row(1, BETA, true),
              20 := Row(2, BETA, true).(status := Scheduled)],
          map[])
  }

  lemma BeforeIsExclusive()
    ensures ContactExclusive(Before(false)) && DraftsReadable(Before(false))
  {
    assert forall r :: HoldsContact(Before(false), r) ==> r == 20;
  }

  lemma BeforeIsWellFormed()
    ensures WellFormed(Before(false))
  {
  }

  lemma RaceStarts()
    ensures Safe(World(Before(false), map[]))
  {
    hide ContactExclusive, DraftsReadable, WellFormed, Before;
    BeforeIsExclusive();
    BeforeIsWellFormed();
  }

  lemma RaceEnds()
    ensures !ContactExclusive(After())
  {
    assert HoldsContact(After(), 11) && HoldsContact(After(), 20);
  }

  lemma StepSelect(w: World)
    requires w.store == Before(false)
    ensures Enabled(w, Select(1, {11}, true))
    ensures Apply(w, Select(1, {11}, true)) == w.(store := SelectRows(Before(false), 1, {11}, true))
  {
  }

  lemma ReadsAlpha()
    ensures StatusIs(Before(false), 1, Draft)
    ensures Selectable(Before(false), 1) == {10}
    ensures SelectRows(Before(false), 1, {11}, true) == Before(true)
  {
    assert SelectRows(Before(false), 1, {11}, true).recipients == Before(true).recipients;
  }

  lemma LocksAlpha()
    ensures ContactsOf(Before(true), {10}) == {ALPHA} && ReservedContacts(Before(true), 1, {ALPHA}) == {}
  {
  }

  lemma CommitsAlpha()
    ensures CanCommitStart(Before(true), 1, {10}, {})
    ensures CommitStart(Before(true), 1, {10}, {}, map[]) == After()
  {
    assert 10 in {10} && Before(true).recipients[10].contact !in {};
    assert CommitStart(Before(true), 1, {10}, {}, map[]).recipients == After().recipients;
  }

  /** A selection made between a start's read and its commit escapes the reservation check. */
  lemma SelectionDuringStartBreaksExclusivity() returns (w: World, steps: seq<Step>, end: World)
    ensures Safe(w) && Run(w, steps, end) && !ContactExclusive(end.store)
  {
    hide Safe, Run, SelectRows, Selectable, ContactsOf, ReservedContacts, CommitStart, CanCommitStart,
      ContactExclusive, Before, After;
    w := World(Before(false), map[]);
    var read := World(Before(false), map[1 := Reading(1, {10})]);
    var selected := World(Before(true), map[1 := Reading(1, {10})]);
    var locked := World(Before(true), map[1 := Locked(1, {10}, {})]);
    end := World(After(), map[]);
    ReadsAlpha();
    LocksAlpha();
    CommitsAlpha();
    RaceStarts();
    RaceEnds();
    StepRead(w, 1, 1);
    StepSelect(read);
    StepLock(selected, 1);
    StepCommit(locked, 1);
    assert w.starts[1 := Reading(1, {10})] == read.starts && locked.starts - {1} == end.starts;
    SelectionRace(w, read, selected, locked, end);
    steps := [ReadStart(1, 1)] + ([Select(1, {11}, true)] + ([LockStart(1)] + ([CommitTx(1, map[])] + [])));
  }

  lemma SelectionRace(w: World, read: World, selected: World, locked: World, end: World)
    requires Enabled(w, ReadStart(1, 1)) && Apply(w, ReadStart(1, 1)) == read
    requires Enabled(read, Select(1, {11}, true)) && Apply(read, Select(1, {11}, true)) == selected
    requires Enabled(selected, LockStart(1)) && Apply(selected, LockStart(1)) == locked
    requires Enabled(locked, CommitTx(1, map[])) && Apply(locked, CommitTx(1, map[])) == end
    ensures Run(w, [ReadStart(1, 1)] + ([Select(1, {11}, true)] + ([LockStart(1)] + ([CommitTx(1, map[])] + []))), end)
  {
    hide *;
    RunEnd(end);
    RunCons(locked, CommitTx(1, map[]), end, [], end);
    RunCons(selected, LockStart(1), locked, [CommitTx(1, map[])] + [], end);
    RunCons(read, Select(1, {11}, true), selected, [LockStart(1)] + ([CommitTx(1, map[])] + []), end);
    RunCons(w, ReadStart(1, 1), read, [Select(1, {11}, true)] + ([LockStart(1)] + ([CommitTx(1, map[])] + [])), end);
  }

  // ----- A contact taken between a start's locks and its commit -----

  /** Campaign 1 has ALPHA; campaign 2 has BETA, and ALPHA as a recipient that may be selected later. */
  function Two(first: CampaignStatus, second: CampaignStatus, late: bool): Store {
    Store(map[1 := first, 2 := second],
          map[10 := Started(Row(1, ALPHA, true), first), 20 := Started(Row(2, BETA, true), second),
              21 := Row(2, ALPHA, late)],
          map[])
  }

  function Started(row: Recipient, campaign: CampaignStatus): Recipient {
    if campaign == Running then row.(status := Scheduled) else row
  }

  lemma TwoIsExclusive()
    ensures ContactExclusive(Two(Draft, Draft, false)) && DraftsReadable(Two(Draft, Draft, false))
  {
    assert forall r :: !HoldsContact(Two(Draft, Draft, false), r);
  }

  lemma TwoIsWellFormed()
    ensures WellFormed(Two(Draft, Draft, false))
  {
  }

  lemma TwoIsSafe()
    ensures Safe(World(Two(Draft, Draft, false), map[]))
  {
    hide ContactExclusive, DraftsReadable, WellFormed, Two;
    TwoIsExclusive();
    TwoIsWellFormed();
  }

  lemma TwoReads(late: bool)
    ensures Selectable(Two(Draft, Draft, late), 1) == {10}
    ensures !late ==> Selectable(Two(Draft, Draft, late), 2) == {20}
    ensures StatusIs(Two(Draft, Draft, late), 1, Draft) && StatusIs(Two(Draft, Draft, late), 2, Draft)
  {
  }

  lemma TwoContacts(first: CampaignStatus, second: CampaignStatus, late: bool)
    ensures ContactsOf(Two(first, second, late), {10}) == {ALPHA}
    ensures ContactsOf(Two(first, second, late), {20}) == {BETA}
  {
  }

  lemma TwoReserves(late: bool)
    ensures ReservedContacts(Two(Draft, Draft, late), 1, {ALPHA}) == {}
    ensures ReservedContacts(Two(Draft, Draft, late), 2, {BETA}) == {}
  {
  }

  lemma TwoSelects(w: World)
    requires w.store == Two(Draft, Draft, false)
    ensures Enabled(w, Select(2, {21}, true)) && Apply(w, Select(2, {21}, true)) == w.(store := Two(Draft, Draft, true))
  {
    assert SelectRows(w.store, 2, {21}, true).recipients == Two(Draft, Draft, true).recipients;
  }

  lemma TwoCommits()
    ensures CanCommitStart(Two(Draft, Draft, true), 2, {20}, {})
    ensures CanCommitStart(Two(Draft, Running, true), 1, {10}, {})
    ensures CommitStart(Two(Draft, Draft, true), 2, {20}, {}, map[]) == Two(Draft, Running, true)
    ensures CommitStart(Two(Draft, Running, true), 1, {10}, {}, map[]) == Two(Running, Running, true)
  {
    assert 20 in {20} && 10 in {10};
    assert CommitStart(Two(Draft, Draft, true), 2, {20}, {}, map[]).recipients == Two(Draft, Running, true).recipients;
    assert CommitStart(Two(Draft, Running, true), 1, {10}, {}, map[]).recipients
      == Two(Running, Running, true).recipients;
  }

  lemma TwoEnd()
    ensures Covered(Two(Draft, Running, true), Locked(1, {10}, {})) && ContactExclusive(Two(Draft, Running, true))
    ensures !ContactExclusive(Two(Running, Running, true))
  {
    assert forall r :: HoldsContact(Two(Draft, Running, true), r) ==> r == 20 || r == 21;
    assert HoldsContact(Two(Running, Running, true), 10) && HoldsContact(Two(Running, Running, true), 21);
  }

  /** A start that left none of its selected recipients unread shares a contact all the same: another campaign
      committed with a late selection that no lock covered. */
  lemma TakenAfterLockBreaksExclusivity() returns (w: World, steps: seq<Step>, taken: World, last: Step, end: World)
    ensures Safe(w) && Run(w, steps, taken) && ContactExclusive(taken.store)
    ensures last == CommitTx(1, map[]) && 1 in taken.starts && Covered(taken.store, taken.starts[1])
    ensures Run(taken, [last], end) && !ContactExclusive(end.store)
  {
    hide Safe, Run, SelectRows, Selectable, ContactsOf, ReservedContacts, CommitStart, CanCommitStart, Covered,
      ContactExclusive, Two;
    var one, two := Locked(1, {10}, {}), Locked(2, {20}, {});
    var before, late := Two(Draft, Draft, false), Two(Draft, Draft, true);
    w := World(before, map[]);
    var w1 := World(before, map[1 := Reading(1, {10})]);
    var w2 := World(before, map[1 := one]);
    var w3 := World(before, map[1 := one, 2 := Reading(2, {20})]);
    var w4 := World(late, map[1 := one, 2 := Reading(2, {20})]);
    var w5 := World(late, map[1 := one, 2 := two]);
    taken := World(Two(Draft, Running, true), map[1 := one]);
    end := World(Two(Running, Running, true), map[]);
    TwoIsSafe();
    TwoReads(false);
    TwoContacts(Draft, Draft, false);
    TwoContacts(Draft, Draft, true);
    TwoReserves(false);
    TwoReserves(true);
    TwoCommits();
    TwoEnd();
    StepRead(w, 1, 1);
    StepLock(w1, 1);
    StepRead(w2, 2, 2);
    TwoSelects(w3);
    StepLock(w4, 2);
    StepCommit(w5, 2);
    StepCommit(taken, 1);
    assert w.starts[1 := Reading(1, {10})] == w1.starts && w1.starts[1 := one] == w2.starts;
    assert w2.starts[2 := Reading(2, {20})] == w3.starts && w4.starts[2 := two] == w5.starts;
    assert w5.starts - {2} == taken.starts && taken.starts - {1} == end.starts;
    TakenRace(w, w1, w2, w3, w4, w5, taken, end);
    steps := [ReadStart(1, 1)] + ([LockStart(1)] + ([ReadStart(2, 2)]
      + ([Select(2, {21}, true)] + ([LockStart(2)] + ([CommitTx(2, map[])] + [])))));
    last := CommitTx(1, map[]);
    assert [last] + [] == [last];
  }

  lemma TakenRace(w: World, w1: World, w2: World, w3: World, w4: World, w5: World, taken: World, end: World)
    requires Enabled(w, ReadStart(1, 1)) && Apply(w, ReadStart(1, 1)) == w1
    requires Enabled(w1, LockStart(1)) && Apply(w1, LockStart(1)) == w2
    requires Enabled(w2, ReadStart(2, 2)) && Apply(w2, ReadStart(2, 2)) == w3
    requires Enabled(w3, Select(2, {21}, true)) && Apply(w3, Select(2, {21}, true)) == w4
    requires Enabled(w4, LockStart(2)) && Apply(w4, LockStart(2)) == w5
    requires Enabled(w5, CommitTx(2, map[])) && Apply(w5, CommitTx(2, map[])) == taken
    requires Enabled(taken, CommitTx(1, map[])) && Apply(taken, CommitTx(1, map[])) == end
    ensures Run(w,
      [ReadStart(1, 1)] + ([LockStart(1)] + ([ReadStart(2, 2)]
        + ([Select(2, {21}, true)] + ([LockStart(2)] + ([CommitTx(2, map[])] + []))))), taken)
    ensures Run(taken, [CommitTx(1, map[])] + [], end)
  {
    hide *;
    var r5 := [CommitTx(2, map[])] + [];
    var r4 := [LockStart(2)] + r5;
    var r3 := [Select(2, {21}, true)] + r4;
    var r2 := [ReadStart(2, 2)] + r3;
    RunEnd(taken);
    RunCons(w5, CommitTx(2, map[]), taken, [], taken);
    RunCons(w4, LockStart(2), w5, r5, taken);
    RunCons(w3, Select(2, {21}, true), w4, r4, taken);
    RunCons(w2, ReadStart(2, 2), w3, r3, taken);
    RunCons(w1, LockStart(1), w2, r2, taken);
    RunCons(w, ReadStart(1, 1), w1, [LockStart(1)] + r2, taken);
    RunEnd(end);
    RunCons(taken, CommitTx(1, map[]), end, [], end);
  }

  // ----- A second start that read the draft before the first committed -----

  function OneRow(campaign: CampaignStatus, status: RecipientStatus): Store {
    Store(map[1 := campaign], map[10 := Row(1, ALPHA, true).(status := status)], map[])
  }

  lemma StaleCommit(campaign: CampaignStatus, status: RecipientStatus)
    ensures ContactsOf(OneRow(campaign, status), {10}) == {ALPHA}
    ensures ReservedContacts(OneRow(campaign, status), 1, {ALPHA}) == {}
    ensures CanCommitStart(OneRow(campaign, status), 1, {10}, {})
    ensures CommitStart(OneRow(campaign, status), 1, {10}, {}, map[]) == OneRow(Running, Scheduled)
  {
    assert 10 in {10} && OneRow(campaign, status).recipients[10].contact !in {};
    assert CommitStart(OneRow(campaign, status), 1, {10}, {}, map[]).recipients
      == OneRow(Running, Scheduled).recipients;
  }

  lemma CancelsRow()
    ensures CancelRows(OneRow(Running, Scheduled), 1) == OneRow(Cancelled, Skipped)
  {
    assert CancelTargets(OneRow(Running, Scheduled), 1) == {10};
    assert CancelRows(OneRow(Running, Scheduled), 1).recipients == OneRow(Cancelled, Skipped).recipients;
  }

  /** All that the campaign promises holds at this moment. */
  ghost predicate Orderly(w: World, c: nat) {
    Linked(w) && RestsAt(w.store, c) && UnfrozenAt(w.store, c) && NotesAt(w.store, c)
  }

  /** A start that read the draft before another start committed reopens a cancelled campaign. */
  lemma StaleStartReopensCancelled() returns (w: World, cancelled: World, steps: seq<Step>, more: seq<Step>, end: World)
    ensures Safe(w) && Orderly(w, 1) && Run(w, steps, cancelled) && StatusIs(cancelled.store, 1, Cancelled)
    ensures Run(cancelled, more, end) && StatusIs(end.store, 1, Running)
    ensures 10 in end.store.recipients && end.store.recipients[10].selected
      && end.store.recipients[10].status == Scheduled
  {
    hide Safe, Run, Orderly, CancelRows, ContactsOf, ReservedContacts, CommitStart, CanCommitStart, OneRow;
    var reading, locked := Reading(1, {10}), Locked(1, {10}, {});
    w := World(OneRow(Draft, Selected), map[1 := reading, 2 := reading]);
    var w1 := World(OneRow(Draft, Selected), map[1 := locked, 2 := reading]);
    var w2 := World(OneRow(Running, Scheduled), map[2 := reading]);
    cancelled := World(OneRow(Cancelled, Skipped), map[2 := reading]);
    var w4 := World(OneRow(Cancelled, Skipped), map[2 := locked]);
    end := World(OneRow(Running, Scheduled), map[]);
    StaleCommit(Draft, Selected);
    StaleCommit(Cancelled, Skipped);
    CancelsRow();
    StepLock(w, 1);
    StepCommit(w1, 1);
    StepCancel(w2);
    StepLock(cancelled, 2);
    StepCommit(w4, 2);
    assert w1.starts - {1} == map[2 := reading] && w4.starts - {2} == map[];
    StartIsSafe();
    StartIsOrderly();
    OneRowFacts();
    StaleRace(w, w1, w2, cancelled, w4, end);
    steps := [LockStart(1)] + ([CommitTx(1, map[])] + ([Cancel(1)] + []));
    more := [LockStart(2)] + ([CommitTx(2, map[])] + []);
  }

  lemma StartIsExclusive()
    ensures ContactExclusive(OneRow(Draft, Selected)) && DraftsReadable(OneRow(Draft, Selected))
    ensures WellFormed(OneRow(Draft, Selected)) && Covered(OneRow(Draft, Selected), Reading(1, {10}))
  {
  }

  lemma StartIsSafe()
    ensures Safe(World(OneRow(Draft, Selected), map[1 := Reading(1, {10}), 2 := Reading(1, {10})]))
  {
    hide ContactExclusive, DraftsReadable, WellFormed, Covered, OneRow, ContactsOf;
    StartIsExclusive();
  }

  lemma StartIsOrderly()
    ensures Orderly(World(OneRow(Draft, Selected), map[1 := Reading(1, {10}), 2 := Reading(1, {10})]), 1)
  {
  }

  lemma OneRowFacts()
    ensures StatusIs(OneRow(Cancelled, Skipped), 1, Cancelled) && StatusIs(OneRow(Running, Scheduled), 1, Running)
    ensures var rows := OneRow(Running, Scheduled).recipients;
      10 in rows && rows[10].selected && rows[10].status == Scheduled
  {
  }

  lemma StepCancel(w: World)
    requires w.store == OneRow(Running, Scheduled)
    ensures Enabled(w, Cancel(1)) && Apply(w, Cancel(1)) == w.(store := CancelRows(w.store, 1))
  {
  }

  lemma StaleRace(w: World, w1: World, w2: World, cancelled: World, w4: World, end: World)
    requires Enabled(w, LockStart(1)) && Apply(w, LockStart(1)) == w1
    requires Enabled(w1, CommitTx(1, map[])) && Apply(w1, CommitTx(1, map[])) == w2
    requires Enabled(w2, Cancel(1)) && Apply(w2, Cancel(1)) == cancelled
    requires Enabled(cancelled, LockStart(2)) && Apply(cancelled, LockStart(2)) == w4
    requires Enabled(w4, CommitTx(2, map[])) && Apply(w4, CommitTx(2, map[])) == end
    ensures Run(w, [LockStart(1)] + ([CommitTx(1, map[])] + ([Cancel(1)] + [])), cancelled)
    ensures Run(cancelled, [LockStart(2)] + ([CommitTx(2, map[])] + []), end)
  {
    hide *;
    RunEnd(cancelled);
    RunCons(w2, Cancel(1), cancelled, [], cancelled);
    RunCons(w1, CommitTx(1, map[]), w2, [Cancel(1)] + [], cancelled);
    RunCons(w, LockStart(1), w1, [CommitTx(1, map[])] + ([Cancel(1)] + []), cancelled);
    RunEnd(end);
    RunCons(w4, CommitTx(2, map[]), end, [], end);
    RunCons(cancelled, LockStart(2), w4, [CommitTx(2, map[])] + [], end);
  }

  // ----- A second start that commits on the paused campaign -----

  /** The one recipient with its outbox row. */
  function Frozen(campaign: CampaignStatus, status: RecipientStatus, delivery: DeliveryStatus, note: Note): Store {
    Store(map[1 := campaign], map[10 := Row(1, ALPHA, true).(status := status, outbox := Some(7))],
          map[7 := Outbox(10, delivery, note, 0)])
  }

  lemma StepFreeze(w: World)
    requires w.store == OneRow(Running, Scheduled)
    ensures Enabled(w, Freeze(10, 7, 0))
    ensures Apply(w, Freeze(10, 7, 0)) == w.(store := Frozen(Running, Queued, Pending, NoNote))
  {
    assert FreezeRow(w.store, 10, 7, 0).recipients == Frozen(Running, Queued, Pending, NoNote).recipients;
    assert FreezeRow(w.store, 10, 7, 0).outboxes == Frozen(Running, Queued, Pending, NoNote).outboxes;
  }

  lemma StepPause(w: World)
    requires w.store == Frozen(Running, Queued, Pending, NoNote)
    ensures Enabled(w, Pause(1)) && Apply(w, Pause(1)) == w.(store := Frozen(Paused, Queued, Stopped, CampaignPaused))
  {
    var paused := Frozen(Paused, Queued, Stopped, CampaignPaused);
    assert PauseTargets(w.store, 1) == {7};
    assert PauseRows(w.store, 1).recipients == paused.recipients && PauseRows(w.store, 1).outboxes == paused.outboxes;
  }

  lemma CommitOverPause()
    ensures var paused := Frozen(Paused, Queued, Stopped, CampaignPaused);
      && ContactsOf(paused, {10}) == {ALPHA} && ReservedContacts(paused, 1, {ALPHA}) == {}
      && CanCommitStart(paused, 1, {10}, {})
      && CommitStart(paused, 1, {10}, {}, map[]) == Frozen(Running, Scheduled, Stopped, CampaignPaused)
  {
    var paused := Frozen(Paused, Queued, Stopped, CampaignPaused);
    assert 10 in {10} && paused.recipients[10].contact !in {};
    assert CommitStart(paused, 1, {10}, {}, map[]).recipients
      == Frozen(Running, Scheduled, Stopped, CampaignPaused).recipients;
  }

  /** What is wrong afterwards: the due recipient's key is taken by its own old row, and the next pause stops
      nothing while its resume re-arms that row. */
  lemma OldRowComesBack(now: int)
    ensures var s := Frozen(Running, Scheduled, Stopped, CampaignPaused);
      && CanQueue(s, 10) && !KeyFree(s, 10)
      && PauseTargets(s, 1) == {} && ResumeTargets(s, 1) == {7}
      && var resumed := ResumeRows(PauseRows(s, 1), 1, now);
         7 in resumed.outboxes && resumed.outboxes[7].status == Pending
  {
    var s := Frozen(Running, Scheduled, Stopped, CampaignPaused);
    assert s.outboxes[7].recipient == 10;
    assert PauseTargets(s, 1) == {} && ResumeTargets(s, 1) == {7};
    PauseAddsMarks(s, 1);
    ResumeRearms(PauseRows(s, 1), 1, now);
    hide PauseRows, ResumeRows, PauseTargets, ResumeTargets;
    assert 7 in ResumeTargets(PauseRows(s, 1), 1);
  }

  /** A start that read the draft before another start committed outruns a pause. */
  lemma StaleStartOutrunsResume() returns (w: World, steps: seq<Step>, end: World)
    ensures Safe(w) && Orderly(w, 1) && Run(w, steps, end)
    ensures CanQueue(end.store, 10) && !KeyFree(end.store, 10)
    ensures PauseTargets(end.store, 1) == {} && ResumeTargets(end.store, 1) == {7}
    ensures forall now: int :: ReturnsAfterPause(end.store, 7, now)
  {
    hide Safe, Run, Orderly, PauseRows, ResumeRows, ContactsOf, ReservedContacts, CommitStart, CanCommitStart, OneRow,
      Frozen,
      PauseTargets, ResumeTargets, CanQueue, KeyFree;
    var reading, locked := Reading(1, {10}), Locked(1, {10}, {});
    w := World(OneRow(Draft, Selected), map[1 := reading, 2 := reading]);
    var w1 := World(OneRow(Draft, Selected), map[1 := locked, 2 := reading]);
    var w2 := World(OneRow(Running, Scheduled), map[2 := reading]);
    var w3 := World(Frozen(Running, Queued, Pending, NoNote), map[2 := reading]);
    var w4 := World(Frozen(Paused, Queued, Stopped, CampaignPaused), map[2 := reading]);
    var w5 := World(Frozen(Paused, Queued, Stopped, CampaignPaused), map[2 := locked]);
    end := World(Frozen(Running, Scheduled, Stopped, CampaignPaused), map[]);
    StaleCommit(Draft, Selected);
    CommitOverPause();
    StepLock(w, 1);
    StepCommit(w1, 1);
    StepFreeze(w2);
    StepPause(w3);
    StepLock(w4, 2);
    StepCommit(w5, 2);
    assert w1.starts - {1} == map[2 := reading] && w5.starts - {2} == map[];
    StartIsSafe();
    StartIsOrderly();
    PauseRace(w, w1, w2, w3, w4, w5, end);
    steps := [LockStart(1)] + ([CommitTx(1, map[])]
      + ([Freeze(10, 7, 0)] + ([Pause(1)] + ([LockStart(2)] + ([CommitTx(2, map[])] + [])))));
    forall now: int ensures ReturnsAfterPause(end.store, 7, now) {
      OldRowComesBack(now);
    }
    OldRowComesBack(0);
  }

  ghost predicate ReturnsAfterPause(s: Store, o: nat, now: int) {
    var resumed := ResumeRows(PauseRows(s, 1), 1, now);
    o in resumed.outboxes && resumed.outboxes[o].status == Pending
  }

  lemma PauseRace(w: World, w1: World, w2: World, w3: World, w4: World, w5: World, end: World)
    requires Enabled(w, LockStart(1)) && Apply(w, LockStart(1)) == w1
    requires Enabled(w1, CommitTx(1, map[])) && Apply(w1, CommitTx(1, map[])) == w2
    requires Enabled(w2, Freeze(10, 7, 0)) && Apply(w2, Freeze(10, 7, 0)) == w3
    requires Enabled(w3, Pause(1)) && Apply(w3, Pause(1)) == w4
    requires Enabled(w4, LockStart(2)) && Apply(w4, LockStart(2)) == w5
    requires Enabled(w5, CommitTx(2, map[])) && Apply(w5, CommitTx(2, map[])) == end
    ensures Run(w,
      [LockStart(1)] + ([CommitTx(1, map[])]
        + ([Freeze(10, 7, 0)] + ([Pause(1)] + ([LockStart(2)] + ([CommitTx(2, map[])] + []))))), end)
  {
    hide *;
    var r5 := [CommitTx(2, map[])] + [];
    var r4 := [LockStart(2)] + r5;
    var r3 := [Pause(1)] + r4;
    var r2 := [Freeze(10, 7, 0)] + r3;
    RunEnd(end);
    RunCons(w5, CommitTx(2, map[]), end, [], end);
    RunCons(w4, LockStart(2), w5, r5, end);
    RunCons(w3, Pause(1), w4, r4, end);
    RunCons(w2, Freeze(10, 7, 0), w3, r3, end);
    RunCons(w1, CommitTx(1, map[]), w2, r2, end);
    RunCons(w, LockStart(1), w1, [CommitTx(1, map[])] + r2, end);
  }
}
