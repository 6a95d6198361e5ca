/** What the life of a campaign keeps, campaign by campaign: one freeze per recipient, rest after
    closing, and a free business key for every due recipient. A start does not read its campaign
    again before it commits, so each promise comes with the exact steps that break it. */
module CampaignLifecycle {
  import opened Options
  import opened Campaigns
  import opened CampaignExclusivity

  // ----- Rows keep their links -----

  ghost predicate OwnRows(w: World) {
    forall tx, r :: tx in w.starts && r in w.starts[tx].chosen ==>
      r in w.store.recipients && w.store.recipients[r].campaign == w.starts[tx].campaign
  }

  /** What every step keeps, whatever starts are in flight. */
  ghost predicate Linked(w: World) {
    WellFormed(w.store) && OwnRows(w)
  }

  /** Nobody moves to another campaign, and outbox rows come only with a freeze. */
  ghost predicate RowsStay(s: Store, t: Store) {
    && s.recipients.Keys == t.recipients.Keys && s.campaigns.Keys == t.campaigns.Keys
    && forall r :: r in s.recipients ==> t.recipients[r].campaign == s.recipients[r].campaign
  }

  /** No recipient becomes scheduled, no closed campaign gets somebody to wait for, no campaign becomes a
      draft, and nobody takes a contact. */
  ghost predicate Calm(s: Store, t: Store) {
    && RowsStay(s, t)
    && (forall r :: r in t.recipients ==>
          && t.recipients[r].outbox == s.recipients[r].outbox
          && (t.recipients[r].status == Scheduled ==> s.recipients[r].status == Scheduled))
    && (forall r :: r in t.recipients && StillWaits(t, r) ==> StillWaits(s, r))
    && (forall c :: StatusIs(t, c, Draft) ==> StatusIs(s, c, Draft))
    && (forall r :: HoldsContact(t, r) ==> HoldsContact(s, r))
  }

  /** Selected and waiting in a closed campaign. */
  predicate StillWaits(s: Store, r: nat) {
    && r in s.recipients && s.recipients[r].selected && Waiting(s.recipients[r].status)
    && s.recipients[r].campaign in s.campaigns && Closed(s.campaigns[s.recipients[r].campaign])
  }

  lemma SelectIsCalm(s: Store, c: nat, rows: set<nat>, on: bool)
    requires CanSelect(s, c, rows, on)
    ensures SameLinks(s, SelectRows(s, c, rows, on)) && Calm(s, SelectRows(s, c, rows, on))
  {
  }

  lemma PauseIsCalm(s: Store, c: nat)
    requires WellFormed(s) && StatusIs(s, c, Running)
    ensures SameLinks(s, PauseRows(s, c)) && Calm(s, PauseRows(s, c))
  {
  }

  lemma ResumeIsCalm(s: Store, c: nat, now: int)
    requires StatusIs(s, c, Paused)
    ensures SameLinks(s, ResumeRows(s, c, now)) && Calm(s, ResumeRows(s, c, now))
  {
  }

  lemma CancelIsCalm(s: Store, c: nat)
    requires c in s.campaigns
    ensures SameLinks(s, CancelRows(s, c)) && Calm(s, CancelRows(s, c))
  {
  }

  lemma SkipIsCalm(s: Store, r: nat)
    requires r in s.recipients
    ensures SameLinks(s, SkipRow(s, r)) && Calm(s, SkipRow(s, r))
  {
  }

  lemma SyncCompletes(s: Store)
    ensures var t := SyncRows(s);
      && (forall c :: c in t.campaigns && t.campaigns[c] != s.campaigns[c] ==> NothingWaiting(t.recipients, c))
      && (forall r :: r in t.recipients && Waiting(t.recipients[r].status) ==> t.recipients[r] == s.recipients[r])
  {
  }

  lemma SyncIsCalm(s: Store)
    ensures SameLinks(s, SyncRows(s)) && Calm(s, SyncRows(s))
  {
    SyncFacts(s);
    SyncCompletes(s);
    hide SyncRows;
  }

  lemma ReplyIsCalm(s: Store, r: nat)
    requires r in s.recipients
    ensures SameLinks(s, ReplyRows(s, r)) && Calm(s, ReplyRows(s, r))
  {
  }

  lemma DeliverIsCalm(s: Store, o: nat, status: DeliveryStatus, note: Note)
    requires o in s.outboxes
    ensures var t := s.(outboxes := s.outboxes[o := s.outboxes[o].(status := status, note := note)]);
      SameLinks(s, t) && Calm(s, t)
  {
  }

  predicate IsCalmStep(step: Step) {
    !step.CommitTx? && !step.Freeze?
  }

  lemma CalmStep(w: World, step: Step)
    requires Linked(w) && Enabled(w, step) && IsCalmStep(step)
    ensures SameLinks(w.store, Apply(w, step).store) && Calm(w.store, Apply(w, step).store)
  {
    hide Calm, WellFormed, SelectRows, PauseRows, ResumeRows, CancelRows, SkipRow, SyncRows, ReplyRows, SameLinks,
      LocksFree;
    var s := w.store;
    match step {
      case Select(c, rows, on) => SelectIsCalm(s, c, rows, on);
      case ReadStart(_, _) => NothingIsCalm(s);
      case LockStart(_) => NothingIsCalm(s);
      case AbandonTx(_) => NothingIsCalm(s);
      case Pause(c) => PauseIsCalm(s, c);
      case Resume(c, now) => ResumeIsCalm(s, c, now);
      case Cancel(c) => CancelIsCalm(s, c);
      case SkipScheduled(r) => SkipIsCalm(s, r);
      case GuardSkip(r) => SkipIsCalm(s, r);
      case Sync => SyncIsCalm(s);
      case Reply(r) => ReplyIsCalm(s, r);
      case Deliver(o, status, note) => DeliverIsCalm(s, o, status, note);
    }
  }

  lemma NothingIsCalm(s: Store)
    ensures SameLinks(s, s) && Calm(s, s)
  {
  }

  lemma LinksKeepRows(s: Store, t: Store)
    requires SameLinks(s, t)
    ensures RowsStay(s, t)
  {
  }

  lemma FreezeKeepsRows(s: Store, r: nat, o: nat, at: int)
    requires r in s.recipients
    ensures RowsStay(s, FreezeRow(s, r, o, at))
  {
  }

  lemma CommitLinks(s: Store, c: nat, chosen: set<nat>, reserved: set<nat>, slots: map<nat, int>)
    requires c in s.campaigns
    ensures SameLinks(s, CommitStart(s, c, chosen, reserved, slots))
  {
  }

  lemma StepKeepsLinks(w: World, step: Step)
    requires Linked(w) && Enabled(w, step)
    ensures Linked(Apply(w, step)) && RowsStay(w.store, Apply(w, step).store)
  {
    var s, t := w.store, Apply(w, step).store;
    match step {
      case CommitTx(tx, slots) =>
        CommitLinks(s, w.starts[tx].campaign, w.starts[tx].chosen, w.starts[tx].reserved, slots);
      case Freeze(r, o, at) =>
        FreezeKeepsLinks(s, r, o, at);
        FreezeKeepsRows(s, r, o, at);
      case _ => CalmStep(w, step);
    }
    hide WellFormed, SameLinks, RowsStay, Apply;
    if !step.Freeze? {
      SameLinksWellFormed(s, t);
      LinksKeepRows(s, t);
    }
    OwnRowsStay(w, step);
  }

  lemma OwnRowsStay(w: World, step: Step)
    requires OwnRows(w) && Enabled(w, step) && RowsStay(w.store, Apply(w, step).store)
    ensures OwnRows(Apply(w, step))
  {
    hide SelectRows, CommitStart, PauseRows, ResumeRows, CancelRows, SkipRow, SyncRows, ReplyRows, FreezeRow,
      CanCommitStart, LocksFree, CanSelect, ReservedContacts, ContactsOf;
  }

  // ----- One freeze per recipient -----

  function Freezes(steps: seq<Step>, r: nat): nat {
    if steps == [] then 0
    else (if steps[0].Freeze? && steps[0].recipient == r then 1 else 0) + Freezes(steps[1..], r)
  }

  /** Whenever the run freezes the recipient, its campaign is running at that moment. */
  ghost predicate FrozenWhileRunning(w: World, steps: seq<Step>, r: nat)
    decreases |steps|
  {
    steps == [] || (Enabled(w, steps[0])
      && (steps[0].Freeze? && steps[0].recipient == r ==>
            r in w.store.recipients && StatusIs(w.store, w.store.recipients[r].campaign, Running))
      && FrozenWhileRunning(Apply(w, steps[0]), steps[1..], r))
  }

  lemma KeyStaysTaken(w: World, step: Step, r: nat)
    requires Enabled(w, step) && !KeyFree(w.store, r)
    ensures !KeyFree(Apply(w, step).store, r)
  {
    var o :| o in w.store.outboxes && w.store.outboxes[o].recipient == r;
    assert o in Apply(w, step).store.outboxes && Apply(w, step).store.outboxes[o].recipient == r;
  }

  /** On every run a recipient is frozen into the outbox at most once, and only while its campaign runs. */
  lemma {:induction false} FrozenAtMostOnce(w: World, steps: seq<Step>, end: World, r: nat)
    requires Run(w, steps, end)
    ensures Freezes(steps, r) <= if KeyFree(w.store, r) then 1 else 0
    ensures FrozenWhileRunning(w, steps, r)
    decreases |steps|
  {
    if steps != [] {
      FrozenAtMostOnce(Apply(w, steps[0]), steps[1..], end, r);
      if steps[0].Freeze? && steps[0].recipient == r {
        var s := Apply(w, steps[0]).store;
        assert s.outboxes[steps[0].outbox].recipient == r;
      } else if !KeyFree(w.store, r) {
        KeyStaysTaken(w, steps[0], r);
      }
    }
  }

  // ----- Closed campaigns -----

  ghost predicate CommitsOn(w: World, step: Step, c: nat) {
    step.CommitTx? && step.tx in w.starts && w.starts[step.tx].campaign == c
  }

  predicate ClosedIn(s: Store, c: nat) {
    c in s.campaigns && Closed(s.campaigns[c])
  }

  /** A closed campaign has no selected recipient left waiting. */
  ghost predicate RestsAt(s: Store, c: nat) {
    ClosedIn(s, c) ==> NothingWaiting(s.recipients, c)
  }

  /** A step changes the status of a closed campaign exactly when it commits a start of it. */
  lemma ClosedIsFinal(w: World, step: Step, c: nat)
    requires Enabled(w, step) && ClosedIn(w.store, c)
    ensures StatusIs(Apply(w, step).store, c, w.store.campaigns[c]) <==> !CommitsOn(w, step, c)
  {
  }

  /** So all closed campaigns stay closed exactly when no start commits on a closed one. */
  lemma ClosedStayExactly(w: World, step: Step)
    requires Enabled(w, step)
    ensures (forall c :: ClosedIn(w.store, c) ==> StatusIs(Apply(w, step).store, c, w.store.campaigns[c]))
      <==> (step.CommitTx? ==> !ClosedIn(w.store, w.starts[step.tx].campaign))
  {
    hide Apply, Enabled;
    forall c | ClosedIn(w.store, c)
      ensures StatusIs(Apply(w, step).store, c, w.store.campaigns[c]) <==> !CommitsOn(w, step, c)
    {
      ClosedIsFinal(w, step, c);
    }
    CommittedCampaignExists(w, step);
  }

  lemma CommittedCampaignExists(w: World, step: Step)
    requires Enabled(w, step)
    ensures step.CommitTx? ==> step.tx in w.starts
  {
  }

  lemma CalmRests(s: Store, t: Store, c: nat)
    requires Calm(s, t) && RestsAt(s, c)
    ensures RestsAt(t, c)
  {
    forall r | r in t.recipients && t.recipients[r].campaign == c && t.recipients[r].selected && ClosedIn(t, c)
      ensures !Waiting(t.recipients[r].status)
    {
      assert StillWaits(t, r) ==> StillWaits(s, r);
    }
  }

  lemma CommitRests(s: Store, d: nat, chosen: set<nat>, reserved: set<nat>, slots: map<nat, int>, c: nat)
    requires RestsAt(s, c) && OwnChosen(s, d, chosen)
    ensures RestsAt(CommitStart(s, d, chosen, reserved, slots), c)
  {
  }

  ghost predicate OwnChosen(s: Store, c: nat, chosen: set<nat>) {
    forall r :: r in chosen ==> r in s.recipients && s.recipients[r].campaign == c
  }

  lemma FreezeRests(s: Store, r: nat, o: nat, at: int, c: nat)
    requires RestsAt(s, c) && CanQueue(s, r)
    ensures RestsAt(FreezeRow(s, r, o, at), c)
  {
  }

  /** Rest after closing is kept by every step, a start that reopens the campaign included. */
  lemma StepRests(w: World, step: Step, c: nat)
    requires Linked(w) && Enabled(w, step) && RestsAt(w.store, c)
    ensures RestsAt(Apply(w, step).store, c)
  {
    hide RestsAt, Calm, SameLinks, CommitStart, FreezeRow;
    var s := w.store;
    match step {
      case CommitTx(tx, slots) =>
        assert OwnChosen(s, w.starts[tx].campaign, w.starts[tx].chosen);
        CommitRests(s, w.starts[tx].campaign, w.starts[tx].chosen, w.starts[tx].reserved, slots, c);
      case Freeze(r, o, at) => FreezeRests(s, r, o, at, c);
      case _ =>
        CalmStep(w, step);
        CalmRests(s, Apply(w, step).store, c);
    }
  }

  /** The campaign keeps its status at every moment of the run. */
  ghost predicate SameAlong(w: World, steps: seq<Step>, c: nat, status: CampaignStatus)
    decreases |steps|
  {
    StatusIs(w.store, c, status)
    && (steps == [] || (Enabled(w, steps[0]) && SameAlong(Apply(w, steps[0]), steps[1..], c, status)))
  }

  /** No start of the campaign commits during the run. */
  ghost predicate NoCommitAlong(w: World, steps: seq<Step>, c: nat)
    decreases |steps|
  {
    steps == []
    || (Enabled(w, steps[0]) && !CommitsOn(w, steps[0], c) && NoCommitAlong(Apply(w, steps[0]), steps[1..], c))
  }

  /** A closed campaign stays closed along a run exactly when no start of it commits, and then it never
      again has a selected waiting recipient. */
  lemma {:induction false} RunsStayOrderly(w: World, steps: seq<Step>, end: World, c: nat)
    requires Linked(w) && RestsAt(w.store, c) && ClosedIn(w.store, c) && Run(w, steps, end)
    ensures SameAlong(w, steps, c, w.store.campaigns[c]) <==> NoCommitAlong(w, steps, c)
    ensures NoCommitAlong(w, steps, c) ==>
      StatusIs(end.store, c, w.store.campaigns[c]) && NothingWaiting(end.store.recipients, c)
    decreases |steps|
  {
    hide Apply, Enabled, Linked, NothingWaiting;
    if steps != [] {
      ClosedIsFinal(w, steps[0], c);
      if !CommitsOn(w, steps[0], c) {
        StepKeepsLinks(w, steps[0]);
        StepRests(w, steps[0], c);
        RunsStayOrderly(Apply(w, steps[0]), steps[1..], end, c);
      } else {
        NotSameAtOnce(Apply(w, steps[0]), steps[1..], c, w.store.campaigns[c]);
      }
    }
  }

  lemma NotSameAtOnce(w: World, steps: seq<Step>, c: nat, status: CampaignStatus)
    requires !StatusIs(w.store, c, status)
    ensures !SameAlong(w, steps, c, status)
  {
  }

  // ----- Due recipients -----

  /** Recipients of drafts, and scheduled ones, have no outbox row yet. */
  ghost predicate UnfrozenAt(s: Store, c: nat) {
    forall r :: (r in s.recipients && s.recipients[r].campaign == c
                 && (s.recipients[r].status == Scheduled || StatusIs(s, c, Draft))) ==> s.recipients[r].outbox.None?
  }

  /** The step commits a start that schedules a recipient with an outbox row of its own. */
  ghost predicate ReschedulesFrozen(w: World, step: Step, c: nat) {
    CommitsOn(w, step, c) && w.starts[step.tx].Locked?
    && exists r :: r in w.starts[step.tx].chosen && FrozenAndFree(w.store, r, w.starts[step.tx].reserved)
  }

  predicate FrozenAndFree(s: Store, r: nat, reserved: set<nat>) {
    r in s.recipients && s.recipients[r].outbox.Some? && s.recipients[r].contact !in reserved
  }

  lemma CalmUnfrozen(s: Store, t: Store, c: nat)
    requires Calm(s, t) && UnfrozenAt(s, c)
    ensures UnfrozenAt(t, c)
  {
  }

  lemma FreezeUnfrozen(s: Store, r: nat, o: nat, at: int, c: nat)
    requires UnfrozenAt(s, c) && CanQueue(s, r)
    ensures UnfrozenAt(FreezeRow(s, r, o, at), c)
  {
  }

  lemma CommitUnfrozen(s: Store, d: nat, chosen: set<nat>, reserved: set<nat>, slots: map<nat, int>, c: nat)
    requires UnfrozenAt(s, c) && OwnChosen(s, d, chosen)
    ensures UnfrozenAt(CommitStart(s, d, chosen, reserved, slots), c)
      <==> !(d == c && exists r :: r in chosen && FrozenAndFree(s, r, reserved))
  {
    var t := CommitStart(s, d, chosen, reserved, slots);
    assert forall r :: r in s.recipients ==>
      && t.recipients[r].campaign == s.recipients[r].campaign && t.recipients[r].outbox == s.recipients[r].outbox
      && (r in chosen && s.recipients[r].contact !in reserved ==> t.recipients[r].status == Scheduled)
      && (!(r in chosen && s.recipients[r].contact !in reserved) && t.recipients[r].status == Scheduled ==>
            s.recipients[r].status == Scheduled);
    assert forall k :: StatusIs(t, k, Draft) ==> StatusIs(s, k, Draft);
    hide CommitStart;
    if d == c {
      if r :| r in chosen && FrozenAndFree(s, r, reserved) {
        assert t.recipients[r].campaign == c && t.recipients[r].status == Scheduled && t.recipients[r].outbox.Some?;
      }
    }
  }

  /** One step lets a recipient of the campaign be due with its key taken exactly when it commits a start
      that schedules a recipient already frozen. */
  lemma UnfrozenExactly(w: World, step: Step, c: nat)
    requires Linked(w) && Enabled(w, step) && UnfrozenAt(w.store, c)
    ensures UnfrozenAt(Apply(w, step).store, c) <==> !ReschedulesFrozen(w, step, c)
  {
    hide UnfrozenAt, Calm, SameLinks, CommitStart, FreezeRow, FrozenAndFree;
    var s := w.store;
    match step {
      case CommitTx(tx, slots) =>
        assert OwnChosen(s, w.starts[tx].campaign, w.starts[tx].chosen);
        CommitUnfrozen(s, w.starts[tx].campaign, w.starts[tx].chosen, w.starts[tx].reserved, slots, c);
      case Freeze(r, o, at) => FreezeUnfrozen(s, r, o, at, c);
      case _ =>
        CalmStep(w, step);
        CalmUnfrozen(s, Apply(w, step).store, c);
    }
  }

  /** The unique business key blocks the dispatch of a due recipient exactly when it has an outbox row. */
  lemma DispatchIsNeverBlocked(w: World, r: nat)
    requires Linked(w) && CanQueue(w.store, r)
    ensures KeyFree(w.store, r) <==> w.store.recipients[r].outbox.None?
    ensures UnfrozenAt(w.store, w.store.recipients[r].campaign) ==> KeyFree(w.store, r)
  {
    var row := w.store.recipients[r];
    forall o | o in w.store.outboxes && w.store.outboxes[o].recipient == r
      ensures row.outbox == Some(o)
    {
    }
    if row.outbox.Some? {
      assert w.store.outboxes[row.outbox.value].recipient == r;
    }
  }

  ghost predicate NoneRescheduledAlong(w: World, steps: seq<Step>, c: nat)
    decreases |steps|
  {
    steps == []
    || (Enabled(w, steps[0]) && !ReschedulesFrozen(w, steps[0], c)
      && NoneRescheduledAlong(Apply(w, steps[0]), steps[1..], c))
  }

  ghost predicate UnfrozenAlong(w: World, steps: seq<Step>, c: nat)
    decreases |steps|
  {
    UnfrozenAt(w.store, c)
    && (steps == [] || (Enabled(w, steps[0]) && UnfrozenAlong(Apply(w, steps[0]), steps[1..], c)))
  }

  /** Along a run no due recipient of the campaign ever finds its key taken exactly when no start of it
      schedules a frozen recipient. */
  lemma {:induction false} KeysStayFree(w: World, steps: seq<Step>, end: World, c: nat)
    requires Linked(w) && UnfrozenAt(w.store, c) && Run(w, steps, end)
    ensures UnfrozenAlong(w, steps, c) <==> NoneRescheduledAlong(w, steps, c)
    decreases |steps|
  {
    hide Apply, Enabled, Linked, UnfrozenAt, ReschedulesFrozen;
    if steps != [] {
      StepKeepsLinks(w, steps[0]);
      UnfrozenExactly(w, steps[0], c);
      if !ReschedulesFrozen(w, steps[0], c) {
        KeysStayFree(Apply(w, steps[0]), steps[1..], end, c);
      }
    }
  }

  // ----- What one sync settles -----

  /** The outbox row, if any, was neither delivered nor stopped for anything but a pause. */
  predicate Unreported(s: Store, o: Option<nat>) {
    o.Some? && o.value in s.outboxes ==>
      s.outboxes[o.value].status != Delivered
      && (s.outboxes[o.value].status == Stopped ==> s.outboxes[o.value].note == CampaignPaused)
  }

  /** After a sync no queued recipient has a reported row left, every running campaign still waits for somebody,
      and a campaign it completed waits for nobody. */
  lemma SyncSettles(s: Store, r: nat, c: nat)
    ensures var t := SyncRows(s);
      && (r in t.recipients && t.recipients[r].status == Queued ==> Unreported(t, t.recipients[r].outbox))
      && (StatusIs(t, c, Running) ==> !NothingWaiting(t.recipients, c))
      && (StatusIs(s, c, Running) && StatusIs(t, c, Completed) ==> NothingWaiting(t.recipients, c))
  {
  }

  /** A second sync with no delivery in between changes nothing. */
  lemma SyncIsIdempotent(s: Store)
    ensures SyncRows(SyncRows(s)) == SyncRows(s)
  {
    var t := SyncRows(s);
    forall r | r in t.recipients ensures SyncedRecipient(t, t.recipients[r]) == t.recipients[r] {
      assert t.recipients[r] == SyncedRecipient(s, s.recipients[r]);
    }
    assert SyncRecipients(t) == t.recipients;
    hide SyncedRecipient, NothingWaiting;
  }
}
