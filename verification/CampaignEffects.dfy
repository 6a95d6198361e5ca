/** What each campaign operation does to the rows, column by column. */
module CampaignEffects {
  import opened Options
  import opened Campaigns

  ghost predicate SameRows(s: Store, t: Store) {
    s.recipients.Keys == t.recipients.Keys && s.outboxes.Keys == t.outboxes.Keys
  }

  /** The outbox row was written for a recipient of the campaign. */
  predicate RowOf(s: Store, o: nat, c: nat) {
    o in s.outboxes && s.outboxes[o].recipient in s.recipients && s.recipients[s.outboxes[o].recipient].campaign == c
  }

  predicate HasRow(s: Store, r: nat) {
    r in s.recipients && s.recipients[r].outbox.Some? && s.recipients[r].outbox.value in s.outboxes
  }

  function RowStatus(s: Store, r: nat): DeliveryStatus
    requires HasRow(s, r)
  {
    s.outboxes[s.recipients[r].outbox.value].status
  }

  function RowNote(s: Store, r: nat): Note
    requires HasRow(s, r)
  {
    s.outboxes[s.recipients[r].outbox.value].note
  }

  // ----- Pause, resume, cancel -----

  /** Rows still to be sent or failed are stopped, and their recipients queued. */
  ghost predicate Pauses(s: Store, t: Store, c: nat) {
    && SameRows(s, t) && t.campaigns == s.campaigns[c := Paused]
    && (forall o :: o in s.outboxes ==>
          t.outboxes[o] == if RowOf(s, o, c) && (s.outboxes[o].status == Pending || s.outboxes[o].status == Failed)
          then s.outboxes[o].(status := Stopped, note := CampaignPaused) else s.outboxes[o])
    && (forall r :: r in s.recipients ==>
          t.recipients[r] ==
          if s.recipients[r].campaign == c && HasRow(s, r) && (RowStatus(s, r) == Pending || RowStatus(s, r) == Failed)
          then s.recipients[r].(status := Queued) else s.recipients[r])
  }

  lemma PausePauses(s: Store, c: nat)
    requires WellFormed(s)
    ensures Pauses(s, PauseRows(s, c), c)
  {
  }

  /** The later of now and the recipient's slot. */
  ghost predicate IsDue(at: int, now: int, slot: Option<int>) {
    at >= now && (slot.Some? ==> at >= slot.value) && (at == now || slot == Some(at))
  }

  /** Rows a pause stopped go out again, none before its slot. */
  ghost predicate Resumes(s: Store, t: Store, c: nat, now: int) {
    && SameRows(s, t) && t.campaigns == s.campaigns[c := Running] && t.recipients == s.recipients
    && (forall o :: o in s.outboxes ==>
          if RowOf(s, o, c) && s.outboxes[o].status == Stopped && s.outboxes[o].note == CampaignPaused
          then
            t.outboxes[o] == s.outboxes[o].(status := Pending, note := NoNote, availableAt := t.outboxes[o].availableAt)
            && IsDue(t.outboxes[o].availableAt, now, s.recipients[s.outboxes[o].recipient].scheduledFor)
          else t.outboxes[o] == s.outboxes[o])
  }

  lemma ResumeResumes(s: Store, c: nat, now: int)
    requires WellFormed(s)
    ensures Resumes(s, ResumeRows(s, c, now), c, now)
  {
  }

  /** Scheduled and queued recipients are skipped, and what they have pending or failed is stopped. */
  ghost predicate Cancels(s: Store, t: Store, c: nat) {
    && SameRows(s, t) && t.campaigns == s.campaigns[c := Cancelled]
    && (forall r :: r in s.recipients ==>
          t.recipients[r] == if s.recipients[r].campaign == c
            && (s.recipients[r].status == Scheduled || s.recipients[r].status == Queued)
          then s.recipients[r].(status := Skipped) else s.recipients[r])
    && (forall o :: o in s.outboxes ==>
          t.outboxes[o] == if RowOf(s, o, c) && (s.recipients[s.outboxes[o].recipient].status == Scheduled
                                || s.recipients[s.outboxes[o].recipient].status == Queued)
            && (s.outboxes[o].status == Pending || s.outboxes[o].status == Failed)
          then s.outboxes[o].(status := Stopped, note := CampaignCancelled) else s.outboxes[o])
  }

  lemma CancelCancels(s: Store, c: nat)
    ensures Cancels(s, CancelRows(s, c), c)
  {
  }

  // ----- Start -----

  /** What a start reads of its campaign. */
  ghost predicate Reads(s: Store, c: nat, chosen: set<nat>) {
    forall r :: r in chosen <==>
      r in s.recipients && s.recipients[r].campaign == c && s.recipients[r].eligible && s.recipients[r].selected
      && (s.recipients[r].status == Candidate || s.recipients[r].status == Selected)
  }

  /** What it finds taken: contacts of its recipients that are selected in another running or paused campaign. */
  ghost predicate Finds(s: Store, c: nat, chosen: set<nat>, reserved: set<nat>) {
    forall x :: x in reserved <==> Wanted(s, chosen, x) && TakenElsewhere(s, c, x)
  }

  ghost predicate Wanted(s: Store, chosen: set<nat>, contact: nat) {
    exists q :: q in chosen && q in s.recipients && s.recipients[q].contact == contact
  }

  ghost predicate TakenElsewhere(s: Store, c: nat, contact: nat) {
    exists r :: r in s.recipients && s.recipients[r].contact == contact && s.recipients[r].selected
      && s.recipients[r].campaign != c
      && (StatusIs(s, s.recipients[r].campaign, Running) || StatusIs(s, s.recipients[r].campaign, Paused))
  }

  lemma StartReads(s: Store, c: nat)
    ensures Reads(s, c, Selectable(s, c))
  {
  }

  lemma StartFinds(s: Store, c: nat, chosen: set<nat>)
    ensures Finds(s, c, chosen, ReservedContacts(s, c, ContactsOf(s, chosen)))
  {
    var contacts := ContactsOf(s, chosen);
    var reserved := ReservedContacts(s, c, contacts);
    forall x
      ensures x in contacts <==> Wanted(s, chosen, x)
      ensures x in reserved <==> x in contacts && TakenElsewhere(s, c, x)
    {
      if x in contacts && TakenElsewhere(s, c, x) {
        var r :| r in s.recipients && s.recipients[r].contact == x && s.recipients[r].selected
          && s.recipients[r].campaign != c
          && (StatusIs(s, s.recipients[r].campaign, Running) || StatusIs(s, s.recipients[r].campaign, Paused));
        assert HoldsContact(s, r);
      }
    }
  }

  /** Reserved recipients are excluded for good, the others scheduled, each at its slot. */
  ghost predicate Starts(s: Store, t: Store, c: nat, chosen: set<nat>, reserved: set<nat>, slots: map<nat, int>) {
    && SameRows(s, t) && t.campaigns == s.campaigns[c := Running] && t.outboxes == s.outboxes
    && (forall r :: r in s.recipients && r !in chosen ==> t.recipients[r] == s.recipients[r])
    && (forall r :: r in s.recipients && r in chosen && s.recipients[r].contact in reserved ==>
          t.recipients[r]
          == s.recipients[r].(status := Excluded, eligible := false, selected := false, scheduledFor := None))
    && (forall r :: r in s.recipients && r in chosen && s.recipients[r].contact !in reserved ==>
          t.recipients[r]
          == s.recipients[r].(status := Scheduled, scheduledFor := if r in slots then Some(slots[r]) else None))
  }

  lemma CommitStarts(s: Store, c: nat, chosen: set<nat>, reserved: set<nat>, slots: map<nat, int>)
    ensures Starts(s, CommitStart(s, c, chosen, reserved, slots), c, chosen, reserved, slots)
  {
  }

  // ----- Selection, dispatch, replies -----

  lemma SelectSelects(s: Store, c: nat, rows: set<nat>, on: bool)
    ensures var t := SelectRows(s, c, rows, on);
      && SameRows(s, t) && t.campaigns == s.campaigns && t.outboxes == s.outboxes
      && (forall r :: r in s.recipients && r !in rows ==> t.recipients[r] == s.recipients[r])
      && (forall r :: r in s.recipients && r in rows && on ==>
            t.recipients[r] == s.recipients[r].(selected := true, status := Selected))
      && (forall r :: r in s.recipients && r in rows && !on ==>
            t.recipients[r] == s.recipients[r].(selected := false, status := Candidate))
  {
  }

  /** A frozen recipient is queued with an outbox row of its own that waits to be sent. */
  lemma FreezeQueues(s: Store, r: nat, o: nat, at: int)
    requires r in s.recipients
    ensures var t := FreezeRow(s, r, o, at);
      && t.campaigns == s.campaigns
      && t.recipients.Keys == s.recipients.Keys && t.outboxes.Keys == s.outboxes.Keys + {o}
      && HasRow(t, r) && t.recipients[r].status == Queued && t.recipients[r].outbox == Some(o)
      && RowStatus(t, r) == Pending && t.outboxes[o].recipient == r && t.outboxes[o].availableAt == at
      && (forall q :: q in s.recipients && q != r ==> t.recipients[q] == s.recipients[q])
      && (forall p :: p in s.outboxes && p != o ==> t.outboxes[p] == s.outboxes[p])
  {
  }

  /** A reply closes its recipient and stops every other waiting recipient of the contact. */
  ghost predicate Replies(s: Store, t: Store, r: nat) {
    && SameRows(s, t) && t.campaigns == s.campaigns && r in s.recipients
    && (forall q :: q in s.recipients ==>
          t.recipients[q] == if q == r then s.recipients[q].(status := Replied)
          else if s.recipients[q].contact == s.recipients[r].contact
            && (s.recipients[q].status == Scheduled || s.recipients[q].status == Queued)
          then s.recipients[q].(status := Skipped) else s.recipients[q])
    && (forall o :: o in s.outboxes ==>
          t.outboxes[o] == if s.outboxes[o].recipient in s.recipients && s.outboxes[o].recipient != r
            && s.recipients[s.outboxes[o].recipient].contact == s.recipients[r].contact
            && (s.recipients[s.outboxes[o].recipient].status == Scheduled
                || s.recipients[s.outboxes[o].recipient].status == Queued)
            && (s.outboxes[o].status == Pending || s.outboxes[o].status == Failed)
          then s.outboxes[o].(status := Stopped, note := CustomerReplied) else s.outboxes[o])
  }

  lemma ReplyReplies(s: Store, r: nat)
    requires r in s.recipients
    ensures Replies(s, ReplyRows(s, r), r)
  {
  }

  // ----- Sync -----

  /** A queued recipient becomes sent exactly with its row, and is skipped exactly when its row was stopped for
      anything but a pause; no other recipient changes. */
  ghost predicate SyncsRow(s: Store, t: Store, r: nat)
    requires r in s.recipients && r in t.recipients
  {
    var queued := s.recipients[r].status == Queued;
    && t.recipients[r] == s.recipients[r].(status := t.recipients[r].status)
    && (queued ==> (t.recipients[r].status == Sent <==> HasRow(s, r) && RowStatus(s, r) == Delivered))
    && (queued ==> (t.recipients[r].status == Skipped <==>
          HasRow(s, r) && RowStatus(s, r) == Stopped && RowNote(s, r) != CampaignPaused))
    && (t.recipients[r].status != s.recipients[r].status ==>
          queued && (t.recipients[r].status == Sent || t.recipients[r].status == Skipped))
  }

  /** A selected recipient of the campaign that is still to be sent to. */
  ghost predicate Remains(t: Store, c: nat, r: nat) {
    r in t.recipients && t.recipients[r].campaign == c && t.recipients[r].selected
    && (t.recipients[r].status == Scheduled || t.recipients[r].status == Queued)
  }

  ghost predicate Syncs(s: Store, t: Store) {
    && SameRows(s, t) && t.outboxes == s.outboxes && t.campaigns.Keys == s.campaigns.Keys
    && (forall r :: r in s.recipients ==> SyncsRow(s, t, r))
    && (forall c :: c in s.campaigns ==>
          t.campaigns[c] ==
          if s.campaigns[c] == Running && !(exists r :: Remains(t, c, r)) then Completed else s.campaigns[c])
  }

  lemma SyncSyncs(s: Store)
    ensures Syncs(s, SyncRows(s))
  {
    var t := SyncRows(s);
    forall c | c in s.campaigns
      ensures NothingWaiting(t.recipients, c) <==> !(exists r :: Remains(t, c, r))
    {
      if !NothingWaiting(t.recipients, c) {
        var r :| r in t.recipients && t.recipients[r].campaign == c && t.recipients[r].selected
          && Waiting(t.recipients[r].status);
        assert Remains(t, c, r);
      }
    }
    assert t.recipients == SyncRecipients(s);
    hide NothingWaiting;
  }

  // ----- Who may do what -----

  /** A recipient that a running campaign is about to send to. */
  predicate IsNext(s: Store, r: nat) {
    && r in s.recipients && s.recipients[r].status == Scheduled && s.recipients[r].selected
    && StatusIs(s, s.recipients[r].campaign, Running)
  }

  /** Two recipients of two starts with one contact. */
  ghost predicate Collide(s: Store, one: set<nat>, other: set<nat>) {
    exists q, r :: q in one && r in other && q in s.recipients && r in s.recipients
      && s.recipients[q].contact == s.recipients[r].contact
  }

  /** When a step may happen, in the columns it reads: a selection and a start on a draft, a lock when no start that
      holds its locks has a contact of this one, a commit when somebody is free, a pause on a running and a resume
      on a paused campaign, a cancellation on an open one, a dispatch of a recipient without a row. */
  ghost predicate Allowed(w: World, step: Step) {
    var s := w.store;
    match step
    case Select(c, rows, on) =>
      StatusIs(s, c, Draft)
      && forall r :: r in rows ==>
           r in s.recipients && s.recipients[r].campaign == c && (on ==> s.recipients[r].eligible)
    case ReadStart(tx, c) => tx !in w.starts && StatusIs(s, c, Draft) && !Reads(s, c, {})
    case LockStart(tx) =>
      && tx in w.starts && w.starts[tx].Reading?
      && forall u :: u in w.starts && u != tx && w.starts[u].Locked? ==>
           !Collide(s, w.starts[u].chosen, w.starts[tx].chosen)
    case CommitTx(tx, _) =>
      && tx in w.starts && w.starts[tx].Locked? && w.starts[tx].campaign in s.campaigns
      && exists r ::
           r in w.starts[tx].chosen && r in s.recipients && s.recipients[r].contact !in w.starts[tx].reserved
    case AbandonTx(tx) => tx in w.starts
    case Pause(c) => StatusIs(s, c, Running)
    case Resume(c, _) => StatusIs(s, c, Paused)
    case Cancel(c) => StatusIs(s, c, Draft) || StatusIs(s, c, Running) || StatusIs(s, c, Paused)
    case Freeze(r, o, _) =>
      IsNext(s, r) && o !in s.outboxes && forall p :: p in s.outboxes ==> s.outboxes[p].recipient != r
    case SkipScheduled(r) => IsNext(s, r)
    case GuardSkip(r) =>
      && r in s.recipients && s.recipients[r].status == Queued && s.recipients[r].selected
      && StatusIs(s, s.recipients[r].campaign, Running)
    case Sync => true
    case Reply(r) => r in s.recipients && (s.recipients[r].status == Queued || s.recipients[r].status == Sent)
    case Deliver(o, status, note) =>
      o in s.outboxes && s.outboxes[o].status != Stopped && (status != Stopped || note == OtherNote)
  }

  lemma CollideExactly(s: Store, one: set<nat>, other: set<nat>)
    ensures Collide(s, one, other) <==> !(ContactsOf(s, one) !! ContactsOf(s, other))
  {
    if !(ContactsOf(s, one) !! ContactsOf(s, other)) {
      var x :| x in ContactsOf(s, one) && x in ContactsOf(s, other);
      var q :| q in one && q in s.recipients && s.recipients[q].contact == x;
      var r :| r in other && r in s.recipients && s.recipients[r].contact == x;
    }
    if Collide(s, one, other) {
      var q, r :| q in one && r in other && q in s.recipients && r in s.recipients
        && s.recipients[q].contact == s.recipients[r].contact;
      assert s.recipients[q].contact in ContactsOf(s, one) && s.recipients[q].contact in ContactsOf(s, other);
    }
  }

  lemma LocksExactly(w: World, tx: nat)
    requires tx in w.starts
    ensures LocksFree(w, tx, ContactsOf(w.store, w.starts[tx].chosen)) <==>
      forall u :: u in w.starts && u != tx && w.starts[u].Locked? ==>
        !Collide(w.store, w.starts[u].chosen, w.starts[tx].chosen)
  {
    forall u | u in w.starts {
      CollideExactly(w.store, w.starts[u].chosen, w.starts[tx].chosen);
    }
    hide Collide, ContactsOf;
  }

  lemma StepsAreAllowed(w: World, step: Step)
    ensures Enabled(w, step) <==> Allowed(w, step)
  {
    hide Collide, LocksFree;
    match step {
      case ReadStart(tx, c) =>
        StartReads(w.store, c);
        assert Reads(w.store, c, {}) <==> Selectable(w.store, c) == {};
      case LockStart(tx) =>
        if tx in w.starts { LocksExactly(w, tx); }
      case _ =>
    }
  }

  /** A skipped recipient is only skipped, and a delivery report only reports. */
  lemma OthersStay(w: World, step: Step)
    requires Enabled(w, step) && (step.SkipScheduled? || step.GuardSkip? || step.Deliver?)
    ensures var s, t := w.store, Apply(w, step).store;
      && SameRows(s, t) && t.campaigns == s.campaigns
      && (step.Deliver? ==>
            t.recipients == s.recipients
            && forall o :: o in s.outboxes ==>
                 t.outboxes[o] ==
                 if o == step.outbox then s.outboxes[o].(status := step.status, note := step.note) else s.outboxes[o])
      && (!step.Deliver? ==>
            t.outboxes == s.outboxes
            && forall r :: r in s.recipients ==>
                 t.recipients[r] ==
                 if r == step.recipient then s.recipients[r].(status := Skipped) else s.recipients[r])
  {
  }
}
