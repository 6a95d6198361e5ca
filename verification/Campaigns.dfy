/** Reactivation campaigns of `app/reactivation.py`: campaign, recipient and outbox rows, with
    starts split at their read, their row locks and their commit. */
module Campaigns {

  import opened Options

  datatype CampaignStatus = Draft | Running | Paused | Completed | Cancelled

  datatype RecipientStatus = Candidate | Selected | Scheduled | Queued | Sent | Replied | Skipped | Excluded

  datatype DeliveryStatus = Pending | Claimed | Delivered | Failed | Unknown | Stopped

  /** Why an outbox row was last stopped. */
  datatype Note = NoNote | CampaignPaused | CampaignCancelled | CustomerReplied | OtherNote

  datatype Recipient = Recipient(
    campaign: nat, contact: nat, status: RecipientStatus, eligible: bool, selected: bool,
    outbox: Option<nat>, scheduledFor: Option<int>)

  /** `recipient` is the business key, which is unique among outbox rows. */
  datatype Outbox = Outbox(recipient: nat, status: DeliveryStatus, note: Note, availableAt: int)

  datatype Store = Store(
    campaigns: map<nat, CampaignStatus>, recipients: map<nat, Recipient>, outboxes: map<nat, Outbox>)

  predicate Reserving(status: CampaignStatus) {
    status == Running || status == Paused
  }

  predicate Closed(status: CampaignStatus) {
    status == Completed || status == Cancelled
  }

  predicate Waiting(status: RecipientStatus) {
    status == Scheduled || status == Queued
  }

  /** Foreign keys hold, and an outbox row and its recipient name each other. */
  ghost predicate WellFormed(s: Store) {
    && (forall r :: r in s.recipients ==> s.recipients[r].campaign in s.campaigns)
    && (forall r :: r in s.recipients && s.recipients[r].outbox.Some? ==>
          s.recipients[r].outbox.value in s.outboxes && s.outboxes[s.recipients[r].outbox.value].recipient == r)
    && (forall o :: o in s.outboxes ==>
          s.outboxes[o].recipient in s.recipients && s.recipients[s.outboxes[o].recipient].outbox == Some(o))
    && (forall q, r ::
          (q in s.recipients && r in s.recipients && q != r && s.recipients[q].campaign == s.recipients[r].campaign) ==>
          s.recipients[q].contact != s.recipients[r].contact)
  }

  predicate StatusIs(s: Store, c: nat, status: CampaignStatus) {
    c in s.campaigns && s.campaigns[c] == status
  }

  // ----- Selection -----

  predicate CanSelect(s: Store, c: nat, rows: set<nat>, on: bool) {
    && StatusIs(s, c, Draft)
    && (forall r :: r in rows ==>
          r in s.recipients && s.recipients[r].campaign == c && (on ==> s.recipients[r].eligible))
  }

  function SelectRows(s: Store, c: nat, rows: set<nat>, on: bool): Store {
    s.(recipients := map r | r in s.recipients ::
      if r in rows then s.recipients[r].(selected := on, status := if on then Selected else Candidate)
      else s.recipients[r])
  }

  // ----- Start -----

  /** The recipients a start reads. */
  function Selectable(s: Store, c: nat): set<nat> {
    set r | r in s.recipients && s.recipients[r].campaign == c && s.recipients[r].eligible && s.recipients[r].selected
      && (s.recipients[r].status == Candidate || s.recipients[r].status == Selected)
  }

  function ContactsOf(s: Store, rows: set<nat>): set<nat> {
    set r | r in rows && r in s.recipients :: s.recipients[r].contact
  }

  /** Contacts held as selected recipients by some other running or paused campaign. */
  function ReservedContacts(s: Store, c: nat, contacts: set<nat>): set<nat> {
    set r | r in s.recipients && HoldsContact(s, r) && s.recipients[r].campaign != c
      && s.recipients[r].contact in contacts :: s.recipients[r].contact
  }

  predicate HoldsContact(s: Store, r: nat) {
    r in s.recipients && s.recipients[r].selected && s.recipients[r].campaign in s.campaigns
    && Reserving(s.campaigns[s.recipients[r].campaign])
  }

  predicate CanCommitStart(s: Store, c: nat, chosen: set<nat>, reserved: set<nat>) {
    c in s.campaigns
    && exists r :: r in chosen && r in s.recipients && s.recipients[r].contact !in reserved
  }

  function StartedRow(row: Recipient, r: nat, chosen: set<nat>, reserved: set<nat>, slots: map<nat, int>): Recipient {
    if r !in chosen then row
    else if row.contact in reserved
      then row.(status := Excluded, eligible := false, selected := false, scheduledFor := None)
    else row.(status := Scheduled, scheduledFor := if r in slots then Some(slots[r]) else None)
  }

  function CommitStart(s: Store, c: nat, chosen: set<nat>, reserved: set<nat>, slots: map<nat, int>): Store {
    s.(campaigns := s.campaigns[c := Running],
       recipients := map r | r in s.recipients :: StartedRow(s.recipients[r], r, chosen, reserved, slots))
  }

  // ----- Pause, resume, cancel -----

  predicate Stoppable(o: Outbox) {
    o.status == Pending || o.status == Failed
  }

  predicate StoppedByPause(o: Outbox) {
    o.status == Stopped && o.note == CampaignPaused
  }

  /** Outbox rows of campaign `c`. */
  predicate BelongsTo(s: Store, o: nat, c: nat) {
    o in s.outboxes && s.outboxes[o].recipient in s.recipients
    && s.recipients[s.outboxes[o].recipient].campaign == c
    && s.recipients[s.outboxes[o].recipient].outbox == Some(o)
  }

  function PauseTargets(s: Store, c: nat): set<nat> {
    set o | o in s.outboxes && BelongsTo(s, o, c) && Stoppable(s.outboxes[o])
  }

  function ResumeTargets(s: Store, c: nat): set<nat> {
    set o | o in s.outboxes && BelongsTo(s, o, c) && StoppedByPause(s.outboxes[o])
  }

  function Owner(s: Store, o: nat): nat
    requires o in s.outboxes
  {
    s.outboxes[o].recipient
  }

  /** Stops the given outbox rows and queues their recipients again. */
  function StopRows(s: Store, rows: set<nat>): Store {
    s.(recipients := map r | r in s.recipients ::
         if s.recipients[r].outbox.Some? && s.recipients[r].outbox.value in rows then s.recipients[r].(status := Queued)
         else s.recipients[r],
       outboxes := map o | o in s.outboxes ::
         if o in rows then s.outboxes[o].(status := Stopped, note := CampaignPaused) else s.outboxes[o])
  }

  function PauseRows(s: Store, c: nat): Store {
    StopRows(s, PauseTargets(s, c)).(campaigns := s.campaigns[c := Paused])
  }

  function Later(now: int, scheduled: Option<int>): int {
    if scheduled.Some? && scheduled.value > now then scheduled.value else now
  }

  function RearmRows(s: Store, rows: set<nat>, now: int): Store {
    s.(outboxes := map o | o in s.outboxes ::
         if o in rows && Owner(s, o) in s.recipients then
           s.outboxes[o].(status := Pending, note := NoNote,
             availableAt := Later(now, s.recipients[Owner(s, o)].scheduledFor))
         else s.outboxes[o])
  }

  function ResumeRows(s: Store, c: nat, now: int): Store {
    RearmRows(s, ResumeTargets(s, c), now).(campaigns := s.campaigns[c := Running])
  }

  function CancelTargets(s: Store, c: nat): set<nat> {
    set r | r in s.recipients && s.recipients[r].campaign == c && Waiting(s.recipients[r].status)
  }

  /** Skips the given recipients and stops what they have pending. */
  function DropRows(s: Store, rows: set<nat>): Store {
    s.(recipients := map r | r in s.recipients ::
         if r in rows then s.recipients[r].(status := Skipped) else s.recipients[r],
       outboxes := map o | o in s.outboxes ::
         if s.outboxes[o].recipient in rows && Stoppable(s.outboxes[o]) then
           s.outboxes[o].(status := Stopped, note := CampaignCancelled)
         else s.outboxes[o])
  }

  function CancelRows(s: Store, c: nat): Store {
    DropRows(s, CancelTargets(s, c)).(campaigns := s.campaigns[c := Cancelled])
  }

  // ----- Dispatch -----

  predicate CanQueue(s: Store, r: nat) {
    && r in s.recipients && s.recipients[r].status == Scheduled && s.recipients[r].selected
    && StatusIs(s, s.recipients[r].campaign, Running)
  }

  /** The business key admits one outbox row per recipient. */
  predicate KeyFree(s: Store, r: nat) {
    forall o :: o in s.outboxes ==> s.outboxes[o].recipient != r
  }

  function FreezeRow(s: Store, r: nat, o: nat, at: int): Store
    requires r in s.recipients
  {
    s.(recipients := s.recipients[r := s.recipients[r].(status := Queued, outbox := Some(o))],
       outboxes := s.outboxes[o := Outbox(r, Pending, NoNote, at)])
  }

  function SkipRow(s: Store, r: nat): Store
    requires r in s.recipients
  {
    s.(recipients := s.recipients[r := s.recipients[r].(status := Skipped)])
  }

  // ----- Delivery sync -----

  /** What one sync makes of a recipient. */
  function SyncedRecipient(s: Store, row: Recipient): Recipient {
    if row.status != Queued || row.outbox.None? || row.outbox.value !in s.outboxes then row
    else
      var outbox := s.outboxes[row.outbox.value];
      if outbox.status == Delivered then row.(status := Sent)
      else if outbox.status == Stopped && outbox.note != CampaignPaused then row.(status := Skipped)
      else row
  }

  function SyncRecipients(s: Store): map<nat, Recipient> {
    map r | r in s.recipients :: SyncedRecipient(s, s.recipients[r])
  }

  predicate NothingWaiting(recipients: map<nat, Recipient>, c: nat) {
    forall r :: r in recipients && recipients[r].campaign == c && recipients[r].selected ==>
      !Waiting(recipients[r].status)
  }

  function SyncRows(s: Store): Store {
    var synced := SyncRecipients(s);
    s.(recipients := synced,
       campaigns := map c | c in s.campaigns ::
         if s.campaigns[c] == Running && NothingWaiting(synced, c) then Completed else s.campaigns[c])
  }

  // ----- Replies -----

  /** A reply marks one sent recipient and stops every other waiting row of the contact. */
  function ReplyRows(s: Store, r: nat): Store
    requires r in s.recipients
  {
    var others := set q | q in s.recipients && q != r && s.recipients[q].contact == s.recipients[r].contact
      && Waiting(s.recipients[q].status);
    s.(recipients := map q | q in s.recipients ::
         if q == r then s.recipients[q].(status := Replied)
         else if q in others then s.recipients[q].(status := Skipped)
         else s.recipients[q],
       outboxes := map o | o in s.outboxes ::
         if s.outboxes[o].recipient in others && Stoppable(s.outboxes[o]) then
           s.outboxes[o].(status := Stopped, note := CustomerReplied)
         else s.outboxes[o])
  }

  // ----- Worlds and steps -----

  /** A start in flight: what it read and, once it holds its row locks, what it found reserved. */
  datatype Start =
    | Reading(campaign: nat, chosen: set<nat>)
    | Locked(campaign: nat, chosen: set<nat>, reserved: set<nat>)

  datatype World = World(store: Store, starts: map<nat, Start>)

  datatype Step =
    | Select(campaign: nat, rows: set<nat>, on: bool)
    | ReadStart(tx: nat, campaign: nat)
    | LockStart(tx: nat)
    | CommitTx(tx: nat, slots: map<nat, int>)
    | AbandonTx(tx: nat)
    | Pause(campaign: nat)
    | Resume(campaign: nat, now: int)
    | Cancel(campaign: nat)
    | Freeze(recipient: nat, outbox: nat, at: int)
    | SkipScheduled(recipient: nat)
    | GuardSkip(recipient: nat)
    | Sync
    | Reply(recipient: nat)
    | Deliver(outbox: nat, status: DeliveryStatus, note: Note)

  /** Row locks: two starts that hold their locks share no contact. */
  predicate LocksFree(w: World, tx: nat, contacts: set<nat>) {
    forall u :: u in w.starts && u != tx && w.starts[u].Locked? ==> ContactsOf(w.store, w.starts[u].chosen) !! contacts
  }

  predicate Enabled(w: World, step: Step) {
    var s := w.store;
    match step
    case Select(c, rows, on) => CanSelect(s, c, rows, on)
    case ReadStart(tx, c) => tx !in w.starts && StatusIs(s, c, Draft) && Selectable(s, c) != {}
    case LockStart(tx) =>
      tx in w.starts && w.starts[tx].Reading? && LocksFree(w, tx, ContactsOf(s, w.starts[tx].chosen))
    case CommitTx(tx, slots) =>
      tx in w.starts && w.starts[tx].Locked?
      && CanCommitStart(s, w.starts[tx].campaign, w.starts[tx].chosen, w.starts[tx].reserved)
    case AbandonTx(tx) => tx in w.starts
    case Pause(c) => StatusIs(s, c, Running)
    case Resume(c, now) => StatusIs(s, c, Paused)
    case Cancel(c) => c in s.campaigns && !Closed(s.campaigns[c])
    case Freeze(r, o, at) => CanQueue(s, r) && KeyFree(s, r) && o !in s.outboxes
    case SkipScheduled(r) => CanQueue(s, r)
    case GuardSkip(r) =>
      r in s.recipients && s.recipients[r].status == Queued && s.recipients[r].selected
      && StatusIs(s, s.recipients[r].campaign, Running)
    case Sync => true
    case Reply(r) => r in s.recipients && (s.recipients[r].status == Queued || s.recipients[r].status == Sent)
    case Deliver(o, status, note) =>
      o in s.outboxes && s.outboxes[o].status != Stopped && (status == Stopped ==> note == OtherNote)
  }

  function Apply(w: World, step: Step): World
    requires Enabled(w, step)
  {
    var s := w.store;
    match step
    case Select(c, rows, on) => w.(store := SelectRows(s, c, rows, on))
    case ReadStart(tx, c) => w.(starts := w.starts[tx := Reading(c, Selectable(s, c))])
    case LockStart(tx) =>
      var start := w.starts[tx];
      w.(starts := w.starts[tx := Locked(start.campaign, start.chosen,
        ReservedContacts(s, start.campaign, ContactsOf(s, start.chosen)))])
    case CommitTx(tx, slots) =>
      var start := w.starts[tx];
      World(CommitStart(s, start.campaign, start.chosen, start.reserved, slots), w.starts - {tx})
    case AbandonTx(tx) => w.(starts := w.starts - {tx})
    case Pause(c) => w.(store := PauseRows(s, c))
    case Resume(c, now) => w.(store := ResumeRows(s, c, now))
    case Cancel(c) => w.(store := CancelRows(s, c))
    case Freeze(r, o, at) => w.(store := FreezeRow(s, r, o, at))
    case SkipScheduled(r) => w.(store := SkipRow(s, r))
    case GuardSkip(r) => w.(store := SkipRow(s, r))
    case Sync => w.(store := SyncRows(s))
    case Reply(r) => w.(store := ReplyRows(s, r))
    case Deliver(o, status, note) =>
      w.(store := s.(outboxes := s.outboxes[o := s.outboxes[o].(status := status, note := note)]))
  }

  ghost predicate Run(w: World, steps: seq<Step>, end: World)
    decreases |steps|
  {
    if steps == [] then w == end
    else Enabled(w, steps[0]) && Run(Apply(w, steps[0]), steps[1..], end)
  }

  // ----- Every step keeps keys and links -----

  /** A store whose rows keep campaign, contact, outbox and owner is as well formed as before. */
  ghost predicate SameLinks(s: Store, t: Store) {
    && s.campaigns.Keys == t.campaigns.Keys && s.recipients.Keys == t.recipients.Keys
      && s.outboxes.Keys == t.outboxes.Keys
    && (forall r :: r in t.recipients ==>
          && t.recipients[r].campaign == s.recipients[r].campaign && t.recipients[r].contact == s.recipients[r].contact
          && t.recipients[r].outbox == s.recipients[r].outbox)
    && (forall o :: o in t.outboxes ==> t.outboxes[o].recipient == s.outboxes[o].recipient)
  }

  lemma SameLinksWellFormed(s: Store, t: Store)
    requires WellFormed(s) && SameLinks(s, t)
    ensures WellFormed(t)
  {
  }

  lemma FreezeKeepsLinks(s: Store, r: nat, o: nat, at: int)
    requires WellFormed(s) && r in s.recipients && KeyFree(s, r) && o !in s.outboxes
    ensures WellFormed(FreezeRow(s, r, o, at))
  {
    assert s.recipients[r].outbox.None?;
  }
}
