/** No contact is held by two running or paused campaigns, in every interleaving of starts. */
module CampaignExclusivity {
  import opened Campaigns

  /** At most one running or paused campaign holds a contact as a selected recipient. */
  ghost predicate ContactExclusive(s: Store) {
    forall q, r :: HoldsContact(s, q) && HoldsContact(s, r) && s.recipients[q].contact == s.recipients[r].contact ==>
      s.recipients[q].campaign == s.recipients[r].campaign
  }

  /** In a draft, every selected recipient is one a start would read. */
  ghost predicate DraftsReadable(s: Store) {
    forall r :: r in s.recipients && s.recipients[r].selected && StatusIs(s, s.recipients[r].campaign, Draft) ==>
      s.recipients[r].eligible && (s.recipients[r].status == Candidate || s.recipients[r].status == Selected)
  }

  /** A start in flight has read every selected recipient of its campaign, and only its own. */
  ghost predicate SelectionCovered(w: World) {
    forall tx :: tx in w.starts ==> Covered(w.store, w.starts[tx])
  }

  ghost predicate Covered(s: Store, start: Start) {
    && (forall r :: r in s.recipients && s.recipients[r].campaign == start.campaign && s.recipients[r].selected ==>
          r in start.chosen)
    && (forall r :: r in start.chosen ==> r in s.recipients && s.recipients[r].campaign == start.campaign)
  }

  /** What a locked start found free is still free: nobody else can take it without the lock. */
  ghost predicate LockedStillFree(w: World) {
    forall tx :: tx in w.starts && w.starts[tx].Locked? ==> StillFree(w.store, w.starts[tx])
  }

  ghost predicate StillFree(s: Store, start: Start)
    requires start.Locked?
  {
    forall r ::
      (HoldsContact(s, r) && s.recipients[r].campaign != start.campaign
       && s.recipients[r].contact in ContactsOf(s, start.chosen)) ==> s.recipients[r].contact in start.reserved
  }

  ghost predicate LocksDisjoint(w: World) {
    forall tx, u :: tx in w.starts && u in w.starts && tx != u && w.starts[tx].Locked? && w.starts[u].Locked? ==>
      ContactsOf(w.store, w.starts[tx].chosen) !! ContactsOf(w.store, w.starts[u].chosen)
  }

  ghost predicate Safe(w: World) {
    && ContactExclusive(w.store) && DraftsReadable(w.store) && WellFormed(w.store)
    && SelectionCovered(w) && LockedStillFree(w) && LocksDisjoint(w)
  }

  /** Selection does not touch a campaign while a start of it is in flight. */
  ghost predicate SelectionAtRest(w: World, step: Step) {
    step.Select? ==> forall tx :: tx in w.starts ==> w.starts[tx].campaign != step.campaign
  }

  /** Two stores that agree on campaigns' reservations and on who holds what. */
  ghost predicate HoldsNoMore(s: Store, t: Store) {
    && s.recipients.Keys == t.recipients.Keys
    && (forall r :: r in t.recipients ==>
          && t.recipients[r].campaign == s.recipients[r].campaign
          && t.recipients[r].contact == s.recipients[r].contact
          && (t.recipients[r].selected ==> s.recipients[r].selected))
    && (forall r :: HoldsContact(t, r) ==> HoldsContact(s, r))
    && (forall r :: r in t.recipients && t.recipients[r].selected && StatusIs(t, t.recipients[r].campaign, Draft) ==>
          && StatusIs(s, s.recipients[r].campaign, Draft)
          && t.recipients[r].eligible == s.recipients[r].eligible && t.recipients[r].status == s.recipients[r].status)
  }

  lemma SameContacts(s: Store, t: Store, rows: set<nat>)
    requires s.recipients.Keys == t.recipients.Keys
    requires forall r :: r in t.recipients ==> t.recipients[r].contact == s.recipients[r].contact
    ensures ContactsOf(s, rows) == ContactsOf(t, rows)
  {
    forall x
      ensures x in ContactsOf(s, rows) <==> x in ContactsOf(t, rows)
    {
      if r :| r in rows && r in s.recipients && s.recipients[r].contact == x { assert t.recipients[r].contact == x; }
    }
  }

  /** Anything that gives no campaign a new hold keeps the whole invariant. */
  lemma HoldingNoMoreIsSafe(w: World, t: Store)
    requires Safe(w) && HoldsNoMore(w.store, t) && WellFormed(t)
    ensures Safe(w.(store := t))
  {
    var s := w.store;
    forall tx | tx in w.starts
      ensures ContactsOf(s, w.starts[tx].chosen) == ContactsOf(t, w.starts[tx].chosen)
      ensures Covered(t, w.starts[tx])
    {
      SameContacts(s, t, w.starts[tx].chosen);
      assert Covered(s, w.starts[tx]);
    }
    forall tx | tx in w.starts && w.starts[tx].Locked?
      ensures StillFree(t, w.starts[tx])
    {
      assert StillFree(s, w.starts[tx]);
    }
  }

  // ----- The steps -----

  ghost predicate Quiet(s: Store, t: Store) {
    SameLinks(s, t) && HoldsNoMore(s, t)
  }

  lemma PauseIsQuiet(s: Store, c: nat)
    requires WellFormed(s) && DraftsReadable(s) && StatusIs(s, c, Running)
    ensures Quiet(s, PauseRows(s, c))
  {
  }

  lemma ResumeIsQuiet(s: Store, c: nat, now: int)
    requires WellFormed(s) && StatusIs(s, c, Paused)
    ensures Quiet(s, ResumeRows(s, c, now))
  {
  }

  lemma CancelIsQuiet(s: Store, c: nat)
    requires WellFormed(s) && DraftsReadable(s) && c in s.campaigns
    ensures Quiet(s, CancelRows(s, c))
  {
  }

  lemma SkipIsQuiet(s: Store, r: nat)
    requires WellFormed(s) && r in s.recipients && StatusIs(s, s.recipients[r].campaign, Running)
    ensures Quiet(s, SkipRow(s, r))
  {
  }

  lemma SyncFacts(s: Store)
    ensures var t := SyncRows(s);
      && t.recipients.Keys == s.recipients.Keys && t.campaigns.Keys == s.campaigns.Keys && t.outboxes == s.outboxes
      && (forall r :: r in t.recipients ==>
            && t.recipients[r] == s.recipients[r].(status := t.recipients[r].status)
            && (s.recipients[r].status != Queued ==> t.recipients[r] == s.recipients[r]))
      && (forall c :: c in t.campaigns ==>
            t.campaigns[c] == s.campaigns[c] || (s.campaigns[c] == Running && t.campaigns[c] == Completed))
  {
    hide NothingWaiting;
  }

  lemma SyncIsQuiet(s: Store)
    requires WellFormed(s) && DraftsReadable(s)
    ensures Quiet(s, SyncRows(s))
  {
    SyncFacts(s);
    hide SyncRows;
  }

  lemma ReplyIsQuiet(s: Store, r: nat)
    requires WellFormed(s) && DraftsReadable(s) && r in s.recipients
    requires s.recipients[r].status == Queued || s.recipients[r].status == Sent
    ensures Quiet(s, ReplyRows(s, r))
  {
  }

  lemma FreezeHoldsNoMore(s: Store, r: nat, o: nat, at: int)
    requires WellFormed(s) && CanQueue(s, r) && o !in s.outboxes
    ensures HoldsNoMore(s, FreezeRow(s, r, o, at))
  {
  }

  predicate IsQuietStep(step: Step) {
    !step.Select? && !step.ReadStart? && !step.LockStart? && !step.CommitTx? && !step.AbandonTx?
  }

  /** Pause, resume, cancel, completion, dispatch, replies and deliveries take no contact. */
  lemma QuietStepIsSafe(w: World, step: Step)
    requires Safe(w) && Enabled(w, step) && IsQuietStep(step)
    ensures Safe(Apply(w, step))
  {
    hide SelectionCovered, LockedStillFree, LocksDisjoint, ContactExclusive, PauseRows, ResumeRows, CancelRows,
      SyncRows,
      ReplyRows, SkipRow, FreezeRow, HoldsNoMore, SameLinks, WellFormed, DraftsReadable;
    var s := w.store;
    var t := Apply(w, step).store;
    match step {
      case Pause(c) => PauseIsQuiet(s, c);
      case Resume(c, now) => ResumeIsQuiet(s, c, now);
      case Cancel(c) => CancelIsQuiet(s, c);
      case Freeze(r, o, at) => FreezeHoldsNoMore(s, r, o, at); FreezeKeepsLinks(s, r, o, at);
      case SkipScheduled(r) => SkipIsQuiet(s, r);
      case GuardSkip(r) => SkipIsQuiet(s, r);
      case Sync => SyncIsQuiet(s);
      case Reply(r) => ReplyIsQuiet(s, r);
      case Deliver(o, status, note) => DeliverIsQuiet(s, o, status, note);
    }
    if !step.Freeze? { SameLinksWellFormed(s, t); }
    HoldingNoMoreIsSafe(w, t);
    assert Apply(w, step) == w.(store := t);
  }

  lemma DeliverIsQuiet(s: Store, o: nat, status: DeliveryStatus, note: Note)
    requires WellFormed(s) && o in s.outboxes
    ensures Quiet(s, s.(outboxes := s.outboxes[o := s.outboxes[o].(status := status, note := note)]))
  {
  }

  lemma SelectIsSafe(w: World, c: nat, rows: set<nat>, on: bool)
    requires Safe(w) && CanSelect(w.store, c, rows, on)
    requires forall tx :: tx in w.starts ==> w.starts[tx].campaign != c
    ensures Safe(w.(store := SelectRows(w.store, c, rows, on)))
  {
    var s, t := w.store, SelectRows(w.store, c, rows, on);
    assert SameLinks(s, t);
    SameLinksWellFormed(s, t);
    assert forall r :: HoldsContact(t, r) <==> HoldsContact(s, r);
    forall tx | tx in w.starts
      ensures Covered(t, w.starts[tx]) && ContactsOf(s, w.starts[tx].chosen) == ContactsOf(t, w.starts[tx].chosen)
    {
      assert Covered(s, w.starts[tx]);
      SameContacts(s, t, w.starts[tx].chosen);
    }
    forall tx | tx in w.starts && w.starts[tx].Locked?
      ensures StillFree(t, w.starts[tx])
    {
      assert StillFree(s, w.starts[tx]);
    }
  }

  lemma ReadIsSafe(w: World, tx: nat, c: nat)
    requires Safe(w) && tx !in w.starts && StatusIs(w.store, c, Draft)
    ensures Safe(w.(starts := w.starts[tx := Reading(c, Selectable(w.store, c))]))
  {
  }

  lemma LockIsSafe(w: World, tx: nat)
    requires Safe(w) && tx in w.starts && w.starts[tx].Reading?
    requires LocksFree(w, tx, ContactsOf(w.store, w.starts[tx].chosen))
    ensures var start := w.starts[tx];
      Safe(w.(starts := w.starts[tx := Locked(start.campaign, start.chosen,
        ReservedContacts(w.store, start.campaign, ContactsOf(w.store, start.chosen)))]))
  {
  }

  lemma AbandonIsSafe(w: World, tx: nat)
    requires Safe(w)
    ensures Safe(w.(starts := w.starts - {tx}))
  {
  }

  /** After its commit a campaign holds only contacts the start had locked and found free. */
  lemma CommitHolds(s: Store, start: Start, slots: map<nat, int>, r: nat)
    requires start.Locked? && Covered(s, start) && start.campaign in s.campaigns
    requires HoldsContact(CommitStart(s, start.campaign, start.chosen, start.reserved, slots), r)
    ensures r in s.recipients
    ensures if s.recipients[r].campaign == start.campaign
      then s.recipients[r].contact in ContactsOf(s, start.chosen) && s.recipients[r].contact !in start.reserved
      else HoldsContact(s, r)
  {
    assert s.recipients[r].campaign == start.campaign ==> r in start.chosen;
  }

  function Committed(s: Store, start: Start, slots: map<nat, int>): Store
    requires start.Locked?
  {
    CommitStart(s, start.campaign, start.chosen, start.reserved, slots)
  }

  lemma CommitKeepsLinks(s: Store, start: Start, slots: map<nat, int>)
    requires start.Locked? && start.campaign in s.campaigns
    ensures SameLinks(s, Committed(s, start, slots))
  {
  }

  lemma CommitKeepsDrafts(s: Store, start: Start, slots: map<nat, int>)
    requires start.Locked? && DraftsReadable(s) && Covered(s, start)
    ensures DraftsReadable(Committed(s, start, slots))
  {
    var t := Committed(s, start, slots);
    assert forall r :: r in s.recipients && r !in start.chosen ==> t.recipients[r] == s.recipients[r];
    assert forall r :: r in start.chosen ==> s.recipients[r].campaign == start.campaign;
  }

  lemma CommitIsExclusive(s: Store, start: Start, slots: map<nat, int>)
    requires start.Locked? && ContactExclusive(s) && start.campaign in s.campaigns
    requires Covered(s, start) && StillFree(s, start)
    ensures ContactExclusive(Committed(s, start, slots))
  {
    var t := Committed(s, start, slots);
    forall q, r | HoldsContact(t, q) && HoldsContact(t, r) && t.recipients[q].contact == t.recipients[r].contact
      ensures t.recipients[q].campaign == t.recipients[r].campaign
    {
      CommitHolds(s, start, slots, q);
      CommitHolds(s, start, slots, r);
    }
  }

  /** Another start in flight keeps what it read and, if locked, what it found. */
  lemma CommitSparesOthers(s: Store, start: Start, slots: map<nat, int>, other: Start)
    requires start.Locked? && start.campaign in s.campaigns && Covered(s, start) && Covered(s, other)
    requires other.Locked? ==> StillFree(s, other) && ContactsOf(s, start.chosen) !! ContactsOf(s, other.chosen)
    ensures Covered(Committed(s, start, slots), other)
    ensures ContactsOf(s, other.chosen) == ContactsOf(Committed(s, start, slots), other.chosen)
    ensures other.Locked? ==> StillFree(Committed(s, start, slots), other)
  {
    var t := Committed(s, start, slots);
    SameContacts(s, t, other.chosen);
    if other.Locked? {
      forall r | HoldsContact(t, r) && t.recipients[r].campaign != other.campaign
          && t.recipients[r].contact in ContactsOf(t, other.chosen)
        ensures t.recipients[r].contact in other.reserved
      {
        CommitHolds(s, start, slots, r);
      }
    }
  }

  lemma CommitIsSafe(w: World, tx: nat, slots: map<nat, int>)
    requires Safe(w) && tx in w.starts && w.starts[tx].Locked? && w.starts[tx].campaign in w.store.campaigns
    ensures Safe(World(Committed(w.store, w.starts[tx], slots), w.starts - {tx}))
  {
    var start := w.starts[tx];
    var s, t := w.store, Committed(w.store, start, slots);
    hide Committed, WellFormed, DraftsReadable, ContactExclusive, Covered, StillFree, ContactsOf, SameLinks;
    assert Covered(s, start) && StillFree(s, start);
    CommitKeepsLinks(s, start, slots);
    CommitKeepsDrafts(s, start, slots);
    SameLinksWellFormed(s, t);
    CommitIsExclusive(s, start, slots);
    forall u | u in w.starts && u != tx
      ensures Covered(t, w.starts[u]) && ContactsOf(s, w.starts[u].chosen) == ContactsOf(t, w.starts[u].chosen)
      ensures w.starts[u].Locked? ==> StillFree(t, w.starts[u])
    {
      CommitSparesOthers(s, start, slots, w.starts[u]);
    }
  }

  lemma StepIsSafe(w: World, step: Step)
    requires Safe(w) && Enabled(w, step) && SelectionAtRest(w, step)
    ensures Safe(Apply(w, step))
  {
    hide Safe;
    match step {
      case Select(c, rows, on) => SelectIsSafe(w, c, rows, on);
      case ReadStart(tx, c) => ReadIsSafe(w, tx, c);
      case LockStart(tx) => LockIsSafe(w, tx);
      case CommitTx(tx, slots) => CommitIsSafe(w, tx, slots);
      case AbandonTx(tx) => AbandonIsSafe(w, tx);
      case _ => QuietStepIsSafe(w, step);
    }
  }

  ghost predicate RunAtRest(w: World, steps: seq<Step>, end: World)
    decreases |steps|
  {
    if steps == [] then w == end
    else Enabled(w, steps[0]) && SelectionAtRest(w, steps[0]) && RunAtRest(Apply(w, steps[0]), steps[1..], end)
  }

  /** In every interleaving of starts, pauses, cancellations, dispatch, replies and deliveries,
      no contact is selected in two running or paused campaigns. */
  lemma {:induction false} RunsKeepContactsExclusive(w: World, steps: seq<Step>, end: World)
    requires Safe(w) && RunAtRest(w, steps, end)
    ensures Safe(end) && ContactExclusive(end.store)
    decreases |steps|
  {
    if steps != [] {
      StepIsSafe(w, steps[0]);
      RunsKeepContactsExclusive(Apply(w, steps[0]), steps[1..], end);
    }
  }
}
