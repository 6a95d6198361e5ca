/** Exactly when two running or paused campaigns come to hold one contact, whatever a selection did during
    a start and whatever was taken between its locks and its commit. */
module CampaignContacts {
  import opened Campaigns
  import opened CampaignExclusivity
  import opened CampaignLifecycle

  /** A recipient the commit leaves selected: read or not, and not excluded as reserved. */
  predicate LeftSelected(s: Store, start: Start, q: nat)
    requires start.Locked?
  {
    && q in s.recipients && s.recipients[q].campaign == start.campaign && s.recipients[q].selected
    && !(q in start.chosen && s.recipients[q].contact in start.reserved)
  }

  predicate HeldElsewhere(s: Store, c: nat, r: nat) {
    HoldsContact(s, r) && s.recipients[r].campaign != c
  }

  /** One of them has a contact that another running or paused campaign holds at this moment. */
  ghost predicate Shares(s: Store, start: Start)
    requires start.Locked?
  {
    exists q, r :: LeftSelected(s, start, q) && HeldElsewhere(s, start.campaign, r)
      && s.recipients[q].contact == s.recipients[r].contact
  }

  /** In the columns of the rows: two selected recipients with one contact, in campaigns that run or pause, belong to
      the same campaign. */
  lemma ExclusiveExactly(s: Store)
    ensures ContactExclusive(s) <==>
      forall q, r :: Occupies(s, q) && Occupies(s, r) && s.recipients[q].contact == s.recipients[r].contact ==>
        s.recipients[q].campaign == s.recipients[r].campaign
  {
    assert forall r :: Occupies(s, r) <==> HoldsContact(s, r);
  }

  predicate Occupies(s: Store, r: nat) {
    && r in s.recipients && s.recipients[r].selected
    && (StatusIs(s, s.recipients[r].campaign, Running) || StatusIs(s, s.recipients[r].campaign, Paused))
  }

  lemma CommittedHolds(s: Store, start: Start, slots: map<nat, int>, r: nat)
    requires start.Locked? && start.campaign in s.campaigns
    requires forall q :: q in start.chosen ==> q in s.recipients && s.recipients[q].campaign == start.campaign
    ensures var t := Committed(s, start, slots);
      && (r in t.recipients <==> r in s.recipients)
      && (r in s.recipients ==>
            t.recipients[r].campaign == s.recipients[r].campaign && t.recipients[r].contact == s.recipients[r].contact)
      && (HoldsContact(t, r) <==> LeftSelected(s, start, r) || HeldElsewhere(s, start.campaign, r))
  {
  }

  /** A commit keeps contacts exclusive exactly when it shares none. */
  lemma CommitExclusiveExactly(s: Store, start: Start, slots: map<nat, int>)
    requires start.Locked? && ContactExclusive(s) && start.campaign in s.campaigns
    requires forall r :: r in start.chosen ==> r in s.recipients && s.recipients[r].campaign == start.campaign
    ensures ContactExclusive(Committed(s, start, slots)) <==> !Shares(s, start)
  {
    var t := Committed(s, start, slots);
    forall r
      ensures r in t.recipients <==> r in s.recipients
      ensures r in s.recipients ==>
        t.recipients[r].campaign == s.recipients[r].campaign && t.recipients[r].contact == s.recipients[r].contact
      ensures HoldsContact(t, r) <==> LeftSelected(s, start, r) || HeldElsewhere(s, start.campaign, r)
    {
      CommittedHolds(s, start, slots, r);
    }
    hide Committed;
    if Shares(s, start) {
      var q, r :| LeftSelected(s, start, q) && HeldElsewhere(s, start.campaign, r)
        && s.recipients[q].contact == s.recipients[r].contact;
      assert HoldsContact(t, q) && HoldsContact(t, r);
    }
  }

  /** Covered and still free, as every start is in a safe world, means nothing is shared. */
  lemma CoveredSharesNothing(s: Store, start: Start)
    requires start.Locked? && Covered(s, start) && StillFree(s, start)
    ensures !Shares(s, start)
  {
    forall q, r | LeftSelected(s, start, q) && HeldElsewhere(s, start.campaign, r)
      ensures s.recipients[q].contact != s.recipients[r].contact
    {
      assert q in start.chosen;
      assert s.recipients[q].contact in ContactsOf(s, start.chosen);
    }
  }

  // ----- Steps and runs -----

  /** The step commits a start that shares a contact. */
  ghost predicate SharingCommit(w: World, step: Step) {
    step.CommitTx? && step.tx in w.starts && w.starts[step.tx].Locked? && Shares(w.store, w.starts[step.tx])
  }

  lemma CalmKeepsExclusive(s: Store, t: Store)
    requires SameLinks(s, t) && Calm(s, t) && ContactExclusive(s)
    ensures ContactExclusive(t)
  {
  }

  lemma FreezeKeepsExclusive(s: Store, r: nat, o: nat, at: int)
    requires CanQueue(s, r) && ContactExclusive(s)
    ensures ContactExclusive(FreezeRow(s, r, o, at))
  {
    var t := FreezeRow(s, r, o, at);
    assert forall q :: HoldsContact(t, q) ==>
      HoldsContact(s, q) && t.recipients[q].contact == s.recipients[q].contact
      && t.recipients[q].campaign == s.recipients[q].campaign;
  }

  /** Whatever selections, starts and stale reads came before: a step makes two campaigns share a contact exactly
      when it is such a commit. */
  lemma ContactsStayExactly(w: World, step: Step)
    requires Linked(w) && Enabled(w, step) && ContactExclusive(w.store)
    ensures ContactExclusive(Apply(w, step).store) <==> !SharingCommit(w, step)
  {
    var s := w.store;
    hide WellFormed, ContactExclusive, CommitStart, FreezeRow, SameLinks, Calm, Shares;
    match step {
      case CommitTx(tx, slots) =>
        assert forall r :: r in w.starts[tx].chosen ==>
          r in s.recipients && s.recipients[r].campaign == w.starts[tx].campaign;
        CommitExclusiveExactly(s, w.starts[tx], slots);
      case Freeze(r, o, at) => FreezeKeepsExclusive(s, r, o, at);
      case _ =>
        CalmStep(w, step);
        CalmKeepsExclusive(s, Apply(w, step).store);
    }
  }

  ghost predicate NoSharingAlong(w: World, steps: seq<Step>)
    decreases |steps|
  {
    steps == []
    || (Enabled(w, steps[0]) && !SharingCommit(w, steps[0]) && NoSharingAlong(Apply(w, steps[0]), steps[1..]))
  }

  ghost predicate ExclusiveAlong(w: World, steps: seq<Step>)
    decreases |steps|
  {
    ContactExclusive(w.store)
    && (steps == [] || (Enabled(w, steps[0]) && ExclusiveAlong(Apply(w, steps[0]), steps[1..])))
  }

  /** Along any run at most one running or paused campaign holds a contact at every moment, exactly when no
      start commits while it shares one. */
  lemma {:induction false} ContactsStayExclusive(w: World, steps: seq<Step>, end: World)
    requires Linked(w) && ContactExclusive(w.store) && Run(w, steps, end)
    ensures ExclusiveAlong(w, steps) <==> NoSharingAlong(w, steps)
    ensures NoSharingAlong(w, steps) ==> ContactExclusive(end.store)
    decreases |steps|
  {
    hide Enabled, Apply, Linked, ContactExclusive, SharingCommit;
    if steps != [] {
      ContactsStayExactly(w, steps[0]);
      StepKeepsLinks(w, steps[0]);
      if !SharingCommit(w, steps[0]) {
        ContactsStayExclusive(Apply(w, steps[0]), steps[1..], end);
      } else {
        assert !ExclusiveAlong(Apply(w, steps[0]), steps[1..]);
      }
    }
  }
}
