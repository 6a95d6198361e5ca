/** The campaign operations as the source runs them: row by row over mutable tables. */
module CampaignTables {
  import opened Options
  import opened CampaignEffects
  import opened Campaigns

  // ----- One row at a time -----

  lemma SameTargets(s: Store, t: Store, c: nat)
    requires t == s.(campaigns := t.campaigns)
    ensures PauseTargets(t, c) == PauseTargets(s, c) && ResumeTargets(t, c) == ResumeTargets(s, c)
  {
  }

  lemma TargetsAreOwned(s: Store, c: nat)
    requires WellFormed(s)
    ensures forall o :: o in PauseTargets(s, c) || o in ResumeTargets(s, c) ==>
      o in s.outboxes && s.outboxes[o].recipient in s.recipients
  {
  }

  lemma StopNone(s: Store)
    ensures StopRows(s, {}) == s
  {
  }

  lemma StopOneMore(s: Store, done: set<nat>, o: nat)
    requires WellFormed(s) && o in s.outboxes && o !in done
    ensures var t, r := StopRows(s, done), s.outboxes[o].recipient;
      && t.outboxes.Keys == s.outboxes.Keys && t.outboxes[o] == s.outboxes[o] && r in t.recipients
      && StopRows(s, done + {o}) == t.(
           outboxes := t.outboxes[o := t.outboxes[o].(status := Stopped, note := CampaignPaused)],
           recipients := t.recipients[r := t.recipients[r].(status := Queued)])
  {
  }

  lemma RearmNone(s: Store, now: int)
    ensures RearmRows(s, {}, now) == s
  {
  }

  lemma RearmOneMore(s: Store, done: set<nat>, o: nat, now: int)
    requires WellFormed(s) && o in s.outboxes && o !in done
    ensures var t, r := RearmRows(s, done, now), s.outboxes[o].recipient;
      && t.outboxes.Keys == s.outboxes.Keys && t.outboxes[o] == s.outboxes[o] && r in t.recipients
      && RearmRows(s, done + {o}, now) == t.(outboxes := t.outboxes[o :=
           t.outboxes[o].(status := Pending, note := NoNote, availableAt := Later(now, t.recipients[r].scheduledFor))])
  {
  }

  lemma DropNone(s: Store)
    ensures DropRows(s, {}) == s
  {
  }

  lemma DropOneRecipient(s: Store, done: set<nat>, r: nat)
    requires r in s.recipients && r !in done
    ensures var t := DropRows(s, done);
      && t.recipients.Keys == s.recipients.Keys && t.recipients[r] == s.recipients[r]
        && t.outboxes.Keys == s.outboxes.Keys
      && DropRows(s, done + {r}).recipients == t.recipients[r := t.recipients[r].(status := Skipped)]
      && DropRows(s, done + {r}).campaigns == t.campaigns
  {
  }

  /** Of the outbox rows only the recipient's own can change. */
  lemma DropOneOutbox(s: Store, done: set<nat>, r: nat)
    requires WellFormed(s) && r in s.recipients && r !in done
    ensures var t, o := DropRows(s, done), s.recipients[r].outbox;
      DropRows(s, done + {r}).outboxes == if o.Some? && o.value in t.outboxes && Stoppable(t.outboxes[o.value])
        then t.outboxes[o.value := t.outboxes[o.value].(status := Stopped, note := CampaignCancelled)] else t.outboxes
  {
    var t, next := DropRows(s, done).outboxes, DropRows(s, done + {r}).outboxes;
    forall o | o in s.outboxes && s.recipients[r].outbox != Some(o) ensures next[o] == t[o] {
      assert s.outboxes[o].recipient != r;
    }
  }

  lemma DropOneMore(s: Store, done: set<nat>, r: nat)
    requires WellFormed(s) && r in s.recipients && r !in done
    ensures var t := DropRows(s, done);
      && t.recipients.Keys == s.recipients.Keys && t.recipients[r] == s.recipients[r]
        && t.outboxes.Keys == s.outboxes.Keys
      && var o := t.recipients[r].outbox;
      DropRows(s, done + {r}) == t.(
        recipients := t.recipients[r := t.recipients[r].(status := Skipped)],
        outboxes := if o.Some? && o.value in t.outboxes && Stoppable(t.outboxes[o.value])
          then t.outboxes[o.value := t.outboxes[o.value].(status := Stopped, note := CampaignCancelled)]
            else t.outboxes)
  {
    hide DropRows, WellFormed, Stoppable;
    DropOneRecipient(s, done, r);
    DropOneOutbox(s, done, r);
  }

  class CampaignTables {
    var campaigns: map<nat, CampaignStatus>
    var recipients: map<nat, Recipient>
    var outboxes: map<nat, Outbox>

    function Rows(): Store
      reads this
    {
      Store(campaigns, recipients, outboxes)
    }

    constructor ()
      ensures Rows() == Store(map[], map[], map[])
    {
      campaigns, recipients, outboxes := map[], map[], map[];
    }

    /** `None` stands for the rejected call; otherwise the number of stopped rows. */
    method PauseCampaign(c: nat) returns (stopped: Option<nat>)
      requires WellFormed(Rows()) && c in campaigns
      modifies this
      ensures old(campaigns[c]) != Running ==> stopped == None && Rows() == old(Rows())
      ensures old(campaigns[c]) == Running ==>
        stopped == Some(|PauseTargets(old(Rows()), c)|) && Rows() == PauseRows(old(Rows()), c)
      ensures old(campaigns[c]) == Running ==> Pauses(old(Rows()), Rows(), c)
    {
      hide WellFormed, StopRows, PauseTargets, Pauses;
      PausePauses(Rows(), c);
      TargetsAreOwned(Rows(), c);
      if campaigns[c] != Running {
        return None;
      }
      ghost var s := Rows();
      campaigns := campaigns[c := Paused];
      var rows := PauseTargets(Rows(), c);
      SameTargets(s, Rows(), c);
      var pending := rows;
      assert rows - pending == {};
      StopNone(s);
      while pending != {}
        invariant pending <= rows
        invariant Rows() == StopRows(s, rows - pending).(campaigns := s.campaigns[c := Paused])
        decreases pending
      {
        var o :| o in pending;
        StopOneMore(s, rows - pending, o);
        assert rows - (pending - {o}) == rows - pending + {o};
        var r := outboxes[o].recipient;
        pending := pending - {o};
        outboxes := outboxes[o := outboxes[o].(status := Stopped, note := CampaignPaused)];
        recipients := recipients[r := recipients[r].(status := Queued)];
      }
      assert rows - {} == rows;
      stopped := Some(|rows|);
    }

    method ResumeCampaign(c: nat, now: int) returns (restored: Option<nat>)
      requires WellFormed(Rows()) && c in campaigns
      modifies this
      ensures old(campaigns[c]) != Paused ==> restored == None && Rows() == old(Rows())
      ensures old(campaigns[c]) == Paused ==>
        restored == Some(|ResumeTargets(old(Rows()), c)|) && Rows() == ResumeRows(old(Rows()), c, now)
      ensures old(campaigns[c]) == Paused ==> Resumes(old(Rows()), Rows(), c, now)
    {
      hide WellFormed, RearmRows, ResumeTargets, Resumes;
      ResumeResumes(Rows(), c, now);
      TargetsAreOwned(Rows(), c);
      if campaigns[c] != Paused {
        return None;
      }
      ghost var s := Rows();
      campaigns := campaigns[c := Running];
      var rows := ResumeTargets(Rows(), c);
      SameTargets(s, Rows(), c);
      var pending := rows;
      assert rows - pending == {};
      RearmNone(s, now);
      while pending != {}
        invariant pending <= rows
        invariant Rows() == RearmRows(s, rows - pending, now).(campaigns := s.campaigns[c := Running])
        decreases pending
      {
        var o :| o in pending;
        RearmOneMore(s, rows - pending, o, now);
        assert rows - (pending - {o}) == rows - pending + {o};
        pending := pending - {o};
        var slot := recipients[outboxes[o].recipient].scheduledFor;
        outboxes := outboxes[o := outboxes[o].(status := Pending, note := NoNote, availableAt := Later(now, slot))];
      }
      assert rows - {} == rows;
      restored := Some(|rows|);
    }

    method CancelCampaign(c: nat) returns (skipped: nat)
      requires WellFormed(Rows()) && c in campaigns
      modifies this
      ensures Closed(old(campaigns[c])) ==> skipped == 0 && Rows() == old(Rows())
      ensures !Closed(old(campaigns[c])) ==>
        skipped == |CancelTargets(old(Rows()), c)| && Rows() == CancelRows(old(Rows()), c)
      ensures !Closed(old(campaigns[c])) ==> Cancels(old(Rows()), Rows(), c)
    {
      hide WellFormed, DropRows, Cancels;
      CancelCancels(Rows(), c);
      if Closed(campaigns[c]) {
        return 0;
      }
      ghost var s := Rows();
      campaigns := campaigns[c := Cancelled];
      var rows := CancelTargets(Rows(), c);
      assert rows == CancelTargets(s, c);
      var pending := rows;
      assert rows - pending == {};
      DropNone(s);
      while pending != {}
        invariant pending <= rows
        invariant Rows() == DropRows(s, rows - pending).(campaigns := s.campaigns[c := Cancelled])
        decreases pending
      {
        var r :| r in pending;
        DropOneMore(s, rows - pending, r);
        assert rows - (pending - {r}) == rows - pending + {r};
        pending := pending - {r};
        if recipients[r].outbox.Some? {
          var o := recipients[r].outbox.value;
          if o in outboxes && Stoppable(outboxes[o]) {
            outboxes := outboxes[o := outboxes[o].(status := Stopped, note := CampaignCancelled)];
          }
        }
        recipients := recipients[r := recipients[r].(status := Skipped)];
      }
      assert rows - {} == rows;
      skipped := |rows|;
    }

    /** The commit of a start that already holds its locks; `false` stands for the rejected call. */
    method CommitStartedCampaign(c: nat, chosen: set<nat>, reserved: set<nat>, slots: map<nat, int>) returns (ok: bool)
      requires c in campaigns && chosen <= recipients.Keys
      modifies this
      ensures ok <==> CanCommitStart(old(Rows()), c, chosen, reserved)
      ensures Rows() == if ok then CommitStart(old(Rows()), c, chosen, reserved, slots) else old(Rows())
      ensures ok ==> Starts(old(Rows()), Rows(), c, chosen, reserved, slots)
    {
      hide Starts;
      CommitStarts(Rows(), c, chosen, reserved, slots);
      var available := set r | r in chosen && recipients[r].contact !in reserved;
      if available == {} {
        assert forall r :: r in chosen ==> r !in available;
        return false;
      }
      ghost var s := Rows();
      assert exists r :: r in chosen && r in recipients && recipients[r].contact !in reserved by {
        var r :| r in available;
      }
      var pending := chosen;
      while pending != {}
        invariant pending <= chosen && campaigns == s.campaigns && outboxes == s.outboxes
        invariant recipients.Keys == s.recipients.Keys
        invariant forall r :: r in recipients ==>
          recipients[r] == if r in pending then s.recipients[r]
            else StartedRow(s.recipients[r], r, chosen, reserved, slots)
        decreases pending
      {
        var r :| r in pending;
        pending := pending - {r};
        if recipients[r].contact in reserved {
          recipients := recipients[r := recipients[r].(status := Excluded, eligible := false, selected := false,
            scheduledFor := None)];
        } else {
          var slot := if r in slots then Some(slots[r]) else None;
          recipients := recipients[r := recipients[r].(status := Scheduled, scheduledFor := slot)];
        }
      }
      campaigns := campaigns[c := Running];
      ok := true;
      assert recipients == CommitStart(s, c, chosen, reserved, slots).recipients;
    }

    method SyncRecipientRows() returns (changed: bool)
      modifies this`recipients
      ensures recipients == SyncRecipients(old(Rows()))
      ensures !changed ==> recipients == old(recipients)
    {
      ghost var s := Rows();
      changed := false;
      var pending := set r | r in recipients && recipients[r].status == Queued;
      while pending != {}
        invariant pending <= recipients.Keys && recipients.Keys == s.recipients.Keys
        invariant forall r :: r in pending ==> s.recipients[r].status == Queued
        invariant forall r :: r in recipients ==>
          recipients[r] == if r in pending then s.recipients[r] else SyncedRecipient(s, s.recipients[r])
        invariant !changed ==> recipients == s.recipients
        decreases pending
      {
        var r :| r in pending;
        pending := pending - {r};
        if recipients[r].outbox.Some? && recipients[r].outbox.value in outboxes {
          var outbox := outboxes[recipients[r].outbox.value];
          if outbox.status == Delivered {
            recipients, changed := recipients[r := recipients[r].(status := Sent)], true;
          } else if outbox.status == Stopped && outbox.note != CampaignPaused {
            recipients, changed := recipients[r := recipients[r].(status := Skipped)], true;
          }
        }
      }
      assert recipients == SyncRecipients(s);
    }

    method SyncDeliveryStates() returns (changed: bool)
      modifies this
      ensures Rows() == SyncRows(old(Rows())) && Syncs(old(Rows()), Rows())
      ensures !changed ==> Rows() == old(Rows())
    {
      hide SyncRecipients, SyncedRecipient, Syncs;
      SyncSyncs(Rows());
      ghost var s := Rows();
      changed := SyncRecipientRows();
      var running := set c | c in campaigns && campaigns[c] == Running;
      while running != {}
        invariant running <= campaigns.Keys && campaigns.Keys == s.campaigns.Keys
        invariant recipients == SyncRecipients(s) && outboxes == s.outboxes
        invariant forall c :: c in running ==> s.campaigns[c] == Running
        invariant forall c :: c in campaigns ==>
          campaigns[c] == if c in running then s.campaigns[c] else SyncRows(s).campaigns[c]
        invariant !changed ==> Rows() == s
        decreases running
      {
        var c :| c in running;
        running := running - {c};
        if NothingWaiting(recipients, c) {
          campaigns, changed := campaigns[c := Completed], true;
        }
      }
      assert Rows() == SyncRows(s);
    }
  }
}
