/** Reconciling twice is reconciling once: links, identities, reviews, statuses and activity
    dates are a fixpoint whenever the linking loop stops before its cap. */
module HistoryFixpoint {
  import opened Options
  import opened HistoryLinking

  /** Foreign keys of the stored rows. */
  ghost predicate KeysHold(known: Known, cases: map<nat, Case>, rows: seq<Email>) {
    forall k :: 0 <= k < |rows| ==> RowKeysHold(known, cases, rows[k])
  }

  ghost predicate RowKeysHold(known: Known, cases: map<nat, Case>, row: Email) {
    && (row.caseId.Some? ==> row.caseId.value in cases)
    && (row.contactId.Some? ==> row.contactId.value in known.contacts)
  }

  ghost predicate CasesKnown(known: Known, cases: map<nat, Case>) {
    forall c :: c in cases ==> cases[c].contactId in known.contacts
  }

  // ----- Links seen by a lookup -----

  /** Only non-empty message ids are ever looked up. */
  ghost predicate SameLookups(a: set<Link>, b: set<Link>) {
    forall l: Link :: l.0 != "" ==> (l in a <==> l in b)
  }

  lemma SameThreadCases(known: Known, a: set<Link>, b: set<Link>, row: Email)
    requires SameLookups(a, b)
    ensures ThreadCaseIds(known, a, row) == ThreadCaseIds(known, b, row)
  {
    forall l: Link | l.0 in ThreadIds(row)
      ensures l in a + known.outboxLinks <==> l in b + known.outboxLinks
    {
      assert l.0 != "";
    }
  }

  lemma SameProcessing(known: Known, cases: map<nat, Case>, a: set<Link>, b: set<Link>, row: Email)
    requires SameLookups(a, b)
    ensures ProcessRow(known, cases, a, row) == ProcessRow(known, cases, b, row)
    ensures FindCase(known, cases, a, row) == FindCase(known, cases, b, row)
  {
    SameThreadCases(known, a, b, row);
    SameThreadCases(known, a, b, WithContact(known, row));
  }

  // ----- One message -----

  lemma ContactSettles(known: Known, row: Email)
    ensures WithContact(known, WithContact(known, row)) == WithContact(known, row)
    ensures WithContact(known, row).caseId == row.caseId && WithContact(known, row).messageId == row.messageId
  {
  }

  /** A message that stays unlinked is settled: processing it again changes nothing. */
  lemma ProcessIsStable(known: Known, cases: map<nat, Case>, links: set<Link>, row: Email)
    requires !NewlyLinked(cases, row, ProcessRow(known, cases, links, row))
    ensures var after := ProcessRow(known, cases, links, row);
      ProcessRow(known, cases, links, after) == after && after.caseId == row.caseId && after.messageId == row.messageId
  {
    ContactSettles(known, row);
    hide WithContact, FindCase;
  }

  /** What processing one message keeps and establishes. */
  lemma ProcessKeepsCase(known: Known, cases: map<nat, Case>, links: set<Link>, row: Email)
    ensures var after := ProcessRow(known, cases, links, row);
      && IdentitiesMatch(cases, [after]) && OnlyLinksMore(cases, [row], [after])
      && (CasesKnown(known, cases) && RowKeysHold(known, cases, row) ==> RowKeysHold(known, cases, after))
  {
    ContactSettles(known, row);
    hide FindCase;
  }

  // ----- One round -----

  ghost predicate IdentitiesMatch(cases: map<nat, Case>, rows: seq<Email>) {
    forall k :: 0 <= k < |rows| && IsLinked(cases, rows[k]) ==>
      && rows[k].customerId == Some(cases[rows[k].caseId.value].customerId)
      && rows[k].contactId == Some(cases[rows[k].caseId.value].contactId)
  }

  /** `after` is `before` with some unlinked messages linked, never a linked one moved. */
  ghost predicate OnlyLinksMore(cases: map<nat, Case>, before: seq<Email>, after: seq<Email>) {
    && |before| == |after|
    && forall k :: 0 <= k < |before| ==>
         && after[k].id == before[k].id && after[k].messageId == before[k].messageId
         && after[k].direction == before[k].direction && after[k].receivedAt == before[k].receivedAt
         && (IsLinked(cases, before[k]) ==> after[k].caseId == before[k].caseId)
         && (!IsLinked(cases, after[k]) ==> after[k].caseId == before[k].caseId)
  }

  function Unlinked(cases: map<nat, Case>, rows: seq<Email>): nat {
    if rows == [] then 0
    else Unlinked(cases, rows[..|rows| - 1]) + (if IsLinked(cases, rows[|rows| - 1]) then 0 else 1)
  }

  lemma {:induction false} RoundKeepsCases(known: Known, cases: map<nat, Case>, links: set<Link>, rows: seq<Email>)
    requires CasesKnown(known, cases) && KeysHold(known, cases, rows)
    ensures var round := RunRound(known, cases, links, rows);
      && OnlyLinksMore(cases, rows, round.rows) && IdentitiesMatch(cases, round.rows)
      && KeysHold(known, cases, round.rows)
      && Unlinked(cases, round.rows) + round.changed == Unlinked(cases, rows)
  {
    hide RunRound, ProcessRow, KeysHold, OnlyLinksMore, IdentitiesMatch, Unlinked, RowKeysHold, CasesKnown;
    if rows == [] {
      RoundEmpty(known, cases, links);
      EmptyRound(known, cases);
    } else {
      var init, row := rows[..|rows| - 1], rows[|rows| - 1];
      KeysSplit(known, cases, rows);
      RoundSnoc(known, cases, links, init, row);
      RoundKeepsCases(known, cases, links, init);
      var round := RunRound(known, cases, links, init);
      ProcessKeepsCase(known, cases, round.links, row);
      RoundKeepsCasesStep(known, cases, round.rows, init, row, ProcessRow(known, cases, round.links, row));
      assert rows == init + [row];
    }
  }

  lemma KeysSplit(known: Known, cases: map<nat, Case>, rows: seq<Email>)
    requires KeysHold(known, cases, rows) && rows != []
    ensures KeysHold(known, cases, rows[..|rows| - 1]) && RowKeysHold(known, cases, rows[|rows| - 1])
  {
  }

  lemma EmptyRound(known: Known, cases: map<nat, Case>)
    ensures OnlyLinksMore(cases, [], []) && IdentitiesMatch(cases, []) && KeysHold(known, cases, [])
      && Unlinked(cases, []) == 0
  {
  }

  lemma RoundKeepsCasesStep(known: Known, cases: map<nat, Case>, done: seq<Email>, init: seq<Email>, row: Email,
      after: Email)
    requires OnlyLinksMore(cases, init, done) && IdentitiesMatch(cases, done) && KeysHold(known, cases, done)
    requires OnlyLinksMore(cases, [row], [after]) && IdentitiesMatch(cases, [after]) && RowKeysHold(known, cases, after)
    ensures OnlyLinksMore(cases, init + [row], done + [after]) && IdentitiesMatch(cases, done + [after])
    ensures KeysHold(known, cases, done + [after])
    ensures Unlinked(cases, done + [after]) == Unlinked(cases, done) + (if IsLinked(cases, after) then 0 else 1)
    ensures Unlinked(cases, init + [row]) == Unlinked(cases, init) + (if IsLinked(cases, row) then 0 else 1)
  {
    assert (done + [after])[..|done|] == done && (init + [row])[..|init|] == init;
    assert [row][0] == row && [after][0] == after;
  }

  lemma {:induction false} RoundCollectsLinks(known: Known, cases: map<nat, Case>, links: set<Link>, rows: seq<Email>)
    ensures var round := RunRound(known, cases, links, rows);
      SameLookups(round.links, links + RowLinks(round.rows))
  {
    if rows != [] {
      var init, row := rows[..|rows| - 1], rows[|rows| - 1];
      RoundCollectsLinks(known, cases, links, init);
      var round := RunRound(known, cases, links, init);
      var after := ProcessRow(known, cases, round.links, row);
      assert (round.rows + [after])[..|round.rows|] == round.rows;
      hide ProcessRow;
    }
  }

  lemma {:induction false} LinksOnlyGrow(cases: map<nat, Case>, before: seq<Email>, after: seq<Email>)
    requires OnlyLinksMore(cases, before, after)
    requires forall k :: 0 <= k < |before| && before[k].caseId.Some? ==> before[k].caseId.value in cases
    ensures RowLinks(before) <= RowLinks(after)
  {
    if before != [] {
      LinksOnlyGrow(cases, before[..|before| - 1], after[..|after| - 1]);
    }
  }

  /** The links a lookup sees after a round are those stored with the messages. */
  lemma RoundLinksAreStored(known: Known, cases: map<nat, Case>, links: set<Link>, rows: seq<Email>)
    requires CasesKnown(known, cases) && KeysHold(known, cases, rows)
    requires SameLookups(links, StoredLinks(known, rows))
    ensures var round := RunRound(known, cases, links, rows);
      SameLookups(round.links, StoredLinks(known, round.rows))
  {
    RoundCollectsLinks(known, cases, links, rows);
    RoundKeepsCases(known, cases, links, rows);
    assert forall k :: 0 <= k < |rows| ==> RowKeysHold(known, cases, rows[k]);
    LinksOnlyGrow(cases, rows, RunRound(known, cases, links, rows).rows);
    hide RunRound, RowLinks;
  }

  /** A round that links nothing is repeated without effect by any lookup-equal round. */
  lemma {:induction false} QuietRoundRepeats(known: Known, cases: map<nat, Case>, links: set<Link>, again: set<Link>,
      rows: seq<Email>)
    requires RunRound(known, cases, links, rows).changed == 0
    requires SameLookups(links, again)
    requires forall l: Link :: l in RowLinks(rows) && l.0 != "" ==> l in links
    ensures var round := RunRound(known, cases, links, rows);
      && SameLookups(round.links, links)
      && RowLinks(round.rows) == RowLinks(rows)
      && RunRound(known, cases, again, round.rows).rows == round.rows
      && RunRound(known, cases, again, round.rows).changed == 0
      && SameLookups(RunRound(known, cases, again, round.rows).links, again)
  {
    if rows != [] {
      var init, row := rows[..|rows| - 1], rows[|rows| - 1];
      QuietRoundRepeats(known, cases, links, again, init);
      var round := RunRound(known, cases, links, init);
      var after := ProcessRow(known, cases, round.links, row);
      assert (round.rows + [after])[..|round.rows|] == round.rows;
      ProcessIsStable(known, cases, round.links, row);
      var repeated := RunRound(known, cases, again, round.rows);
      SameProcessing(known, cases, round.links, repeated.links, after);
      assert OwnLink(after) == OwnLink(row);
      hide ProcessRow;
    }
  }

  // ----- All rounds -----

  /** The linking loop stopped because a round linked nothing. */
  ghost predicate StopsBeforeCap(known: Known, cases: map<nat, Case>, rows: seq<Email>) {
    LinkHistory(known, cases, rows).changed == 0
  }

  lemma {:induction false} RoundsKeepCases(known: Known, cases: map<nat, Case>, links: set<Link>, rows: seq<Email>,
      rounds: nat)
    requires CasesKnown(known, cases) && KeysHold(known, cases, rows)
    ensures var result := LinkRounds(known, cases, links, rows, rounds);
      && OnlyLinksMore(cases, rows, result.rows) && KeysHold(known, cases, result.rows)
      && (rounds > 0 ==> IdentitiesMatch(cases, result.rows))
    decreases rounds
  {
    hide RunRound, KeysHold, IdentitiesMatch, OnlyLinksMore, CasesKnown;
    OnlyLinksMoreReflexive(cases, rows);
    if rounds > 0 {
      RoundKeepsCases(known, cases, links, rows);
      var round := RunRound(known, cases, links, rows);
      if round.changed != 0 {
        RoundsKeepCases(known, cases, round.links, round.rows, rounds - 1);
        var rest := LinkRounds(known, cases, round.links, round.rows, rounds - 1);
        OnlyLinksMoreTransitive(cases, rows, round.rows, rest.rows);
      }
    }
  }

  lemma OnlyLinksMoreReflexive(cases: map<nat, Case>, rows: seq<Email>)
    ensures OnlyLinksMore(cases, rows, rows)
  {
  }

  lemma OnlyLinksMoreTransitive(cases: map<nat, Case>, a: seq<Email>, b: seq<Email>, c: seq<Email>)
    requires OnlyLinksMore(cases, a, b) && OnlyLinksMore(cases, b, c)
    ensures OnlyLinksMore(cases, a, c)
  {
  }

  /** Every round that does not end the loop shrinks the unlinked set, so fewer unlinked messages
      than rounds are enough to stop before the cap. */
  lemma {:induction false} FewUnlinkedStop(known: Known, cases: map<nat, Case>, links: set<Link>, rows: seq<Email>,
      rounds: nat)
    requires CasesKnown(known, cases) && KeysHold(known, cases, rows)
    requires Unlinked(cases, rows) < rounds
    ensures LinkRounds(known, cases, links, rows, rounds).changed == 0
    decreases rounds
  {
    hide RunRound, KeysHold, CasesKnown, OnlyLinksMore, IdentitiesMatch, Unlinked;
    RoundKeepsCases(known, cases, links, rows);
    var round := RunRound(known, cases, links, rows);
    if round.changed != 0 {
      FewUnlinkedStop(known, cases, round.links, round.rows, rounds - 1);
    }
  }

  /** When the loop stops on its own, its messages are a fixpoint of the next run. */
  lemma {:induction false} RoundsReachFixpoint(known: Known, cases: map<nat, Case>, links: set<Link>,
      rows: seq<Email>, rounds: nat)
    requires CasesKnown(known, cases) && KeysHold(known, cases, rows)
    requires SameLookups(links, StoredLinks(known, rows))
    requires LinkRounds(known, cases, links, rows, rounds).changed == 0
    ensures var settled := LinkRounds(known, cases, links, rows, rounds).rows;
      var again := RunRound(known, cases, StoredLinks(known, settled), settled);
      again.changed == 0 && again.rows == settled
    decreases rounds
  {
    hide RunRound, KeysHold, CasesKnown, SameLookups, StoredLinks;
    var round := RunRound(known, cases, links, rows);
    if round.changed == 0 {
      QuietRound(known, cases, links, rows);
    } else {
      RoundKeepsCases(known, cases, links, rows);
      RoundLinksAreStored(known, cases, links, rows);
      RoundsReachFixpoint(known, cases, round.links, round.rows, rounds - 1);
    }
  }

  lemma QuietRound(known: Known, cases: map<nat, Case>, links: set<Link>, rows: seq<Email>)
    requires SameLookups(links, StoredLinks(known, rows))
    requires RunRound(known, cases, links, rows).changed == 0
    ensures var settled := RunRound(known, cases, links, rows).rows;
      var again := RunRound(known, cases, StoredLinks(known, settled), settled);
      again.changed == 0 && again.rows == settled
  {
    QuietRoundRepeats(known, cases, links, links, rows);
    var settled := RunRound(known, cases, links, rows).rows;
    assert StoredLinks(known, settled) == StoredLinks(known, rows);
    QuietRoundRepeats(known, cases, links, StoredLinks(known, rows), rows);
    hide RunRound;
  }

  /** Linking an already reconciled mailbox again changes no message. */
  lemma SecondLinkingChangesNothing(known: Known, cases: map<nat, Case>, rows: seq<Email>)
    requires CasesKnown(known, cases) && KeysHold(known, cases, rows) && StopsBeforeCap(known, cases, rows)
    ensures var settled := LinkHistory(known, cases, rows).rows;
      LinkHistory(known, cases, settled).rows == settled && StopsBeforeCap(known, cases, settled)
  {
    RoundsReachFixpoint(known, cases, StoredLinks(known, rows), rows, MAX_ROUNDS);
    hide RunRound;
  }
}
