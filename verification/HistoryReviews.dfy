/** The second half of `reconcile_email_history`: activity dates, statuses and review handoffs,
    and the theorem that a second reconciliation is without effect. */
module HistoryReviews {
  import opened Options
  import opened HistoryLinking
  import opened HistoryFixpoint

  datatype Handoff = Handoff(caseId: Option<nat>, source: nat)

  datatype Mailbox = Mailbox(rows: seq<Email>, cases: map<nat, Case>, handoffs: multiset<Handoff>)

  // ----- The latest message of a case and of a contact -----

  /** Position of the last message of case `c`; the rows are in order of receipt. */
  function LatestOf(rows: seq<Email>, c: nat): (k: Option<nat>)
    ensures k.Some? ==> k.value < |rows| && rows[k.value].caseId == Some(c)
  {
    if rows == [] then None
    else if rows[|rows| - 1].caseId == Some(c) then Some(|rows| - 1)
    else LatestOf(rows[..|rows| - 1], c)
  }

  predicate IsHuman(row: Email) {
    !row.isBounce && !row.isAutomated
  }

  function LatestHuman(rows: seq<Email>, contact: nat): (k: Option<nat>)
    ensures k.Some? ==> k.value < |rows| && rows[k.value].contactId == Some(contact)
  {
    if rows == [] then None
    else if rows[|rows| - 1].contactId == Some(contact) && IsHuman(rows[|rows| - 1]) then Some(|rows| - 1)
    else LatestHuman(rows[..|rows| - 1], contact)
  }

  /** Live traffic at least as recent as the imported message is authoritative. */
  predicate Overtaken(known: Known, c: nat, latest: Email) {
    c in known.latestLive && known.latestLive[c] >= latest.receivedAt
  }

  function Max(a: int, b: int): int {
    if a >= b then a else b
  }

  function ReviewedCase(known: Known, rows: seq<Email>, c: nat, before: Case): Case {
    var k := LatestOf(rows, c);
    if k.None? then before
    else
      var latest := rows[k.value];
      var seen := Max(before.lastActivity, latest.receivedAt);
      var active := before.(lastActivity := if c in known.latestLive then Max(seen, known.latestLive[c]) else seen);
      if Overtaken(known, c, latest) then active
      else if latest.direction == Inbound then
        if before.status == HumanTakeover || IsClosed(before.status) then active else active.(status := WaitingHuman)
      else if before.status == Active then active.(status := Paused)
      else active
  }

  predicate AwaitsReview(known: Known, rows: seq<Email>, c: nat) {
    var k := LatestOf(rows, c);
    k.Some? && rows[k.value].direction == Inbound && !Overtaken(known, c, rows[k.value])
  }

  /** A contact's latest human message is an inbound one that no case claims. */
  predicate AwaitsCase(rows: seq<Email>, k: nat) {
    && k < |rows| && rows[k].direction == Inbound && rows[k].caseId.None?
    && rows[k].contactId.Some? && LatestHuman(rows, rows[k].contactId.value) == Some(k)
  }

  function Sources(handoffs: multiset<Handoff>): set<nat> {
    set h | h in handoffs :: h.source
  }

  function CaseReviews(known: Known, rows: seq<Email>, cases: map<nat, Case>, sources: set<nat>): set<Handoff> {
    set c | c in cases && AwaitsReview(known, rows, c) && rows[LatestOf(rows, c).value].id !in sources ::
      Handoff(Some(c), rows[LatestOf(rows, c).value].id)
  }

  function ContactReviews(rows: seq<Email>, sources: set<nat>): set<Handoff> {
    set k | 0 <= k < |rows| && AwaitsCase(rows, k) && rows[k].id !in sources :: Handoff(None, rows[k].id)
  }

  function ReviewCases(known: Known, rows: seq<Email>, cases: map<nat, Case>): map<nat, Case> {
    map c | c in cases :: ReviewedCase(known, rows, c, cases[c])
  }

  function NewHandoffs(known: Known, rows: seq<Email>, cases: map<nat, Case>, sources: set<nat>): set<Handoff> {
    CaseReviews(known, rows, cases, sources) + ContactReviews(rows, sources)
  }

  function Reconcile(known: Known, mailbox: Mailbox): Mailbox {
    var rows := LinkHistory(known, mailbox.cases, mailbox.rows).rows;
    Mailbox(rows, ReviewCases(known, rows, mailbox.cases),
      mailbox.handoffs + multiset(NewHandoffs(known, rows, mailbox.cases, Sources(mailbox.handoffs))))
  }

  // ----- Reviews do not disturb the links -----

  /** Reviewing changes neither who owns a case nor whether it is closed. */
  ghost predicate SameOwnership(a: map<nat, Case>, b: map<nat, Case>) {
    && a.Keys == b.Keys
    && forall c :: c in a ==>
         && a[c].customerId == b[c].customerId && a[c].contactId == b[c].contactId
         && a[c].productCode == b[c].productCode && a[c].subjectKey == b[c].subjectKey
         && (IsClosed(a[c].status) <==> IsClosed(b[c].status))
  }

  lemma ReviewKeepsOwnership(known: Known, rows: seq<Email>, cases: map<nat, Case>)
    ensures SameOwnership(cases, ReviewCases(known, rows, cases))
  {
    hide LatestOf;
  }

  lemma OwnershipDecides(known: Known, a: map<nat, Case>, b: map<nat, Case>, links: set<Link>, row: Email)
    requires SameOwnership(a, b)
    ensures ProcessRow(known, a, links, row) == ProcessRow(known, b, links, row)
  {
    CandidatesAgree(known, a, b, WithContact(known, row));
    hide WithContact, ThreadCaseIds, Candidates, ContactCase;
  }

  lemma CandidatesAgree(known: Known, a: map<nat, Case>, b: map<nat, Case>, row: Email)
    requires SameOwnership(a, b)
    ensures forall contact :: Candidates(known, a, row, contact) == Candidates(known, b, row, contact)
    ensures forall contact ::
      ContactCase(a, row, Candidates(known, a, row, contact)) == ContactCase(b, row, Candidates(known, b, row, contact))
  {
    forall contact
      ensures Candidates(known, a, row, contact) == Candidates(known, b, row, contact)
      ensures ContactCase(a, row, Candidates(known, a, row, contact))
        == ContactCase(b, row, Candidates(known, b, row, contact))
    {
      var candidates := Candidates(known, a, row, contact);
      assert candidates == Candidates(known, b, row, contact);
      assert ProductMatches(a, row, candidates) == ProductMatches(b, row, candidates);
      assert SubjectMatches(a, row, candidates) == SubjectMatches(b, row, candidates);
      hide ProductMatches, SubjectMatches, Candidates;
    }
  }

  lemma {:induction false} OwnershipDecidesRound(known: Known, a: map<nat, Case>, b: map<nat, Case>, links: set<Link>,
      rows: seq<Email>)
    requires SameOwnership(a, b)
    ensures RunRound(known, a, links, rows) == RunRound(known, b, links, rows)
  {
    if rows != [] {
      var init, row := rows[..|rows| - 1], rows[|rows| - 1];
      OwnershipDecidesRound(known, a, b, links, init);
      OwnershipDecides(known, a, b, RunRound(known, a, links, init).links, row);
      hide ProcessRow;
    }
  }

  lemma {:induction false} OwnershipDecidesRounds(known: Known, a: map<nat, Case>, b: map<nat, Case>,
      links: set<Link>, rows: seq<Email>, rounds: nat)
    requires SameOwnership(a, b)
    ensures LinkRounds(known, a, links, rows, rounds) == LinkRounds(known, b, links, rows, rounds)
    decreases rounds
  {
    if rounds > 0 {
      OwnershipDecidesRound(known, a, b, links, rows);
      var round := RunRound(known, a, links, rows);
      if round.changed != 0 { OwnershipDecidesRounds(known, a, b, round.links, round.rows, rounds - 1); }
    }
    hide RunRound, SameOwnership;
  }

  // ----- Reviewing twice -----

  lemma ReviewIsStable(known: Known, rows: seq<Email>, c: nat, before: Case)
    ensures ReviewedCase(known, rows, c, ReviewedCase(known, rows, c, before)) == ReviewedCase(known, rows, c, before)
  {
    hide LatestOf;
  }

  lemma NoNewHandoffs(known: Known, rows: seq<Email>, cases: map<nat, Case>, handoffs: multiset<Handoff>)
    ensures NewHandoffs(known, rows, ReviewCases(known, rows, cases),
      Sources(handoffs + multiset(NewHandoffs(known, rows, cases, Sources(handoffs))))) == {}
  {
    hide LatestOf, LatestHuman, ReviewedCase, AwaitsReview, AwaitsCase;
    var sources := Sources(handoffs);
    var raised := NewHandoffs(known, rows, cases, sources);
    var after := Sources(handoffs + multiset(raised));
    forall c | c in cases && AwaitsReview(known, rows, c)
      ensures LatestOf(rows, c).Some? && rows[LatestOf(rows, c).value].id in after
    {
      AwaitsMeansLatest(known, rows, c);
      var id := rows[LatestOf(rows, c).value].id;
      if id in sources {
        var h :| h in handoffs && h.source == id;
        assert h in handoffs + multiset(raised);
      } else {
        assert Handoff(Some(c), id) in CaseReviews(known, rows, cases, sources);
        assert Handoff(Some(c), id) in handoffs + multiset(raised);
      }
    }
    forall k | 0 <= k < |rows| && AwaitsCase(rows, k)
      ensures rows[k].id in after
    {
      if rows[k].id in sources {
        var h :| h in handoffs && h.source == rows[k].id;
        assert h in handoffs + multiset(raised);
      } else {
        assert Handoff(None, rows[k].id) in ContactReviews(rows, sources);
        assert Handoff(None, rows[k].id) in handoffs + multiset(raised);
      }
    }
  }

  lemma AwaitsMeansLatest(known: Known, rows: seq<Email>, c: nat)
    requires AwaitsReview(known, rows, c)
    ensures LatestOf(rows, c).Some?
  {
  }

  /** When linking stops before its cap, an immediate second reconciliation changes nothing:
      no link, no identity, no status, no activity date and no handoff. */
  lemma SecondReconcileChangesNothing(known: Known, mailbox: Mailbox)
    requires CasesKnown(known, mailbox.cases) && KeysHold(known, mailbox.cases, mailbox.rows)
    requires StopsBeforeCap(known, mailbox.cases, mailbox.rows)
    ensures Reconcile(known, Reconcile(known, mailbox)) == Reconcile(known, mailbox)
  {
    var once := Reconcile(known, mailbox);
    var rows := once.rows;
    SecondLinkingChangesNothing(known, mailbox.cases, mailbox.rows);
    ReviewKeepsOwnership(known, rows, mailbox.cases);
    OwnershipDecidesRounds(known, mailbox.cases, once.cases, StoredLinks(known, rows), rows, MAX_ROUNDS);
    forall c | c in mailbox.cases
      ensures ReviewCases(known, rows, once.cases)[c] == once.cases[c]
    {
      ReviewIsStable(known, rows, c, mailbox.cases[c]);
    }
    assert ReviewCases(known, rows, once.cases) == once.cases;
    NoNewHandoffs(known, rows, mailbox.cases, mailbox.handoffs);
    hide LinkRounds, StoredLinks, NewHandoffs, ReviewedCase, Sources;
  }

  /** Fewer than twenty unlinked messages always settle in one reconciliation. */
  lemma SmallMailboxSettles(known: Known, mailbox: Mailbox)
    requires CasesKnown(known, mailbox.cases) && KeysHold(known, mailbox.cases, mailbox.rows)
    requires Unlinked(mailbox.cases, mailbox.rows) < MAX_ROUNDS
    ensures Reconcile(known, Reconcile(known, mailbox)) == Reconcile(known, mailbox)
  {
    FewUnlinkedStop(known, mailbox.cases, StoredLinks(known, mailbox.rows), mailbox.rows, MAX_ROUNDS);
    assert StopsBeforeCap(known, mailbox.cases, mailbox.rows);
    SecondReconcileChangesNothing(known, mailbox);
  }

  /** Reconciling never moves a linked message, and leaves every linked message with the customer
      and contact of its case. */
  lemma ReconcileKeepsCases(known: Known, mailbox: Mailbox)
    requires CasesKnown(known, mailbox.cases) && KeysHold(known, mailbox.cases, mailbox.rows)
    ensures var after := Reconcile(known, mailbox);
      && OnlyLinksMore(mailbox.cases, mailbox.rows, after.rows)
      && IdentitiesMatch(after.cases, after.rows) && KeysHold(known, after.cases, after.rows)
      && mailbox.handoffs <= after.handoffs
  {
    RoundsKeepCases(known, mailbox.cases, StoredLinks(known, mailbox.rows), mailbox.rows, MAX_ROUNDS);
    var rows := Reconcile(known, mailbox).rows;
    ReviewKeepsOwnership(known, rows, mailbox.cases);
    assert forall k :: 0 <= k < |rows| ==> RowKeysHold(known, mailbox.cases, rows[k]);
    hide LinkRounds, StoredLinks, NewHandoffs, ReviewedCase, Sources;
  }

  // ----- What a reconciliation leaves, in the columns of the rows -----

  /** The last message that carries the case id. */
  ghost predicate IsLast(rows: seq<Email>, c: nat, k: nat) {
    k < |rows| && rows[k].caseId == Some(c) && forall j :: k < j < |rows| ==> rows[j].caseId != Some(c)
  }

  /** The last message of the contact that a person wrote. */
  ghost predicate IsLastHuman(rows: seq<Email>, contact: nat, k: nat) {
    && k < |rows| && rows[k].contactId == Some(contact) && !rows[k].isBounce && !rows[k].isAutomated
    && forall j :: k < j < |rows| ==> rows[j].contactId != Some(contact) || rows[j].isBounce || rows[j].isAutomated
  }

  lemma {:induction false} LatestIsLast(rows: seq<Email>, c: nat)
    ensures forall k: nat :: IsLast(rows, c, k) <==> LatestOf(rows, c) == Some(k)
  {
    if rows != [] {
      var init := rows[..|rows| - 1];
      LatestIsLast(init, c);
      forall k: nat
        ensures IsLast(rows, c, k) <==> LatestOf(rows, c) == Some(k)
      {
        if k < |init| {
          assert IsLast(init, c, k) <==> LatestOf(init, c) == Some(k);
          assert rows[|rows| - 1].caseId != Some(c) ==> (IsLast(rows, c, k) <==> IsLast(init, c, k));
        }
      }
    }
  }

  lemma {:induction false} LatestHumanIsLast(rows: seq<Email>, contact: nat)
    ensures forall k: nat :: IsLastHuman(rows, contact, k) <==> LatestHuman(rows, contact) == Some(k)
  {
    if rows != [] {
      var init, last := rows[..|rows| - 1], rows[|rows| - 1];
      LatestHumanIsLast(init, contact);
      forall k: nat
        ensures IsLastHuman(rows, contact, k) <==> LatestHuman(rows, contact) == Some(k)
      {
        if k < |init| {
          assert IsLastHuman(init, contact, k) <==> LatestHuman(init, contact) == Some(k);
          assert !(last.contactId == Some(contact) && IsHuman(last)) ==>
            (IsLastHuman(rows, contact, k) <==> IsLastHuman(init, contact, k));
        }
      }
    }
  }

  ghost predicate LiveIsNewer(known: Known, c: nat, row: Email) {
    c in known.latestLive && known.latestLive[c] >= row.receivedAt
  }

  /** The latest of the stored activity, the message and the live mail of the case. */
  ghost predicate IsActivity(known: Known, c: nat, stored: int, received: int, at: int) {
    && at >= stored && at >= received && (c in known.latestLive ==> at >= known.latestLive[c])
    && (at == stored || at == received || (c in known.latestLive && at == known.latestLive[c]))
  }

  /** A customer's unanswered message calls a person in, unless one has taken over or the case is closed; an own last
      message pauses an active case; newer live mail is left to decide by itself. */
  ghost predicate CaseIsReviewed(known: Known, rows: seq<Email>, c: nat, before: Case, after: Case) {
    && after == before.(status := after.status, lastActivity := after.lastActivity)
    && ((forall k: nat :: !IsLast(rows, c, k)) ==> after == before)
    && (forall k: nat :: IsLast(rows, c, k) ==>
          && IsActivity(known, c, before.lastActivity, rows[k].receivedAt, after.lastActivity)
          && (LiveIsNewer(known, c, rows[k]) ==> after.status == before.status)
          && (!LiveIsNewer(known, c, rows[k]) && rows[k].direction == Inbound ==>
                if before.status in {HumanTakeover, ClosedWon, ClosedLost} then after.status == before.status
                else after.status == WaitingHuman)
          && (!LiveIsNewer(known, c, rows[k]) && rows[k].direction == Outbound ==>
                after.status == if before.status == Active then Paused else before.status))
  }

  lemma ReviewReviews(known: Known, rows: seq<Email>, c: nat, before: Case)
    ensures CaseIsReviewed(known, rows, c, before, ReviewedCase(known, rows, c, before))
  {
    LatestIsLast(rows, c);
    hide LatestOf, IsLast;
  }

  ghost predicate HasReview(handoffs: multiset<Handoff>, source: nat) {
    exists h :: h in handoffs && h.source == source
  }

  /** A review that is due: of a case whose last message is a customer's that no live mail follows, or of a contact
      whose last message, a customer's, belongs to no case; and the message has none yet. */
  ghost predicate IsDueReview(known: Known, rows: seq<Email>, cases: map<nat, Case>, handoffs: multiset<Handoff>,
      h: Handoff) {
    && !HasReview(handoffs, h.source)
    && exists k: nat :: k < |rows| && rows[k].id == h.source && rows[k].direction == Inbound
         && (if h.caseId.Some?
             then h.caseId.value in cases && IsLast(rows, h.caseId.value, k)
               && !LiveIsNewer(known, h.caseId.value, rows[k])
             else rows[k].caseId.None? && rows[k].contactId.Some? && IsLastHuman(rows, rows[k].contactId.value, k))
  }

  ghost predicate ReviewsRaised(known: Known, before: Mailbox, after: Mailbox) {
    forall h :: after.handoffs[h]
      == before.handoffs[h] + if IsDueReview(known, after.rows, before.cases, before.handoffs, h) then 1 else 0
  }

  lemma NewIsDue(known: Known, rows: seq<Email>, cases: map<nat, Case>, handoffs: multiset<Handoff>, h: Handoff)
    ensures h in NewHandoffs(known, rows, cases, Sources(handoffs)) <==> IsDueReview(known, rows, cases, handoffs, h)
  {
    assert HasReview(handoffs, h.source) <==> h.source in Sources(handoffs);
    if h.caseId.Some? {
      LatestIsLast(rows, h.caseId.value);
      AwaitsMeansLatestAll(known, rows);
    } else {
      forall k: nat | k < |rows| && rows[k].contactId.Some?
        ensures IsLastHuman(rows, rows[k].contactId.value, k)
          <==> LatestHuman(rows, rows[k].contactId.value) == Some(k)
      {
        LatestHumanIsLast(rows, rows[k].contactId.value);
      }
    }
    hide LatestOf, LatestHuman, IsLast, IsLastHuman, HasReview, Sources;
  }

  /** What one reconciliation makes of the cases and the reviews. */
  ghost predicate IsReconciled(known: Known, before: Mailbox, after: Mailbox) {
    && after.cases.Keys == before.cases.Keys
    && (forall c :: c in before.cases ==> CaseIsReviewed(known, after.rows, c, before.cases[c], after.cases[c]))
    && ReviewsRaised(known, before, after)
  }

  lemma ReconcileReconciles(known: Known, mailbox: Mailbox)
    ensures IsReconciled(known, mailbox, Reconcile(known, mailbox))
  {
    hide LinkHistory, CaseIsReviewed, ReviewedCase, NewHandoffs, IsDueReview, Sources;
    var after := Reconcile(known, mailbox);
    var rows := after.rows;
    forall c | c in mailbox.cases
      ensures CaseIsReviewed(known, rows, c, mailbox.cases[c], after.cases[c])
    {
      ReviewReviews(known, rows, c, mailbox.cases[c]);
    }
    forall h
      ensures after.handoffs[h] == mailbox.handoffs[h]
        + if IsDueReview(known, rows, mailbox.cases, mailbox.handoffs, h) then 1 else 0
    {
      NewIsDue(known, rows, mailbox.cases, mailbox.handoffs, h);
    }
  }

  // ----- The run over mutable rows and tables -----

  lemma LatestSnoc(rows: seq<Email>, row: Email, c: nat)
    ensures LatestOf(rows + [row], c) == if row.caseId == Some(c) then Some(|rows|) else LatestOf(rows, c)
    ensures LatestHuman(rows + [row], c)
      == if row.contactId == Some(c) && IsHuman(row) then Some(|rows|) else LatestHuman(rows, c)
  {
    assert (rows + [row])[..|rows|] == rows;
  }

  ghost predicate IndexesCases(rows: seq<Email>, byCase: map<nat, nat>) {
    forall c :: LatestOf(rows, c) == if c in byCase then Some(byCase[c]) else None
  }

  ghost predicate IndexesHumans(rows: seq<Email>, humans: map<nat, nat>) {
    forall p :: LatestHuman(rows, p) == if p in humans then Some(humans[p]) else None
  }

  ghost predicate IndexesLatest(rows: seq<Email>, byCase: map<nat, nat>, humans: map<nat, nat>) {
    IndexesCases(rows, byCase) && IndexesHumans(rows, humans)
  }

  lemma CaseIndexStep(rows: seq<Email>, row: Email, byCase: map<nat, nat>)
    requires IndexesCases(rows, byCase)
    ensures IndexesCases(rows + [row], if row.caseId.Some? then byCase[row.caseId.value := |rows|] else byCase)
  {
    var next := if row.caseId.Some? then byCase[row.caseId.value := |rows|] else byCase;
    forall c
      ensures LatestOf(rows + [row], c) == if c in next then Some(next[c]) else None
    {
      LatestSnoc(rows, row, c);
    }
    hide LatestOf;
  }

  lemma HumanIndexStep(rows: seq<Email>, row: Email, humans: map<nat, nat>)
    requires IndexesHumans(rows, humans)
    ensures IndexesHumans(rows + [row],
      if row.contactId.Some? && IsHuman(row) then humans[row.contactId.value := |rows|] else humans)
  {
    var next := if row.contactId.Some? && IsHuman(row) then humans[row.contactId.value := |rows|] else humans;
    forall p
      ensures LatestHuman(rows + [row], p) == if p in next then Some(next[p]) else None
    {
      LatestSnoc(rows, row, p);
    }
    hide LatestHuman;
  }

  /** Both dictionaries keep the last row written under each key. */
  method LatestRows(rows: array<Email>) returns (byCase: map<nat, nat>, humans: map<nat, nat>)
    ensures IndexesLatest(rows[..], byCase, humans)
  {
    byCase, humans := map[], map[];
    hide IsHuman;
    assert IndexesLatest([], byCase, humans);
    hide IndexesCases, IndexesHumans;
    for k := 0 to rows.Length
      invariant IndexesLatest(rows[..k], byCase, humans)
    {
      CaseIndexStep(rows[..k], rows[k], byCase);
      HumanIndexStep(rows[..k], rows[k], humans);
      assert rows[..k + 1] == rows[..k] + [rows[k]];
      if rows[k].caseId.Some? { byCase := byCase[rows[k].caseId.value := k]; }
      if rows[k].contactId.Some? && IsHuman(rows[k]) { humans := humans[rows[k].contactId.value := k]; }
    }
    assert rows[..rows.Length] == rows[..];
  }

  // Reviews raised for the cases, and for the contacts, handled so far.

  function RaisedFor(known: Known, rows: seq<Email>, cases: map<nat, Case>, sources: set<nat>,
      done: set<nat>): set<Handoff> {
    set c | c in done && c in cases && AwaitsReview(known, rows, c) && rows[LatestOf(rows, c).value].id !in sources ::
      Handoff(Some(c), rows[LatestOf(rows, c).value].id)
  }

  lemma RaisedStep(known: Known, rows: seq<Email>, cases: map<nat, Case>, sources: set<nat>, done: set<nat>, c: nat)
    requires c in cases && c !in done
    ensures
      var raised := RaisedFor(known, rows, cases, sources, done);
      var more := RaisedFor(known, rows, cases, sources, done + {c});
      if AwaitsReview(known, rows, c) && rows[LatestOf(rows, c).value].id !in sources then
        var review := Handoff(Some(c), rows[LatestOf(rows, c).value].id);
        more == raised + {review} && review !in raised
      else more == raised
  {
    AwaitsMeansLatestAll(known, rows);
    hide LatestOf, AwaitsReview;
  }

  lemma AwaitsMeansLatestAll(known: Known, rows: seq<Email>)
    ensures forall c :: AwaitsReview(known, rows, c) ==> LatestOf(rows, c).Some?
  {
  }

  function ContactsRaised(rows: seq<Email>, sources: set<nat>, done: set<nat>): set<Handoff> {
    set k | k in done && k < |rows| && AwaitsCase(rows, k) && rows[k].id !in sources :: Handoff(None, rows[k].id)
  }

  /** Ids are primary keys. */
  ghost predicate DistinctIds(rows: seq<Email>) {
    forall j, k :: 0 <= j < k < |rows| ==> rows[j].id != rows[k].id
  }

  lemma ContactsStep(rows: seq<Email>, sources: set<nat>, done: set<nat>, k: nat)
    requires DistinctIds(rows) && k < |rows| && k !in done
    ensures var raised, more := ContactsRaised(rows, sources, done), ContactsRaised(rows, sources, done + {k});
      if AwaitsCase(rows, k) && rows[k].id !in sources then
        more == raised + {Handoff(None, rows[k].id)} && Handoff(None, rows[k].id) !in raised
      else more == raised
  {
    hide AwaitsCase;
    assert forall j :: j in done && j < |rows| ==> rows[j].id != rows[k].id;
  }

  /** The rows the contact dictionary points at are the only ones that can await a case. */
  lemma HumansCover(rows: seq<Email>, sources: set<nat>, humans: map<nat, nat>)
    requires IndexesHumans(rows, humans)
    ensures ContactsRaised(rows, sources, humans.Values) == ContactReviews(rows, sources)
    ensures forall k :: k in humans.Values ==> k < |rows|
  {
    hide LatestOf;
    forall k | 0 <= k < |rows| && AwaitsCase(rows, k)
      ensures k in humans.Values
    {
      assert humans[rows[k].contactId.value] == k;
    }
    forall k | k in humans.Values
      ensures k < |rows|
    {
      var p :| p in humans && humans[p] == k;
      assert LatestHuman(rows, p) == Some(k);
    }
    hide LatestHuman, AwaitsCase;
  }

  function ReviewedExcept(known: Known, rows: seq<Email>, cases: map<nat, Case>, pending: set<nat>): map<nat, Case> {
    map c | c in cases :: if c in pending then cases[c] else ReviewedCase(known, rows, c, cases[c])
  }

  lemma ReviewedStep(known: Known, rows: seq<Email>, cases: map<nat, Case>, pending: set<nat>, c: nat)
    requires c in pending && c in cases
    ensures var now := ReviewedExcept(known, rows, cases, pending);
      && c in now && now[c] == cases[c]
      && ReviewedExcept(known, rows, cases, pending - {c}) == now[c := ReviewedCase(known, rows, c, cases[c])]
  {
    hide ReviewedCase;
  }

  lemma RaiseOne(before: multiset<Handoff>, raised: set<Handoff>, h: Handoff)
    requires h !in raised
    ensures before + multiset(raised) + multiset{h} == before + multiset(raised + {h})
  {
    assert multiset(raised + {h}) == multiset(raised) + multiset{h};
  }

  class Reconciler {
    const rows: array<Email>
    var cases: map<nat, Case>
    var handoffs: multiset<Handoff>

    constructor (rows: array<Email>, cases: map<nat, Case>, handoffs: multiset<Handoff>)
      ensures this.rows == rows && this.cases == cases && this.handoffs == handoffs
    {
      this.rows, this.cases, this.handoffs := rows, cases, handoffs;
    }

    function State(): Mailbox
      reads this, rows
    {
      Mailbox(rows[..], cases, handoffs)
    }

    /** Case by case: the activity date, the status and, if needed, one review. */
    method ReviewEveryCase(known: Known, byCase: map<nat, nat>, sources: set<nat>)
      requires IndexesCases(rows[..], byCase)
      modifies this
      ensures cases == ReviewCases(known, rows[..], old(cases))
      ensures handoffs == old(handoffs) + multiset(CaseReviews(known, rows[..], old(cases), sources))
    {
      var all := rows[..];
      AwaitsMeansLatestAll(known, all);
      assert forall c :: LatestOf(all, c) == if c in byCase then Some(byCase[c]) else None;
      hide LatestOf, AwaitsReview, ReviewedCase, RaisedFor, CaseReviews, ReviewedExcept, ReviewCases, IndexesCases;
      ghost var before, raisedBefore := cases, handoffs;
      var pending := cases.Keys;
      NothingRaised(known, all, before, sources);
      while pending != {}
        invariant pending <= before.Keys && cases == ReviewedExcept(known, all, before, pending)
        invariant handoffs == raisedBefore + multiset(RaisedFor(known, all, before, sources, before.Keys - pending))
        decreases pending
      {
        var c :| c in pending;
        ghost var done := before.Keys - pending;
        RaisedStep(known, all, before, sources, done, c);
        ReviewedStep(known, all, before, pending, c);
        assert before.Keys - (pending - {c}) == before.Keys - pending + {c};
        pending := pending - {c};
        cases := cases[c := ReviewedCase(known, all, c, cases[c])];
        if AwaitsReview(known, all, c) {
          var id := all[byCase[c]].id;
          if id !in sources {
            RaiseOne(raisedBefore, RaisedFor(known, all, before, sources, done), Handoff(Some(c), id));
            handoffs := handoffs + multiset{Handoff(Some(c), id)};
          }
        }
      }
      assert before.Keys - {} == before.Keys;
    }

    /** Contacts whose latest human message is inbound and still has no case. */
    method ReviewEveryContact(humans: map<nat, nat>, sources: set<nat>)
      requires DistinctIds(rows[..]) && IndexesHumans(rows[..], humans)
      modifies this
      ensures cases == old(cases)
      ensures handoffs == old(handoffs) + multiset(ContactReviews(rows[..], sources))
    {
      var all := rows[..];
      ghost var raisedBefore := handoffs;
      HumansCover(all, sources, humans);
      hide AwaitsCase, ContactsRaised, ContactReviews, DistinctIds, IndexesHumans;
      var pending := humans.Values;
      NobodyRaised(all, sources);
      while pending != {}
        invariant pending <= humans.Values && cases == old(cases)
        invariant handoffs == raisedBefore + multiset(ContactsRaised(all, sources, humans.Values - pending))
        decreases pending
      {
        var k :| k in pending;
        ghost var done := humans.Values - pending;
        ContactsStep(all, sources, done, k);
        assert humans.Values - (pending - {k}) == humans.Values - pending + {k};
        pending := pending - {k};
        if AwaitsCase(all, k) && rows[k].id !in sources {
          RaiseOne(raisedBefore, ContactsRaised(all, sources, done), Handoff(None, rows[k].id));
          handoffs := handoffs + multiset{Handoff(None, rows[k].id)};
        }
      }
      assert humans.Values - {} == humans.Values;
    }

    /** The whole run, in place. */
    method Run(known: Known)
      requires DistinctIds(rows[..])
      requires CasesKnown(known, cases) && KeysHold(known, cases, rows[..])
      modifies this, rows
      ensures State() == Reconcile(known, old(State()))
      ensures IsReconciled(known, old(State()), State())
    {
      hide IsReconciled;
      ReconcileReconciles(known, State());
      ghost var before := State();
      RoundsKeepCases(known, cases, StoredLinks(known, rows[..]), rows[..], MAX_ROUNDS);
      hide LinkRounds, CaseReviews, ContactReviews, ReviewCases, Sources, KeysHold, CasesKnown, IndexesCases,
        IndexesHumans, IdentitiesMatch;
      var links, changed := LinkUntilStable(known, cases, rows);
      assert DistinctIds(rows[..]);
      var byCase, humans := LatestRows(rows);
      var sources := Sources(handoffs);
      ReviewEveryCase(known, byCase, sources);
      ReviewEveryContact(humans, sources);
      DisjointReviews(known, rows[..], before.cases, sources);
    }
  }

  lemma NothingRaised(known: Known, rows: seq<Email>, cases: map<nat, Case>, sources: set<nat>)
    ensures RaisedFor(known, rows, cases, sources, cases.Keys - cases.Keys) == {}
    ensures RaisedFor(known, rows, cases, sources, cases.Keys) == CaseReviews(known, rows, cases, sources)
    ensures ReviewedExcept(known, rows, cases, cases.Keys) == cases
    ensures ReviewedExcept(known, rows, cases, {}) == ReviewCases(known, rows, cases)
  {
    AwaitsMeansLatestAll(known, rows);
    hide LatestOf, AwaitsReview, ReviewedCase;
  }

  lemma NobodyRaised(rows: seq<Email>, sources: set<nat>)
    ensures forall done :: done == {} ==> ContactsRaised(rows, sources, done) == {}
  {
  }

  lemma DisjointReviews(known: Known, rows: seq<Email>, cases: map<nat, Case>, sources: set<nat>)
    ensures multiset(NewHandoffs(known, rows, cases, sources))
      == multiset(CaseReviews(known, rows, cases, sources)) + multiset(ContactReviews(rows, sources))
  {
    hide LatestOf, AwaitsReview, AwaitsCase;
    var a, b := CaseReviews(known, rows, cases, sources), ContactReviews(rows, sources);
    assert forall h :: h in a ==> h.caseId.Some?;
    assert forall h :: h in b ==> h.caseId.None?;
    assert a !! b;
  }
}
