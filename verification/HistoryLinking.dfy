/** History reconciliation of `app/history.py`: imported messages are linked to cases round by
    round, then reviews are raised and silent cases paused. */
module HistoryLinking {

  import opened Options

  datatype Direction = Inbound | Outbound

  datatype CaseStatus = Active | Paused | WaitingHuman | HumanTakeover | ClosedWon | ClosedLost

  /** An imported message. `participants` are its normalised counterpart addresses, `codes` the
      product codes its text names, `subject` its normalised subject. */
  datatype Email = Email(
    id: nat, direction: Direction, participants: seq<string>, messageId: Option<string>, inReplyTo: Option<string>,
    references: seq<string>, codes: set<string>, subject: string, isBounce: bool, isAutomated: bool, receivedAt: int,
    caseId: Option<nat>, customerId: Option<nat>, contactId: Option<nat>)

  datatype Contact = Contact(customerId: nat, email: string)

  datatype Case = Case(
    customerId: nat, contactId: nat, productCode: Option<string>, subjectKey: Option<string>,
    status: CaseStatus, lastActivity: int)

  type Link = (string, nat)

  /** What reconciliation reads but never writes: contacts, message ids that live mail and the
      outbox tie to cases, and the latest live activity per case. */
  datatype Known = Known(contacts: map<nat, Contact>, liveLinks: set<Link>, outboxLinks: set<Link>,
      latestLive: map<nat, int>)

  predicate IsClosed(status: CaseStatus) {
    status == ClosedWon || status == ClosedLost
  }

  function TheOnly(s: set<nat>): (x: nat)
    requires |s| == 1
    ensures s == {x}
  {
    OneElement(s);
    var x :| x in s;
    x
  }

  lemma OneElement(s: set<nat>)
    requires |s| == 1
    ensures forall x, y :: x in s && y in s ==> x == y
    ensures exists x :: x in s && s == {x}
  {
    var x :| x in s;
    assert |s - {x}| == 0;
    assert s == {x};
  }

  // ----- One message -----

  function ApplyCaseIdentity(row: Email, c: nat, owner: Case): Email {
    row.(caseId := Some(c), customerId := Some(owner.customerId), contactId := Some(owner.contactId))
  }

  function ContactFromParticipants(known: Known, participants: seq<string>): Option<nat> {
    var candidates := set k | k in known.contacts && known.contacts[k].email in participants;
    if |candidates| == 1 then Some(TheOnly(candidates)) else None
  }

  function ThreadIds(row: Email): set<string> {
    (set r | r in row.references && r != "")
    + (if row.inReplyTo.Some? && row.inReplyTo.value != "" then {row.inReplyTo.value} else {})
    + (if row.direction == Outbound && row.messageId.Some? && row.messageId.value != "" then {row.messageId.value}
      else {})
  }

  function ThreadCaseIds(known: Known, links: set<Link>, row: Email): set<nat> {
    set l | l in links + known.outboxLinks && l.0 in ThreadIds(row) :: l.1
  }

  /** Older imported mail may not claim a case that live traffic has already moved on. */
  function Candidates(known: Known, cases: map<nat, Case>, row: Email, contact: nat): set<nat> {
    set c | c in cases && cases[c].contactId == contact && !IsClosed(cases[c].status)
      && (c in known.latestLive ==> known.latestLive[c] < row.receivedAt)
  }

  function ProductMatches(cases: map<nat, Case>, row: Email, candidates: set<nat>): set<nat> {
    set c | c in candidates && c in cases && cases[c].productCode.Some? && cases[c].productCode.value in row.codes
  }

  function SubjectMatches(cases: map<nat, Case>, row: Email, candidates: set<nat>): set<nat> {
    set c | c in candidates && c in cases && cases[c].subjectKey == Some(row.subject)
  }

  function ContactCase(cases: map<nat, Case>, row: Email, candidates: set<nat>): Option<nat>
    requires candidates <= cases.Keys
  {
    if row.codes != {} then
      var products := ProductMatches(cases, row, candidates);
      if |products| == 1 then Some(TheOnly(products)) else None
    else
      var subjects := SubjectMatches(cases, row, candidates);
      if |subjects| == 1 then Some(TheOnly(subjects))
      else if |candidates| == 1 then Some(TheOnly(candidates))
      else None
  }

  function WithContact(known: Known, row: Email): Email {
    var stored := if row.contactId.Some? && row.contactId.value in known.contacts then row.contactId else None;
    var contact := if stored.Some? then stored else ContactFromParticipants(known, row.participants);
    if contact.Some? && contact.value in known.contacts then
      row.(contactId := contact, customerId := Some(known.contacts[contact.value].customerId))
    else row
  }

  /** The case a message would join, once its contact is settled. */
  function FindCase(known: Known, cases: map<nat, Case>, links: set<Link>, row: Email): (found: Option<nat>)
    ensures found.Some? ==> found.value in cases
  {
    var threads := ThreadCaseIds(known, links, row);
    var byThread :=
      if |threads| != 1 then None
      else
        var c := TheOnly(threads);
        if c in cases && cases[c].contactId in known.contacts
          && known.contacts[cases[c].contactId].email in row.participants
        then Some(c) else None;
    if byThread.Some? then byThread
    else if row.contactId.Some? then ContactCase(cases, row, Candidates(known, cases, row, row.contactId.value))
    else None
  }

  /** A message joins a case only when nothing rivals it: its thread names that case alone and the case's
      contact took part; or, among the contact's open cases that live mail has not moved past, it is the only one
      of a named product, the only one of the subject, or the only one. */
  lemma LinksAreUnambiguous(known: Known, cases: map<nat, Case>, links: set<Link>, row: Email, c: nat)
    requires FindCase(known, cases, links, row) == Some(c)
    ensures c in cases
    ensures (ThreadCaseIds(known, links, row) == {c} && cases[c].contactId in known.contacts
        && known.contacts[cases[c].contactId].email in row.participants)
      || (row.contactId == Some(cases[c].contactId)
        && NoRival(cases, row, Candidates(known, cases, row, cases[c].contactId), c))
  {
    var threads := ThreadCaseIds(known, links, row);
    if |threads| == 1 && TheOnly(threads) == c {
    } else if row.contactId.Some? {
      NoRivalFound(cases, row, Candidates(known, cases, row, row.contactId.value));
    }
    hide ThreadCaseIds, ContactCase, NoRival;
  }

  ghost predicate NoRival(cases: map<nat, Case>, row: Email, candidates: set<nat>, c: nat) {
    && c in candidates
    && (row.codes != {} ==> ProductMatches(cases, row, candidates) == {c})
    && (row.codes == {} ==> SubjectMatches(cases, row, candidates) == {c} || candidates == {c})
  }

  lemma NoRivalFound(cases: map<nat, Case>, row: Email, candidates: set<nat>)
    requires candidates <= cases.Keys
    ensures var found := ContactCase(cases, row, candidates);
      found.Some? ==> NoRival(cases, row, candidates, found.value)
  {
    var found := ContactCase(cases, row, candidates);
    if found.Some? {
      assert found.value in ProductMatches(cases, row, candidates)
        || found.value in SubjectMatches(cases, row, candidates)
        || found.value in candidates;
    }
  }

  // ----- Exactly which case a message joins, in the columns of the rows -----

  predicate Names(row: Email, id: string) {
    && id != ""
    && (id in row.references || row.inReplyTo == Some(id) || (row.direction == Outbound && row.messageId == Some(id)))
  }

  /** Some message of the case, or an outbox row of it, has an id that this one names. */
  ghost predicate ThreadNames(known: Known, links: set<Link>, row: Email, c: nat) {
    exists id :: Names(row, id) && ((id, c) in links || (id, c) in known.outboxLinks)
  }

  /** The thread names this case and no other, and its contact took part. */
  ghost predicate ThreadJoins(known: Known, cases: map<nat, Case>, links: set<Link>, row: Email, c: nat) {
    && ThreadNames(known, links, row, c) && (forall d :: ThreadNames(known, links, row, d) ==> d == c)
    && c in cases && cases[c].contactId in known.contacts
    && known.contacts[cases[c].contactId].email in row.participants
  }

  /** An open case of the contact that live mail has not moved past the message. */
  ghost predicate MayJoin(known: Known, cases: map<nat, Case>, row: Email, c: nat) {
    && c in cases && row.contactId == Some(cases[c].contactId)
    && cases[c].status != ClosedWon && cases[c].status != ClosedLost
    && (c in known.latestLive ==> known.latestLive[c] < row.receivedAt)
  }

  ghost predicate MayJoinByProduct(known: Known, cases: map<nat, Case>, row: Email, c: nat) {
    MayJoin(known, cases, row, c) && cases[c].productCode.Some? && cases[c].productCode.value in row.codes
  }

  ghost predicate MayJoinBySubject(known: Known, cases: map<nat, Case>, row: Email, c: nat) {
    MayJoin(known, cases, row, c) && cases[c].subjectKey == Some(row.subject)
  }

  ghost predicate OnlyProduct(known: Known, cases: map<nat, Case>, row: Email, c: nat) {
    MayJoinByProduct(known, cases, row, c) && forall d :: MayJoinByProduct(known, cases, row, d) ==> d == c
  }

  ghost predicate OnlySubject(known: Known, cases: map<nat, Case>, row: Email, c: nat) {
    MayJoinBySubject(known, cases, row, c) && forall d :: MayJoinBySubject(known, cases, row, d) ==> d == c
  }

  ghost predicate OnlyOne(known: Known, cases: map<nat, Case>, row: Email, c: nat) {
    MayJoin(known, cases, row, c) && forall d :: MayJoin(known, cases, row, d) ==> d == c
  }

  /** A message that names products joins the only case of one of them; any other the only case of its subject, or
      else the only case there is. */
  ghost predicate ContactJoins(known: Known, cases: map<nat, Case>, row: Email, c: nat) {
    && (row.codes != {} ==> OnlyProduct(known, cases, row, c))
    && (row.codes == {} ==>
          || OnlySubject(known, cases, row, c)
          || ((forall d :: !OnlySubject(known, cases, row, d)) && OnlyOne(known, cases, row, c)))
  }

  lemma SingletonExactly(s: set<nat>, c: nat)
    ensures (|s| == 1 && c in s) <==> s == {c}
    ensures s == {c} <==> c in s && forall d :: d in s ==> d == c
  {
    if |s| == 1 { OneElement(s); }
    if c in s && forall d :: d in s ==> d == c { assert s == {c}; }
  }

  lemma ThreadCasesExactly(known: Known, links: set<Link>, row: Email, c: nat)
    ensures c in ThreadCaseIds(known, links, row) <==> ThreadNames(known, links, row, c)
  {
    assert forall id :: id in ThreadIds(row) <==> Names(row, id);
    hide ThreadIds, Names;
    if c in ThreadCaseIds(known, links, row) {
      var l :| l in links + known.outboxLinks && l.0 in ThreadIds(row) && l.1 == c;
      assert Names(row, l.0) && (l.0, c) == l;
    }
    if ThreadNames(known, links, row, c) {
      var id :| Names(row, id) && ((id, c) in links || (id, c) in known.outboxLinks);
      assert (id, c) in links + known.outboxLinks;
    }
  }

  lemma CandidatesExactly(known: Known, cases: map<nat, Case>, row: Email, c: nat)
    requires row.contactId.Some?
    ensures var candidates := Candidates(known, cases, row, row.contactId.value);
      && (c in candidates <==> MayJoin(known, cases, row, c))
      && (c in ProductMatches(cases, row, candidates) <==> MayJoinByProduct(known, cases, row, c))
      && (c in SubjectMatches(cases, row, candidates) <==> MayJoinBySubject(known, cases, row, c))
  {
  }

  lemma OnlyExactly(known: Known, cases: map<nat, Case>, row: Email, c: nat)
    requires row.contactId.Some?
    ensures var candidates := Candidates(known, cases, row, row.contactId.value);
      && (OnlyOne(known, cases, row, c) <==> candidates == {c})
      && (OnlyProduct(known, cases, row, c) <==> ProductMatches(cases, row, candidates) == {c})
      && (OnlySubject(known, cases, row, c) <==> SubjectMatches(cases, row, candidates) == {c})
  {
    var candidates := Candidates(known, cases, row, row.contactId.value);
    forall d: nat
      ensures d in candidates <==> MayJoin(known, cases, row, d)
      ensures d in ProductMatches(cases, row, candidates) <==> MayJoinByProduct(known, cases, row, d)
      ensures d in SubjectMatches(cases, row, candidates) <==> MayJoinBySubject(known, cases, row, d)
    {
      CandidatesExactly(known, cases, row, d);
    }
    SingletonExactly(candidates, c);
    SingletonExactly(ProductMatches(cases, row, candidates), c);
    SingletonExactly(SubjectMatches(cases, row, candidates), c);
    hide Candidates, ProductMatches, SubjectMatches, MayJoin, MayJoinByProduct, MayJoinBySubject;
  }

  lemma ContactJoinsExactly(known: Known, cases: map<nat, Case>, row: Email, c: nat)
    requires row.contactId.Some?
    ensures ContactCase(cases, row, Candidates(known, cases, row, row.contactId.value)) == Some(c)
      <==> ContactJoins(known, cases, row, c)
  {
    var candidates := Candidates(known, cases, row, row.contactId.value);
    var products, subjects := ProductMatches(cases, row, candidates), SubjectMatches(cases, row, candidates);
    forall d: nat
      ensures OnlySubject(known, cases, row, d) <==> subjects == {d}
    {
      OnlyExactly(known, cases, row, d);
    }
    OnlyExactly(known, cases, row, c);
    hide Candidates, ProductMatches, SubjectMatches, OnlyProduct, OnlySubject, OnlyOne;
    SingletonExactly(products, c);
    SingletonExactly(subjects, c);
    SingletonExactly(candidates, c);
    if |subjects| == 1 { OneElement(subjects); }
  }

  /** The thread decides first; the contact's cases only when the thread does not. */
  lemma JoinsExactly(known: Known, cases: map<nat, Case>, links: set<Link>, row: Email, c: nat)
    ensures FindCase(known, cases, links, row) == Some(c) <==>
      ThreadJoins(known, cases, links, row, c)
      || ((forall d :: !ThreadJoins(known, cases, links, row, d)) && ContactJoins(known, cases, row, c))
  {
    var threads := ThreadCaseIds(known, links, row);
    forall d: nat
      ensures d in threads <==> ThreadNames(known, links, row, d)
      ensures threads == {d} <==> |threads| == 1 && d in threads
      ensures threads == {d} <==> d in threads && forall e: nat :: e in threads ==> e == d
    {
      ThreadCasesExactly(known, links, row, d);
      SingletonExactly(threads, d);
    }
    hide ThreadCaseIds, ThreadNames;
    forall d: nat
      ensures ThreadJoins(known, cases, links, row, d) <==>
        threads == {d} && d in cases
        && cases[d].contactId in known.contacts && known.contacts[cases[d].contactId].email in row.participants
    {
    }
    if row.contactId.Some? {
      ContactJoinsExactly(known, cases, row, c);
    } else {
      NobodyMayJoin(known, cases, row, c);
    }
    hide ThreadJoins, ContactJoins, ContactCase, Candidates;
  }

  lemma NobodyMayJoin(known: Known, cases: map<nat, Case>, row: Email, c: nat)
    requires row.contactId.None?
    ensures !ContactJoins(known, cases, row, c)
  {
  }

  /** A message keeps a contact that exists; otherwise it gets the only contact with one of its addresses, and with
      the contact comes the contact's customer. */
  lemma ContactIsSettled(known: Known, row: Email)
    ensures var settled := WithContact(known, row);
      && settled == row.(contactId := settled.contactId, customerId := settled.customerId)
      && (row.contactId.Some? && row.contactId.value in known.contacts ==>
            settled.contactId == row.contactId
            && settled.customerId == Some(known.contacts[row.contactId.value].customerId))
      && (!(row.contactId.Some? && row.contactId.value in known.contacts) ==>
            && (forall k :: OnlyContact(known, row, k) ==>
                  settled.contactId == Some(k) && settled.customerId == Some(known.contacts[k].customerId))
            && ((forall k :: !OnlyContact(known, row, k)) ==> settled == row))
  {
    var candidates := set k | k in known.contacts && known.contacts[k].email in row.participants;
    forall k: nat
      ensures OnlyContact(known, row, k) <==> |candidates| == 1 && k in candidates
    {
      SingletonExactly(candidates, k);
      assert forall j: nat :: j in candidates <==> j in known.contacts && known.contacts[j].email in row.participants;
    }
    if |candidates| == 1 { OneElement(candidates); }
  }

  ghost predicate OnlyContact(known: Known, row: Email, k: nat) {
    && k in known.contacts && known.contacts[k].email in row.participants
    && forall j :: j in known.contacts && known.contacts[j].email in row.participants ==> j == k
  }

  function ProcessRow(known: Known, cases: map<nat, Case>, links: set<Link>, row: Email): Email {
    if IsLinked(cases, row) then
      ApplyCaseIdentity(row, row.caseId.value, cases[row.caseId.value])
    else
      var settled := WithContact(known, row);
      var found := FindCase(known, cases, links, settled);
      if found.Some? then ApplyCaseIdentity(settled, found.value, cases[found.value]) else settled
  }

  /** A linked message with an id extends the thread links for the messages after it. */
  function LinksAfter(links: set<Link>, row: Email): set<Link> {
    if row.caseId.Some? && row.messageId.Some? && row.messageId.value != "" then
      links + {(row.messageId.value, row.caseId.value)}
    else links
  }

  // ----- One round -----

  datatype Round = Round(rows: seq<Email>, links: set<Link>, changed: nat)

  predicate IsLinked(cases: map<nat, Case>, row: Email) {
    row.caseId.Some? && row.caseId.value in cases
  }

  predicate NewlyLinked(cases: map<nat, Case>, before: Email, after: Email) {
    !IsLinked(cases, before) && IsLinked(cases, after)
  }

  function RunRound(known: Known, cases: map<nat, Case>, links: set<Link>, rows: seq<Email>): (r: Round)
    ensures |r.rows| == |rows|
  {
    if rows == [] then Round([], links, 0)
    else
      var init := RunRound(known, cases, links, rows[..|rows| - 1]);
      var row := rows[|rows| - 1];
      var after := ProcessRow(known, cases, init.links, row);
      Round(init.rows + [after], LinksAfter(init.links, after),
        init.changed + if NewlyLinked(cases, row, after) then 1 else 0)
  }

  const MAX_ROUNDS: nat := 20

  function LinkRounds(known: Known, cases: map<nat, Case>, links: set<Link>, rows: seq<Email>, rounds: nat): (r: Round)
    ensures |r.rows| == |rows|
    decreases rounds
  {
    if rounds == 0 then Round(rows, links, 1)
    else
      var round := RunRound(known, cases, links, rows);
      if round.changed == 0 then round else LinkRounds(known, cases, round.links, round.rows, rounds - 1)
  }

  /** The links stored with the messages, as they are read at the start of a run. */
  function StoredLinks(known: Known, rows: seq<Email>): set<Link> {
    known.liveLinks + RowLinks(rows)
  }

  function RowLinks(rows: seq<Email>): set<Link> {
    if rows == [] then {} else RowLinks(rows[..|rows| - 1]) + OwnLink(rows[|rows| - 1])
  }

  function OwnLink(row: Email): set<Link> {
    if row.messageId.Some? && row.caseId.Some? then {(row.messageId.value, row.caseId.value)} else {}
  }

  function LinkHistory(known: Known, cases: map<nat, Case>, rows: seq<Email>): Round {
    LinkRounds(known, cases, StoredLinks(known, rows), rows, MAX_ROUNDS)
  }

  // ----- Loops over mutable rows -----

  lemma RoundEmpty(known: Known, cases: map<nat, Case>, links: set<Link>)
    ensures RunRound(known, cases, links, []) == Round([], links, 0)
  {
  }

  lemma RoundSnoc(known: Known, cases: map<nat, Case>, links: set<Link>, init: seq<Email>, row: Email)
    ensures var round := RunRound(known, cases, links, init);
      var after := ProcessRow(known, cases, round.links, row);
      RunRound(known, cases, links, init + [row])
        == Round(round.rows + [after], LinksAfter(round.links, after),
             round.changed + if NewlyLinked(cases, row, after) then 1 else 0)
  {
    assert (init + [row])[..|init|] == init;
  }

  method LinkRound(known: Known, cases: map<nat, Case>, links: set<Link>, rows: array<Email>)
      returns (after: set<Link>, changed: nat)
    modifies rows
    ensures var round := RunRound(known, cases, links, old(rows[..]));
      rows[..] == round.rows && after == round.links && changed == round.changed
  {
    hide RunRound, ProcessRow, LinksAfter, NewlyLinked;
    after, changed := links, 0;
    RoundEmpty(known, cases, links);
    ghost var before := rows[..];
    for k := 0 to rows.Length
      invariant rows[k..] == before[k..]
      invariant RunRound(known, cases, links, before[..k]) == Round(rows[..k], after, changed)
    {
      RoundSnoc(known, cases, links, before[..k], before[k]);
      assert before[..k + 1] == before[..k] + [before[k]];
      var row := rows[k];
      rows[k] := ProcessRow(known, cases, after, row);
      if NewlyLinked(cases, row, rows[k]) { changed := changed + 1; }
      after := LinksAfter(after, rows[k]);
      assert rows[..k + 1] == rows[..k] + [rows[k]];
    }
    assert before[..rows.Length] == before;
  }

  method LinkUntilStable(known: Known, cases: map<nat, Case>, rows: array<Email>)
      returns (links: set<Link>, changed: nat)
    modifies rows
    ensures LinkHistory(known, cases, old(rows[..])) == Round(rows[..], links, changed)
  {
    links, changed := StoredLinks(known, rows[..]), 1;
    var rounds := 0;
    ghost var result := LinkHistory(known, cases, rows[..]);
    while rounds < MAX_ROUNDS && changed != 0
      invariant 0 <= rounds <= MAX_ROUNDS
      invariant changed == 0 ==> result == Round(rows[..], links, 0)
      invariant changed != 0 ==> result == LinkRounds(known, cases, links, rows[..], MAX_ROUNDS - rounds)
      decreases MAX_ROUNDS - rounds, changed
    {
      links, changed := LinkRound(known, cases, links, rows);
      rounds := rounds + 1;
    }
    if changed != 0 { changed := 1; }
  }
}
