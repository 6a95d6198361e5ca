/** Importing the same workbook again changes nothing. */
module CustomerReimport {
  import opened Options
  import opened CustomerImport

  /** One cell mentions an address once. */
  ghost predicate DistinctMentions(mentions: seq<Mention>) {
    forall i, j ::
      0 <= i < j < |mentions| ==>
      mentions[i].file != mentions[j].file || mentions[i].sheet != mentions[j].sheet
      || mentions[i].row != mentions[j].row || mentions[i].column != mentions[j].column
      || mentions[i].company != mentions[j].company
  }

  ghost predicate OneWorkbook(es: seq<Endpoint>) {
    DistinctAddresses(es) && forall i :: 0 <= i < |es| ==> DistinctMentions(es[i].mentions)
  }

  // ----- One contact -----

  ghost predicate Holds(existing: seq<Mention>, m: Mention) {
    KnownAt(existing, m).Some? && existing[KnownAt(existing, m).value] == m
  }

  lemma RecordedHolds(existing: seq<Mention>, m: Mention)
    ensures Holds(Recorded(existing, m), m)
  {
    var next, at := Recorded(existing, m), KnownAt(existing, m);
    var place := if at == None then |existing| else at.value;
    assert next[place] == m;
    assert KnownAt(next, m).Some?;
    if at.Some? { assert forall i :: at.value < i < |existing| ==> next[i] == existing[i]; }
    hide KnownAt;
    assert KnownAt(next, m).value == place;
  }

  lemma RecordedKeepsOthers(existing: seq<Mention>, m: Mention, other: Mention)
    requires Holds(existing, other) && !SameKey(m, other)
    ensures Holds(Recorded(existing, m), other)
  {
    hide KnownAt;
    var next, place := Recorded(existing, m), KnownAt(existing, other).value;
    assert next[place] == other;
    assert forall i :: place < i < |next| ==> !SameKey(next[i], other);
    assert KnownAt(next, other).Some?;
    assert KnownAt(next, other).value == place;
  }

  lemma RecordedAgain(existing: seq<Mention>, m: Mention)
    requires Holds(existing, m)
    ensures Recorded(existing, m) == existing
  {
    hide KnownAt;
  }

  lemma {:induction false} MergedHoldsAll(existing: seq<Mention>, mentions: seq<Mention>, k: nat)
    requires DistinctMentions(mentions) && k < |mentions|
    ensures Holds(MergedMentions(existing, mentions), mentions[k])
    decreases |mentions|
  {
    var init, last := mentions[..|mentions| - 1], mentions[|mentions| - 1];
    assert k < |mentions| - 1 ==> !SameKey(last, mentions[k]);
    hide Holds, Recorded, SameKey;
    var before := MergedMentions(existing, init);
    if k == |mentions| - 1 {
      RecordedHolds(before, last);
    } else {
      MergedHoldsAll(existing, init, k);
      RecordedKeepsOthers(before, last, mentions[k]);
    }
  }

  lemma {:induction false} MergingHeldIsNothing(existing: seq<Mention>, mentions: seq<Mention>)
    requires forall k :: 0 <= k < |mentions| ==> Holds(existing, mentions[k])
    ensures MergedMentions(existing, mentions) == existing
    decreases |mentions|
  {
    hide Holds, Recorded;
    if mentions != [] {
      MergingHeldIsNothing(existing, mentions[..|mentions| - 1]);
      RecordedAgain(existing, mentions[|mentions| - 1]);
    }
  }

  lemma MergedTwice(existing: seq<Mention>, mentions: seq<Mention>)
    requires DistinctMentions(mentions)
    ensures MergedMentions(MergedMentions(existing, mentions), mentions) == MergedMentions(existing, mentions)
  {
    hide Holds, MergedMentions;
    forall k | 0 <= k < |mentions| ensures Holds(MergedMentions(existing, mentions), mentions[k]) {
      MergedHoldsAll(existing, mentions, k);
    }
    MergingHeldIsNothing(MergedMentions(existing, mentions), mentions);
  }

  lemma UpdatedTwice(c: Contact, e: Endpoint, choices: Choices)
    requires DistinctMentions(e.mentions)
    ensures Updated(Updated(c, e, choices), e, choices) == Updated(c, e, choices)
  {
    MergedTwice(c.mentions, e.mentions);
  }

  lemma NewContactUpdated(customer: nat, e: Endpoint, choices: Choices)
    requires DistinctMentions(e.mentions)
    ensures Updated(NewContact(customer, e), e, choices) == NewContact(customer, e)
  {
    MergedTwice([], e.mentions);
  }

  // ----- One endpoint -----

  /** Importing the endpoint would find its contact and change nothing. */
  ghost predicate Settled(t: Tables, e: Endpoint, choices: Choices) {
    Chosen(t, e).Some? && SettledAt(t, e, choices, Chosen(t, e).value)
  }

  ghost predicate SettledAt(t: Tables, e: Endpoint, choices: Choices, at: nat) {
    && at < |t.contacts| && t.contacts[at].customer < |t.customers|
    && Updated(t.contacts[at], e, choices) == t.contacts[at]
    && Allowed(t.customers[t.contacts[at].customer], choices) == t.customers[t.contacts[at].customer]
    && CasesFor(at, e, choices) <= t.cases
  }

  lemma SettledChangesNothing(t: Tables, e: Endpoint, choices: Choices)
    requires WellFormed(t) && Settled(t, e, choices)
    ensures Imported(t, e, choices) == t
  {
    hide Updated, Allowed, CasesFor, Chosen;
  }

  /** Who is found depends on the names, addresses and owners in the tables only. */
  ghost predicate SameNames(t: Tables, next: Tables) {
    && |t.customers| == |next.customers| && |t.contacts| == |next.contacts|
    && (forall i :: 0 <= i < |t.customers| ==> t.customers[i].key == next.customers[i].key)
    && (forall i :: 0 <= i < |t.contacts| ==>
      t.contacts[i].address == next.contacts[i].address && t.contacts[i].customer == next.contacts[i].customer)
  }

  lemma CompanyAtSame(a: seq<Customer>, b: seq<Customer>, key: string)
    requires |a| == |b| && forall i :: 0 <= i < |a| ==> a[i].key == b[i].key
    ensures CompanyAt(a, key) == CompanyAt(b, key)
  {
    var x, y := CompanyAt(a, key), CompanyAt(b, key);
    hide CompanyAt;
    assert x.Some? ==> b[x.value].key == key;
    assert y.Some? ==> a[y.value].key == key;
  }

  lemma FirstFitSame(a: seq<Contact>, b: seq<Contact>, address: string, company: Option<nat>)
    requires |a| == |b| && forall i :: 0 <= i < |a| ==> a[i].address == b[i].address && a[i].customer == b[i].customer
    ensures FirstFit(a, address, company, 0) == FirstFit(b, address, company, 0)
  {
    var x, y := FirstFit(a, address, company, 0), FirstFit(b, address, company, 0);
    hide FirstFit;
    assert forall i :: 0 <= i < |a| ==> Fits(a[i], address, company) == Fits(b[i], address, company);
  }

  lemma ChosenSame(t: Tables, next: Tables, e: Endpoint)
    requires SameNames(t, next)
    ensures Chosen(t, e) == Chosen(next, e)
  {
    CompanyAtSame(t.customers, next.customers, e.companyKey);
    FirstFitSame(t.contacts, next.contacts, e.address, CompanyAt(t.customers, e.companyKey));
    FirstFitSame(t.contacts, next.contacts, e.address, None);
    hide CompanyAt, FirstFit;
  }

  lemma MergedSameNames(t: Tables, e: Endpoint, choices: Choices, at: nat)
    requires at < |t.contacts| && t.contacts[at].customer < |t.customers|
    ensures SameNames(t, Merged(t, e, choices, at))
  {
  }

  lemma AllowedTwice(c: Customer, choices: Choices)
    ensures Allowed(Allowed(c, choices), choices) == Allowed(c, choices)
  {
  }

  lemma MergedSettles(t: Tables, e: Endpoint, choices: Choices, at: nat)
    requires WellFormed(t) && DistinctMentions(e.mentions) && Chosen(t, e) == Some(at)
    ensures Settled(Merged(t, e, choices, at), e, choices)
  {
    MergedSameNames(t, e, choices, at);
    ChosenSame(t, Merged(t, e, choices, at), e);
    UpdatedTwice(t.contacts[at], e, choices);
    AllowedTwice(t.customers[t.contacts[at].customer], choices);
    assert Updated(t.contacts[at], e, choices).customer == t.contacts[at].customer;
    hide Updated, Allowed, CasesFor, Chosen;
  }

  /** A single contact of the address is chosen whatever the company. */
  lemma OnlyContactIsChosen(t: Tables, e: Endpoint, at: nat)
    requires at < |t.contacts| && t.contacts[at].address == e.address
    requires forall i :: 0 <= i < |t.contacts| && i != at ==> t.contacts[i].address != e.address
    ensures Chosen(t, e) == Some(at)
  {
    hide CompanyAt;
    assert Fits(t.contacts[at], e.address, None);
  }

  lemma CreatedSettles(t: Tables, e: Endpoint, choices: Choices)
    requires WellFormed(t) && DistinctMentions(e.mentions) && Chosen(t, e) == None
    ensures Settled(Created(t, e, choices), e, choices)
  {
    hide Updated, CasesFor, MergedMentions;
    var next, n := Created(t, e, choices), |t.contacts|;
    OnlyContactIsChosen(next, e, n);
    var company := CompanyAt(t.customers, e.companyKey);
    NewContactUpdated(if company == None then |t.customers| else company.value, e, choices);
    if company.Some? { AllowedTwice(t.customers[company.value], choices); }
    hide Chosen, CompanyAt;
  }

  lemma ImportSettles(t: Tables, e: Endpoint, choices: Choices)
    requires WellFormed(t) && DistinctMentions(e.mentions)
    ensures Settled(Imported(t, e, choices), e, choices)
  {
    hide Settled, Created, Merged, Chosen;
    var at := Chosen(t, e);
    if at == None { CreatedSettles(t, e, choices); } else { MergedSettles(t, e, choices, at.value); }
  }

  // ----- Endpoints do not disturb each other -----

  lemma MergedLeavesSettled(t: Tables, e: Endpoint, f: Endpoint, choices: Choices, at: nat)
    requires WellFormed(t) && Settled(t, e, choices) && e.address != f.address
    requires at < |t.contacts| && t.contacts[at].address == f.address
    ensures Settled(Merged(t, f, choices, at), e, choices)
  {
    MergedSameNames(t, f, choices, at);
    ChosenSame(t, Merged(t, f, choices, at), e);
    AllowedTwice(t.customers[t.contacts[at].customer], choices);
    hide Updated, Allowed, CasesFor, Chosen;
  }

  /** A new contact of another address, at a company old or new, changes nobody's choice. */
  lemma CreatedKeepsChoice(t: Tables, e: Endpoint, f: Endpoint, choices: Choices)
    requires WellFormed(t) && Chosen(t, e).Some? && e.address != f.address
    ensures Chosen(Created(t, f, choices), e) == Chosen(t, e)
  {
    var next := Created(t, f, choices);
    var before, after := CompanyAt(t.customers, e.companyKey), CompanyAt(next.customers, e.companyKey);
    CompanyAfterCreation(t, e, f, choices);
    FitsAfterCreation(t, e, f, choices, before);
    FitsAfterCreation(t, e, f, choices, None);
    if before != after {
      FitsAfterCreation(t, e, f, choices, after);
      NobodyFitsNewCompany(t, e.address, |t.customers|);
    }
    hide FirstFit, CompanyAt, Created;
  }

  lemma CompanyAfterCreation(t: Tables, e: Endpoint, f: Endpoint, choices: Choices)
    ensures
      var before := CompanyAt(t.customers, e.companyKey);
      var after := CompanyAt(Created(t, f, choices).customers, e.companyKey);
      after == before || (before == None && after == Some(|t.customers|))
  {
    var next := Created(t, f, choices);
    var before, after := CompanyAt(t.customers, e.companyKey), CompanyAt(next.customers, e.companyKey);
    var company := CompanyAt(t.customers, f.companyKey);
    hide CompanyAt;
    assert forall i :: 0 <= i < |t.customers| ==> next.customers[i].key == t.customers[i].key;
  }

  lemma FitsAfterCreation(t: Tables, e: Endpoint, f: Endpoint, choices: Choices, company: Option<nat>)
    requires e.address != f.address
    ensures FirstFit(Created(t, f, choices).contacts, e.address, company, 0)
      == FirstFit(t.contacts, e.address, company, 0)
  {
    var next := Created(t, f, choices);
    var x, y := FirstFit(t.contacts, e.address, company, 0), FirstFit(next.contacts, e.address, company, 0);
    hide FirstFit;
    assert forall i :: 0 <= i < |t.contacts| ==> next.contacts[i] == t.contacts[i];
    assert !Fits(next.contacts[|t.contacts|], e.address, company);
  }

  lemma NobodyFitsNewCompany(t: Tables, address: string, customer: nat)
    requires WellFormed(t) && customer >= |t.customers|
    ensures FirstFit(t.contacts, address, Some(customer), 0) == None
  {
    hide FirstFit;
    var x := FirstFit(t.contacts, address, Some(customer), 0);
    assert forall i :: 0 <= i < |t.contacts| ==> !Fits(t.contacts[i], address, Some(customer));
  }

  lemma CreatedLeavesSettled(t: Tables, e: Endpoint, f: Endpoint, choices: Choices)
    requires WellFormed(t) && Settled(t, e, choices) && e.address != f.address
    ensures Settled(Created(t, f, choices), e, choices)
  {
    CreatedKeepsChoice(t, e, f, choices);
    var company := CompanyAt(t.customers, f.companyKey);
    if company.Some? { AllowedTwice(t.customers[company.value], choices); }
    hide Updated, Allowed, CasesFor, Chosen, CompanyAt;
  }

  lemma ImportLeavesSettled(t: Tables, e: Endpoint, f: Endpoint, choices: Choices)
    requires WellFormed(t) && Settled(t, e, choices) && e.address != f.address
    ensures Settled(Imported(t, f, choices), e, choices)
  {
    hide Settled, Created, Merged;
    var at := Chosen(t, f);
    if at == None { CreatedLeavesSettled(t, e, f, choices); } else { MergedLeavesSettled(t, e, f, choices, at.value); }
  }

  // ----- The whole workbook -----

  lemma {:induction false} AllSettled(t: Tables, es: seq<Endpoint>, choices: Choices, k: nat)
    requires WellFormed(t) && OneWorkbook(es) && k < |es|
    ensures Settled(ImportedAll(t, es, choices), es[k], choices)
    decreases |es|
  {
    hide Settled, Imported;
    var init, last := es[..|es| - 1], es[|es| - 1];
    var before := ImportedAll(t, init, choices);
    if k == |es| - 1 {
      ImportSettles(before, last, choices);
    } else {
      AllSettled(t, init, choices, k);
      ImportLeavesSettled(before, es[k], last, choices);
    }
  }

  lemma {:induction false} ImportingSettledIsNothing(t: Tables, es: seq<Endpoint>, choices: Choices)
    requires WellFormed(t) && forall k :: 0 <= k < |es| ==> Settled(t, es[k], choices)
    ensures ImportedAll(t, es, choices) == t
    decreases |es|
  {
    hide Settled, Imported;
    if es != [] {
      ImportingSettledIsNothing(t, es[..|es| - 1], choices);
      SettledChangesNothing(t, es[|es| - 1], choices);
    }
  }

  /** No customer, contact or case is created again, and no date, name, flag or mention changes. */
  lemma ReimportChangesNothing(t: Tables, es: seq<Endpoint>, choices: Choices)
    requires WellFormed(t) && OneWorkbook(es)
    ensures ImportedAll(ImportedAll(t, es, choices), es, choices) == ImportedAll(t, es, choices)
  {
    hide Settled, ImportedAll;
    forall k | 0 <= k < |es| ensures Settled(ImportedAll(t, es, choices), es[k], choices) {
      AllSettled(t, es, choices, k);
    }
    ImportingSettledIsNothing(ImportedAll(t, es, choices), es, choices);
  }
}
