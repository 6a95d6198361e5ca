/** What one import does, column by column: which contact it writes and what it leaves alone. */
module CustomerEffects {
  import opened Options
  import opened CustomerImport
  import opened CustomerReimport

  // ----- Customers -----

  /** Automatic mail is switched on only by the choice of the import, never for a customer not to be contacted. */
  predicate Permits(before: Customer, after: Customer, choices: Choices) {
    && after.key == before.key && after.doNotContact == before.doNotContact
    && (after.autoSend <==> before.autoSend || (choices.autoSend && !before.doNotContact))
  }

  predicate IsNewCustomer(c: Customer, key: string, choices: Choices) {
    c.key == key && (c.autoSend <==> choices.autoSend) && !c.doNotContact
  }

  /** One row is the owner's; the others stay. */
  ghost predicate OwnerWritten(before: Tables, after: Tables, owner: nat, e: Endpoint, choices: Choices) {
    && owner < |after.customers| && |before.customers| <= |after.customers| <= |before.customers| + 1
    && (forall i :: 0 <= i < |before.customers| && i != owner ==> after.customers[i] == before.customers[i])
    && (if owner < |before.customers|
        then Permits(before.customers[owner], after.customers[owner], choices)
          && |after.customers| == |before.customers|
        else IsNewCustomer(after.customers[owner], e.companyKey, choices) && owner == |before.customers|)
  }

  // ----- Contacts -----

  /** A generic name gives way to a proper one; dates widen; suppression stays; every mention is held. */
  ghost predicate Updates(before: Contact, after: Contact, e: Endpoint, choices: Choices) {
    && after.customer == before.customer && after.address == before.address
    && after.name ==
      (if choices.genericName(before.name) && !choices.genericName(e.contactName) then e.contactName else before.name)
    && (after.suppressed <==> before.suppressed || e.suppressed)
    && Earliest(after.first, before.first, e.first) && Latest(after.last, before.last, e.last)
    && HoldsAll(after.mentions, e.mentions)
    && (forall m :: Holds(before.mentions, m) && !MentionedIn(e.mentions, m) ==> Holds(after.mentions, m))
  }

  ghost predicate HoldsAll(held: seq<Mention>, mentions: seq<Mention>) {
    forall k :: 0 <= k < |mentions| ==> Holds(held, mentions[k])
  }

  predicate MentionedIn(mentions: seq<Mention>, m: Mention) {
    exists k ::
      0 <= k < |mentions| && mentions[k].file == m.file && mentions[k].sheet == m.sheet && mentions[k].row == m.row
      && mentions[k].column == m.column && mentions[k].company == m.company
  }

  ghost predicate IsNewContact(c: Contact, owner: nat, e: Endpoint) {
    && c.customer == owner && c.address == e.address && c.name == e.contactName && c.suppressed == e.suppressed
    && c.first == e.first && c.last == e.last && HoldsAll(c.mentions, e.mentions)
  }

  predicate Known(t: Tables, e: Endpoint) {
    exists i :: 0 <= i < |t.contacts| && t.contacts[i].address == e.address
  }

  /** The known contact is updated, or a new one is added at the end; the others stay. */
  ghost predicate ContactWritten(before: Tables, after: Tables, at: nat, e: Endpoint, choices: Choices) {
    && at < |after.contacts|
    && (forall i :: 0 <= i < |before.contacts| && i != at ==>
          i < |after.contacts| && after.contacts[i] == before.contacts[i])
    && (Known(before, e) ==>
          at < |before.contacts| == |after.contacts| && before.contacts[at].address == e.address
          && Updates(before.contacts[at], after.contacts[at], e, choices))
    && (!Known(before, e) ==>
          at == |before.contacts| == |after.contacts| - 1
          && IsNewContact(after.contacts[at], after.contacts[at].customer, e))
  }

  /** A case is opened exactly for each product named, when cases are wanted. */
  ghost predicate CasesOpened(before: Tables, after: Tables, at: nat, e: Endpoint, choices: Choices) {
    forall contact: nat, product: nat :: (contact, product) in after.cases <==>
      (contact, product) in before.cases || (choices.createCases && contact == at && product in e.products)
  }

  ghost predicate Imports(before: Tables, after: Tables, at: nat, e: Endpoint, choices: Choices) {
    && ContactWritten(before, after, at, e, choices) && CasesOpened(before, after, at, e, choices)
    && OwnerWritten(before, after, after.contacts[at].customer, e, choices)
  }

  lemma {:induction false} OthersAreKept(existing: seq<Mention>, mentions: seq<Mention>, m: Mention)
    requires Holds(existing, m) && !MentionedIn(mentions, m)
    ensures Holds(MergedMentions(existing, mentions), m)
    decreases |mentions|
  {
    assert mentions != [] ==> !SameKey(mentions[|mentions| - 1], m);
    hide Holds, Recorded, SameKey;
    if mentions != [] {
      var init := mentions[..|mentions| - 1];
      assert forall k :: 0 <= k < |init| ==> init[k] == mentions[k];
      OthersAreKept(existing, init, m);
      RecordedKeepsOthers(MergedMentions(existing, init), mentions[|mentions| - 1], m);
    }
  }

  lemma MentionsAreHeld(existing: seq<Mention>, mentions: seq<Mention>)
    requires DistinctMentions(mentions)
    ensures HoldsAll(MergedMentions(existing, mentions), mentions)
    ensures forall m :: Holds(existing, m) && !MentionedIn(mentions, m) ==> Holds(MergedMentions(existing, mentions), m)
  {
    hide Holds, MergedMentions, MentionedIn;
    forall k | 0 <= k < |mentions| ensures Holds(MergedMentions(existing, mentions), mentions[k]) {
      MergedHoldsAll(existing, mentions, k);
    }
    forall m | Holds(existing, m) && !MentionedIn(mentions, m) ensures Holds(MergedMentions(existing, mentions), m) {
      OthersAreKept(existing, mentions, m);
    }
  }

  lemma UpdatedUpdates(c: Contact, e: Endpoint, choices: Choices)
    requires DistinctMentions(e.mentions)
    ensures Updates(c, Updated(c, e, choices), e, choices)
  {
    hide Holds, HoldsAll, MergedMentions, MentionedIn;
    MentionsAreHeld(c.mentions, e.mentions);
  }

  function Position(t: Tables, e: Endpoint): nat {
    if Chosen(t, e).Some? then Chosen(t, e).value else |t.contacts|
  }

  lemma KnownIsChosen(t: Tables, e: Endpoint)
    ensures Known(t, e) <==> Chosen(t, e).Some?
  {
    hide CompanyAt, FirstFit;
  }

  lemma MergedImports(t: Tables, e: Endpoint, choices: Choices, at: nat)
    requires WellFormed(t) && DistinctMentions(e.mentions) && Known(t, e)
    requires at < |t.contacts| && t.contacts[at].address == e.address
    ensures Imports(t, Merged(t, e, choices, at), at, e, choices)
  {
    UpdatedUpdates(t.contacts[at], e, choices);
    assert Updated(t.contacts[at], e, choices).customer == t.contacts[at].customer;
    hide Updated, Updates, Known;
  }

  lemma CreatedImports(t: Tables, e: Endpoint, choices: Choices)
    requires DistinctMentions(e.mentions) && !Known(t, e)
    ensures Imports(t, Created(t, e, choices), |t.contacts|, e, choices)
  {
    MentionsAreHeld([], e.mentions);
    hide CompanyAt, Holds, HoldsAll, MergedMentions, Known, Updates;
  }

  /** Importing an address writes one contact, its owner and its cases, and nothing else. */
  lemma ImportedImports(t: Tables, e: Endpoint, choices: Choices)
    requires WellFormed(t) && DistinctMentions(e.mentions)
    ensures Imports(t, Imported(t, e, choices), Position(t, e), e, choices)
  {
    hide Chosen, Known, Imports, Created, Merged;
    KnownIsChosen(t, e);
    if Chosen(t, e).Some? {
      MergedImports(t, e, choices, Chosen(t, e).value);
    } else {
      CreatedImports(t, e, choices);
    }
  }

  // ----- A whole workbook -----

  /** Nobody who is not to be contacted is switched to automatic mail, and no one else without the choice; keys
      and vetoes stay. */
  ghost predicate Respects(before: Tables, after: Tables, choices: Choices) {
    && |before.customers| <= |after.customers| && |before.contacts| <= |after.contacts|
    && (forall i :: 0 <= i < |before.customers| ==>
          && after.customers[i].key == before.customers[i].key
          && after.customers[i].doNotContact == before.customers[i].doNotContact
          && (before.customers[i].autoSend ==> after.customers[i].autoSend)
          && (after.customers[i].autoSend && !before.customers[i].autoSend ==>
                choices.autoSend && !before.customers[i].doNotContact))
    && (forall i :: 0 <= i < |before.contacts| ==>
          && after.contacts[i].address == before.contacts[i].address
          && after.contacts[i].customer == before.contacts[i].customer
          && (before.contacts[i].suppressed ==> after.contacts[i].suppressed))
    && (forall p :: p in before.cases ==> p in after.cases)
    && (!choices.createCases ==> after.cases == before.cases)
  }

  lemma ImportRespects(before: Tables, after: Tables, at: nat, e: Endpoint, choices: Choices)
    requires Imports(before, after, at, e, choices)
    ensures Respects(before, after, choices)
  {
    hide Known, HoldsAll, Holds, MentionedIn, Earliest, Latest;
    assert forall p :: p in before.cases ==> p in after.cases by {
      forall p | p in before.cases ensures p in after.cases { assert p == (p.0, p.1); }
    }
    if !choices.createCases {
      forall p ensures p in after.cases <==> p in before.cases { assert p == (p.0, p.1); }
    }
  }

  lemma RespectsComposes(before: Tables, mid: Tables, after: Tables, choices: Choices)
    requires Respects(before, mid, choices) && Respects(mid, after, choices)
    ensures Respects(before, after, choices)
  {
  }

  lemma {:induction false} WorkbookRespects(t: Tables, es: seq<Endpoint>, choices: Choices)
    requires WellFormed(t) && forall i :: 0 <= i < |es| ==> DistinctMentions(es[i].mentions)
    ensures Respects(t, ImportedAll(t, es, choices), choices)
    decreases |es|
  {
    if es != [] {
      hide Imported, Imports, Respects, WellFormed, DistinctMentions;
      var init, last := es[..|es| - 1], es[|es| - 1];
      var before := ImportedAll(t, init, choices);
      WorkbookRespects(t, init, choices);
      ImportedImports(before, last, choices);
      ImportRespects(before, Imported(before, last, choices), Position(before, last), last, choices);
      RespectsComposes(t, before, Imported(before, last, choices), choices);
    }
  }
}
