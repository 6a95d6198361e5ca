/** `import_full_customer_workbook` of `app/full_customer_import.py`: what the preview counts, what the
    import writes, and what importing again writes. Identifiers are positions in the tables. */
module CustomerImport {
  import opened Options

  /** One mention of an address in the workbook; file, sheet, row, column and company identify it. */
  datatype Mention = Mention(file: string, sheet: string, row: nat, column: string, company: string, details: string)

  /** An address of the workbook with what its mentions add up to. Names and addresses are folded. */
  datatype Endpoint = Endpoint(
    address: string, companyKey: string, contactName: string, suppressed: bool,
    first: Option<int>, last: Option<int>, products: set<nat>, mentions: seq<Mention>)

  datatype Customer = Customer(key: string, autoSend: bool, doNotContact: bool)

  datatype Contact = Contact(
    customer: nat, address: string, name: string, suppressed: bool,
    first: Option<int>, last: Option<int>, mentions: seq<Mention>)

  datatype Tables = Tables(customers: seq<Customer>, contacts: seq<Contact>, cases: set<(nat, nat)>)

  datatype Choices = Choices(autoSend: bool, createCases: bool, genericName: string -> bool)

  // ----- Merging -----

  predicate SameKey(a: Mention, b: Mention) {
    a.file == b.file && a.sheet == b.sheet && a.row == b.row && a.column == b.column && a.company == b.company
  }

  /** The last entry with the mention's key. */
  function KnownAt(existing: seq<Mention>, m: Mention): (at: Option<nat>)
    ensures at.Some? ==> at.value < |existing| && SameKey(existing[at.value], m)
    ensures at.Some? ==> forall i :: at.value < i < |existing| ==> !SameKey(existing[i], m)
    ensures at == None ==> forall i :: 0 <= i < |existing| ==> !SameKey(existing[i], m)
  {
    if existing == [] then None
    else if SameKey(existing[|existing| - 1], m) then Some(|existing| - 1)
    else KnownAt(existing[..|existing| - 1], m)
  }

  function Recorded(existing: seq<Mention>, m: Mention): seq<Mention> {
    var at := KnownAt(existing, m);
    if at == None then existing + [m] else existing[at.value := m]
  }

  function MergedMentions(existing: seq<Mention>, mentions: seq<Mention>): seq<Mention> {
    if mentions == [] then existing
    else Recorded(MergedMentions(existing, mentions[..|mentions| - 1]), mentions[|mentions| - 1])
  }

  function Earlier(a: Option<int>, b: Option<int>): Option<int> {
    if a == None then b else if b == None then a else if a.value <= b.value then a else b
  }

  function Later(a: Option<int>, b: Option<int>): Option<int> {
    if a == None then b else if b == None then a else if a.value >= b.value then a else b
  }

  function Updated(c: Contact, e: Endpoint, choices: Choices): Contact {
    c.(name := if choices.genericName(c.name) && !choices.genericName(e.contactName) then e.contactName else c.name,
       suppressed := c.suppressed || e.suppressed,
       first := Earlier(c.first, e.first), last := Later(c.last, e.last),
       mentions := MergedMentions(c.mentions, e.mentions))
  }

  function NewContact(customer: nat, e: Endpoint): Contact {
    Contact(customer, e.address, e.contactName, e.suppressed, e.first, e.last, MergedMentions([], e.mentions))
  }

  function Allowed(c: Customer, choices: Choices): Customer {
    if choices.autoSend && !c.doNotContact then c.(autoSend := true) else c
  }

  // ----- Finding -----

  /** Of customers with one folded name, the last is found. */
  function CompanyAt(customers: seq<Customer>, key: string): (at: Option<nat>)
    ensures at.Some? ==> at.value < |customers| && customers[at.value].key == key
    ensures at.Some? ==> forall i :: at.value < i < |customers| ==> customers[i].key != key
    ensures at == None ==> forall i :: 0 <= i < |customers| ==> customers[i].key != key
  {
    if customers == [] then None
    else if customers[|customers| - 1].key == key then Some(|customers| - 1)
    else CompanyAt(customers[..|customers| - 1], key)
  }

  predicate Fits(c: Contact, address: string, company: Option<nat>) {
    c.address == address && (company.Some? ==> c.customer == company.value)
  }

  function FirstFit(contacts: seq<Contact>, address: string, company: Option<nat>, i: nat): (at: Option<nat>)
    requires i <= |contacts|
    ensures at.Some? ==> i <= at.value < |contacts| && Fits(contacts[at.value], address, company)
    ensures at.Some? ==> forall k :: i <= k < at.value ==> !Fits(contacts[k], address, company)
    ensures at == None ==> forall k :: i <= k < |contacts| ==> !Fits(contacts[k], address, company)
    decreases |contacts| - i
  {
    if i == |contacts| then None
    else if Fits(contacts[i], address, company) then Some(i)
    else FirstFit(contacts, address, company, i + 1)
  }

  /** The address's contact at the company, or else its first contact. */
  function Selected(contacts: seq<Contact>, address: string, company: Option<nat>): (at: Option<nat>)
    ensures at.Some? ==> at.value < |contacts| && contacts[at.value].address == address
    ensures at == None <==> forall i :: 0 <= i < |contacts| ==> contacts[i].address != address
  {
    if company.Some? && FirstFit(contacts, address, company, 0).Some? then FirstFit(contacts, address, company, 0)
    else FirstFit(contacts, address, None, 0)
  }

  // ----- One address -----

  function CasesFor(contact: nat, e: Endpoint, choices: Choices): set<(nat, nat)> {
    if choices.createCases then set p | p in e.products :: (contact, p) else {}
  }

  ghost predicate WellFormed(t: Tables) {
    forall i :: 0 <= i < |t.contacts| ==> t.contacts[i].customer < |t.customers|
  }

  function Chosen(t: Tables, e: Endpoint): (at: Option<nat>)
    ensures at.Some? ==> at.value < |t.contacts| && t.contacts[at.value].address == e.address
  {
    Selected(t.contacts, e.address, CompanyAt(t.customers, e.companyKey))
  }

  function Created(t: Tables, e: Endpoint, choices: Choices): Tables {
    var company := CompanyAt(t.customers, e.companyKey);
    var customers :=
      if company == None then t.customers + [Customer(e.companyKey, choices.autoSend, false)]
      else t.customers[company.value := Allowed(t.customers[company.value], choices)];
    var customer := if company == None then |t.customers| else company.value;
    Tables(customers, t.contacts + [NewContact(customer, e)], t.cases + CasesFor(|t.contacts|, e, choices))
  }

  function Merged(t: Tables, e: Endpoint, choices: Choices, at: nat): Tables
    requires at < |t.contacts| && t.contacts[at].customer < |t.customers|
  {
    var customer := t.contacts[at].customer;
    Tables(t.customers[customer := Allowed(t.customers[customer], choices)],
           t.contacts[at := Updated(t.contacts[at], e, choices)], t.cases + CasesFor(at, e, choices))
  }

  function Imported(t: Tables, e: Endpoint, choices: Choices): Tables
    requires WellFormed(t)
  {
    var at := Chosen(t, e);
    if at == None then Created(t, e, choices) else Merged(t, e, choices, at.value)
  }

  lemma ImportedIsWellFormed(t: Tables, e: Endpoint, choices: Choices)
    requires WellFormed(t)
    ensures WellFormed(Imported(t, e, choices))
  {
  }

  ghost function ImportedAll(t: Tables, es: seq<Endpoint>, choices: Choices): (r: Tables)
    requires WellFormed(t)
    ensures WellFormed(r)
  {
    if es == [] then t
    else
      var before := ImportedAll(t, es[..|es| - 1], choices);
      ImportedIsWellFormed(before, es[|es| - 1], choices);
      Imported(before, es[|es| - 1], choices)
  }

  /** Among contacts of the address, one of the company is chosen before any other, and of equals the first. */
  lemma CompanyContactComesFirst(t: Tables, e: Endpoint, i: nat)
    requires i < |t.contacts| && t.contacts[i].address == e.address
    ensures Chosen(t, e).Some?
    ensures CompanyAt(t.customers, e.companyKey) == Some(t.contacts[i].customer) ==>
      t.contacts[Chosen(t, e).value].customer == t.contacts[i].customer && Chosen(t, e).value <= i
    ensures CompanyAt(t.customers, e.companyKey) == None ==> Chosen(t, e).value <= i
  {
    var company := CompanyAt(t.customers, e.companyKey);
    assert Fits(t.contacts[i], e.address, None);
    assert company == Some(t.contacts[i].customer) ==> Fits(t.contacts[i], e.address, company);
    hide CompanyAt, FirstFit;
  }

  /** A new contact belongs to a customer of the endpoint's company name. */
  lemma CreatedBelongsToCompany(t: Tables, e: Endpoint, choices: Choices)
    ensures var next := Created(t, e, choices); var owner := next.contacts[|t.contacts|].customer;
      owner < |next.customers| && next.customers[owner].key == e.companyKey
  {
  }

  ghost predicate Earliest(d: Option<int>, a: Option<int>, b: Option<int>) {
    (d == a || d == b) && (d == None ==> a == None && b == None)
    && (a.Some? ==> d.Some? && d.value <= a.value) && (b.Some? ==> d.Some? && d.value <= b.value)
  }

  ghost predicate Latest(d: Option<int>, a: Option<int>, b: Option<int>) {
    (d == a || d == b) && (d == None ==> a == None && b == None)
    && (a.Some? ==> d.Some? && d.value >= a.value) && (b.Some? ==> d.Some? && d.value >= b.value)
  }

  /** An import only widens a contact's activity and never lifts a suppression. */
  lemma ActivityOnlyWidens(c: Contact, e: Endpoint, choices: Choices)
    ensures var u := Updated(c, e, choices);
      && Earliest(u.first, c.first, e.first) && Latest(u.last, c.last, e.last)
      && (c.suppressed || e.suppressed ==> u.suppressed) && u.customer == c.customer && u.address == c.address
  {
  }

  // ----- The preview -----

  function Addresses(contacts: seq<Contact>): set<string> {
    set i | 0 <= i < |contacts| :: contacts[i].address
  }

  function CompanyKeys(customers: seq<Customer>): set<string> {
    set i | 0 <= i < |customers| :: customers[i].key
  }

  function NewAddresses(t: Tables, es: seq<Endpoint>): set<string> {
    set i | 0 <= i < |es| && es[i].address !in Addresses(t.contacts) :: es[i].address
  }

  function NewCompanies(t: Tables, es: seq<Endpoint>): set<string> {
    set i | 0 <= i < |es| && es[i].address !in Addresses(t.contacts)
      && es[i].companyKey !in CompanyKeys(t.customers) :: es[i].companyKey
  }

  ghost predicate DistinctAddresses(es: seq<Endpoint>) {
    forall i, j :: 0 <= i < j < |es| ==> es[i].address != es[j].address
  }

  /** Where the apply loop stands after some endpoints. */
  ghost predicate Previewed(t: Tables, es: seq<Endpoint>, now: Tables) {
    && Addresses(now.contacts) == Addresses(t.contacts) + NewAddresses(t, es)
    && CompanyKeys(now.customers) == CompanyKeys(t.customers) + NewCompanies(t, es)
    && |now.contacts| == |t.contacts| + |NewAddresses(t, es)|
    && |now.customers| == |t.customers| + |NewCompanies(t, es)|
  }

  lemma MergedKeepsNames(t: Tables, e: Endpoint, choices: Choices, at: nat)
    requires at < |t.contacts| && t.contacts[at].customer < |t.customers|
    ensures Addresses(Merged(t, e, choices, at).contacts) == Addresses(t.contacts)
    ensures CompanyKeys(Merged(t, e, choices, at).customers) == CompanyKeys(t.customers)
  {
    var next := Merged(t, e, choices, at);
    assert forall i :: 0 <= i < |t.contacts| ==> next.contacts[i].address == t.contacts[i].address;
    assert forall i :: 0 <= i < |t.customers| ==> next.customers[i].key == t.customers[i].key;
  }

  lemma CreatedAddsNames(t: Tables, e: Endpoint, choices: Choices)
    ensures Addresses(Created(t, e, choices).contacts) == Addresses(t.contacts) + {e.address}
    ensures CompanyKeys(Created(t, e, choices).customers) == CompanyKeys(t.customers) + {e.companyKey}
    ensures |Created(t, e, choices).contacts| == |t.contacts| + 1
    ensures |Created(t, e, choices).customers|
      == |t.customers| + if e.companyKey in CompanyKeys(t.customers) then 0 else 1
  {
    var next := Created(t, e, choices);
    assert forall i :: 0 <= i < |t.contacts| ==> next.contacts[i].address == t.contacts[i].address;
    assert next.contacts[|t.contacts|].address == e.address;
    assert forall i :: 0 <= i < |t.customers| ==> next.customers[i].key == t.customers[i].key;
    if CompanyAt(t.customers, e.companyKey) == None { assert next.customers[|t.customers|].key == e.companyKey; }
  }

  lemma PreviewExtends(t: Tables, es: seq<Endpoint>, e: Endpoint)
    ensures NewAddresses(t, es + [e])
      == NewAddresses(t, es) + if e.address in Addresses(t.contacts) then {} else {e.address}
    ensures NewCompanies(t, es + [e]) == NewCompanies(t, es)
      + if e.address in Addresses(t.contacts) || e.companyKey in CompanyKeys(t.customers) then {} else {e.companyKey}
  {
    var longer := es + [e];
    assert forall i :: 0 <= i < |es| ==> longer[i] == es[i];
    assert longer[|es|] == e;
  }

  lemma ChosenIfKnown(t: Tables, e: Endpoint)
    ensures Chosen(t, e) == None <==> e.address !in Addresses(t.contacts)
  {
  }

  lemma CreatedPreviewed(t: Tables, es: seq<Endpoint>, now: Tables, e: Endpoint, choices: Choices)
    requires Previewed(t, es, now) && e.address !in Addresses(now.contacts) && e.address !in NewAddresses(t, es)
    ensures Previewed(t, es + [e], Created(now, e, choices))
  {
    hide Created, NewAddresses, NewCompanies, Addresses, CompanyKeys;
    PreviewExtends(t, es, e);
    CreatedAddsNames(now, e, choices);
    assert NewAddresses(t, es + [e]) == NewAddresses(t, es) + {e.address};
    if e.companyKey in CompanyKeys(now.customers) {
      assert NewCompanies(t, es + [e]) == NewCompanies(t, es);
    } else {
      assert NewCompanies(t, es + [e]) == NewCompanies(t, es) + {e.companyKey};
    }
  }

  lemma MergedPreviewed(t: Tables, es: seq<Endpoint>, now: Tables, e: Endpoint, choices: Choices, at: nat)
    requires Previewed(t, es, now) && e.address in Addresses(now.contacts) && e.address !in NewAddresses(t, es)
    requires at < |now.contacts| && now.contacts[at].customer < |now.customers|
    ensures Previewed(t, es + [e], Merged(now, e, choices, at))
  {
    hide NewAddresses, NewCompanies, Addresses, CompanyKeys;
    PreviewExtends(t, es, e);
    MergedKeepsNames(now, e, choices, at);
    MergedKeepsSizes(now, e, choices, at);
    hide Merged;
    assert e.address in Addresses(t.contacts);
    assert NewAddresses(t, es + [e]) == NewAddresses(t, es) && NewCompanies(t, es + [e]) == NewCompanies(t, es);
  }

  lemma OneStepPreviewed(t: Tables, es: seq<Endpoint>, now: Tables, e: Endpoint, choices: Choices)
    requires WellFormed(now) && Previewed(t, es, now) && DistinctAddresses(es + [e])
    ensures Previewed(t, es + [e], Imported(now, e, choices))
  {
    hide Created, Merged, Chosen, Previewed;
    NotYetNew(t, es, e);
    ChosenIfKnown(now, e);
    var at := Chosen(now, e);
    if at == None {
      CreatedPreviewed(t, es, now, e, choices);
    } else {
      MergedPreviewed(t, es, now, e, choices, at.value);
    }
  }

  lemma MergedKeepsSizes(t: Tables, e: Endpoint, choices: Choices, at: nat)
    requires at < |t.contacts| && t.contacts[at].customer < |t.customers|
    ensures |Merged(t, e, choices, at).contacts| == |t.contacts|
      && |Merged(t, e, choices, at).customers| == |t.customers|
  {
  }

  lemma NotYetNew(t: Tables, es: seq<Endpoint>, e: Endpoint)
    requires DistinctAddresses(es + [e])
    ensures e.address !in NewAddresses(t, es)
  {
    var longer := es + [e];
    forall i | 0 <= i < |es| ensures es[i].address != e.address {
      assert longer[i].address != longer[|es|].address;
    }
  }

  /** Apply creates exactly the contacts and customers the preview counted, in whatever order. */
  lemma {:induction false} DryRunAgreesWithApply(t: Tables, es: seq<Endpoint>, choices: Choices)
    requires WellFormed(t) && DistinctAddresses(es)
    ensures Previewed(t, es, ImportedAll(t, es, choices))
    decreases |es|
  {
    hide Imported;
    if es == [] {
      assert NewAddresses(t, es) == {} && NewCompanies(t, es) == {};
    } else {
      var init, last := es[..|es| - 1], es[|es| - 1];
      assert es == init + [last];
      DryRunAgreesWithApply(t, init, choices);
      OneStepPreviewed(t, init, ImportedAll(t, init, choices), last, choices);
    }
  }

  /** The preview counts the same in every order of the addresses. */
  lemma PreviewIgnoresOrder(t: Tables, es: seq<Endpoint>, fs: seq<Endpoint>)
    requires multiset(es) == multiset(fs)
    ensures NewAddresses(t, es) == NewAddresses(t, fs) && NewCompanies(t, es) == NewCompanies(t, fs)
  {
    PreviewIsOfMembers(t, es, fs);
    PreviewIsOfMembers(t, fs, es);
  }

  lemma PreviewIsOfMembers(t: Tables, es: seq<Endpoint>, fs: seq<Endpoint>)
    requires multiset(es) == multiset(fs)
    ensures NewAddresses(t, es) <= NewAddresses(t, fs) && NewCompanies(t, es) <= NewCompanies(t, fs)
  {
    hide Addresses, CompanyKeys;
    forall i | 0 <= i < |es| ensures es[i] in fs {
      assert es[i] in multiset(fs);
    }
  }
}
