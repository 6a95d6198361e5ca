/** The apply loop of `app/full_customer_import.py` with its dictionaries and counters. */
module CustomerImporters {
  import opened Options
  import opened CustomerImport
  import opened CustomerReimport

  /** The positions of an address's contacts, in table order. */
  function MatchesOf(contacts: seq<Contact>, address: string): seq<nat> {
    if contacts == [] then
      []
    else
      var n := |contacts| - 1;
      MatchesOf(contacts[..n], address) + if contacts[n].address == address then [n] else []
  }

  ghost predicate NamesIndexed(byName: map<string, nat>, customers: seq<Customer>) {
    forall key :: (if key in byName then Some(byName[key]) else None) == CompanyAt(customers, key)
  }

  ghost predicate AddressesIndexed(byEmail: map<string, seq<nat>>, contacts: seq<Contact>) {
    forall address :: (if address in byEmail then byEmail[address] else []) == MatchesOf(contacts, address)
  }

  function Lookup(byName: map<string, nat>, key: string): Option<nat> {
    if key in byName then Some(byName[key]) else None
  }

  function Listed(byEmail: map<string, seq<nat>>, address: string): seq<nat> {
    if address in byEmail then byEmail[address] else []
  }

  lemma {:induction false} MatchesAreContacts(contacts: seq<Contact>, address: string)
    ensures forall k :: 0 <= k < |MatchesOf(contacts, address)| ==>
      MatchesOf(contacts, address)[k] < |contacts| && contacts[MatchesOf(contacts, address)[k]].address == address
    ensures forall i: nat :: i < |contacts| && contacts[i].address == address ==> i in MatchesOf(contacts, address)
    ensures forall j, k :: 0 <= j < k < |MatchesOf(contacts, address)| ==>
      MatchesOf(contacts, address)[j] < MatchesOf(contacts, address)[k]
  {
    if contacts != [] { MatchesAreContacts(contacts[..|contacts| - 1], address); }
  }

  /** The first listed contact that fits is the first in the table that fits. */
  method FirstOf(contacts: seq<Contact>, matches: seq<nat>, address: string, company: Option<nat>)
      returns (at: Option<nat>)
    requires matches == MatchesOf(contacts, address)
    ensures at == FirstFit(contacts, address, company, 0)
  {
    MatchesAreContacts(contacts, address);
    ghost var first := FirstFit(contacts, address, company, 0);
    hide FirstFit, MatchesOf;
    for k := 0 to |matches|
      invariant forall j :: 0 <= j < k ==> !Fits(contacts[matches[j]], address, company)
    {
      if company == None || contacts[matches[k]].customer == company.value {
        return Some(matches[k]);
      }
    }
    at := None;
  }

  class CustomerImporter {
    var customers: seq<Customer>
    var contacts: seq<Contact>
    var cases: set<(nat, nat)>

    function Contents(): Tables
      reads this
    {
      Tables(customers, contacts, cases)
    }

    constructor ()
      ensures Contents() == Tables([], [], {})
    {
      customers, contacts, cases := [], [], {};
    }

    method IndexCustomers() returns (byName: map<string, nat>)
      ensures NamesIndexed(byName, customers)
    {
      byName := map[];
      for i := 0 to |customers|
        invariant NamesIndexed(byName, customers[..i])
      {
        assert customers[..i + 1][..i] == customers[..i];
        byName := byName[customers[i].key := i];
      }
      assert customers[..|customers|] == customers;
    }

    method IndexContacts() returns (byEmail: map<string, seq<nat>>)
      ensures AddressesIndexed(byEmail, contacts)
    {
      byEmail := map[];
      for i := 0 to |contacts|
        invariant AddressesIndexed(byEmail, contacts[..i])
      {
        assert contacts[..i + 1][..i] == contacts[..i];
        byEmail := byEmail[contacts[i].address := Listed(byEmail, contacts[i].address) + [i]];
      }
      assert contacts[..|contacts|] == contacts;
    }

    method ChooseContact(e: Endpoint, company: Option<nat>, matches: seq<nat>) returns (at: Option<nat>)
      requires matches == MatchesOf(contacts, e.address) && company == CompanyAt(customers, e.companyKey)
      ensures at == Chosen(Contents(), e)
    {
      hide MatchesOf, CompanyAt, FirstFit;
      if company.Some? {
        at := FirstOf(contacts, matches, e.address, company);
        if at.Some? {
          return;
        }
      }
      at := FirstOf(contacts, matches, e.address, None);
    }

    method AddCases(at: nat, e: Endpoint, choices: Choices) returns (created: nat)
      modifies this`cases
      ensures cases == old(cases) + CasesFor(at, e, choices)
      ensures |cases| == |old(cases)| + created
    {
      var pending := if choices.createCases then e.products else {};
      created := 0;
      while pending != {}
        invariant pending <= e.products && (!choices.createCases ==> pending == {})
        invariant cases == old(cases) + CasesFor(at, e.(products := e.products - pending), choices)
        invariant |cases| == |old(cases)| + created
        decreases pending
      {
        var product :| product in pending;
        pending := pending - {product};
        assert e.products - pending == e.products - (pending + {product}) + {product};
        if (at, product) !in cases {
          cases := cases + {(at, product)};
          created := created + 1;
        }
      }
      assert e.products - pending == e.products;
    }

    /** The result's counters: customers and contacts created, contacts updated, cases created. */
    method Import(endpoints: seq<Endpoint>, choices: Choices)
      returns (newCustomers: nat, newContacts: nat, updatedContacts: nat, newCases: nat)
      requires WellFormed(Contents())
      modifies this
      ensures Contents() == ImportedAll(old(Contents()), endpoints, choices)
      ensures |customers| == |old(customers)| + newCustomers && |contacts| == |old(contacts)| + newContacts
      ensures newContacts + updatedContacts == |endpoints|
      ensures |cases| == |old(cases)| + newCases
    {
      hide NamesIndexed, AddressesIndexed, Imported, WellFormed;
      newCustomers, newContacts, updatedContacts, newCases := 0, 0, 0, 0;
      var byName := IndexCustomers();
      var byEmail := IndexContacts();
      ghost var start := Contents();
      for i := 0 to |endpoints|
        invariant WellFormed(Contents()) && Contents() == ImportedAll(start, endpoints[..i], choices)
        invariant NamesIndexed(byName, customers) && AddressesIndexed(byEmail, contacts)
        invariant |customers| == |start.customers| + newCustomers && |contacts| == |start.contacts| + newContacts
        invariant newContacts + updatedContacts == i
        invariant |cases| >= |start.cases| && newCases == |cases| - |start.cases|
      {
        assert endpoints[..i + 1][..i] == endpoints[..i];
        ImportedIsWellFormed(Contents(), endpoints[i], choices);
        var createdCustomer, createdContact, createdCases;
        byName, byEmail, createdCustomer, createdContact, createdCases :=
          ImportOne(endpoints[i], choices, byName, byEmail);
        newCustomers := newCustomers + if createdCustomer then 1 else 0;
        newContacts := newContacts + if createdContact then 1 else 0;
        updatedContacts := updatedContacts + if createdContact then 0 else 1;
        newCases := newCases + createdCases;
      }
      assert endpoints[..|endpoints|] == endpoints;
    }

    method ImportOne(e: Endpoint, choices: Choices, byName: map<string, nat>, byEmail: map<string, seq<nat>>)
      returns (byName': map<string, nat>, byEmail': map<string, seq<nat>>, createdCustomer: bool,
        createdContact: bool, createdCases: nat)
      requires WellFormed(Contents()) && NamesIndexed(byName, customers) && AddressesIndexed(byEmail, contacts)
      modifies this
      ensures WellFormed(Contents()) && NamesIndexed(byName', customers) && AddressesIndexed(byEmail', contacts)
      ensures Contents() == Imported(old(Contents()), e, choices)
      ensures |customers| == |old(customers)| + (if createdCustomer then 1 else 0)
      ensures |contacts| == |old(contacts)| + (if createdContact then 1 else 0)
      ensures |cases| == |old(cases)| + createdCases
    {
      ImportedIsWellFormed(Contents(), e, choices);
      byName', byEmail', createdCustomer, createdContact := byName, byEmail, false, false;
      var company := Lookup(byName, e.companyKey);
      var at := ChooseContact(e, company, Listed(byEmail, e.address));
      hide Chosen, CompanyAt, MatchesOf, Updated, MergedMentions;
      var position: nat;
      if at == None {
        var owner: nat;
        if company == None {
          NamesAfterAppend(byName, customers, Customer(e.companyKey, choices.autoSend, false));
          owner := |customers|;
          customers := customers + [Customer(e.companyKey, choices.autoSend, false)];
          byName' := byName[e.companyKey := owner];
          createdCustomer := true;
        } else {
          owner := company.value;
          NamesAfterUpdate(byName, customers, owner, choices);
          customers := customers[owner := Allowed(customers[owner], choices)];
        }
        position := |contacts|;
        AddressesAfterAppend(byEmail, contacts, NewContact(owner, e));
        contacts := contacts + [NewContact(owner, e)];
        byEmail' := byEmail[e.address := Listed(byEmail, e.address) + [position]];
        createdContact := true;
      } else {
        position := at.value;
        var owner := contacts[position].customer;
        NamesAfterUpdate(byName, customers, owner, choices);
        customers := customers[owner := Allowed(customers[owner], choices)];
        AddressesAfterUpdate(byEmail, contacts, position, Updated(contacts[position], e, choices));
        contacts := contacts[position := Updated(contacts[position], e, choices)];
      }
      createdCases := AddCases(position, e, choices);
    }
  }

  lemma NamesAfterAppend(byName: map<string, nat>, customers: seq<Customer>, c: Customer)
    requires NamesIndexed(byName, customers)
    ensures NamesIndexed(byName[c.key := |customers|], customers + [c])
  {
    assert (customers + [c])[..|customers|] == customers;
  }

  lemma NamesAfterUpdate(byName: map<string, nat>, customers: seq<Customer>, i: nat, choices: Choices)
    requires NamesIndexed(byName, customers) && i < |customers|
    ensures NamesIndexed(byName, customers[i := Allowed(customers[i], choices)])
  {
    var next := customers[i := Allowed(customers[i], choices)];
    forall key ensures CompanyAt(next, key) == CompanyAt(customers, key) {
      CompanyAtSame(customers, next, key);
    }
  }

  lemma AddressesAfterAppend(byEmail: map<string, seq<nat>>, contacts: seq<Contact>, c: Contact)
    requires AddressesIndexed(byEmail, contacts)
    ensures AddressesIndexed(byEmail[c.address := Listed(byEmail, c.address) + [|contacts|]], contacts + [c])
  {
    assert (contacts + [c])[..|contacts|] == contacts;
  }

  lemma {:induction false} SameAddressesSameMatches(a: seq<Contact>, b: seq<Contact>, address: string)
    requires |a| == |b| && forall i :: 0 <= i < |a| ==> a[i].address == b[i].address
    ensures MatchesOf(a, address) == MatchesOf(b, address)
    decreases |a|
  {
    if a != [] {
      var x, y := a[..|a| - 1], b[..|b| - 1];
      assert forall i :: 0 <= i < |x| ==> x[i].address == y[i].address;
      SameAddressesSameMatches(x, y, address);
    }
  }

  lemma AddressesAfterUpdate(byEmail: map<string, seq<nat>>, contacts: seq<Contact>, i: nat, c: Contact)
    requires AddressesIndexed(byEmail, contacts) && i < |contacts| && c.address == contacts[i].address
    ensures AddressesIndexed(byEmail, contacts[i := c])
  {
    forall address ensures MatchesOf(contacts[i := c], address) == MatchesOf(contacts, address) {
      SameAddressesSameMatches(contacts[i := c], contacts, address);
    }
  }
}
