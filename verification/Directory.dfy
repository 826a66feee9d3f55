/** The Acessorias directory: complete provider snapshots (`src/core/acessorias_directory.py`) and the
    four tables they are published to. Contacts and relations are stored under surrogate company and
    department ids; what they say is read through the external ids. */
module Directory {
  import opened Common
  import opened Sorting
  import opened Tables

  datatype DepartmentFields = DepartmentFields(name: string, responsible: Option<string>, email: Option<string>)

  datatype CompanyFields = CompanyFields(
    providerId: string, legalName: string, tradeName: string, status: Option<string>, phone: Option<string>,
    uf: Option<string>, clientSince: Option<string>, clientUntil: Option<string>, registeredAt: Option<string>)

  datatype ContactFields = ContactFields(
    name: string, rawMobile: Option<string>, normalizedMobile: Option<string>,
    rawEmail: Option<string>, normalizedEmail: Option<string>)

  datatype Department = Department(externalId: string, fields: DepartmentFields)

  datatype Contact = Contact(externalKey: string, fields: ContactFields)

  datatype Company = Company(
    externalId: string, fields: CompanyFields, active: Option<bool>,
    contacts: seq<Contact>, departments: seq<string>)

  datatype Snapshot = Snapshot(departments: seq<Department>, companies: seq<Company>)

  // ---- Validation ------------------------------------------------------------------------------

  predicate Distinct(keys: seq<string>) {
    forall i, j :: 0 <= i < j < |keys| ==> keys[i] != keys[j]
  }

  function DepartmentKeys(ds: seq<Department>): seq<string> { seq(|ds|, i requires 0 <= i < |ds| => ds[i].externalId) }

  function CompanyKeys(cs: seq<Company>): seq<string> { seq(|cs|, i requires 0 <= i < |cs| => cs[i].externalId) }

  function ProviderKeys(cs: seq<Company>): seq<string> { seq(|cs|, i requires 0 <= i < |cs| => cs[i].fields.providerId) }

  function ContactKeys(ks: seq<Contact>): seq<string> { seq(|ks|, i requires 0 <= i < |ks| => ks[i].externalKey) }

  predicate Parented(c: Company, parents: seq<string>) {
    forall id :: id in c.departments ==> id in parents
  }

  /** The error category of the first bad company, if any. */
  function ValidateCompanies(cs: seq<Company>, parents: seq<string>): (error: Option<string>)
    ensures error.None? <==> forall c :: c in cs ==> Parented(c, parents) && Distinct(ContactKeys(c.contacts))
  {
    if cs == [] then None
    else if !Parented(cs[0], parents) then Some("invalid_parent")
    else if !Distinct(ContactKeys(cs[0].contacts)) then Some("invalid_payload")
    else ValidateCompanies(cs[1..], parents)
  }

  /** `_validate_snapshot`: the category it raises, or None. A company's department ids may repeat. */
  function Validate(s: Snapshot): Option<string> {
    if !Distinct(DepartmentKeys(s.departments)) then Some("invalid_payload")
    else if !Distinct(CompanyKeys(s.companies)) || !Distinct(ProviderKeys(s.companies)) then Some("invalid_payload")
    else ValidateCompanies(s.companies, DepartmentKeys(s.departments))
  }

  // ---- What a snapshot says, item by item --------------------------------------------------------

  function Live<V>(fields: V): Cell<V> { Cell(fields, true, Some(true)) }

  function DepartmentItem(d: Department): Item<string, DepartmentFields> { Item(d.externalId, Live(d.fields)) }

  function CompanyItem(c: Company): Item<string, CompanyFields> { Item(c.externalId, Cell(c.fields, true, c.active)) }

  function ContactItem(e: string, k: Contact): Item<(string, string), ContactFields> {
    Item((e, k.externalKey), Live(k.fields))
  }

  function RelationItem(e: string, id: string): Item<(string, string), ()> { Item((e, id), Live(())) }

  function DepartmentItems(ds: seq<Department>): seq<Item<string, DepartmentFields>> {
    seq(|ds|, i requires 0 <= i < |ds| => DepartmentItem(ds[i]))
  }

  function CompanyItems(cs: seq<Company>): seq<Item<string, CompanyFields>> {
    seq(|cs|, i requires 0 <= i < |cs| => CompanyItem(cs[i]))
  }

  function ContactsOf(e: string, ks: seq<Contact>): seq<Item<(string, string), ContactFields>> {
    seq(|ks|, i requires 0 <= i < |ks| => ContactItem(e, ks[i]))
  }

  function RelationsOf(e: string, ids: seq<string>): seq<Item<(string, string), ()>> {
    seq(|ids|, i requires 0 <= i < |ids| => RelationItem(e, ids[i]))
  }

  function ContactItems(cs: seq<Company>): seq<Item<(string, string), ContactFields>> {
    if cs == [] then []
    else ContactItems(cs[..|cs| - 1]) + ContactsOf(cs[|cs| - 1].externalId, cs[|cs| - 1].contacts)
  }

  function RelationItems(cs: seq<Company>): seq<Item<(string, string), ()>> {
    if cs == [] then []
    else RelationItems(cs[..|cs| - 1]) + RelationsOf(cs[|cs| - 1].externalId, cs[|cs| - 1].departments)
  }

  lemma {:induction false} ContactItemsMeaning(cs: seq<Company>, x: Item<(string, string), ContactFields>)
    ensures x in ContactItems(cs) <==> exists c, k :: c in cs && k in c.contacts && x == ContactItem(c.externalId, k)
  {
    if cs != [] {
      var rest, last := cs[..|cs| - 1], cs[|cs| - 1];
      assert cs == rest + [last];
      ContactItemsMeaning(rest, x);
      assert x in ContactsOf(last.externalId, last.contacts) <==>
        exists k :: k in last.contacts && x == ContactItem(last.externalId, k) by {
        if x in ContactsOf(last.externalId, last.contacts) {
          var i :| 0 <= i < |last.contacts| && x == ContactItem(last.externalId, last.contacts[i]);
        }
        if k :| k in last.contacts && x == ContactItem(last.externalId, k) {
          var i :| 0 <= i < |last.contacts| && k == last.contacts[i];
          assert ContactsOf(last.externalId, last.contacts)[i] == x;
        }
      }
    }
  }

  lemma {:induction false} RelationItemsMeaning(cs: seq<Company>, x: Item<(string, string), ()>)
    ensures x in RelationItems(cs) <==>
            exists c, id :: c in cs && id in c.departments && x == RelationItem(c.externalId, id)
  {
    if cs != [] {
      var rest, last := cs[..|cs| - 1], cs[|cs| - 1];
      assert cs == rest + [last];
      RelationItemsMeaning(rest, x);
      assert x in RelationsOf(last.externalId, last.departments) <==>
        exists id :: id in last.departments && x == RelationItem(last.externalId, id) by {
        if x in RelationsOf(last.externalId, last.departments) {
          var i :| 0 <= i < |last.departments| && x == RelationItem(last.externalId, last.departments[i]);
        }
        if id :| id in last.departments && x == RelationItem(last.externalId, id) {
          var i :| 0 <= i < |last.departments| && id == last.departments[i];
          assert RelationsOf(last.externalId, last.departments)[i] == x;
        }
      }
    }
  }

  /** The four sets of facts of a snapshot. */
  datatype Facts = Facts(
    departments: map<string, Cell<DepartmentFields>>,
    companies: map<string, Cell<CompanyFields>>,
    contacts: map<(string, string), Cell<ContactFields>>,
    relations: map<(string, string), Cell<()>>)

  function FactsOf(s: Snapshot): Facts {
    Facts(Overlay(DepartmentItems(s.departments)), Overlay(CompanyItems(s.companies)),
          Overlay(ContactItems(s.companies)), Overlay(RelationItems(s.companies)))
  }

  // ---- The order in which the manual reconciliation visits a snapshot ------------------------------

  function SortedCompany(c: Company): Company {
    c.(contacts := Sort(c.contacts, (k: Contact) => k.externalKey), departments := Sort(c.departments, (id: string) => id))
  }

  function SortedCompanies(cs: seq<Company>): seq<Company> {
    var order := Sort(cs, (c: Company) => c.externalId);
    seq(|order|, i requires 0 <= i < |order| => SortedCompany(order[i]))
  }

  function Sorted(s: Snapshot): Snapshot {
    Snapshot(Sort(s.departments, (d: Department) => d.externalId), SortedCompanies(s.companies))
  }

  lemma SortedCompaniesElements(cs: seq<Company>, d: Company)
    ensures d in SortedCompanies(cs) <==> exists c :: c in cs && d == SortedCompany(c)
  {
    hide Sort, SortedCompany;
    var order, sorted := Sort(cs, (c: Company) => c.externalId), SortedCompanies(cs);
    SameElements(order, cs);
    if d in sorted {
      var i :| 0 <= i < |sorted| && d == sorted[i];
      assert order[i] in cs && d == SortedCompany(order[i]);
    }
    if c :| c in cs && d == SortedCompany(c) {
      assert c in order;
      var i :| 0 <= i < |order| && c == order[i];
      assert sorted[i] == d;
    }
  }

  lemma SortedChildren(c: Company)
    ensures forall k :: k in SortedCompany(c).contacts <==> k in c.contacts
    ensures forall id :: id in SortedCompany(c).departments <==> id in c.departments
  {
    SameElements(SortedCompany(c).contacts, c.contacts);
    SameElements(SortedCompany(c).departments, c.departments);
  }

  lemma SameCompany(s: Snapshot, a: Company, b: Company)
    requires Validate(s).None? && a in s.companies && b in s.companies && a.externalId == b.externalId
    ensures a == b
  {
    var i :| 0 <= i < |s.companies| && s.companies[i] == a;
    var j :| 0 <= j < |s.companies| && s.companies[j] == b;
    assert CompanyKeys(s.companies)[i] == CompanyKeys(s.companies)[j];
  }

  lemma SameContact(s: Snapshot, c: Company, a: Contact, b: Contact)
    requires Validate(s).None? && c in s.companies && a in c.contacts && b in c.contacts && a.externalKey == b.externalKey
    ensures a == b
  {
    assert Distinct(ContactKeys(c.contacts));
    var i :| 0 <= i < |c.contacts| && c.contacts[i] == a;
    var j :| 0 <= j < |c.contacts| && c.contacts[j] == b;
    assert ContactKeys(c.contacts)[i] == ContactKeys(c.contacts)[j];
  }

  lemma ContactItemsConsistent(s: Snapshot)
    requires Validate(s).None?
    ensures Consistent(ContactItems(s.companies))
  {
    forall x, y | x in ContactItems(s.companies) && y in ContactItems(s.companies) && x.key == y.key
      ensures x.cell == y.cell
    {
      ContactItemsMeaning(s.companies, x);
      ContactItemsMeaning(s.companies, y);
      var c, k :| c in s.companies && k in c.contacts && x == ContactItem(c.externalId, k);
      var d, l :| d in s.companies && l in d.contacts && y == ContactItem(d.externalId, l);
      SameCompany(s, c, d);
      SameContact(s, c, k, l);
    }
  }

  lemma RelationItemsConsistent(cs: seq<Company>)
    ensures Consistent(RelationItems(cs))
  {
    forall x | x in RelationItems(cs) ensures x.cell == Live(()) { RelationItemsMeaning(cs, x); }
  }

  lemma ContactItemsSorted(cs: seq<Company>, x: Item<(string, string), ContactFields>)
    ensures x in ContactItems(SortedCompanies(cs)) <==> x in ContactItems(cs)
  {
    ContactItemsMeaning(cs, x);
    ContactItemsMeaning(SortedCompanies(cs), x);
    if c, k :| c in cs && k in c.contacts && x == ContactItem(c.externalId, k) {
      SortedChildren(c);
      SortedCompaniesElements(cs, SortedCompany(c));
      assert k in SortedCompany(c).contacts && x == ContactItem(SortedCompany(c).externalId, k);
    }
    if d, k :| d in SortedCompanies(cs) && k in d.contacts && x == ContactItem(d.externalId, k) {
      SortedCompaniesElements(cs, d);
      var c :| c in cs && d == SortedCompany(c);
      SortedChildren(c);
      assert k in c.contacts;
    }
  }

  lemma RelationItemsSorted(cs: seq<Company>, x: Item<(string, string), ()>)
    ensures x in RelationItems(SortedCompanies(cs)) <==> x in RelationItems(cs)
  {
    RelationItemsMeaning(cs, x);
    RelationItemsMeaning(SortedCompanies(cs), x);
    if c, id :| c in cs && id in c.departments && x == RelationItem(c.externalId, id) {
      SortedChildren(c);
      SortedCompaniesElements(cs, SortedCompany(c));
      assert id in SortedCompany(c).departments && x == RelationItem(SortedCompany(c).externalId, id);
    }
    if d, id :| d in SortedCompanies(cs) && id in d.departments && x == RelationItem(d.externalId, id) {
      SortedCompaniesElements(cs, d);
      var c :| c in cs && d == SortedCompany(c);
      SortedChildren(c);
      assert id in c.departments;
    }
  }

  lemma DepartmentItemsMeaning(ds: seq<Department>, x: Item<string, DepartmentFields>)
    ensures x in DepartmentItems(ds) <==> exists d :: d in ds && x == DepartmentItem(d)
  {
    if x in DepartmentItems(ds) {
      var i :| 0 <= i < |ds| && x == DepartmentItem(ds[i]);
      assert ds[i] in ds;
    }
    if d :| d in ds && x == DepartmentItem(d) {
      var i :| 0 <= i < |ds| && ds[i] == d;
      assert DepartmentItems(ds)[i] == x;
    }
  }

  lemma DepartmentItemsConsistent(ds: seq<Department>)
    requires Distinct(DepartmentKeys(ds))
    ensures Consistent(DepartmentItems(ds))
  {
    forall x, y | x in DepartmentItems(ds) && y in DepartmentItems(ds) && x.key == y.key ensures x.cell == y.cell {
      var i :| 0 <= i < |ds| && x == DepartmentItem(ds[i]);
      var j :| 0 <= j < |ds| && y == DepartmentItem(ds[j]);
      assert DepartmentKeys(ds)[i] == DepartmentKeys(ds)[j];
    }
  }

  lemma DepartmentItemsSorted(s: Snapshot)
    requires Validate(s).None?
    ensures Overlay(DepartmentItems(Sorted(s).departments)) == Overlay(DepartmentItems(s.departments))
  {
    var a, b := s.departments, Sorted(s).departments;
    SameElements(b, a);
    DepartmentItemsConsistent(a);
    forall x ensures x in DepartmentItems(a) <==> x in DepartmentItems(b) {
      DepartmentItemsMeaning(a, x);
      DepartmentItemsMeaning(b, x);
    }
    OverlayBySet(DepartmentItems(a), DepartmentItems(b));
  }

  lemma CompanyItemsMeaning(cs: seq<Company>, x: Item<string, CompanyFields>)
    ensures x in CompanyItems(cs) <==> exists c :: c in cs && x == CompanyItem(c)
  {
    if x in CompanyItems(cs) {
      var i :| 0 <= i < |cs| && x == CompanyItem(cs[i]);
      assert cs[i] in cs;
    }
    if c :| c in cs && x == CompanyItem(c) {
      var i :| 0 <= i < |cs| && cs[i] == c;
      assert CompanyItems(cs)[i] == x;
    }
  }

  lemma CompanyItemsConsistent(s: Snapshot)
    requires Validate(s).None?
    ensures Consistent(CompanyItems(s.companies))
  {
    forall x, y | x in CompanyItems(s.companies) && y in CompanyItems(s.companies) && x.key == y.key
      ensures x.cell == y.cell
    {
      CompanyItemsMeaning(s.companies, x);
      CompanyItemsMeaning(s.companies, y);
      var c :| c in s.companies && x == CompanyItem(c);
      var d :| d in s.companies && y == CompanyItem(d);
      SameCompany(s, c, d);
    }
  }

  lemma CompanyItemsSorted(cs: seq<Company>, x: Item<string, CompanyFields>)
    ensures x in CompanyItems(SortedCompanies(cs)) <==> x in CompanyItems(cs)
  {
    CompanyItemsMeaning(cs, x);
    CompanyItemsMeaning(SortedCompanies(cs), x);
    if c :| c in cs && x == CompanyItem(c) {
      SortedCompaniesElements(cs, SortedCompany(c));
      assert x == CompanyItem(SortedCompany(c));
    }
    if d :| d in SortedCompanies(cs) && x == CompanyItem(d) {
      SortedCompaniesElements(cs, d);
      var c :| c in cs && d == SortedCompany(c);
      assert x == CompanyItem(c);
    }
  }

  /** Visiting a valid snapshot in sorted order says the same. */
  lemma SortingKeepsFacts(s: Snapshot)
    requires Validate(s).None?
    ensures FactsOf(Sorted(s)) == FactsOf(s)
  {
    DepartmentItemsSorted(s);
    CompanyItemsConsistent(s);
    ContactItemsConsistent(s);
    RelationItemsConsistent(s.companies);
    forall x ensures x in CompanyItems(s.companies) <==> x in CompanyItems(Sorted(s).companies) {
      CompanyItemsSorted(s.companies, x);
    }
    OverlayBySet(CompanyItems(s.companies), CompanyItems(Sorted(s).companies));
    forall x ensures x in ContactItems(s.companies) <==> x in ContactItems(Sorted(s).companies) {
      ContactItemsSorted(s.companies, x);
    }
    forall x ensures x in RelationItems(s.companies) <==> x in RelationItems(Sorted(s).companies) {
      RelationItemsSorted(s.companies, x);
    }
    OverlayBySet(ContactItems(s.companies), ContactItems(Sorted(s).companies));
    OverlayBySet(RelationItems(s.companies), RelationItems(Sorted(s).companies));
  }
}
