/** The hash of a directory snapshot: `snapshot_hash` of `src/core/acessorias_directory.py`. */
module SnapshotHash {
  import opened Common
  import opened Sorting
  import opened Directory

  // ---- The canonical form ---------------------------------------------------------------------------

  /** The same company, with its contacts and its departments in any order. */
  ghost predicate SameCompany(c: Company, d: Company) {
    && c.externalId == d.externalId && c.fields == d.fields && c.active == d.active
    && multiset(c.contacts) == multiset(d.contacts) && multiset(c.departments) == multiset(d.departments)
  }

  ghost predicate HasLike(cs: seq<Company>, c: Company) { exists d :: d in cs && SameCompany(c, d) }

  ghost predicate AllLike(a: seq<Company>, b: seq<Company>) { forall c :: c in a ==> HasLike(b, c) }

  /** The same snapshot, with everything in any order. */
  ghost predicate SameSnapshot(a: Snapshot, b: Snapshot) {
    && multiset(a.departments) == multiset(b.departments)
    && AllLike(a.companies, b.companies) && AllLike(b.companies, a.companies)
  }

  lemma SortedCompanyForgets(c: Company, d: Company)
    requires Distinct(ContactKeys(c.contacts))
    ensures SortedCompany(c) == SortedCompany(d) <==> SameCompany(c, d)
  {
    assert KeyTells(c.contacts, (k: Contact) => k.externalKey) by {
      forall x, y | x in c.contacts && y in c.contacts && x.externalKey == y.externalKey ensures x == y {
        var i :| 0 <= i < |c.contacts| && c.contacts[i] == x;
        var j :| 0 <= j < |c.contacts| && c.contacts[j] == y;
        assert ContactKeys(c.contacts)[i] == ContactKeys(c.contacts)[j];
      }
    }
    SortForgetsOrder(c.contacts, d.contacts, (k: Contact) => k.externalKey);
    SortForgetsOrder(c.departments, d.departments, (id: string) => id);
  }

  function CompanyId(c: Company): string { c.externalId }

  lemma CompaniesDiffer(cs: seq<Company>)
    requires Distinct(CompanyKeys(cs))
    ensures KeysDiffer(SortedCompanies(cs), CompanyId) && Ordered(SortedCompanies(cs), CompanyId)
  {
    var order, sorted := Sort(cs, (c: Company) => c.externalId), SortedCompanies(cs);
    SortOrdered(cs, (c: Company) => c.externalId);
    assert KeysDiffer(cs, (c: Company) => c.externalId) by {
      assert forall i :: 0 <= i < |cs| ==> CompanyKeys(cs)[i] == cs[i].externalId;
    }
    SortDiffers(cs, (c: Company) => c.externalId);
    forall i, j | 0 <= i < j < |sorted|
      ensures CompanyId(sorted[i]) != CompanyId(sorted[j]) && LessOrEqual(CompanyId(sorted[i]), CompanyId(sorted[j]))
    {
      assert sorted[i].externalId == order[i].externalId && sorted[j].externalId == order[j].externalId;
    }
  }

  lemma CompaniesForget(a: seq<Company>, b: seq<Company>)
    requires Distinct(CompanyKeys(a)) && Distinct(CompanyKeys(b))
    ensures SortedCompanies(a) == SortedCompanies(b) <==> forall x :: x in SortedCompanies(a) <==> x in SortedCompanies(b)
  {
    if forall x :: x in SortedCompanies(a) <==> x in SortedCompanies(b) {
      CompaniesDiffer(a);
      CompaniesDiffer(b);
      OrderedUniqueBySet(SortedCompanies(a), SortedCompanies(b), CompanyId);
    }
  }

  /** A company has its like in a list exactly when its sorted form is there. */
  lemma LikeCompany(c: Company, b: seq<Company>)
    requires Distinct(ContactKeys(c.contacts))
    ensures SortedCompany(c) in SortedCompanies(b) <==> HasLike(b, c)
  {
    hide SortedCompany, SortedCompanies;
    SortedCompaniesElements(b, SortedCompany(c));
    forall d | d in b ensures SortedCompany(c) == SortedCompany(d) <==> SameCompany(c, d) { SortedCompanyForgets(c, d); }
  }

  lemma AllLikeSorted(a: seq<Company>, b: seq<Company>)
    requires forall c :: c in a ==> Distinct(ContactKeys(c.contacts))
    ensures AllLike(a, b) <==> forall x :: x in SortedCompanies(a) ==> x in SortedCompanies(b)
  {
    hide SortedCompany, SortedCompanies, HasLike;
    forall c | c in a ensures HasLike(b, c) <==> SortedCompany(c) in SortedCompanies(b) { LikeCompany(c, b); }
    forall c | c in a ensures SortedCompany(c) in SortedCompanies(a) { SortedCompaniesElements(a, SortedCompany(c)); }
    if AllLike(a, b) {
      forall x | x in SortedCompanies(a) ensures x in SortedCompanies(b) {
        SortedCompaniesElements(a, x);
        var c :| c in a && x == SortedCompany(c);
      }
    }
  }

  /** The sorted snapshots of two valid ones are equal exactly when they say the same, whatever the order in
      which departments, companies, contacts and department ids came. */
  lemma CanonicalForm(a: Snapshot, b: Snapshot)
    requires Validate(a).None? && Validate(b).None?
    ensures Sorted(a) == Sorted(b) <==> SameSnapshot(a, b)
  {
    hide AllLike;
    assert KeyTells(a.departments, (d: Department) => d.externalId) by {
      forall x, y | x in a.departments && y in a.departments && x.externalId == y.externalId ensures x == y {
        var i :| 0 <= i < |a.departments| && a.departments[i] == x;
        var j :| 0 <= j < |a.departments| && a.departments[j] == y;
        assert DepartmentKeys(a.departments)[i] == DepartmentKeys(a.departments)[j];
      }
    }
    SortForgetsOrder(a.departments, b.departments, (d: Department) => d.externalId);
    CompaniesForget(a.companies, b.companies);
    AllLikeSorted(a.companies, b.companies);
    AllLikeSorted(b.companies, a.companies);
  }

  // ---- The form that is hashed ------------------------------------------------------------------------

  /** A contact as the provider sent it: the hash does not see the normalised fields. */
  function RawContact(k: Contact): Contact {
    k.(fields := k.fields.(normalizedMobile := None, normalizedEmail := None))
  }

  /** What the hash sees of a contact: its key, its name, and its mobile and email as they were sent. */
  lemma RawContactMeaning(a: Contact, b: Contact)
    ensures RawContact(a) == RawContact(b) <==>
            && a.externalKey == b.externalKey && a.fields.name == b.fields.name
            && a.fields.rawMobile == b.fields.rawMobile && a.fields.rawEmail == b.fields.rawEmail
  {
  }

  function RawCompany(c: Company): Company { c.(contacts := Mapped(RawContact, c.contacts)) }

  /** The snapshot without the normalised fields. */
  function Raw(s: Snapshot): Snapshot { s.(companies := Mapped(RawCompany, s.companies)) }

  function HashedCompany(c: Company): Company {
    c.(contacts := Mapped(RawContact, Sort(c.contacts, (k: Contact) => k.externalKey)),
       departments := Sort(c.departments, (id: string) => id))
  }

  /** `canonical` of `snapshot_hash`: everything sorted, and what is taken from each contact. */
  function HashedForm(s: Snapshot): Snapshot {
    Snapshot(Sort(s.departments, (d: Department) => d.externalId),
             Mapped(HashedCompany, Sort(s.companies, (c: Company) => c.externalId)))
  }

  lemma HashedIsSortedCompany(c: Company)
    ensures HashedCompany(c) == SortedCompany(RawCompany(c))
  {
    SortMaps(c.contacts, RawContact, (k: Contact) => k.externalKey);
  }

  lemma HashedIsSorted(s: Snapshot)
    ensures HashedForm(s) == Sorted(Raw(s))
  {
    hide HashedCompany, SortedCompany;
    var order := Sort(s.companies, (c: Company) => c.externalId);
    SortMaps(s.companies, RawCompany, (c: Company) => c.externalId);
    forall c ensures HashedCompany(c) == SortedCompany(RawCompany(c)) { HashedIsSortedCompany(c); }
    assert HashedForm(s).companies == SortedCompanies(Raw(s).companies);
  }

  /** No check looks at the normalised fields. */
  lemma RawIsValid(s: Snapshot)
    requires Validate(s).None?
    ensures Validate(Raw(s)).None?
  {
    var raw := Raw(s);
    assert CompanyKeys(raw.companies) == CompanyKeys(s.companies);
    assert ProviderKeys(raw.companies) == ProviderKeys(s.companies);
    forall c | c in raw.companies
      ensures Parented(c, DepartmentKeys(s.departments)) && Distinct(ContactKeys(c.contacts))
    {
      var i :| 0 <= i < |raw.companies| && raw.companies[i] == c;
      assert s.companies[i] in s.companies;
      assert ContactKeys(c.contacts) == ContactKeys(s.companies[i].contacts);
    }
  }

  /** `snapshot_hash`, with `digest` for SHA-256 of the JSON text. */
  function HashOf(digest: Snapshot -> string, s: Snapshot): string { digest(HashedForm(s)) }

  /** The digest does not collide on the two forms. */
  predicate Apart(digest: Snapshot -> string, a: Snapshot, b: Snapshot) {
    digest(HashedForm(a)) == digest(HashedForm(b)) ==> HashedForm(a) == HashedForm(b)
  }

  /** Two valid snapshots have the same hash exactly when the provider sent the same, in any order: neither
      an order nor a normalised field makes a difference, and everything else does. */
  lemma HashTellsExactly(digest: Snapshot -> string, a: Snapshot, b: Snapshot)
    requires Validate(a).None? && Validate(b).None? && Apart(digest, a, b)
    ensures HashOf(digest, a) == HashOf(digest, b) <==> SameSnapshot(Raw(a), Raw(b))
  {
    hide HashedForm, Raw, Sorted, SameSnapshot;
    HashedIsSorted(a);
    HashedIsSorted(b);
    RawIsValid(a);
    RawIsValid(b);
    CanonicalForm(Raw(a), Raw(b));
  }
}
